/** The notices asset: records of three fields (client/build_notices.rs, lines 6-10) and its parser
    (client/src/about.rs, `parse`). */
module NoticesFormat {
  import opened Wrappers

  const RECORD := '\U{1e}'
  const FIELD := '\U{1f}'

  datatype Notice = Notice(names: string, license: string, text: string)

  function IndexOf(s: string, c: char): (i: nat)
    requires c in s
    ensures i < |s| && s[i] == c && forall k :: 0 <= k < i ==> s[k] != c
  {
    if s[0] == c then 0 else IndexOf(s[1..], c) + 1
  }

  /** The parts between the separators; a string without one is its own only part. */
  function Split(s: string, c: char): (parts: seq<string>)
    ensures |parts| >= 1
  {
    if c in s then var i := IndexOf(s, c); [s[..i]] + Split(s[i + 1..], c) else [s]
  }

  function Join(parts: seq<string>, sep: string): string {
    if parts == [] then "" else if |parts| == 1 then parts[0] else parts[0] + sep + Join(parts[1..], sep)
  }

  /** The three fields; the third may hold further separators. */
  function Fields(record: string): Option<Notice> {
    if FIELD !in record then None
    else
      var i := IndexOf(record, FIELD);
      var rest := record[i + 1..];
      if FIELD !in rest then None
      else var j := IndexOf(rest, FIELD); Some(Notice(record[..i], rest[..j], rest[j + 1..]))
  }

  function Kept(records: seq<string>): seq<Notice> {
    if records == [] then []
    else (if Fields(records[0]).Some? then [Fields(records[0]).value] else []) + Kept(records[1..])
  }

  /** `parse`: records with a missing field are skipped. */
  function Parse(asset: string): seq<Notice> { Kept(Split(asset, RECORD)) }

  function Written(n: Notice): string { n.names + [FIELD] + n.license + [FIELD] + n.text }

  function WrittenAll(ns: seq<Notice>): (rs: seq<string>)
    ensures |rs| == |ns|
  {
    seq(|ns|, i requires 0 <= i < |ns| => Written(ns[i]))
  }

  function Asset(ns: seq<Notice>): string { Join(WrittenAll(ns), [RECORD]) }

  predicate Clean(n: Notice) {
    && RECORD !in n.names && RECORD !in n.license && RECORD !in n.text
    && FIELD !in n.names && FIELD !in n.license
  }

  predicate AllClean(ns: seq<Notice>) { forall i :: 0 <= i < |ns| ==> Clean(ns[i]) }

  lemma FirstPart(a: string, c: char, b: string)
    requires c !in a
    ensures c in a + [c] + b
    ensures var s := a + [c] + b; var i := IndexOf(s, c); i == |a| && s[..i] == a && s[i + 1..] == b
  {
    var s := a + [c] + b;
    var i := IndexOf(s, c);
    assert s[|a|] == c && forall k :: 0 <= k < |a| ==> s[k] == a[k];
  }

  lemma SplitFirst(s: string, c: char, a: string, rest: string)
    requires c in s && s[..IndexOf(s, c)] == a && s[IndexOf(s, c) + 1..] == rest
    ensures Split(s, c) == [a] + Split(rest, c)
  {
  }

  lemma SplitAfterFirst(a: string, c: char, rest: string)
    requires c !in a
    ensures Split(a + [c] + rest, c) == [a] + Split(rest, c)
  {
    FirstPart(a, c, rest);
    SplitFirst(a + [c] + rest, c, a, rest);
  }

  lemma {:induction false} SplitJoin(parts: seq<string>, c: char)
    requires parts != [] && forall i :: 0 <= i < |parts| ==> c !in parts[i]
    ensures Split(Join(parts, [c]), c) == parts
  {
    if |parts| > 1 {
      SplitJoin(parts[1..], c);
      SplitAfterFirst(parts[0], c, Join(parts[1..], [c]));
    }
  }

  lemma {:induction false} PartsAreFree(s: string, c: char)
    ensures forall i :: 0 <= i < |Split(s, c)| ==> c !in Split(s, c)[i]
    decreases |s|
  {
    if c in s {
      var i := IndexOf(s, c);
      PartsAreFree(s[i + 1..], c);
    }
  }

  lemma FieldsFrom(record: string, n: Notice, rest: string)
    requires FIELD in record && FIELD in rest
    requires var i := IndexOf(record, FIELD); record[..i] == n.names && record[i + 1..] == rest
    requires var j := IndexOf(rest, FIELD); rest[..j] == n.license && rest[j + 1..] == n.text
    ensures Fields(record) == Some(n)
  {
  }

  lemma FieldsOfWritten(n: Notice)
    requires FIELD !in n.names && FIELD !in n.license
    ensures Fields(Written(n)) == Some(n)
  {
    var rest := n.license + [FIELD] + n.text;
    assert Written(n) == n.names + [FIELD] + rest;
    FirstPart(n.names, FIELD, rest);
    FirstPart(n.license, FIELD, n.text);
    FieldsFrom(n.names + [FIELD] + rest, n, rest);
  }

  lemma {:induction false} KeptAll(records: seq<string>, ns: seq<Notice>)
    requires |records| == |ns| && forall i :: 0 <= i < |ns| ==> Fields(records[i]) == Some(ns[i])
    ensures Kept(records) == ns
  {
    if ns != [] {
      KeptAll(records[1..], ns[1..]);
      assert ns == [ns[0]] + ns[1..];
    }
  }

  lemma {:induction false} KeptAreClean(records: seq<string>)
    requires forall i :: 0 <= i < |records| ==> RECORD !in records[i]
    ensures AllClean(Kept(records))
  {
    if records != [] {
      KeptAreClean(records[1..]);
    }
  }

  lemma NoRecordWritten(n: Notice)
    requires Clean(n)
    ensures RECORD !in Written(n)
  {
  }

  lemma NothingWritten()
    ensures Parse("") == []
  {
    var none: seq<string> := [""];
    assert Split("", RECORD) == none && none[1..] == [];
    assert Kept(none) == [];
  }

  lemma ParsedAreClean(asset: string)
    ensures AllClean(Parse(asset))
  {
    PartsAreFree(asset, RECORD);
    KeptAreClean(Split(asset, RECORD));
  }

  lemma CleanRoundTrip(ns: seq<Notice>)
    requires AllClean(ns)
    ensures Parse(Asset(ns)) == ns
  {
    if ns == [] {
      NothingWritten();
    } else {
      forall i | 0 <= i < |ns| ensures RECORD !in WrittenAll(ns)[i] { NoRecordWritten(ns[i]); }
      SplitJoin(WrittenAll(ns), RECORD);
      forall i | 0 <= i < |ns| ensures Fields(WrittenAll(ns)[i]) == Some(ns[i]) { FieldsOfWritten(ns[i]); }
      KeptAll(WrittenAll(ns), ns);
    }
  }

  /** The parser gives back exactly the written records, in order, exactly when no field holds a
      record separator and no name or licence holds a field separator. The text may hold field
      separators, and an empty list is an empty asset. */
  lemma NoticesRoundTrip(ns: seq<Notice>)
    ensures Parse(Asset(ns)) == ns <==> AllClean(ns)
  {
    if Parse(Asset(ns)) == ns { ParsedAreClean(Asset(ns)); }
    if AllClean(ns) { CleanRoundTrip(ns); }
  }

  // ----- what the parser reads, whatever it is given -----

  lemma FirstIs(s: string, c: char, i: nat)
    requires i < |s| && s[i] == c && c !in s[..i]
    ensures c in s && IndexOf(s, c) == i
  {
    assert forall k :: 0 <= k < i ==> s[k] == s[..i][k];
  }

  /** The first separator of `a` is the first one still when there is more after `a`. */
  lemma CutFirst(a: string, c: char, more: string)
    requires c in a
    ensures var i := IndexOf(a, c);
            c in a + more && Split(a + more, c) == [a[..i]] + Split(a[i + 1..] + more, c)
  {
    var i := IndexOf(a, c);
    var s := a + more;
    assert s[..i] == a[..i] && s[i + 1..] == a[i + 1..] + more;
    FirstIs(s, c, i);
    SplitFirst(s, c, a[..i], a[i + 1..] + more);
  }

  lemma CutAlone(a: string, c: char)
    requires c in a
    ensures var i := IndexOf(a, c); Split(a, c) == [a[..i]] + Split(a[i + 1..], c)
  {
  }

  lemma NoCut(a: string, c: char, b: string)
    requires c !in a
    ensures Split(a + ([c] + b), c) == [a] + Split(b, c) && Split(a, c) == [a]
  {
    SplitAfterFirst(a, c, b);
    assert a + [c] + b == a + ([c] + b);
  }

  lemma Prepend<T>(x: T, xs: seq<T>, ys: seq<T>, front: seq<T>, all: seq<T>)
    requires front == [x] + xs && all == [x] + (xs + ys)
    ensures all == front + ys
  {
  }

  ghost predicate SplitsApart(a: string, c: char, b: string) {
    Split(a + ([c] + b), c) == Split(a, c) + Split(b, c)
  }

  lemma SplitsStep(a: string, c: char, b: string, x: string, rest: string)
    requires Split(a, c) == [x] + Split(rest, c) && Split(a + ([c] + b), c) == [x] + Split(rest + ([c] + b), c)
    requires SplitsApart(rest, c, b)
    ensures SplitsApart(a, c, b)
  {
    Prepend(x, Split(rest, c), Split(b, c), Split(a, c), Split(a + ([c] + b), c));
  }

  lemma {:induction false} SplitConcat(a: string, c: char, b: string)
    ensures SplitsApart(a, c, b)
    decreases |a|
  {
    if c in a {
      var rest := a[IndexOf(a, c) + 1..];
      CutFirst(a, c, [c] + b);
      CutAlone(a, c);
      SplitConcat(rest, c, b);
      SplitsStep(a, c, b, a[..IndexOf(a, c)], rest);
    } else {
      NoCut(a, c, b);
    }
  }

  function KeptOf(record: string): seq<Notice> {
    if Fields(record).Some? then [Fields(record).value] else []
  }

  lemma {:induction false} KeptConcat(a: seq<string>, b: seq<string>)
    ensures Kept(a + b) == Kept(a) + Kept(b)
  {
    if a == [] {
      assert a + b == b;
    } else {
      assert (a + b)[0] == a[0] && (a + b)[1..] == a[1..] + b;
      KeptConcat(a[1..], b);
      assert Kept(a + b) == KeptOf(a[0]) + (Kept(a[1..]) + Kept(b));
      assert Kept(a) == KeptOf(a[0]) + Kept(a[1..]);
    }
  }

  /** Records are read one by one: what stands before a separator and what stands after it do not
      matter to each other. */
  lemma ParseConcat(a: string, b: string)
    ensures Parse(a + "\U{1e}" + b) == Parse(a) + Parse(b)
  {
    assert a + "\U{1e}" + b == a + ([RECORD] + b);
    SplitConcat(a, RECORD, b);
    KeptConcat(Split(a, RECORD), Split(b, RECORD));
  }

  lemma ParseOne(record: string)
    requires '\U{1e}' !in record
    ensures Parse(record) == KeptOf(record)
  {
    assert Split(record, RECORD) == [record];
    assert [record][1..] == [] && Kept([]) == [];
    assert Kept([record]) == KeptOf(record) + Kept([record][1..]);
  }

  /** A record of three fields is a notice; the third field may hold separators. */
  lemma ParseFull(names: string, license: string, text: string)
    requires '\U{1f}' !in names && '\U{1f}' !in license
    requires '\U{1e}' !in names && '\U{1e}' !in license && '\U{1e}' !in text
    ensures Parse(names + "\U{1f}" + license + "\U{1f}" + text) == [Notice(names, license, text)]
  {
    var n := Notice(names, license, text);
    FieldsOfWritten(n);
    NoRecordWritten(n);
    ParseOne(Written(n));
  }

  /** A record with less than two separators is skipped. */
  lemma ParseShort(names: string, license: string)
    requires '\U{1f}' !in names && '\U{1f}' !in license && '\U{1e}' !in names && '\U{1e}' !in license
    ensures Parse(names) == [] && Parse(names + "\U{1f}" + license) == []
  {
    ParseOne(names);
    ParseOne(names + "\U{1f}" + license);
    FirstPart(names, FIELD, license);
  }

  /** And that is how the writer puts them: fields between field separators, records between record
      separators. */
  lemma WrittenIs(n: Notice, more: seq<Notice>)
    ensures Written(n) == n.names + "\U{1f}" + n.license + "\U{1f}" + n.text
    ensures Asset([n]) == Written(n)
    ensures more != [] ==> Asset([n] + more) == Written(n) + "\U{1e}" + Asset(more)
  {
    assert WrittenAll([n]) == [Written(n)];
    if more != [] {
      var rs := WrittenAll([n] + more);
      assert rs[0] == Written(n) && rs[1..] == WrittenAll(more) && |rs| > 1;
    }
  }
}
