/** The writer of the third-party notices (client/build_notices.rs, `generate`). `lower` stands for
    `str::to_lowercase`. */
module Notices {
  import opened Collections
  import opened NoticesFormat
  import opened Sorting
  import opened Text

  datatype Dep = Dep(name: string, version: string, license: string, text: string)

  predicate DepLe(a: Dep, b: Dep) {
    Less(a.name, b.name) || (a.name == b.name && AtMost(a.version, b.version))
  }

  lemma DepOrder()
    ensures TotalOrder(DepLe)
  {
    forall x, y ensures DepLe(x, y) || DepLe(y, x) {
      AtMostIsOrder(x.name, y.name, x.name);
      AtMostIsOrder(x.version, y.version, x.version);
    }
    forall x, y, z | DepLe(x, y) && DepLe(y, z) ensures DepLe(x, z) {
      AtMostIsOrder(x.version, y.version, z.version);
      if Less(x.name, y.name) && Less(y.name, z.name) { LessTransitive(x.name, y.name, z.name); }
    }
  }

  function Line(d: Dep): string { d.name + " " + d.version }

  function Lines(ms: seq<Dep>): (ls: seq<string>)
    ensures |ls| == |ms|
  {
    seq(|ms|, i requires 0 <= i < |ms| => Line(ms[i]))
  }

  /** The licences of a list, each once, in the order of their first use. */
  function Licenses(ms: seq<Dep>): (ls: seq<string>)
    ensures forall l :: l in ls <==> exists m :: m in ms && m.license == l
    ensures forall i, j :: 0 <= i < j < |ls| ==> ls[i] != ls[j]
  {
    if ms == [] then []
    else
      var last := ms[|ms| - 1];
      var before := Licenses(ms[..|ms| - 1]);
      assert ms == ms[..|ms| - 1] + [last];
      if last.license in before then before else before + [last.license]
  }

  // ----- one group -----

  datatype Entry = Entry(key: string, notice: Notice, text: string)

  function EntryOf(text: string, ms: seq<Dep>, lower: string -> string): Entry
    requires ms != []
  {
    Entry(lower(ms[0].name), Notice(Join(Lines(ms), "\n"), Join(Licenses(ms), "; "), Trim(text)), text)
  }

  lemma {:induction false} JoinSnoc(parts: seq<string>, x: string, sep: string)
    ensures Join(parts + [x], sep) == if parts == [] then x else Join(parts, sep) + sep + x
  {
    if |parts| > 0 {
      assert (parts + [x])[1..] == parts[1..] + [x];
      JoinSnoc(parts[1..], x, sep);
    }
  }

  /** One round of the loop over a group's members. */
  lemma MemberStep(ms: seq<Dep>, i: nat)
    requires i < |ms|
    ensures Join(Lines(ms[..i + 1]), "\n") == (if i == 0 then "" else Join(Lines(ms[..i]), "\n") + "\n") + Line(ms[i])
    ensures Join(Lines(ms[..i + 1]), "\n") != ""
    ensures Licenses(ms[..i + 1])
            == Licenses(ms[..i]) + if ms[i].license in Licenses(ms[..i]) then [] else [ms[i].license]
  {
    assert Lines(ms[..i + 1]) == Lines(ms[..i]) + [Line(ms[i])];
    JoinSnoc(Lines(ms[..i]), Line(ms[i]), "\n");
    assert ms[..i + 1][..i] == ms[..i];
  }

  method Render(text: string, ms: seq<Dep>, lower: string -> string) returns (e: Entry)
    requires ms != []
    ensures e == EntryOf(text, ms, lower)
  {
    var names := "";
    var licenses: seq<string> := [];
    for i := 0 to |ms|
      invariant names == Join(Lines(ms[..i]), "\n") && (names == "" <==> i == 0)
      invariant licenses == Licenses(ms[..i])
    {
      MemberStep(ms, i);
      if names != "" { names := names + "\n"; }
      names := names + (ms[i].name + " " + ms[i].version);
      if ms[i].license !in licenses { licenses := licenses + [ms[i].license]; }
    }
    assert ms[..|ms|] == ms;
    e := Entry(lower(ms[0].name), Notice(names, Join(licenses, "; "), Trim(text)), text);
  }

  // ----- the groups -----

  function WithText(deps: seq<Dep>, text: string): (ms: seq<Dep>)
    ensures forall i :: 0 <= i < |ms| ==> ms[i] in deps && ms[i].text == text
    ensures multiset(ms) <= multiset(deps)
  {
    if deps == [] then []
    else
      var last := deps[|deps| - 1];
      assert deps == deps[..|deps| - 1] + [last];
      WithText(deps[..|deps| - 1], text) + if last.text == text then [last] else []
  }

  lemma {:induction false} WithTextCounts(deps: seq<Dep>, d: Dep)
    ensures multiset(WithText(deps, d.text))[d] == multiset(deps)[d]
  {
    if deps != [] {
      assert deps == deps[..|deps| - 1] + [deps[|deps| - 1]];
      WithTextCounts(deps[..|deps| - 1], d);
    }
  }

  /** Every dependency with the text is in its group, after those before it. */
  lemma {:induction false} WithTextAt(deps: seq<Dep>, i: nat)
    requires i < |deps|
    ensures var text := deps[i].text; var at := |WithText(deps[..i], text)|;
            at < |WithText(deps, text)| && WithText(deps, text)[at] == deps[i]
  {
    if i < |deps| - 1 {
      var before := deps[..|deps| - 1];
      WithTextAt(before, i);
      assert before[..i] == deps[..i];
    }
  }

  function Texts(deps: seq<Dep>): set<string> { set d | d in deps :: d.text }

  /** A group's members, sorted by name and version. */
  function Group(deps: seq<Dep>, text: string): seq<Dep> { SortBy(WithText(deps, text), DepLe) }

  lemma GroupIsSorted(deps: seq<Dep>, text: string)
    ensures SortedBy(Group(deps, text), DepLe) && multiset(Group(deps, text)) == multiset(WithText(deps, text))
    ensures text in Texts(deps) ==> Group(deps, text) != []
  {
    DepOrder();
    SortIsSorted(WithText(deps, text), DepLe);
    if text in Texts(deps) {
      var d :| d in deps && d.text == text;
      WithTextCounts(deps, d);
      assert d in multiset(deps) && d in multiset(Group(deps, text));
    }
  }

  function EntryFor(deps: seq<Dep>, text: string, lower: string -> string): (e: Entry)
    requires text in Texts(deps)
    ensures e.text == text
  {
    GroupIsSorted(deps, text);
    EntryOf(text, Group(deps, text), lower)
  }

  ghost predicate Grouped(groups: map<string, seq<Dep>>, deps: seq<Dep>) {
    groups.Keys == Texts(deps) && forall text :: text in groups ==> groups[text] == WithText(deps, text)
  }

  /** `entry(text).or_default().push(d)`. */
  function WithDep(groups: map<string, seq<Dep>>, d: Dep): map<string, seq<Dep>> {
    groups[d.text := (if d.text in groups then groups[d.text] else []) + [d]]
  }

  lemma WithTextSnoc(deps: seq<Dep>, d: Dep, text: string)
    ensures WithText(deps + [d], text) == WithText(deps, text) + if d.text == text then [d] else []
  {
    assert (deps + [d])[..|deps|] == deps;
  }

  lemma TextsSnoc(deps: seq<Dep>, d: Dep)
    ensures Texts(deps + [d]) == Texts(deps) + {d.text}
  {
  }

  lemma {:induction false} NoneWithText(deps: seq<Dep>, text: string)
    ensures text !in Texts(deps) ==> WithText(deps, text) == []
  {
    if deps != [] {
      var rest, last := deps[..|deps| - 1], deps[|deps| - 1];
      assert last in deps && forall d :: d in rest ==> d in deps;
      NoneWithText(rest, text);
    }
  }

  lemma GroupedStep(groups: map<string, seq<Dep>>, deps: seq<Dep>, d: Dep)
    requires Grouped(groups, deps)
    ensures Grouped(WithDep(groups, d), deps + [d])
  {
    var all, after := deps + [d], WithDep(groups, d);
    NoneWithText(deps, d.text);
    forall text ensures WithText(all, text) == WithText(deps, text) + if d.text == text then [d] else [] {
      WithTextSnoc(deps, d, text);
    }
    TextsSnoc(deps, d);
  }

  lemma GroupedNext(groups: map<string, seq<Dep>>, deps: seq<Dep>, i: nat)
    requires i < |deps| && Grouped(groups, deps[..i])
    ensures Grouped(WithDep(groups, deps[i]), deps[..i + 1])
  {
    assert deps[..i + 1] == deps[..i] + [deps[i]];
    GroupedStep(groups, deps[..i], deps[i]);
  }

  method GroupByText(deps: seq<Dep>) returns (groups: map<string, seq<Dep>>)
    ensures Grouped(groups, deps)
  {
    groups := map[];
    for i := 0 to |deps|
      invariant Grouped(groups, deps[..i])
    {
      GroupedNext(groups, deps, i);
      groups := WithDep(groups, deps[i]);
    }
    assert deps[..|deps|] == deps;
  }

  // ----- all groups -----

  predicate EntryLe(a: Entry, b: Entry) {
    Less(a.key, b.key) || (a.key == b.key && AtMost(Written(a.notice), Written(b.notice)))
  }

  lemma EntryOrder()
    ensures TotalOrder(EntryLe)
  {
    forall x, y ensures EntryLe(x, y) || EntryLe(y, x) {
      AtMostIsOrder(x.key, y.key, x.key);
      AtMostIsOrder(Written(x.notice), Written(y.notice), Written(x.notice));
    }
    forall x, y, z | EntryLe(x, y) && EntryLe(y, z) ensures EntryLe(x, z) {
      AtMostIsOrder(Written(x.notice), Written(y.notice), Written(z.notice));
      if Less(x.key, y.key) && Less(y.key, z.key) { LessTransitive(x.key, y.key, z.key); }
    }
  }

  function Entries(deps: seq<Dep>, texts: set<string>, lower: string -> string): set<Entry>
    requires texts <= Texts(deps)
  {
    set text | text in texts :: EntryFor(deps, text, lower)
  }

  function NoticesOf(es: seq<Entry>): (ns: seq<Notice>)
    ensures |ns| == |es|
  {
    seq(|es|, i requires 0 <= i < |es| => es[i].notice)
  }

  /** The entries in the file: one for each text, in the order of first name and record. */
  ghost predicate Arranged(es: seq<Entry>, deps: seq<Dep>, lower: string -> string) {
    multiset(es) == multiset(Entries(deps, Texts(deps), lower)) && SortedBy(es, EntryLe)
  }

  lemma EntryIn(deps: seq<Dep>, texts: set<string>, lower: string -> string, x: Entry)
    requires texts <= Texts(deps)
    ensures x in Entries(deps, texts, lower) <==> x.text in texts && x == EntryFor(deps, x.text, lower)
  {
  }

  lemma EntriesGrow(deps: seq<Dep>, done: set<string>, text: string, lower: string -> string)
    requires done <= Texts(deps) && text in Texts(deps) && text !in done
    ensures Entries(deps, done + {text}, lower) == Entries(deps, done, lower) + {EntryFor(deps, text, lower)}
    ensures EntryFor(deps, text, lower) !in Entries(deps, done, lower)
  {
    var e, before, after := EntryFor(deps, text, lower), Entries(deps, done, lower), Entries(deps, done + {text}, lower);
    forall x ensures x in after <==> x in before + {e} {
      EntryIn(deps, done, lower, x);
      EntryIn(deps, done + {text}, lower, x);
    }
    EntryIn(deps, done, lower, e);
  }

  lemma OneMore(deps: seq<Dep>, todo: set<string>, text: string, lower: string -> string)
    requires text in todo && todo <= Texts(deps)
    ensures multiset(Entries(deps, Texts(deps) - (todo - {text}), lower))
            == multiset(Entries(deps, Texts(deps) - todo, lower)) + multiset{EntryFor(deps, text, lower)}
  {
    var done, e := Texts(deps) - todo, EntryFor(deps, text, lower);
    assert Texts(deps) - (todo - {text}) == done + {text};
    EntriesGrow(deps, done, text, lower);
    AddFresh(Entries(deps, done, lower), e);
  }

  /** Every text but those of `todo` has its entry. */
  ghost predicate RenderedBut(es: seq<Entry>, deps: seq<Dep>, todo: set<string>, lower: string -> string) {
    && todo <= Texts(deps) && |es| + |todo| == |Texts(deps)|
    && multiset(es) == multiset(Entries(deps, Texts(deps) - todo, lower))
  }

  lemma NoneDone(deps: seq<Dep>, lower: string -> string)
    ensures RenderedBut([], deps, Texts(deps), lower)
  {
    assert Texts(deps) - Texts(deps) == {};
    assert Entries(deps, {}, lower) == {};
  }

  lemma RenderedStep(es: seq<Entry>, deps: seq<Dep>, todo: set<string>, text: string, lower: string -> string)
    requires RenderedBut(es, deps, todo, lower) && text in todo
    requires multiset(Entries(deps, Texts(deps) - (todo - {text}), lower))
             == multiset(Entries(deps, Texts(deps) - todo, lower)) + multiset{EntryFor(deps, text, lower)}
    ensures RenderedBut(es + [EntryFor(deps, text, lower)], deps, todo - {text}, lower)
  {
  }

  method RenderGroup(groups: map<string, seq<Dep>>, text: string, ghost deps: seq<Dep>, lower: string -> string)
    returns (e: Entry)
    requires Grouped(groups, deps) && text in groups
    ensures text in Texts(deps) && e == EntryFor(deps, text, lower)
  {
    GroupIsSorted(deps, text);
    e := Render(text, SortBy(groups[text], DepLe), lower);
  }

  method RenderAll(groups: map<string, seq<Dep>>, ghost deps: seq<Dep>, lower: string -> string)
    returns (es: seq<Entry>)
    requires Grouped(groups, deps)
    ensures multiset(es) == multiset(Entries(deps, Texts(deps), lower)) && |es| == |Texts(deps)|
  {
    var todo := groups.Keys;
    es := [];
    NoneDone(deps, lower);
    while todo != {}
      invariant RenderedBut(es, deps, todo, lower)
      decreases |todo|
    {
      var text :| text in todo;
      var e := RenderGroup(groups, text, deps, lower);
      OneMore(deps, todo, text, lower);
      RenderedStep(es, deps, todo, text, lower);
      es := es + [e];
      todo := todo - {text};
    }
    assert Texts(deps) - todo == Texts(deps);
  }

  method Generate(deps: seq<Dep>, lower: string -> string) returns (asset: string, count: nat)
    ensures count == |Texts(deps)|
    ensures exists es :: Arranged(es, deps, lower) && |es| == count && asset == Asset(NoticesOf(es))
  {
    var groups := GroupByText(deps);
    var es := RenderAll(groups, deps, lower);
    EntryOrder();
    SortIsSorted(es, EntryLe);
    ghost var sorted := SortBy(es, EntryLe);
    es := SortBy(es, EntryLe);
    count := |es|;
    assert |multiset(sorted)| == |sorted|;
    asset := Join(WrittenAll(NoticesOf(es)), [RECORD]);
    assert asset == Asset(NoticesOf(sorted));
  }

  // ----- what the file says -----

  lemma EntryListed(es: seq<Entry>, deps: seq<Dep>, lower: string -> string, i: nat)
    requires Arranged(es, deps, lower) && i < |es|
    ensures es[i].text in Texts(deps) && es[i] == EntryFor(deps, es[i].text, lower)
  {
    assert es[i] in multiset(es);
  }

  lemma NotInGroup(deps: seq<Dep>, text: string, d: Dep)
    requires d.text != text
    ensures d !in Group(deps, text)
  {
    GroupIsSorted(deps, text);
    assert d !in multiset(WithText(deps, text));
    assert multiset(Group(deps, text))[d] == 0;
  }

  /** No two records are for the same text, so two dependencies share a record exactly when their
      texts are identical. */
  lemma TextsApart(es: seq<Entry>, deps: seq<Dep>, lower: string -> string, i: nat, j: nat)
    requires Arranged(es, deps, lower) && i < |es| && j < |es| && i != j
    ensures es[i].text != es[j].text
  {
    EntryListed(es, deps, lower, i);
    EntryListed(es, deps, lower, j);
    RepeatCounts(es, if i < j then i else j, if i < j then j else i);
  }

  /** Every dependency is in exactly one record, that of its text, as often as it was given. */
  lemma EachDepInOneRecord(es: seq<Entry>, deps: seq<Dep>, lower: string -> string, d: Dep) returns (i: nat)
    requires Arranged(es, deps, lower) && d in deps
    ensures i < |es| && es[i].text == d.text
    ensures multiset(Group(deps, es[i].text))[d] == multiset(deps)[d]
    ensures forall j :: 0 <= j < |es| && j != i ==> d !in Group(deps, es[j].text)
  {
    var e := EntryFor(deps, d.text, lower);
    assert e in multiset(es);
    i :| 0 <= i < |es| && es[i] == e;
    GroupIsSorted(deps, d.text);
    WithTextCounts(deps, d);
    forall j | 0 <= j < |es| && j != i ensures d !in Group(deps, es[j].text) {
      TextsApart(es, deps, lower, i, j);
      NotInGroup(deps, es[j].text, d);
    }
  }

  /** The names of a record, line by line, are its members in order: name, space, version. */
  lemma NamesAreLines(deps: seq<Dep>, text: string, lower: string -> string)
    requires text in Texts(deps)
    requires forall d :: d in deps ==> '\n' !in d.name && '\n' !in d.version
    ensures var lines, ms := Split(EntryFor(deps, text, lower).notice.names, '\n'), Group(deps, text);
            |lines| == |ms| && forall i :: 0 <= i < |ms| ==> lines[i] == ms[i].name + " " + ms[i].version
  {
    var ms := Group(deps, text);
    GroupIsSorted(deps, text);
    forall i | 0 <= i < |ms| ensures '\n' !in Lines(ms)[i] {
      assert ms[i] in multiset(ms);
      assert ms[i] in multiset(deps);
    }
    SplitJoin(Lines(ms), '\n');
  }

  /** Members are in the order of their names, and of their versions under one name. */
  lemma GroupInOrder(deps: seq<Dep>, text: string, i: nat, j: nat)
    requires i < j < |Group(deps, text)|
    ensures var a, b := Group(deps, text)[i], Group(deps, text)[j];
            Less(a.name, b.name) || (a.name == b.name && AtMost(a.version, b.version))
  {
    GroupIsSorted(deps, text);
    assert DepLe(Group(deps, text)[i], Group(deps, text)[j]);
  }

  /** When licence `i` is first used, no later one of the list has been. */
  lemma {:induction false} LicensesInOrder(ms: seq<Dep>, i: nat, j: nat) returns (a: nat)
    requires i < j < |Licenses(ms)|
    ensures a < |ms| && ms[a].license == Licenses(ms)[i]
    ensures forall b :: 0 <= b <= a ==> ms[b].license != Licenses(ms)[j]
  {
    var rest, last := ms[..|ms| - 1], ms[|ms| - 1];
    var before := Licenses(rest);
    if j < |before| {
      a := LicensesInOrder(rest, i, j);
    } else {
      assert before[i] in before;
      var m :| m in rest && m.license == before[i];
      a :| 0 <= a < |rest| && rest[a] == m;
      forall b | 0 <= b <= a ensures ms[b].license != last.license { assert rest[b] in rest; }
    }
  }

  /** The other fields of a record: the licences of its members, each once, after semicolons, and the
      text without white space around it. */
  lemma RecordIs(deps: seq<Dep>, text: string, lower: string -> string)
    requires text in Texts(deps)
    ensures var e, ms := EntryFor(deps, text, lower), Group(deps, text);
            && ms != [] && e.notice.license == Join(Licenses(ms), "; ") && e.notice.text == Trim(text)
            && e.key == lower(ms[0].name)
  {
    GroupIsSorted(deps, text);
  }

  /** Records are in the order of their first names in lower case, and of themselves under one name. */
  lemma RecordsInOrder(es: seq<Entry>, deps: seq<Dep>, lower: string -> string, i: nat, j: nat)
    requires Arranged(es, deps, lower) && i < j < |es|
    ensures Group(deps, es[i].text) != [] && Group(deps, es[j].text) != []
    ensures var a, b := lower(Group(deps, es[i].text)[0].name), lower(Group(deps, es[j].text)[0].name);
            Less(a, b) || (a == b && AtMost(Written(es[i].notice), Written(es[j].notice)))
  {
    EntryListed(es, deps, lower, i);
    EntryListed(es, deps, lower, j);
    RecordIs(deps, es[i].text, lower);
    RecordIs(deps, es[j].text, lower);
    assert EntryLe(es[i], es[j]);
  }

  /** Parts are joined with the separator between them. */
  lemma JoinIs(parts: seq<string>, x: string, sep: string)
    ensures Join([], sep) == "" && Join([x], sep) == x
    ensures parts != [] ==> Join(parts + [x], sep) == Join(parts, sep) + sep + x
  {
    JoinSnoc(parts, x, sep);
  }

  predicate CleanDep(d: Dep) {
    && RECORD !in d.name && RECORD !in d.version && RECORD !in d.license && RECORD !in d.text
    && FIELD !in d.name && FIELD !in d.version && FIELD !in d.license
  }

  lemma {:induction false} JoinFree(parts: seq<string>, sep: string, c: char)
    requires c !in sep && forall i :: 0 <= i < |parts| ==> c !in parts[i]
    ensures c !in Join(parts, sep)
  {
    if |parts| > 1 { JoinFree(parts[1..], sep, c); }
  }

  lemma GroupFree(deps: seq<Dep>, text: string, c: char)
    requires text in Texts(deps) && c !in "\n ; "
    requires forall d :: d in deps ==> c !in d.name && c !in d.version && c !in d.license
    ensures var ms := Group(deps, text); c !in Join(Lines(ms), "\n") && c !in Join(Licenses(ms), "; ")
  {
    var ms := Group(deps, text);
    GroupIsSorted(deps, text);
    forall i | 0 <= i < |ms| ensures ms[i] in deps {
      assert ms[i] in multiset(ms);
      assert ms[i] in multiset(deps);
    }
    JoinFree(Lines(ms), "\n", c);
    forall i | 0 <= i < |Licenses(ms)| ensures c !in Licenses(ms)[i] {
      assert Licenses(ms)[i] in Licenses(ms);
      var m :| m in ms && m.license == Licenses(ms)[i];
    }
    JoinFree(Licenses(ms), "; ", c);
  }

  lemma {:induction false} TrimStartFree(s: string, c: char)
    requires c !in s
    ensures c !in TrimStart(s)
  {
    if s != "" && IsWhitespace(s[0]) { TrimStartFree(s[1..], c); }
  }

  lemma TrimFree(text: string, c: char)
    requires c !in text
    ensures c !in Trim(text)
  {
    TrimStartFree(text, c);
  }

  lemma EntryClean(deps: seq<Dep>, text: string, lower: string -> string)
    requires text in Texts(deps) && forall d :: d in deps ==> CleanDep(d)
    ensures Clean(EntryFor(deps, text, lower).notice)
  {
    GroupFree(deps, text, RECORD);
    GroupFree(deps, text, FIELD);
    var d :| d in deps && d.text == text;
    TrimFree(text, RECORD);
  }

  // ----- the other way round: whatever a dependency holds, its record holds -----

  lemma {:induction false} JoinHolds(parts: seq<string>, sep: string, i: nat, c: char)
    requires i < |parts| && c in parts[i]
    ensures c in Join(parts, sep)
  {
    if |parts| > 1 && i > 0 { JoinHolds(parts[1..], sep, i - 1, c); }
  }

  lemma {:induction false} TrimStartHolds(s: string, c: char)
    requires c in s && !IsWhitespace(c)
    ensures c in TrimStart(s)
  {
    if IsWhitespace(s[0]) {
      assert s == [s[0]] + s[1..];
      TrimStartHolds(s[1..], c);
    }
  }

  lemma {:induction false} TrimEndHolds(s: string, c: char)
    requires c in s && !IsWhitespace(c)
    ensures c in TrimEnd(s)
  {
    if IsWhitespace(s[|s| - 1]) {
      assert s == s[..|s| - 1] + [s[|s| - 1]];
      TrimEndHolds(s[..|s| - 1], c);
    }
  }

  lemma MemberHeld(deps: seq<Dep>, lower: string -> string, d: Dep, c: char)
    requires d in deps
    ensures var n := EntryFor(deps, d.text, lower).notice;
            && (c in d.name || c in d.version ==> c in n.names)
            && (c in d.license ==> c in n.license)
            && (c in d.text && !IsWhitespace(c) ==> c in n.text)
  {
    var ms := Group(deps, d.text);
    GroupIsSorted(deps, d.text);
    WithTextCounts(deps, d);
    assert d in multiset(ms);
    var i :| 0 <= i < |ms| && ms[i] == d;
    if c in d.name || c in d.version { JoinHolds(Lines(ms), "\n", i, c); }
    if c in d.license {
      assert d.license in Licenses(ms);
      var k :| 0 <= k < |Licenses(ms)| && Licenses(ms)[k] == d.license;
      JoinHolds(Licenses(ms), "; ", k, c);
    }
    if c in d.text && !IsWhitespace(c) {
      TrimStartHolds(d.text, c);
      TrimEndHolds(TrimStart(d.text), c);
    }
  }

  lemma OnlyClean(es: seq<Entry>, deps: seq<Dep>, lower: string -> string, d: Dep)
    requires Arranged(es, deps, lower) && d in deps && AllClean(NoticesOf(es))
    ensures CleanDep(d)
  {
    var i := EachDepInOneRecord(es, deps, lower, d);
    EntryListed(es, deps, lower, i);
    assert Clean(NoticesOf(es)[i]);
    MemberHeld(deps, lower, d, RECORD);
    MemberHeld(deps, lower, d, FIELD);
  }

  /** The parser reads back exactly one notice for each text, in the file's order, if and only if no
      dependency holds a record separator, and none a field separator but in its text. */
  lemma GeneratedParses(es: seq<Entry>, deps: seq<Dep>, lower: string -> string)
    requires Arranged(es, deps, lower)
    ensures Parse(Asset(NoticesOf(es))) == NoticesOf(es) <==> forall d :: d in deps ==> CleanDep(d)
  {
    NoticesRoundTrip(NoticesOf(es));
    if AllClean(NoticesOf(es)) {
      forall d | d in deps ensures CleanDep(d) { OnlyClean(es, deps, lower, d); }
    }
    if forall d :: d in deps ==> CleanDep(d) {
      forall i | 0 <= i < |es| ensures Clean(NoticesOf(es)[i]) {
        EntryListed(es, deps, lower, i);
        EntryClean(deps, es[i].text, lower);
      }
    }
  }
}
