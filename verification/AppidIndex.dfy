/** appid_index.bin (scripts/build_catalogue.py, `build_appid_index`): a delta-encoded map. */
module AppidIndex {
  import opened Collections
  import opened Bytes
  import opened Leb128
  import opened SortedKeys
  import opened Wrappers

  type Pairs = seq<(nat, nat)>

  const MAGIC: seq<Byte> := [0x4D, 0x41, 0x49, 0x32]

  ghost predicate RisingKeys(pairs: Pairs) { forall i, j :: 0 <= i < j < |pairs| ==> pairs[i].0 < pairs[j].0 }

  /** The pairs of a map, each once, with keys strictly increasing. */
  ghost predicate ListsMap(pairs: Pairs, m: map<nat, nat>) {
    && RisingKeys(pairs)
    && (forall i :: 0 <= i < |pairs| ==> pairs[i].0 in m && m[pairs[i].0] == pairs[i].1)
    && (forall k :: k in m ==> (k, m[k]) in pairs)
  }

  /** `sorted(m.items())`: keys are distinct, so they alone decide the order. */
  method SortedItems(m: map<nat, nat>) returns (pairs: Pairs)
    ensures ListsMap(pairs, m) && |pairs| == |m|
  {
    var keys := SortedIds(m.Keys);
    pairs := seq(|keys|, i requires 0 <= i < |keys| => (keys[i], m[keys[i]]));
    forall k | k in m ensures (k, m[k]) in pairs {
      var i :| 0 <= i < |keys| && keys[i] == k;
      assert pairs[i] == (k, m[k]);
    }
  }

  predicate Ordered(pairs: Pairs, low: nat) {
    pairs == [] || (low <= pairs[0].0 && Ordered(pairs[1..], pairs[0].0))
  }

  lemma {:induction false} RisingIsOrdered(pairs: Pairs, low: nat)
    requires RisingKeys(pairs) && (pairs != [] ==> low <= pairs[0].0)
    ensures Ordered(pairs, low)
  {
    if pairs != [] {
      forall i, j | 0 <= i < j < |pairs[1..]| ensures pairs[1..][i].0 < pairs[1..][j].0 {
        assert pairs[1..][i] == pairs[i + 1] && pairs[1..][j] == pairs[j + 1];
      }
      RisingIsOrdered(pairs[1..], pairs[0].0);
    }
  }

  /** An appid as the distance from the one before, and its game. */
  function EntryBytes(delta: nat, gid: nat): seq<Byte> { Varint(delta) + Varint(gid) }

  /** The entries one after the other, each written by `write`. */
  function Body(write: (nat, nat) -> seq<Byte>, pairs: Pairs, prev: nat): seq<Byte>
    requires Ordered(pairs, prev)
  {
    if pairs == [] then []
    else write(pairs[0].0 - prev, pairs[0].1) + Body(write, pairs[1..], pairs[0].0)
  }

  function Last(pairs: Pairs, prev: nat): nat { if pairs == [] then prev else pairs[|pairs| - 1].0 }

  lemma {:induction false} BodySnoc(write: (nat, nat) -> seq<Byte>, pairs: Pairs, prev: nat, appid: nat, gid: nat)
    requires Ordered(pairs + [(appid, gid)], prev)
    ensures Ordered(pairs, prev) && Last(pairs, prev) <= appid
    ensures Body(write, pairs + [(appid, gid)], prev)
            == Body(write, pairs, prev) + write(appid - Last(pairs, prev), gid)
  {
    var more := pairs + [(appid, gid)];
    if pairs == [] {
      assert more[1..] == [];
    } else {
      var tail := pairs[1..];
      assert more[0] == pairs[0] && more[1..] == tail + [(appid, gid)];
      BodySnoc(write, tail, pairs[0].0, appid, gid);
      assert Last(tail, pairs[0].0) == Last(pairs, prev);
      assert Body(write, more, prev) == write(pairs[0].0 - prev, pairs[0].1) + Body(write, more[1..], pairs[0].0);
    }
  }

  lemma {:induction false} OrderedPrefix(pairs: Pairs, low: nat, i: nat)
    requires Ordered(pairs, low) && i <= |pairs|
    ensures Ordered(pairs[..i], low)
  {
    if i > 0 {
      assert pairs[..i][1..] == pairs[1..][..i - 1];
      OrderedPrefix(pairs[1..], pairs[0].0, i - 1);
    }
  }

  lemma BodyStep(write: (nat, nat) -> seq<Byte>, pairs: Pairs, i: nat)
    requires Ordered(pairs, 0) && i < |pairs|
    ensures Ordered(pairs[..i], 0) && Ordered(pairs[..i + 1], 0) && Last(pairs[..i], 0) <= pairs[i].0
    ensures Body(write, pairs[..i + 1], 0)
            == Body(write, pairs[..i], 0) + write(pairs[i].0 - Last(pairs[..i], 0), pairs[i].1)
    ensures Last(pairs[..i + 1], 0) == pairs[i].0
  {
    OrderedPrefix(pairs, 0, i + 1);
    assert pairs[..i + 1] == pairs[..i] + [(pairs[i].0, pairs[i].1)];
    BodySnoc(write, pairs[..i], 0, pairs[i].0, pairs[i].1);
  }

  method WriteBody(pairs: Pairs) returns (body: seq<Byte>)
    requires Ordered(pairs, 0)
    ensures body == Body(EntryBytes, pairs, 0)
  {
    body := [];
    var prev := 0;
    for i := 0 to |pairs|
      invariant Ordered(pairs[..i], 0) && prev == Last(pairs[..i], 0) && body == Body(EntryBytes, pairs[..i], 0)
    {
      BodyStep(EntryBytes, pairs, i);
      var delta := WriteVarint(pairs[i].0 - prev);
      var game := WriteVarint(pairs[i].1);
      body := body + (delta + game);
      prev := pairs[i].0;
    }
    assert pairs[..|pairs|] == pairs;
  }

  function IndexFile(pairs: Pairs): seq<Byte>
    requires Ordered(pairs, 0) && |pairs| < U32
  {
    MAGIC + Le32(|pairs|) + Body(EntryBytes, pairs, 0)
  }

  /** The file lists exactly the map. */
  ghost predicate IsIndexOf(file: seq<Byte>, pairs: Pairs, steam: map<nat, nat>) {
    ListsMap(pairs, steam) && Ordered(pairs, 0) && |pairs| < U32 && file == IndexFile(pairs)
  }

  // ----- a reader without bounds -----

  datatype Entry = Entry(delta: nat, gid: nat, rest: seq<Byte>)

  function ReadEntry(s: seq<Byte>): (r: Option<Entry>)
    ensures r.Some? ==> |r.value.rest| < |s|
  {
    match ReadVarint(s)
    case None => None
    case Some((delta, a)) =>
      match ReadVarint(s[a..])
      case None => None
      case Some((gid, b)) => Some(Entry(delta, gid, s[a..][b..]))
  }

  /** `count` pairs after `prev`, each read by `read`, and nothing after them. */
  function ReadBody(read: seq<Byte> -> Option<Entry>, s: seq<Byte>, count: nat, prev: nat): Option<Pairs>
    decreases count
  {
    if count == 0 then (if s == [] then Some([]) else None)
    else
      var e := read(s);
      if e.None? then None
      else
        var appid := prev + e.value.delta;
        var more := ReadBody(read, e.value.rest, count - 1, appid);
        if more.None? then None else Some([(appid, e.value.gid)] + more.value)
  }

  function ReadIndex(file: seq<Byte>): Option<Pairs> {
    if |file| >= 8 && file[..4] == MAGIC then ReadBody(ReadEntry, file[8..], FromLe32(file[4..8]), 0) else None
  }

  lemma EntryFrom(s: seq<Byte>, t: seq<Byte>, e: Entry)
    requires ReadVarint(s).Some? && ReadVarint(s).value.0 == e.delta && s[ReadVarint(s).value.1..] == t
    requires ReadVarint(t).Some? && ReadVarint(t).value.0 == e.gid && t[ReadVarint(t).value.1..] == e.rest
    ensures ReadEntry(s) == Some(e)
  {
  }

  lemma ReadWritten(n: nat, rest: seq<Byte>)
    ensures ReadVarint(Varint(n) + rest).Some?
    ensures var (m, used) := ReadVarint(Varint(n) + rest).value; m == n && (Varint(n) + rest)[used..] == rest
  {
    VarintRoundTrip(n, rest);
    SplitConcat(Varint(n), rest);
  }

  lemma EntryRoundTrip(delta: nat, gid: nat, rest: seq<Byte>)
    ensures ReadEntry(EntryBytes(delta, gid) + rest) == Some(Entry(delta, gid, rest))
  {
    var t := Varint(gid) + rest;
    ReadWritten(delta, t);
    ReadWritten(gid, rest);
    EntryFrom(Varint(delta) + t, t, Entry(delta, gid, rest));
    assert Varint(delta) + t == EntryBytes(delta, gid) + rest;
  }

  /** A reader that undoes a writer entry by entry undoes the whole body. */
  lemma {:induction false} BodyRoundTrip(write: (nat, nat) -> seq<Byte>, read: seq<Byte> -> Option<Entry>, pairs: Pairs,
        prev: nat)
    requires Ordered(pairs, prev)
    requires forall delta, gid, rest :: read(write(delta, gid) + rest) == Some(Entry(delta, gid, rest))
    ensures ReadBody(read, Body(write, pairs, prev), |pairs|, prev) == Some(pairs)
  {
    if pairs != [] {
      var appid, gid := pairs[0].0, pairs[0].1;
      BodyRoundTrip(write, read, pairs[1..], appid);
      assert [(appid, gid)] + pairs[1..] == pairs;
    }
  }

  lemma IndexRoundTrip(pairs: Pairs)
    requires Ordered(pairs, 0) && |pairs| < U32
    ensures ReadIndex(IndexFile(pairs)) == Some(pairs)
  {
    var file := IndexFile(pairs);
    assert file[..4] == MAGIC && file[4..8] == Le32(|pairs|) && file[8..] == Body(EntryBytes, pairs, 0);
    Le32RoundTrip(|pairs|);
    forall delta: nat, gid: nat, rest: seq<Byte>
      ensures ReadEntry(EntryBytes(delta, gid) + rest) == Some(Entry(delta, gid, rest))
    {
      EntryRoundTrip(delta, gid, rest);
    }
    BodyRoundTrip(EntryBytes, ReadEntry, pairs, 0);
  }

  /** With 32-bit keys and values the file takes at most ten bytes a pair. */
  lemma {:induction false} TenBytesAPair(pairs: Pairs, prev: nat)
    requires Ordered(pairs, prev) && forall i :: 0 <= i < |pairs| ==> pairs[i].0 < U32 && pairs[i].1 < U32
    ensures |Body(EntryBytes, pairs, prev)| <= 10 * |pairs|
  {
    if pairs != [] {
      FiveBytesFor32Bits(pairs[0].0 - prev);
      FiveBytesFor32Bits(pairs[0].1);
      TenBytesAPair(pairs[1..], pairs[0].0);
    }
  }

  /** "MAI2", and the number of pairs. */
  predicate Marked(file: seq<Byte>, count: nat) {
    && |file| >= 8 && file[0] == 'M' as int && file[1] == 'A' as int && file[2] == 'I' as int && file[3] == '2' as int
    && FromLe32(file[4..8]) == count
  }

  /** None is `struct.error`: more pairs than 32 bits can count. */
  method BuildAppidIndex(steam: map<nat, nat>) returns (file: Option<seq<Byte>>)
    ensures file.None? <==> |steam| >= U32
    ensures file.Some? ==> exists pairs :: IsIndexOf(file.value, pairs, steam) && ReadIndex(file.value) == Some(pairs)
    ensures file.Some? ==> Marked(file.value, |steam|)
    ensures file.Some? && (forall k :: k in steam ==> k < U32 && steam[k] < U32) ==> |file.value| <= 8 + 10 * |steam|
  {
    var pairs := SortedItems(steam);
    RisingIsOrdered(pairs, 0);
    var body := WriteBody(pairs);
    if |pairs| >= U32 { return None; }
    file := Some(MAGIC + Le32(|pairs|) + body);
    IndexRoundTrip(pairs);
    assert IsIndexOf(file.value, pairs, steam);
    Le32RoundTrip(|pairs|);
    assert file.value[4..8] == Le32(|pairs|);
    if forall k :: k in steam ==> k < U32 && steam[k] < U32 { TenBytesAPair(pairs, 0); }
  }

  lemma KeyListed(pairs: Pairs, a: map<nat, nat>, b: map<nat, nat>, k: nat)
    requires ListsMap(pairs, a) && ListsMap(pairs, b) && k in a
    ensures k in b && b[k] == a[k]
  {
    var i :| 0 <= i < |pairs| && pairs[i] == (k, a[k]);
  }

  /** What the reader gives determines the map, so two maps never share a file. */
  lemma ListDeterminesMap(pairs: Pairs, a: map<nat, nat>, b: map<nat, nat>)
    requires ListsMap(pairs, a) && ListsMap(pairs, b)
    ensures a == b
  {
    forall k | k in a ensures k in b && b[k] == a[k] { KeyListed(pairs, a, b, k); }
    forall k | k in b ensures k in a { KeyListed(pairs, b, a, k); }
  }
}
