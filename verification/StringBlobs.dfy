/** The deduplicated string blob (scripts/build_catalogue.py, `StringBlob`). Strings are UTF-8 bytes. */
module StringBlobs {
  import opened Bytes
  import opened Utf8

  type Str = seq<Byte>

  datatype Ref = Ref(off: nat, len: nat)

  /** At most 255 bytes of a string, so that its length fits one byte. */
  function Cut(s: Str): (r: Str)
    ensures |r| <= 255
  {
    if |s| <= 255 then s else s[..255]
  }

  /** The bytes a reader gets for a reference. */
  function ReadAt(buf: Str, r: Ref): Str {
    if r.off + r.len <= |buf| then buf[r.off..r.off + r.len] else []
  }

  datatype Blob = Blob(buf: Str, seen: map<Str, Ref>) {
    /** Every string seen is stored where its reference says. */
    ghost predicate Valid() {
      forall s :: s in seen ==> 0 < |s| <= 255 && seen[s].off + seen[s].len <= |buf| && ReadAt(buf, seen[s]) == s
    }
  }

  function Added(b: Blob, s: Str): (Blob, Ref) {
    var cut := Cut(s);
    if s == [] then (b, Ref(0, 0))
    else if cut in b.seen then (b, b.seen[cut])
    else var r := Ref(|b.buf|, |cut|); (Blob(b.buf + cut, b.seen[cut := r]), r)
  }

  /** A reference that reads within a buffer reads the same in every longer one. */
  lemma ReadsStay(buf: Str, more: Str, r: Ref)
    requires buf <= more && r.off + r.len <= |buf|
    ensures ReadAt(more, r) == ReadAt(buf, r)
  {
  }

  /** A string added reads back cut to 255 bytes, and nothing stored before moves. */
  lemma AddedReads(b: Blob, s: Str)
    requires b.Valid()
    ensures var (b', r) := Added(b, s);
            && b'.Valid() && b.buf <= b'.buf
            && r.off + r.len <= |b'.buf| && r.off <= |b.buf| && r.len <= 255
            && ReadAt(b'.buf, r) == Cut(s)
            && |b'.buf| <= |b.buf| + |Cut(s)|
  {
    var (b', r) := Added(b, s);
    if s != [] && Cut(s) !in b.seen {
      assert b'.buf[r.off..r.off + r.len] == Cut(s);
      forall t | t in b.seen ensures ReadAt(b'.buf, b.seen[t]) == t { ReadsStay(b.buf, b'.buf, b.seen[t]); }
    }
  }

  // ----- many strings -----

  /** A string to store, and whether its reference is packed into a table. */
  datatype Item = Item(text: Str, packed: bool)

  /** The blob after the first `n` items. */
  function Stored(b: Blob, items: seq<Item>, n: nat): Blob
    requires n <= |items|
  {
    if n == 0 then b else Added(Stored(b, items, n - 1), items[n - 1].text).0
  }

  /** Where item `n` goes. */
  function RefOf(b: Blob, items: seq<Item>, n: nat): Ref
    requires n < |items|
  {
    Added(Stored(b, items, n), items[n].text).1
  }

  /** Its offset is a 32-bit number, if it is packed. */
  predicate ItemFits(b: Blob, items: seq<Item>, n: nat)
    requires n < |items|
  {
    items[n].packed ==> RefOf(b, items, n).off < U32
  }

  lemma {:induction false} StoredSize(b: Blob, items: seq<Item>, n: nat)
    requires b.Valid() && n <= |items|
    ensures Stored(b, items, n).Valid() && |Stored(b, items, n).buf| <= |b.buf| + 255 * n
  {
    if n > 0 {
      StoredSize(b, items, n - 1);
      AddedReads(Stored(b, items, n - 1), items[n - 1].text);
    }
  }

  /** So few strings fit whatever they are. */
  lemma FewFit(b: Blob, items: seq<Item>, n: nat)
    requires b.Valid() && n < |items| && |b.buf| + 255 * |items| < U32
    ensures ItemFits(b, items, n)
  {
    StoredSize(b, items, n);
    AddedReads(Stored(b, items, n), items[n].text);
  }

  lemma {:induction false} SeenStays(b: Blob, items: seq<Item>, n: nat)
    requires n <= |items|
    ensures forall s :: s in b.seen ==> s in Stored(b, items, n).seen && Stored(b, items, n).seen[s] == b.seen[s]
  {
    if n > 0 { SeenStays(b, items, n - 1); }
  }

  /** Adding a string again, whatever was added in between, gives the same reference and stores
      nothing. */
  lemma AddedOnce(b: Blob, s: Str, between: seq<Item>)
    ensures var (b', r) := Added(b, s); var more := Stored(b', between, |between|); Added(more, s) == (more, r)
  {
    var (b', r) := Added(b, s);
    SeenStays(b', between, |between|);
    if s != [] { assert Cut(s) in b'.seen; }
  }

  // ----- what a reader makes of a cut string -----

  /** The client takes the bytes only as UTF-8, and shows nothing otherwise. */
  function AsText(bytes: Str): Str { if WellFormed(bytes) then bytes else [] }

  /** What becomes of a string that is stored and read back. */
  function ReadBack(s: Str): Str { AsText(Cut(s)) }

  /** A text reads back as its first 255 bytes if and only if those end at a character; otherwise it
      reads back empty. */
  lemma ReadBackIsCut(s: Str)
    requires WellFormed(s)
    ensures ReadBack(s) == if |s| <= 255 || !IsTail(s[255]) then Cut(s) else []
    ensures ReadBack(s) == Cut(s) <==> |s| <= 255 || !IsTail(s[255])
  {
    if |s| > 255 { PrefixFrom(s, 0, 255); }
  }

  /** `n` letters of two bytes each. */
  function Accents(n: nat): (s: Str)
    ensures |s| == 2 * n && forall i :: 0 <= i < 2 * n ==> s[i] == if i % 2 == 0 then 0xC3 else 0xA9
  {
    seq(2 * n, i => if i % 2 == 0 then 0xC3 else 0xA9)
  }

  lemma {:induction false} AccentsWellFormed(s: Str, k: nat)
    requires |s| % 2 == 0 && forall i :: 0 <= i < |s| ==> s[i] == if i % 2 == 0 then 0xC3 else 0xA9
    requires k <= |s| && k % 2 == 0
    ensures Utf8From(s, k)
    decreases |s| - k
  {
    if k < |s| {
      assert CharLength(s, k) == 2;
      AccentsWellFormed(s, k + 2);
    }
  }

  /** So a name of 128 such letters is lost. */
  lemma LongAccentsAreLost(n: nat)
    requires n >= 128
    ensures WellFormed(Accents(n)) && ReadBack(Accents(n)) == [] && Cut(Accents(n)) != []
  {
    AccentsWellFormed(Accents(n), 0);
    ReadBackIsCut(Accents(n));
  }

  class StringBlob {
    var buf: Str
    var seen: map<Str, Ref>
    ghost var count: nat      // strings added

    ghost function View(): Blob
      reads this
    {
      Blob(buf, seen)
    }

    constructor ()
      ensures View() == Blob([], map[]) && View().Valid() && count == 0
    {
      buf := [];
      seen := map[];
      count := 0;
    }

    method Add(s: Str) returns (r: Ref)
      requires View().Valid()
      modifies this
      ensures (View(), r) == Added(old(View()), s)
      ensures View().Valid() && old(buf) <= buf && count == old(count) + 1
      ensures r.off + r.len <= |buf| && r.off <= old(|buf|) && r.len <= 255 && ReadAt(buf, r) == Cut(s)
    {
      AddedReads(View(), s);
      count := count + 1;
      if s == [] { return Ref(0, 0); }
      var b := if |s| <= 255 then s else s[..255];
      if b in seen { return seen[b]; }
      r := Ref(|buf|, |b|);
      buf := buf + b;
      seen := seen[b := r];
    }
  }
}
