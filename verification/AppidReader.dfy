/** The client's reader of appid_index.bin (mello-core/src/catalogue.rs, `AppIdIndex`). Its numbers have
    32 bits. */
module AppidReader {
  import opened Collections
  import opened Bytes
  import opened Leb128
  import opened SortedKeys
  import opened AppidIndex
  import opened Wrappers

  // ----- one number -----

  /** A number of at most five bytes, without the bits that are beyond 32. */
  function Narrow(r: Option<(nat, nat)>): (n: Option<(nat, nat)>)
    ensures n.Some? ==> r.Some? && n.value.0 < U32 && n.value.1 == r.value.1
  {
    match r
    case None => None
    case Some((n, used)) => if used <= 5 then Some((n % U32, used)) else None
  }

  /** The low seven bits of the first `k` bytes, as a number. */
  function Low(s: seq<Byte>, k: nat): nat
    requires k <= |s|
  {
    if k == 0 then 0 else Low(s, k - 1) + Pow128(k - 1) * (s[k - 1] % 128)
  }

  lemma Carry(pow: nat, b: nat, n: nat)
    ensures pow * (b + 128 * n) == pow * b + 128 * pow * n
  {
  }

  lemma OneByteMore(t: seq<Byte>, rest: seq<Byte>)
    requires t != [] && t[0] >= 128 && t[1..] == rest
    ensures ReadVarint(t) == match ReadVarint(rest)
                             case None => None
                             case Some((n, used)) => Some((t[0] - 128 + 128 * n, used + 1))
  {
  }

  lemma LowStep(s: seq<Byte>, k: nat, n: nat)
    requires 0 < k <= |s| && s[k - 1] >= 128
    ensures Low(s, k - 1) + Pow128(k - 1) * (s[k - 1] - 128 + 128 * n) == Low(s, k) + Pow128(k) * n
  {
    Carry(Pow128(k - 1), s[k - 1] - 128, n);
  }

  /** What a reader gets after `k` bytes that call for more. */
  lemma {:induction false} ReadAfter(s: seq<Byte>, k: nat)
    requires k <= |s| && forall i :: 0 <= i < k ==> s[i] >= 128
    ensures ReadVarint(s) == match ReadVarint(s[k..])
                             case None => None
                             case Some((n, used)) => Some((Low(s, k) + Pow128(k) * n, used + k))
  {
    if k == 0 {
      assert s[0..] == s;
    } else {
      ReadAfter(s, k - 1);
      OneByteMore(s[k - 1..], s[k..]);
      if ReadVarint(s[k..]).Some? { LowStep(s, k, ReadVarint(s[k..]).value.0); }
    }
  }

  lemma TimesLess(pow: nat, b: nat)
    requires b < 128
    ensures pow * b + pow <= 128 * pow
  {
  }

  lemma {:induction false} LowBound(s: seq<Byte>, k: nat)
    requires k <= |s|
    ensures Low(s, k) < Pow128(k)
  {
    if k > 0 {
      LowBound(s, k - 1);
      Carry(Pow128(k - 1), s[k - 1] % 128, 0);
      TimesLess(Pow128(k - 1), s[k - 1] % 128);
    }
  }

  /** `value |= (byte & 0x7F) << shift` on 32 bits, for a value below the bits that come in. */
  function OrShifted(value: nat, byte: Byte, k: nat): nat { value + Pow128(k) * (byte % 128) % U32 }

  lemma Powers()
    ensures Pow128(0) == 1 && Pow128(1) == 128 && Pow128(2) == 16_384 && Pow128(3) == 2_097_152
    ensures Pow128(4) == 268_435_456 && Pow128(5) == 34_359_738_368
  {
    assert Pow128(2) == 128 * Pow128(1) && Pow128(3) == 128 * Pow128(2);
    assert Pow128(4) == 128 * Pow128(3) && Pow128(5) == 128 * Pow128(4);
  }

  lemma SumFits(pow: nat, value: nat, b: nat)
    requires value < pow && b < 128
    ensures value + pow * b < 128 * pow
  {
    TimesLess(pow, b);
  }

  lemma TopBits(value: nat, b: nat)
    requires value < 268_435_456 && b < 128
    ensures value + 268_435_456 * b % U32 == (value + 268_435_456 * b) % U32
  {
    assert 268_435_456 * b == U32 * (b / 16) + 268_435_456 * (b % 16);
  }

  lemma OrIsSum(value: nat, byte: Byte, k: nat)
    requires k <= 4 && value < Pow128(k)
    ensures OrShifted(value, byte, k) == (value + Pow128(k) * (byte % 128)) % U32
    ensures k < 4 ==> OrShifted(value, byte, k) == value + Pow128(k) * (byte % 128)
  {
    Powers();
    if k == 4 {
      TopBits(value, byte % 128);
    } else {
      SumFits(Pow128(k), value, byte % 128);
    }
  }

  /** The number at `start`, and the place after it. */
  function NumberAt(bytes: seq<Byte>, start: nat): (r: Option<(nat, nat)>)
    requires start <= |bytes|
    ensures r.Some? ==> start <= r.value.1 <= |bytes|
  {
    match Narrow(ReadVarint(bytes[start..]))
    case None => None
    case Some((n, used)) => Some((n, start + used))
  }

  /** `read_varint`: the standard's reader, up to five bytes and 32 bits. */
  method ReadVarint32(bytes: seq<Byte>, start: nat) returns (r: Option<(nat, nat)>)
    requires start <= |bytes|
    ensures r == NumberAt(bytes, start)
  {
    ghost var s := bytes[start..];
    var value, k: nat := 0, 0;
    while true
      invariant k <= 5 && k <= |s| && forall i :: 0 <= i < k ==> s[i] >= 128
      invariant k < 5 ==> value == Low(s, k)
      decreases 5 - k
    {
      ReadAfter(s, k);
      if start + k >= |bytes| { return None; }
      var byte := bytes[start + k];
      assert byte == s[k] == s[k..][0];
      if k > 4 { return None; }
      LowBound(s, k);
      OrIsSum(value, byte, k);
      value := OrShifted(value, byte, k);
      if byte < 128 { return Some((value, start + k + 1)); }
      k := k + 1;
    }
  }

  /** A written number comes back whole below 32 bits, without its high bits below 35, and stops the
      reader from there on. */
  lemma ReadsWritten(n: nat, rest: seq<Byte>)
    ensures Narrow(ReadVarint(Varint(n) + rest))
            == if n < 34_359_738_368 then Some((n % U32, |Varint(n)|)) else None
  {
    VarintRoundTrip(n, rest);
    LengthIsLogarithm(n, 5);
    Powers();
  }

  /** Five bytes can hold more than 32 bits: the reader takes 2 to the 32 for 0. */
  lemma WrapsSilently()
    ensures Narrow(ReadVarint(Varint(U32) + [])) == Some((0, 5))
  {
    ReadsWritten(U32, []);
    LengthIsLogarithm(U32, 4);
    LengthIsLogarithm(U32, 5);
    Powers();
  }

  // ----- the whole index -----

  predicate Fit32(pairs: Pairs) { forall i :: 0 <= i < |pairs| ==> pairs[i].0 < U32 && pairs[i].1 < U32 }

  /** A pair, and the bytes after it. */
  datatype Taken = Taken(appid: nat, gid: nat, rest: seq<Byte>)

  /** The pair at the start of `s`, after `prev`. */
  function ClientPair(s: seq<Byte>, prev: nat): (r: Option<Taken>)
    ensures r.Some? ==> r.value.appid < U32 && r.value.gid < U32
  {
    var delta := Narrow(ReadVarint(s));
    if delta.None? then None
    else
      var t := s[delta.value.1..];
      var gid := Narrow(ReadVarint(t));
      if gid.None? || prev + delta.value.0 >= U32 then None
      else Some(Taken(prev + delta.value.0, gid.value.0, t[gid.value.1..]))
  }

  function Prefixed(flat: Pairs, rest: Option<Pairs>): Option<Pairs> {
    if rest.None? then None else Some(flat + rest.value)
  }

  /** `count` pairs after `prev`, each read by `read`; whatever follows them is not looked at. */
  function ClientBody(read: (seq<Byte>, nat) -> Option<Taken>, s: seq<Byte>, count: nat, prev: nat): (r: Option<Pairs>)
    ensures r.Some? ==> |r.value| == count
    decreases count
  {
    if count == 0 then Some([])
    else
      var pair := read(s, prev);
      if pair.None? then None
      else
        Prefixed([(pair.value.appid, pair.value.gid)], ClientBody(read, pair.value.rest, count - 1, pair.value.appid))
  }

  function ClientIndex(file: seq<Byte>): Option<Pairs> {
    if |file| >= 8 && file[..4] == MAGIC then ClientBody(ClientPair, file[8..], FromLe32(file[4..8]), 0) else None
  }

  lemma SliceTwice<T>(s: seq<T>, a: nat, b: nat)
    requires a <= b <= |s|
    ensures s[a..][b - a..] == s[b..]
  {
  }

  lemma PairAt(bytes: seq<Byte>, pos: nat, prev: nat, delta: Option<(nat, nat)>,
        gid: Option<(nat, nat)>)
    requires pos <= |bytes| && delta == NumberAt(bytes, pos)
    requires gid == if delta.None? then None else NumberAt(bytes, delta.value.1)
    ensures ClientPair(bytes[pos..], prev)
            == if delta.None? || gid.None? || prev + delta.value.0 >= U32 then None
               else Some(Taken(prev + delta.value.0, gid.value.0, bytes[gid.value.1..]))
  {
    if delta.Some? {
      SliceTwice(bytes, pos, delta.value.1);
      if gid.Some? { SliceTwice(bytes, delta.value.1, gid.value.1); }
    }
  }

  /** The body of the loop: the pair at `pos`, and where the next one is. */
  method ParsePair(bytes: seq<Byte>, pos: nat, prev: nat) returns (pair: Option<(nat, nat)>, next: nat)
    requires pos <= |bytes|
    ensures pair.None? ==> ClientPair(bytes[pos..], prev) == None
    ensures pair.Some? ==> next <= |bytes|
                           && ClientPair(bytes[pos..], prev) == Some(Taken(pair.value.0, pair.value.1, bytes[next..]))
  {
    pair, next := None, pos;
    var delta := ReadVarint32(bytes, pos);
    var gid: Option<(nat, nat)> := None;
    if delta.Some? { gid := ReadVarint32(bytes, delta.value.1); }
    PairAt(bytes, pos, prev, delta, gid);
    if delta.Some? && gid.Some? && prev + delta.value.0 < U32 {
      pair, next := Some((prev + delta.value.0, gid.value.0)), gid.value.1;
    }
  }

  /** The loop of `parse` with `left` rounds to go. */
  ghost predicate Parsing(read: (seq<Byte>, nat) -> Option<Taken>, all: Option<Pairs>, s: seq<Byte>, flat: Pairs,
        left: nat, prev: nat)
  {
    all == Prefixed(flat, ClientBody(read, s, left, prev))
  }

  lemma ParsingStart(read: (seq<Byte>, nat) -> Option<Taken>, s: seq<Byte>, count: nat)
    ensures Parsing(read, ClientBody(read, s, count, 0), s, [], count, 0)
  {
    var rest := ClientBody(read, s, count, 0);
    if rest.Some? { assert [] + rest.value == rest.value; }
  }

  lemma Regroup(flat: Pairs, pair: (nat, nat), rest: Option<Pairs>)
    ensures Prefixed(flat, Prefixed([pair], rest)) == Prefixed(flat + [pair], rest)
  {
    if rest.Some? { assert flat + ([pair] + rest.value) == flat + [pair] + rest.value; }
  }

  lemma ParsingStep(read: (seq<Byte>, nat) -> Option<Taken>, all: Option<Pairs>, s: seq<Byte>, flat: Pairs, left: nat,
        prev: nat)
    requires Parsing(read, all, s, flat, left, prev) && left > 0
    ensures match read(s, prev)
            case None => all == None
            case Some(p) => Parsing(read, all, p.rest, flat + [(p.appid, p.gid)], left - 1, p.appid)
  {
    var p := read(s, prev);
    if p.Some? {
      Regroup(flat, (p.value.appid, p.value.gid), ClientBody(read, p.value.rest, left - 1, p.value.appid));
    }
  }

  lemma ParsingEnd(read: (seq<Byte>, nat) -> Option<Taken>, all: Option<Pairs>, s: seq<Byte>, flat: Pairs, prev: nat)
    requires Parsing(read, all, s, flat, 0, prev)
    ensures all == Some(flat)
  {
    assert flat + [] == flat;
  }

  /** `parse`. The pairs are kept one after the other, eight bytes each. */
  method Parse(bytes: seq<Byte>) returns (index: Option<Pairs>)
    ensures index == ClientIndex(bytes)
  {
    if |bytes| < 8 || bytes[..4] != MAGIC { return None; }
    var count := FromLe32(bytes[4..8]);
    var flat: Pairs := [];
    var pos: nat, appid: nat := 8, 0;
    ghost var read, all := ClientPair, ClientIndex(bytes);
    ParsingStart(read, bytes[8..], count);
    for i := 0 to count
      invariant pos <= |bytes| && Parsing(read, all, bytes[pos..], flat, count - i, appid)
    {
      ParsingStep(read, all, bytes[pos..], flat, count - i, appid);
      var pair, next := ParsePair(bytes, pos, appid);
      if pair.None? { return None; }
      flat, pos, appid := flat + [pair.value], next, pair.value.0;
    }
    ParsingEnd(read, all, bytes[pos..], flat, appid);
    index := Some(flat);
  }

  lemma Join(a: seq<Byte>, b: seq<Byte>, c: seq<Byte>)
    ensures a + b + c == a + (b + c)
  {
  }

  lemma ReadsOne(n: nat, rest: seq<Byte>)
    requires n < U32
    ensures Narrow(ReadVarint(Varint(n) + rest)) == Some((n, |Varint(n)|))
    ensures (Varint(n) + rest)[|Varint(n)|..] == rest
  {
    ReadsWritten(n, rest);
    SplitConcat(Varint(n), rest);
  }

  /** A written pair is read, unless its key would go beyond 32 bits: then the file is refused. */
  lemma PairReads(delta: nat, gid: nat, rest: seq<Byte>, prev: nat)
    requires delta < U32 && gid < U32
    ensures ClientPair(EntryBytes(delta, gid) + rest, prev)
            == if prev + delta < U32 then Some(Taken(prev + delta, gid, rest)) else None
  {
    var t := Varint(gid) + rest;
    Join(Varint(delta), Varint(gid), rest);
    ReadsOne(delta, t);
    ReadsOne(gid, rest);
  }

  /** A reader that undoes a writer pair by pair, as long as the numbers fit, undoes the whole body. */
  lemma {:induction false} BodyReads(write: (nat, nat) -> seq<Byte>, read: (seq<Byte>, nat) -> Option<Taken>,
        pairs: Pairs, prev: nat, extra: seq<Byte>)
    requires Ordered(pairs, prev) && Fit32(pairs)
    requires forall delta: nat, gid: nat, rest: seq<Byte>, low: nat :: low + delta < U32 && gid < U32 ==>
               read(write(delta, gid) + rest, low) == Some(Taken(low + delta, gid, rest))
    ensures ClientBody(read, Body(write, pairs, prev) + extra, |pairs|, prev) == Some(pairs)
  {
    if pairs != [] {
      var appid, gid := pairs[0].0, pairs[0].1;
      BodyReads(write, read, pairs[1..], appid, extra);
      Join(write(appid - prev, gid), Body(write, pairs[1..], appid), extra);
      assert [(appid, gid)] + pairs[1..] == pairs;
    }
  }

  /** What the client reads fits. */
  lemma {:induction false} ReadFits(read: (seq<Byte>, nat) -> Option<Taken>, s: seq<Byte>, count: nat, prev: nat)
    requires forall t: seq<Byte>, low: nat :: read(t, low).Some? ==>
               read(t, low).value.appid < U32 && read(t, low).value.gid < U32
    requires ClientBody(read, s, count, prev).Some?
    ensures Fit32(ClientBody(read, s, count, prev).value)
    decreases count
  {
    if count > 0 {
      var p := read(s, prev).value;
      ReadFits(read, p.rest, count - 1, p.appid);
    }
  }

  lemma IndexFits(file: seq<Byte>)
    requires ClientIndex(file).Some?
    ensures Fit32(ClientIndex(file).value)
  {
    ReadFits(ClientPair, file[8..], FromLe32(file[4..8]), 0);
  }

  lemma FileParts(body: seq<Byte>, count: nat, extra: seq<Byte>)
    requires count < U32
    ensures var file := MAGIC + Le32(count) + body + extra;
            file[..4] == MAGIC && FromLe32(file[4..8]) == count && file[8..] == body + extra
  {
    var file := MAGIC + Le32(count) + body + extra;
    assert file[..4] == MAGIC && file[4..8] == Le32(count);
    Le32RoundTrip(count);
  }

  /** A file that is too short or not marked is refused. */
  lemma UnmarkedIsRefused(file: seq<Byte>)
    requires forall count :: !Marked(file, count)
    ensures ClientIndex(file) == None
  {
    if |file| >= 8 && file[..4] == MAGIC {
      assert file[..4][0] == file[0] && file[..4][1] == file[1] && file[..4][2] == file[2] && file[..4][3] == file[3];
      assert Marked(file, FromLe32(file[4..8]));
    }
  }

  lemma FittingReads(pairs: Pairs, extra: seq<Byte>)
    requires Ordered(pairs, 0) && Fit32(pairs)
    ensures ClientBody(ClientPair, Body(EntryBytes, pairs, 0) + extra, |pairs|, 0) == Some(pairs)
  {
    forall delta: nat, gid: nat, rest: seq<Byte>, low: nat | low + delta < U32 && gid < U32
      ensures ClientPair(EntryBytes(delta, gid) + rest, low) == Some(Taken(low + delta, gid, rest))
    {
      PairReads(delta, gid, rest, low);
    }
    BodyReads(EntryBytes, ClientPair, pairs, 0, extra);
  }

  /** The client gets the list back, whatever follows it, if and only if every key and every game is a
      32-bit number. */
  lemma ClientReadsPairs(pairs: Pairs, extra: seq<Byte>)
    requires Ordered(pairs, 0) && |pairs| < U32
    ensures ClientIndex(IndexFile(pairs) + extra) == Some(pairs) <==> Fit32(pairs)
  {
    FileParts(Body(EntryBytes, pairs, 0), |pairs|, extra);
    if Fit32(pairs) { FittingReads(pairs, extra); }
    if ClientIndex(IndexFile(pairs) + extra).Some? { IndexFits(IndexFile(pairs) + extra); }
  }

  lemma ListedFits(pairs: Pairs, steam: map<nat, nat>)
    requires ListsMap(pairs, steam) && Fit32(pairs)
    ensures forall k :: k in steam ==> k < U32 && steam[k] < U32
  {
    forall k | k in steam ensures k < U32 && steam[k] < U32 {
      var i :| 0 <= i < |pairs| && pairs[i] == (k, steam[k]);
    }
  }

  lemma FittingIsRead(file: seq<Byte>, pairs: Pairs, steam: map<nat, nat>)
    requires IsIndexOf(file, pairs, steam) && forall k :: k in steam ==> k < U32 && steam[k] < U32
    ensures ClientIndex(file) == Some(pairs)
  {
    assert file + [] == file;
    ClientReadsPairs(pairs, []);
  }

  lemma ReadIsFitting(file: seq<Byte>, pairs: Pairs, steam: map<nat, nat>)
    requires ListsMap(pairs, steam) && ClientIndex(file) == Some(pairs)
    ensures forall k :: k in steam ==> k < U32 && steam[k] < U32
  {
    IndexFits(file);
    ListedFits(pairs, steam);
  }

  /** So for a map: the client has exactly the map if and only if it fits 32 bits. */
  lemma ClientReadsMap(file: seq<Byte>, steam: map<nat, nat>)
    requires exists pairs :: IsIndexOf(file, pairs, steam)
    ensures (exists pairs :: ListsMap(pairs, steam) && ClientIndex(file) == Some(pairs))
            <==> forall k :: k in steam ==> k < U32 && steam[k] < U32
  {
    var pairs :| IsIndexOf(file, pairs, steam);
    if forall k :: k in steam ==> k < U32 && steam[k] < U32 { FittingIsRead(file, pairs, steam); }
    if exists read :: ListsMap(read, steam) && ClientIndex(file) == Some(read) {
      var read :| ListsMap(read, steam) && ClientIndex(file) == Some(read);
      ReadIsFitting(file, read, steam);
    }
  }

  /** `igdb_id`. */
  method IgdbId(pairs: Pairs, appid: nat, ghost steam: map<nat, nat>) returns (gid: Option<nat>)
    requires ListsMap(pairs, steam)
    ensures gid == if appid in steam then Some(steam[appid]) else None
  {
    var key := (i: nat) requires i < |pairs| => pairs[i].0;
    var at := Search(|pairs|, key, appid);
    if at.None? {
      forall i | 0 <= i < |pairs| ensures pairs[i].0 != appid { assert key(i) != appid; }
      return None;
    }
    gid := Some(pairs[at.value].1);
  }
}
