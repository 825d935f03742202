/** The client's look-ups in head.bin (mello-core/src/catalogue.rs, `Head`), on a file that the script
    wrote. */
module HeadReader {
  import opened Collections
  import opened Bytes
  import opened StringBlobs
  import opened HeadFormat
  import opened SortedKeys
  import opened Catalogue
  import opened HeadWriter
  import opened Utf8
  import opened Wrappers

  /** What the client sees of a game. */
  function SeenOf(g: Game, covers: map<nat, Str>, mappings: seq<Mapping>): Shown {
    Shown(g.id, ReadBack(g.name), ReadBack(g.slug), ReadBack(g.short), ReadBack(CoverOf(covers, g.id)),
          ReadBack(GameIdOf(mappings, g)))
  }

  /** What the client shows of a game: each text as far as it can be read back, no cover where there
      is none, and the curated id. */
  ghost predicate Shows(x: Shown, g: Game, covers: map<nat, Str>, mappings: seq<Mapping>) {
    && x.id == g.id && x.name == ReadBack(g.name) && x.slug == ReadBack(g.slug) && x.short == ReadBack(g.short)
    && x.cover == (if g.id in covers then ReadBack(covers[g.id]) else [])
    && x.gameId == ReadBack(GameIdOf(mappings, g))
  }

  // ----- by id -----

  /** `entry_at`. */
  method EntryAt(file: Str, i: nat, ghost recs: seq<Record>, ghost exes: seq<ExeEntry>, ghost blob: Str, ghost g: Game,
        ghost covers: map<nat, Str>, ghost mappings: seq<Mapping>)
    returns (r: Shown)
    requires ReadsBack(file, recs, exes, blob) && i < |recs|
    requires RecordHolds(blob, recs[i], ShownOf(g, covers, mappings))
    ensures r == SeenOf(g, covers, mappings)
  {
    var h := ReadHeader(file).value;
    var rec := ReadRecord(file, i);
    r := Shown(rec.id, ReadString(file, h, rec.name), ReadString(file, h, rec.slug), ReadString(file, h, rec.short),
               ReadString(file, h, rec.cover), ReadString(file, h, rec.gameId));
  }

  lemma IdsOfRecords(blob: Str, recs: seq<Record>, games: seq<Game>, covers: map<nat, Str>, mappings: seq<Mapping>,
        ids: seq<nat>)
    requires Rising(ids) && forall i :: 0 <= i < |ids| ==> ids[i] in IdsOf(games)
    requires RecordsHold(blob, recs, Expected(games, covers, mappings, ids))
    ensures |recs| == |ids| && forall i :: 0 <= i < |ids| ==> recs[i].id == ids[i]
  {
    forall i | 0 <= i < |ids| ensures recs[i].id == ids[i] {
      assert RecordHolds(blob, recs[i], Expected(games, covers, mappings, ids)[i]);
    }
  }

  /** `get`: exactly the included games are found, with their own strings as far as they can be read
      back. */
  method FindGame(file: Str, id: nat, ghost games: seq<Game>, ghost covers: map<nat, Str>, ghost included: set<nat>,
        ghost mappings: seq<Mapping>)
    returns (found: Option<Shown>)
    requires HeadOf(file, games, covers, included, mappings)
    ensures id !in included ==> found == None
    ensures id in included ==> found == Some(SeenOf(GameOf(games, id), covers, mappings))
    ensures id in included ==> Shows(found.value, GameOf(games, id), covers, mappings)
  {
    ghost var recs: seq<Record>, exes: seq<ExeEntry>, blob: Str, ids: seq<nat> :|
      HeadParts(file, games, covers, included, mappings, recs, exes, blob, ids);
    IdsOfRecords(blob, recs, games, covers, mappings, ids);
    var at := FindRecord(file, id, recs, exes, blob);
    if at.None? {
      forall i | 0 <= i < |ids| ensures ids[i] != id { assert recs[i].id != id; }
      return None;
    }
    assert ids[at.value] in ids;
    assert RecordHolds(blob, recs[at.value], Expected(games, covers, mappings, ids)[at.value]);
    var x := EntryAt(file, at.value, recs, exes, blob, GameOf(games, id), covers, mappings);
    found := Some(x);
  }

  // ----- by executable -----

  function LowerByte(b: Byte): Byte { if 0x41 <= b <= 0x5A then b + 32 else b }

  /** `to_ascii_lowercase`. */
  function LowerAscii(s: Str): Str { seq(|s|, i requires 0 <= i < |s| => LowerByte(s[i])) }

  /** An executable of the file as the client reads it. */
  datatype Claim = Claim(name: Str, guard: Str, gid: nat)

  function ClaimOf(x: Exe): Claim { Claim(ReadBack(x.name), ReadBack(x.path), x.gid) }

  function ClaimsOf(xs: seq<Exe>): (cs: seq<Claim>)
    ensures |cs| == |xs|
  {
    seq(|xs|, k requires 0 <= k < |xs| => ClaimOf(xs[k]))
  }

  function Claims(mappings: seq<Mapping>): (cs: seq<Claim>)
    ensures |cs| == ExeTotal(mappings)
  {
    ClaimsOf(AllExes(mappings, |mappings|))
  }

  /** Entry `k` of the file says what claim `k` says, and its record is its game's. */
  ghost predicate EntryClaims(file: Str, h: Info, k: nat, c: Claim, ids: seq<nat>) {
    && 16 + 32 * h.count + 16 * k + 16 <= |file| && h.stringsOff <= |file|
    && var e := ReadExe(file, h, k);
       ReadString(file, h, e.exe) == c.name && ReadString(file, h, e.shape) == c.guard
       && e.index < |ids| && ids[e.index] == c.gid
  }

  ghost predicate AllClaim(file: Str, h: Info, cs: seq<Claim>, ids: seq<nat>) {
    h.exeCount == |cs|
    && forall k {:trigger EntryClaims(file, h, k, cs[k], ids)} ::
         0 <= k < |cs| ==> EntryClaims(file, h, k, cs[k], ids)
  }

  lemma {:induction false} EntriesClaim(file: Str, recs: seq<Record>, exes: seq<ExeEntry>, blob: Str,
        mappings: seq<Mapping>, ids: seq<nat>)
    requires ReadsBack(file, recs, exes, blob) && ExesHold(blob, exes, AllExes(mappings, |mappings|), ids)
    ensures AllClaim(file, ReadHeader(file).value, Claims(mappings), ids)
  {
    var h := ReadHeader(file).value;
    forall k | 0 <= k < |exes| ensures EntryClaims(file, h, k, Claims(mappings)[k], ids) {
      assert ReadExe(file, h, k) == exes[k];
      assert ExeHolds(blob, exes[k], AllExes(mappings, |mappings|)[k], ids);
    }
  }

  /** The entries before `n` with this name, in order. */
  function Named(cs: seq<Claim>, name: Str, n: nat): (ks: seq<nat>)
    requires n <= |cs|
    ensures forall i :: 0 <= i < |ks| ==> ks[i] < n && cs[ks[i]].name == name
  {
    if n == 0 then [] else Named(cs, name, n - 1) + if cs[n - 1].name == name then [n - 1] else []
  }

  /** The index of the executables before `n`: no entry for a name that reads as empty. */
  ghost predicate Indexes(byExe: map<Str, seq<nat>>, cs: seq<Claim>, n: nat)
    requires n <= |cs|
  {
    && (forall name :: name in byExe <==> name != [] && Named(cs, name, n) != [])
    && (forall name :: name in byExe ==> byExe[name] == Named(cs, name, n))
  }

  function WithEntry(byExe: map<Str, seq<nat>>, name: Str, n: nat): map<Str, seq<nat>> {
    if name == [] then byExe else byExe[name := (if name in byExe then byExe[name] else []) + [n]]
  }

  lemma IndexesStep(byExe: map<Str, seq<nat>>, cs: seq<Claim>, n: nat)
    requires n < |cs| && Indexes(byExe, cs, n)
    ensures Indexes(WithEntry(byExe, cs[n].name, n), cs, n + 1)
  {
  }

  /** The name of entry `i`. */
  method ExeName(file: Str, h: Info, i: nat, ghost cs: seq<Claim>, ghost ids: seq<nat>) returns (name: Str)
    requires AllClaim(file, h, cs, ids) && i < h.exeCount
    ensures i < |cs| && name == cs[i].name
  {
    assert EntryClaims(file, h, i, cs[i], ids);
    name := ReadString(file, h, ReadExe(file, h, i).exe);
  }

  method ExeGuard(file: Str, h: Info, i: nat, ghost cs: seq<Claim>, ghost ids: seq<nat>) returns (guard: Str)
    requires AllClaim(file, h, cs, ids) && i < h.exeCount
    ensures i < |cs| && guard == cs[i].guard
  {
    assert EntryClaims(file, h, i, cs[i], ids);
    guard := ReadString(file, h, ReadExe(file, h, i).shape);
  }

  /** `build_exe_map`. */
  method BuildExeMap(file: Str, ghost cs: seq<Claim>, ghost ids: seq<nat>) returns (byExe: map<Str, seq<nat>>)
    requires ReadHeader(file).Some? && AllClaim(file, ReadHeader(file).value, cs, ids)
    ensures Indexes(byExe, cs, |cs|)
  {
    var h := ReadHeader(file).value;
    byExe := map[];
    for i := 0 to h.exeCount
      invariant Indexes(byExe, cs, i)
    {
      IndexesStep(byExe, cs, i);
      var exe := ExeName(file, h, i, cs, ids);
      byExe := WithEntry(byExe, exe, i);
    }
  }

  predicate Guarded(c: Claim, name: Str, path: Str) { c.name == name && c.guard != [] && Contains(path, c.guard) }

  predicate Unguarded(c: Claim, name: Str) { c.name == name && c.guard == [] }

  /** Whose game an executable is: the first mapping of its name whose guard is part of the path, else
      the first without a guard. */
  function Claimant(cs: seq<Claim>, name: Str, path: Str): (r: Option<nat>)
    ensures r.Some? ==> r.value < |cs|
  {
    var guarded := First(cs, c => Guarded(c, name, path), |cs|);
    if name == [] then None
    else if guarded.Some? then guarded
    else First(cs, c => Unguarded(c, name), |cs|)
  }

  /** Spelled out: it has the name; either its guard is part of the path and no earlier one of the name
      is so, or it has no guard, no guard of the name is part of the path, and every earlier one of the
      name has a guard. None if there is neither. */
  lemma ClaimantIs(cs: seq<Claim>, name: Str, path: Str)
    ensures var c := Claimant(cs, name, path);
            if c.None? then
              name == [] || forall k :: 0 <= k < |cs| && cs[k].name == name ==> cs[k].guard != [] && !Contains(path, cs[k].guard)
            else
              && name != [] && cs[c.value].name == name
              && if cs[c.value].guard != [] then
                   && Contains(path, cs[c.value].guard)
                   && forall k :: 0 <= k < c.value && cs[k].name == name ==> cs[k].guard == [] || !Contains(path, cs[k].guard)
                 else
                   && (forall k :: 0 <= k < |cs| && cs[k].name == name ==> cs[k].guard == [] || !Contains(path, cs[k].guard))
                   && forall k :: 0 <= k < c.value && cs[k].name == name ==> cs[k].guard != []
  {
  }

  /** The candidates before number `n` are no match, and `free` is the first without a guard. */
  ghost predicate Searched(cs: seq<Claim>, name: Str, path: Str, ks: seq<nat>, n: nat, free: Option<nat>) {
    && n <= |ks| && (forall i :: 0 <= i < |ks| ==> ks[i] < |cs|)
    && (forall i :: 0 <= i < n ==> !Guarded(cs[ks[i]], name, path))
    && (free.None? ==> forall i :: 0 <= i < n ==> !Unguarded(cs[ks[i]], name))
    && (free.Some? ==> exists m :: 0 <= m < n && ks[m] == free.value && Unguarded(cs[ks[m]], name)
                                   && forall i :: 0 <= i < m ==> !Unguarded(cs[ks[i]], name))
  }

  /** Candidates are in the order of the file. */
  lemma {:induction false} NamedInOrder(cs: seq<Claim>, name: Str, n: nat)
    requires n <= |cs|
    ensures forall i, j :: 0 <= i < j < |Named(cs, name, n)| ==> Named(cs, name, n)[i] < Named(cs, name, n)[j]
  {
    if n > 0 { NamedInOrder(cs, name, n - 1); }
  }

  /** Every entry with the name is a candidate. */
  lemma {:induction false} NamedAll(cs: seq<Claim>, name: Str, n: nat, k: nat)
    requires k < n <= |cs| && cs[k].name == name
    ensures k in Named(cs, name, n)
  {
    if k < n - 1 { NamedAll(cs, name, n - 1, k); }
  }

  /** The first candidate that a test accepts is the first entry that it accepts, for a test that
      looks at the name. */
  lemma FirstNamed(cs: seq<Claim>, name: Str, p: Claim -> bool, m: nat)
    requires var ks := Named(cs, name, |cs|);
             m < |ks| && p(cs[ks[m]]) && forall i :: 0 <= i < m ==> !p(cs[ks[i]])
    requires forall c :: p(c) ==> c.name == name
    ensures First(cs, p, |cs|) == Some(Named(cs, name, |cs|)[m])
  {
    var ks := Named(cs, name, |cs|);
    NamedInOrder(cs, name, |cs|);
    var r := First(cs, p, |cs|);
    assert r.Some?;
    NamedAll(cs, name, |cs|, r.value);
    var i :| 0 <= i < |ks| && ks[i] == r.value;
  }

  lemma NoneNamed(cs: seq<Claim>, name: Str, p: Claim -> bool)
    requires var ks := Named(cs, name, |cs|); forall i :: 0 <= i < |ks| ==> !p(cs[ks[i]])
    requires forall c :: p(c) ==> c.name == name
    ensures First(cs, p, |cs|) == None
  {
    forall i | 0 <= i < |cs| ensures !p(cs[i]) {
      if cs[i].name == name { NamedAll(cs, name, |cs|, i); }
    }
  }

  lemma SearchedGuarded(cs: seq<Claim>, name: Str, path: Str, m: nat, free: Option<nat>)
    requires name != [] && Searched(cs, name, path, Named(cs, name, |cs|), m, free) && m < |Named(cs, name, |cs|)|
    requires Guarded(cs[Named(cs, name, |cs|)[m]], name, path)
    ensures Claimant(cs, name, path) == Some(Named(cs, name, |cs|)[m])
  {
    FirstNamed(cs, name, c => Guarded(c, name, path), m);
  }

  lemma SearchedAll(cs: seq<Claim>, name: Str, path: Str, free: Option<nat>)
    requires var ks := Named(cs, name, |cs|); name != [] && Searched(cs, name, path, ks, |ks|, free)
    ensures Claimant(cs, name, path) == free
  {
    var ks := Named(cs, name, |cs|);
    NoneNamed(cs, name, c => Guarded(c, name, path));
    if free.Some? {
      var m :| 0 <= m < |ks| && ks[m] == free.value && Unguarded(cs[ks[m]], name)
               && forall i :: 0 <= i < m ==> !Unguarded(cs[ks[i]], name);
      FirstNamed(cs, name, c => Unguarded(c, name), m);
    } else {
      NoneNamed(cs, name, c => Unguarded(c, name));
    }
  }

  /** The loop of `lookup_exe`, as far as which entry wins. */
  method Winner(file: Str, byExe: map<Str, seq<nat>>, key: Str, path: Str, ghost cs: seq<Claim>, ghost ids: seq<nat>)
    returns (k: Option<nat>)
    requires ReadHeader(file).Some? && AllClaim(file, ReadHeader(file).value, cs, ids) && Indexes(byExe, cs, |cs|)
    ensures k == Claimant(cs, key, path)
  {
    var h := ReadHeader(file).value;
    if key !in byExe {
      if key != [] { SearchedAll(cs, key, path, None); }
      return None;
    }
    var candidates, free := byExe[key], None;
    for n := 0 to |candidates|
      invariant Searched(cs, key, path, candidates, n, free)
    {
      var i := candidates[n];
      var shape := ExeGuard(file, h, i, cs, ids);
      if shape == [] {
        if free.None? { free := Some(i); }
      } else if Contains(path, shape) {
        SearchedGuarded(cs, key, path, n, free);
        return Some(i);
      }
    }
    SearchedAll(cs, key, path, free);
    k := free;
  }

  /** The record of entry `k`. */
  method GameOfEntry(file: Str, k: nat, ghost recs: seq<Record>, ghost exes: seq<ExeEntry>, ghost blob: Str,
        ghost ids: seq<nat>, ghost c: Claim, ghost games: seq<Game>, ghost covers: map<nat, Str>,
        ghost mappings: seq<Mapping>)
    returns (x: Shown)
    requires ReadsBack(file, recs, exes, blob) && k < |exes| && EntryClaims(file, ReadHeader(file).value, k, c, ids)
    requires forall i :: 0 <= i < |ids| ==> ids[i] in IdsOf(games)
    requires RecordsHold(blob, recs, Expected(games, covers, mappings, ids))
    ensures c.gid in IdsOf(games) && x == SeenOf(GameOf(games, c.gid), covers, mappings)
  {
    var index := ReadExe(file, ReadHeader(file).value, k).index;
    assert RecordHolds(blob, recs[index], Expected(games, covers, mappings, ids)[index]);
    x := EntryAt(file, index, recs, exes, blob, GameOf(games, c.gid), covers, mappings);
  }

  /** `lookup_exe`: the game of the claimant, whatever its rank. */
  method LookupExe(file: Str, exe: Str, exePath: Str, ghost games: seq<Game>, ghost covers: map<nat, Str>,
        ghost included: set<nat>, ghost mappings: seq<Mapping>)
    returns (found: Option<Shown>)
    requires HeadOf(file, games, covers, included, mappings)
    ensures var c := Claimant(Claims(mappings), LowerAscii(exe), LowerAscii(exePath));
            if c.None? then found == None
            else
              var gid := Claims(mappings)[c.value].gid;
              gid in IdsOf(games) && found == Some(SeenOf(GameOf(games, gid), covers, mappings))
  {
    ghost var recs: seq<Record>, exes: seq<ExeEntry>, blob: Str, ids: seq<nat> :|
      HeadParts(file, games, covers, included, mappings, recs, exes, blob, ids);
    ghost var cs := Claims(mappings);
    EntriesClaim(file, recs, exes, blob, mappings, ids);
    var byExe := BuildExeMap(file, cs, ids);
    var k := Winner(file, byExe, LowerAscii(exe), LowerAscii(exePath), cs, ids);
    if k.None? { return None; }
    assert EntryClaims(file, ReadHeader(file).value, k.value, cs[k.value], ids);
    var x := GameOfEntry(file, k.value, recs, exes, blob, ids, cs[k.value], games, covers, mappings);
    found := Some(x);
  }

  // ----- the mappings' own texts -----

  /** The claims by the mappings' texts as they are. */
  function OwnClaims(xs: seq<Exe>): (cs: seq<Claim>)
    ensures |cs| == |xs|
  {
    seq(|xs|, k requires 0 <= k < |xs| => Claim(xs[k].name, xs[k].path, xs[k].gid))
  }

  predicate Whole(x: Exe) { |x.name| <= 255 && |x.path| <= 255 }

  /** Texts are encoded strings, so they are well formed. */
  predicate Encoded(x: Exe) { WellFormed(x.name) && WellFormed(x.path) }

  lemma OwnClaim(x: Exe)
    requires Encoded(x)
    ensures ClaimOf(x) == Claim(x.name, x.path, x.gid) <==> Whole(x)
  {
    ReadBackIsCut(x.name);
    ReadBackIsCut(x.path);
  }

  /** The claims that the client sees are those of the mappings themselves if and only if no name or
      path is longer than 255 bytes; then the claimant is the one by the mappings' own texts. */
  lemma ClaimsAreOwn(xs: seq<Exe>)
    requires forall k :: 0 <= k < |xs| ==> Encoded(xs[k])
    ensures ClaimsOf(xs) == OwnClaims(xs) <==> forall k :: 0 <= k < |xs| ==> Whole(xs[k])
  {
    var cs, own := ClaimsOf(xs), OwnClaims(xs);
    forall k | 0 <= k < |xs| ensures cs[k] == own[k] <==> Whole(xs[k]) { OwnClaim(xs[k]); }
    if cs == own {
      forall k | 0 <= k < |xs| ensures Whole(xs[k]) { assert cs[k] == own[k]; }
    }
  }

  /** The script lowers every letter, the client those of ASCII: a process whose name has an accented
      capital (here U+00C9) is not found under the name that the script stored (U+00E9). */
  lemma CapitalIsMissed(cs: seq<Claim>, rest: Str, path: Str)
    requires forall k :: 0 <= k < |cs| ==> cs[k].name == [0xC3, 0xA9] + rest
    ensures Claimant(cs, LowerAscii([0xC3, 0x89] + rest), path) == None
  {
    var key := LowerAscii([0xC3, 0x89] + rest);
    assert key[1] == 0x89;
    forall k | 0 <= k < |cs| ensures cs[k].name != key { assert cs[k].name[1] == 0xA9; }
  }

  predicate IsCapital(b: Byte) { 'A' as int <= b <= 'Z' as int }

  /** The same letter, or the capital of it. */
  predicate SpelledAs(b: Byte, lowered: Byte) {
    if IsCapital(b) then exists l :: 0 <= l < 26 && b == "ABCDEFGHIJKLMNOPQRSTUVWXYZ"[l] as int
                                     && lowered == "abcdefghijklmnopqrstuvwxyz"[l] as int
    else b == lowered
  }

  lemma Letter(l: nat)
    requires l < 26
    ensures "ABCDEFGHIJKLMNOPQRSTUVWXYZ"[l] as int == 65 + l && "abcdefghijklmnopqrstuvwxyz"[l] as int == 97 + l
  {
  }

  lemma LowerByteIs(b: Byte, lowered: Byte)
    ensures LowerByte(b) == lowered <==> SpelledAs(b, lowered)
  {
    if IsCapital(b) {
      Letter(b - 65);
      if l :| 0 <= l < 26 && b == "ABCDEFGHIJKLMNOPQRSTUVWXYZ"[l] as int
              && lowered == "abcdefghijklmnopqrstuvwxyz"[l] as int { Letter(l); }
    }
  }

  /** Capitals of ASCII do not matter: a process is looked up under a name exactly when it is that name
      with some of its letters as capitals. */
  lemma AsciiCapitalsAreFound(exe: Str, name: Str)
    ensures LowerAscii(exe) == name <==> |exe| == |name| && forall i :: 0 <= i < |exe| ==> SpelledAs(exe[i], name[i])
  {
    forall i | 0 <= i < |exe| && |exe| == |name| ensures LowerByte(exe[i]) == name[i] <==> SpelledAs(exe[i], name[i]) {
      LowerByteIs(exe[i], name[i]);
    }
    if LowerAscii(exe) == name {
      forall i | 0 <= i < |exe| ensures SpelledAs(exe[i], name[i]) { assert LowerAscii(exe)[i] == name[i]; }
    }
  }
}
