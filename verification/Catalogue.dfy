/** What goes into the catalogue (scripts/build_catalogue.py: `resolve_mappings`, `build_head`). Texts
    are UTF-8 bytes, lower-cased where the script lower-cases them; `short` is the derived short name. */
module Catalogue {
  import opened Collections
  import opened Bytes
  import opened StringBlobs
  import opened Wrappers

  datatype Game = Game(id: nat, name: Str, slug: Str, short: Str)

  datatype Mapping = Mapping(gid: nat, gameId: Str, path: Str, exes: seq<Str>)

  /** A game's strings as they are stored or read. */
  datatype Shown = Shown(id: nat, name: Str, slug: Str, short: Str, cover: Str, gameId: Str)

  predicate DistinctGames(games: seq<Game>) {
    forall i, j :: 0 <= i < j < |games| ==> games[i].id != games[j].id
  }

  function IdsOf(games: seq<Game>): set<nat> { set i | 0 <= i < |games| :: games[i].id }

  // ----- the most popular games -----

  function Score(popularity: map<nat, int>, g: Game): int { if g.id in popularity then popularity[g.id] else 0 }

  /** Game `a` goes before game `b`: more popular, or as popular and earlier in the dump. */
  predicate Beats(games: seq<Game>, popularity: map<nat, int>, a: nat, b: nat) {
    && a < |games| && b < |games|
    && (Score(popularity, games[a]) > Score(popularity, games[b])
        || (Score(popularity, games[a]) == Score(popularity, games[b]) && a < b))
  }

  function InsertRanked(games: seq<Game>, popularity: map<nat, int>, a: nat, order: seq<nat>): (r: seq<nat>)
    requires a < |games| && forall k :: 0 <= k < |order| ==> order[k] < |games|
    ensures forall k :: 0 <= k < |r| ==> r[k] < |games|
  {
    if order == [] || Score(popularity, games[a]) >= Score(popularity, games[order[0]]) then [a] + order
    else [order[0]] + InsertRanked(games, popularity, a, order[1..])
  }

  /** The stable descending sort, as places in the dump. */
  function Ranked(games: seq<Game>, popularity: map<nat, int>, from: nat): (order: seq<nat>)
    requires from <= |games|
    ensures forall k :: 0 <= k < |order| ==> order[k] < |games|
    decreases |games| - from
  {
    if from == |games| then [] else InsertRanked(games, popularity, from, Ranked(games, popularity, from + 1))
  }

  ghost predicate InOrder(games: seq<Game>, popularity: map<nat, int>, order: seq<nat>) {
    forall i, j :: 0 <= i < j < |order| ==> Beats(games, popularity, order[i], order[j])
  }

  lemma {:induction false} InsertInOrder(games: seq<Game>, popularity: map<nat, int>, a: nat, order: seq<nat>)
    requires a < |games| && InOrder(games, popularity, order)
    requires forall k :: 0 <= k < |order| ==> a < order[k] < |games|
    ensures InOrder(games, popularity, InsertRanked(games, popularity, a, order))
    ensures forall x :: x in InsertRanked(games, popularity, a, order) <==> x == a || x in order
    ensures |InsertRanked(games, popularity, a, order)| == |order| + 1
  {
    if order == [] || Score(popularity, games[a]) >= Score(popularity, games[order[0]]) {
    } else {
      var rest := InsertRanked(games, popularity, a, order[1..]);
      InsertInOrder(games, popularity, a, order[1..]);
      assert order == [order[0]] + order[1..];
      forall j | 0 <= j < |rest| ensures Beats(games, popularity, order[0], rest[j]) {
        assert rest[j] in rest;
        if rest[j] != a { var k :| 0 <= k < |order[1..]| && order[1..][k] == rest[j]; assert order[k + 1] == rest[j]; }
      }
    }
  }

  lemma {:induction false} RankedInOrder(games: seq<Game>, popularity: map<nat, int>, from: nat)
    requires from <= |games|
    ensures InOrder(games, popularity, Ranked(games, popularity, from))
    ensures forall x :: x in Ranked(games, popularity, from) <==> from <= x < |games|
    ensures |Ranked(games, popularity, from)| == |games| - from
    decreases |games| - from
  {
    if from < |games| {
      var order := Ranked(games, popularity, from + 1);
      RankedInOrder(games, popularity, from + 1);
      forall k | 0 <= k < |order| ensures from < order[k] < |games| { assert order[k] in order; }
      InsertInOrder(games, popularity, from, order);
    }
  }

  /** Python's `xs[:size]` of a list of `n`. */
  function Taken(size: int, n: nat): (t: nat)
    ensures t <= n
  {
    if size >= n then n else if size >= 0 then size else if n + size >= 0 then n + size else 0
  }

  function TopPlaces(games: seq<Game>, popularity: map<nat, int>, size: int): (top: seq<nat>)
    ensures forall k :: 0 <= k < |top| ==> top[k] < |games|
  {
    RankedInOrder(games, popularity, 0);
    Ranked(games, popularity, 0)[..Taken(size, |games|)]
  }

  lemma BeatsMeansBefore(games: seq<Game>, popularity: map<nat, int>, order: seq<nat>, k: nat, b: nat)
    requires InOrder(games, popularity, order) && k < |order| && b in order
    ensures Beats(games, popularity, b, order[k]) <==> b in order[..k]
  {
    var j :| 0 <= j < |order| && order[j] == b;
    if j < k { assert order[..k][j] == b; }
    if b in order[..k] { var i :| 0 <= i < k && order[..k][i] == b; assert Beats(games, popularity, order[i], order[k]); }
  }

  /** A game makes the list exactly when fewer games beat it than the list has places. */
  lemma TopByRank(games: seq<Game>, popularity: map<nat, int>, size: int, a: nat)
    requires a < |games|
    ensures a in TopPlaces(games, popularity, size)
            <==> |set b | 0 <= b < |games| && Beats(games, popularity, b, a)| < Taken(size, |games|)
  {
    var order := Ranked(games, popularity, 0);
    RankedInOrder(games, popularity, 0);
    assert a in order;
    var k :| 0 <= k < |order| && order[k] == a;
    forall b | 0 <= b < |games| ensures Beats(games, popularity, b, a) <==> b in order[..k] {
      BeatsMeansBefore(games, popularity, order, k, b);
    }
    assert (set b | 0 <= b < |games| && Beats(games, popularity, b, a)) == SetOf(order[..k]);
    forall i, j | 0 <= i < j < |order| ensures order[i] != order[j] { assert Beats(games, popularity, order[i], order[j]); }
    DistinctSize(order[..k]);
  }

  // ----- what goes in -----

  function TopIds(games: seq<Game>, popularity: map<nat, int>, size: int): set<nat> {
    var top := TopPlaces(games, popularity, size);
    set k | 0 <= k < |top| :: games[top[k]].id
  }

  function Curated(mappings: seq<Mapping>): set<nat> { set j | 0 <= j < |mappings| :: mappings[j].gid }

  function Included(games: seq<Game>, popularity: map<nat, int>, size: int, mappings: seq<Mapping>): set<nat> {
    TopIds(games, popularity, size) + (Curated(mappings) * IdsOf(games))
  }

  /** Game `b` is more popular than game `a`, or as popular and before it in the dump; a game that
      nobody counted has popularity 0. */
  predicate Outranks(games: seq<Game>, popularity: map<nat, int>, b: nat, a: nat)
    requires a < |games| && b < |games|
  {
    var pa := if games[a].id in popularity then popularity[games[a].id] else 0;
    var pb := if games[b].id in popularity then popularity[games[b].id] else 0;
    pb > pa || (pb == pa && b < a)
  }

  /** Fewer than `size` games outrank game `a`; a negative size counts from the end. */
  predicate InTop(games: seq<Game>, popularity: map<nat, int>, size: int, a: nat)
    requires a < |games|
  {
    |set b | 0 <= b < |games| && Outranks(games, popularity, b, a)| < if size >= 0 then size else |games| + size
  }

  ghost predicate IsIncluded(games: seq<Game>, popularity: map<nat, int>, size: int, mappings: seq<Mapping>, id: nat) {
    exists a: nat :: a < |games| && games[a].id == id
                     && (InTop(games, popularity, size, a) || exists j :: 0 <= j < |mappings| && mappings[j].gid == id)
  }

  /** All places but `a`. */
  function Others(n: nat, a: nat): (r: set<int>)
    ensures forall b :: b in r <==> 0 <= b < n && b != a
    ensures |r| == if a < n then n - 1 else n
  {
    if n == 0 then {} else if n - 1 == a then Others(n - 1, a) else Others(n - 1, a) + {n - 1}
  }

  lemma SubsetSize(a: set<int>, b: set<int>)
    requires a <= b
    ensures |a| <= |b|
  {
    assert b == a + (b - a);
  }

  lemma TopIsTop(games: seq<Game>, popularity: map<nat, int>, size: int, a: nat)
    requires a < |games|
    ensures a in TopPlaces(games, popularity, size) <==> InTop(games, popularity, size, a)
  {
    TopByRank(games, popularity, size, a);
    var ahead := set b | 0 <= b < |games| && Outranks(games, popularity, b, a);
    assert ahead == set b | 0 <= b < |games| && Beats(games, popularity, b, a);
    SubsetSize(ahead, Others(|games|, a));
  }

  lemma InTopIds(games: seq<Game>, popularity: map<nat, int>, size: int, id: nat)
    ensures id in TopIds(games, popularity, size)
            <==> exists a: nat :: a < |games| && games[a].id == id && a in TopPlaces(games, popularity, size)
  {
    var top := TopPlaces(games, popularity, size);
    if id in TopIds(games, popularity, size) {
      var k :| 0 <= k < |top| && games[top[k]].id == id;
      assert top[k] in top;
    }
    if a: nat :| a < |games| && games[a].id == id && a in top {
      var k :| 0 <= k < |top| && top[k] == a;
      assert games[top[k]].id == id;
    }
  }

  /** Included are exactly the most popular games of the dump and its curated ones. */
  lemma IncludedIs(games: seq<Game>, popularity: map<nat, int>, size: int, mappings: seq<Mapping>, id: nat)
    ensures id in Included(games, popularity, size, mappings) <==> IsIncluded(games, popularity, size, mappings, id)
  {
    InTopIds(games, popularity, size, id);
    forall a: nat | a < |games|
      ensures a in TopPlaces(games, popularity, size) <==> InTop(games, popularity, size, a)
    {
      TopIsTop(games, popularity, size, a);
    }
  }

  function GameOf(games: seq<Game>, id: nat): (g: Game)
    requires id in IdsOf(games)
    ensures g in games && g.id == id
  {
    if games[0].id == id then games[0] else GameOf(games[1..], id)
  }

  /** The curated id of the last mapping for the game, or its slug. */
  function GameIdOf(mappings: seq<Mapping>, g: Game): Str {
    if mappings == [] then g.slug
    else
      var last := mappings[|mappings| - 1];
      if last.gid == g.id then last.gameId else GameIdOf(mappings[..|mappings| - 1], g)
  }

  /** The last mapping for a game gives its curated id. */
  lemma {:induction false} LastMappingWins(mappings: seq<Mapping>, g: Game, j: nat)
    requires j < |mappings| && mappings[j].gid == g.id && forall k :: j < k < |mappings| ==> mappings[k].gid != g.id
    ensures GameIdOf(mappings, g) == mappings[j].gameId
  {
    if j < |mappings| - 1 { LastMappingWins(mappings[..|mappings| - 1], g, j); }
  }

  lemma {:induction false} NoMappingNoId(mappings: seq<Mapping>, g: Game)
    requires forall j :: 0 <= j < |mappings| ==> mappings[j].gid != g.id
    ensures GameIdOf(mappings, g) == g.slug
  {
    if mappings != [] { NoMappingNoId(mappings[..|mappings| - 1], g); }
  }

  function CoverOf(covers: map<nat, Str>, id: nat): Str { if id in covers then covers[id] else [] }

  function ShownOf(g: Game, covers: map<nat, Str>, mappings: seq<Mapping>): Shown {
    Shown(g.id, Cut(g.name), Cut(g.slug), Cut(g.short), Cut(CoverOf(covers, g.id)), Cut(GameIdOf(mappings, g)))
  }

  lemma TopIdsKnown(games: seq<Game>, popularity: map<nat, int>, size: int)
    ensures TopIds(games, popularity, size) <= IdsOf(games)
  {
  }

  // ----- executables -----

  /** An executable of a mapping. */
  datatype Exe = Exe(gid: nat, name: Str, path: Str)

  /** `xs` and the first `k` executables of a mapping. */
  function WithExes(xs: seq<Exe>, m: Mapping, k: nat): (ys: seq<Exe>)
    requires k <= |m.exes|
    ensures |ys| == |xs| + k
  {
    if k == 0 then xs else WithExes(xs, m, k - 1) + [Exe(m.gid, m.exes[k - 1], m.path)]
  }

  /** The executables of the first `j` mappings, in order. */
  function AllExes(mappings: seq<Mapping>, j: nat): (xs: seq<Exe>)
    requires j <= |mappings|
  {
    if j == 0 then [] else WithExes(AllExes(mappings, j - 1), mappings[j - 1], |mappings[j - 1].exes|)
  }

  function ExeTotal(mappings: seq<Mapping>): nat { |AllExes(mappings, |mappings|)| }

  lemma {:induction false} ExesKept(xs: seq<Exe>, m: Mapping, n: nat)
    requires n <= |m.exes|
    ensures xs <= WithExes(xs, m, n)
  {
    if n > 0 { ExesKept(xs, m, n - 1); }
  }

  lemma {:induction false} ExeAdded(xs: seq<Exe>, m: Mapping, n: nat, k: nat)
    requires k < n <= |m.exes|
    ensures WithExes(xs, m, n)[|xs| + k] == Exe(m.gid, m.exes[k], m.path)
  {
    if k < n - 1 { ExeAdded(xs, m, n - 1, k); }
  }

  /** The executables of mapping `j` follow those of the mappings before it, each with the mapping's
      game and path. */
  lemma {:induction false} ExesInOrder(mappings: seq<Mapping>, n: nat, j: nat, k: nat)
    requires j < n <= |mappings| && k < |mappings[j].exes|
    ensures |AllExes(mappings, j + 1)| == |AllExes(mappings, j)| + |mappings[j].exes|
    ensures |AllExes(mappings, j)| + k < |AllExes(mappings, n)|
    ensures AllExes(mappings, n)[|AllExes(mappings, j)| + k]
            == Exe(mappings[j].gid, mappings[j].exes[k], mappings[j].path)
  {
    if j < n - 1 {
      ExesInOrder(mappings, n - 1, j, k);
      ExesKept(AllExes(mappings, n - 1), mappings[n - 1], |mappings[n - 1].exes|);
    } else {
      ExeAdded(AllExes(mappings, j), mappings[j], |mappings[j].exes|, k);
    }
  }

  // ----- curated slugs -----

  datatype Raw = Raw(gameId: Str, slug: Str, path: Str, exes: seq<Str>)

  datatype Resolution = Resolved(mappings: seq<Mapping>) | Unresolved(missing: seq<(Str, Str)>)

  /** Dashes become spaces. */
  function Words(slug: Str): (w: Str)
    ensures |w| == |slug|
  {
    seq(|slug|, i requires 0 <= i < |slug| => if slug[i] == 0x2D then 0x20 as Byte else slug[i])
  }

  /** `lower` stands for Python's. */
  function Resolve(slug: Str, slugToId: map<Str, nat>, altNames: map<Str, nat>, lower: Str -> Str): Option<nat> {
    if slug in slugToId then Some(slugToId[slug])
    else if lower(Words(slug)) in altNames then Some(altNames[lower(Words(slug))])
    else None
  }

  /** A known slug decides; else the slug with spaces for its dashes, in lower case, if it is an
      alternative name; else nothing does. */
  lemma ResolveIs(slug: Str, words: Str, slugToId: map<Str, nat>, altNames: map<Str, nat>, lower: Str -> Str)
    requires |words| == |slug|
    requires forall i :: 0 <= i < |slug| ==> words[i] == if slug[i] == '-' as int then ' ' as int else slug[i]
    ensures slug in slugToId ==> Resolve(slug, slugToId, altNames, lower) == Some(slugToId[slug])
    ensures slug !in slugToId && lower(words) in altNames ==>
              Resolve(slug, slugToId, altNames, lower) == Some(altNames[lower(words)])
    ensures slug !in slugToId && lower(words) !in altNames ==> Resolve(slug, slugToId, altNames, lower) == None
  {
    assert Words(slug) == words;
  }

  ghost predicate ResolvedAs(m: Mapping, raw: Raw, slugToId: map<Str, nat>, altNames: map<Str, nat>, lower: Str -> Str) {
    && Resolve(raw.slug, slugToId, altNames, lower) == Some(m.gid)
    && m == Mapping(m.gid, raw.gameId, raw.path, raw.exes)
  }

  /** The mappings that do not resolve, in their order. */
  function Missing(raws: seq<Raw>, slugToId: map<Str, nat>, altNames: map<Str, nat>, lower: Str -> Str, j: nat)
    : (ms: seq<(Str, Str)>)
    requires j <= |raws|
  {
    if j == 0 then []
    else
      var raw := raws[j - 1];
      Missing(raws, slugToId, altNames, lower, j - 1)
      + if Resolve(raw.slug, slugToId, altNames, lower).None? then [(raw.gameId, raw.slug)] else []
  }

  /** Every mapping that does not resolve is reported, after those before it. */
  lemma {:induction false} MissingAt(raws: seq<Raw>, slugToId: map<Str, nat>, altNames: map<Str, nat>,
        lower: Str -> Str, n: nat, j: nat)
    requires j < n <= |raws| && Resolve(raws[j].slug, slugToId, altNames, lower).None?
    ensures var at := |Missing(raws, slugToId, altNames, lower, j)|;
            at < |Missing(raws, slugToId, altNames, lower, n)|
            && Missing(raws, slugToId, altNames, lower, n)[at] == (raws[j].gameId, raws[j].slug)
  {
    if j < n - 1 { MissingAt(raws, slugToId, altNames, lower, n - 1, j); }
  }

  /** And no other. */
  lemma {:induction false} OnlyMissing(raws: seq<Raw>, slugToId: map<Str, nat>, altNames: map<Str, nat>,
        lower: Str -> Str, n: nat, x: (Str, Str)) returns (j: nat)
    requires n <= |raws| && x in Missing(raws, slugToId, altNames, lower, n)
    ensures j < n && x == (raws[j].gameId, raws[j].slug) && Resolve(raws[j].slug, slugToId, altNames, lower).None?
  {
    if x in Missing(raws, slugToId, altNames, lower, n - 1) {
      j := OnlyMissing(raws, slugToId, altNames, lower, n - 1, x);
    } else {
      j := n - 1;
    }
  }

  /** All mappings resolved in their order, or the ones that did not resolve. */
  method ResolveMappings(raws: seq<Raw>, slugToId: map<Str, nat>, altNames: map<Str, nat>, lower: Str -> Str)
    returns (r: Resolution)
    ensures r.Resolved? <==> forall j :: 0 <= j < |raws| ==> Resolve(raws[j].slug, slugToId, altNames, lower).Some?
    ensures r.Resolved? ==> |r.mappings| == |raws|
                            && forall j :: 0 <= j < |raws| ==> ResolvedAs(r.mappings[j], raws[j], slugToId, altNames, lower)
    ensures r.Unresolved? ==> r.missing == Missing(raws, slugToId, altNames, lower, |raws|)
  {
    var resolved: seq<Mapping>, missing: seq<(Str, Str)> := [], [];
    for j := 0 to |raws|
      invariant missing == Missing(raws, slugToId, altNames, lower, j)
      invariant missing == [] <==> forall i :: 0 <= i < j ==> Resolve(raws[i].slug, slugToId, altNames, lower).Some?
      invariant missing == [] ==> |resolved| == j
                                  && forall i :: 0 <= i < j ==> ResolvedAs(resolved[i], raws[i], slugToId, altNames, lower)
    {
      var raw := raws[j];
      var gid := Resolve(raw.slug, slugToId, altNames, lower);
      if gid.None? {
        missing := missing + [(raw.gameId, raw.slug)];
      } else {
        resolved := resolved + [Mapping(gid.value, raw.gameId, raw.path, raw.exes)];
      }
    }
    r := if missing != [] then Unresolved(missing) else Resolved(resolved);
  }

  /** Slugs and alternative names that lead to games of the dump resolve to games of the dump, so
      writing the head never meets a game it has no record for. */
  lemma ResolvedAreKnown(games: seq<Game>, raws: seq<Raw>, mappings: seq<Mapping>, slugToId: map<Str, nat>,
        altNames: map<Str, nat>, lower: Str -> Str)
    requires slugToId.Values <= IdsOf(games) && altNames.Values <= IdsOf(games)
    requires |mappings| == |raws|
    requires forall j :: 0 <= j < |raws| ==> ResolvedAs(mappings[j], raws[j], slugToId, altNames, lower)
    ensures Curated(mappings) <= IdsOf(games)
  {
    forall j | 0 <= j < |mappings| ensures mappings[j].gid in IdsOf(games) {
      assert ResolvedAs(mappings[j], raws[j], slugToId, altNames, lower);
    }
  }
}
