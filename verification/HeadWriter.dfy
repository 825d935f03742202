/** Writing head.bin (scripts/build_catalogue.py, `build_head`). */
module HeadWriter {
  import opened Collections
  import opened Bytes
  import opened StringBlobs
  import opened HeadFormat
  import opened SortedKeys
  import opened Catalogue
  import opened Wrappers

  // ----- what the tables must hold -----

  ghost predicate Holds(buf: Str, r: Ref, s: Str) {
    r.off + r.len <= |buf| && r.len <= 255 && ReadAt(buf, r) == s
  }

  ghost predicate RecordHolds(buf: Str, r: Record, x: Shown) {
    && r.id == x.id
    && Holds(buf, r.name, x.name) && Holds(buf, r.slug, x.slug) && Holds(buf, r.short, x.short)
    && Holds(buf, r.cover, x.cover) && Holds(buf, r.gameId, x.gameId)
  }

  lemma HoldsStays(buf: Str, more: Str, r: Ref, s: Str)
    requires Holds(buf, r, s) && buf <= more
    ensures Holds(more, r, s)
  {
    ReadsStay(buf, more, r);
  }

  ghost predicate ExeHolds(buf: Str, e: ExeEntry, x: Exe, ids: seq<nat>) {
    && Holds(buf, e.exe, Cut(x.name)) && Holds(buf, e.shape, Cut(x.path))
    && e.index < |ids| && ids[e.index] == x.gid
  }

  ghost predicate RecordsHold(buf: Str, recs: seq<Record>, shown: seq<Shown>) {
    && |recs| == |shown|
    && forall i :: 0 <= i < |recs| ==> recs[i].Fits() && RecordHolds(buf, recs[i], shown[i])
  }

  ghost predicate ExesHold(buf: Str, exes: seq<ExeEntry>, xs: seq<Exe>, ids: seq<nat>) {
    && |exes| == |xs|
    && forall k :: 0 <= k < |exes| ==> exes[k].Fits() && ExeHolds(buf, exes[k], xs[k], ids)
  }

  lemma RecordStays(buf: Str, more: Str, r: Record, x: Shown)
    requires RecordHolds(buf, r, x) && buf <= more
    ensures RecordHolds(more, r, x)
  {
    HoldsStays(buf, more, r.name, x.name);
    HoldsStays(buf, more, r.slug, x.slug);
    HoldsStays(buf, more, r.short, x.short);
    HoldsStays(buf, more, r.cover, x.cover);
    HoldsStays(buf, more, r.gameId, x.gameId);
  }

  lemma RecordsStay(buf: Str, more: Str, recs: seq<Record>, shown: seq<Shown>)
    requires RecordsHold(buf, recs, shown) && buf <= more
    ensures RecordsHold(more, recs, shown)
  {
    forall i | 0 <= i < |recs| ensures RecordHolds(more, recs[i], shown[i]) {
      RecordStays(buf, more, recs[i], shown[i]);
    }
  }

  lemma ExesStay(buf: Str, more: Str, exes: seq<ExeEntry>, xs: seq<Exe>, ids: seq<nat>)
    requires ExesHold(buf, exes, xs, ids) && buf <= more
    ensures ExesHold(more, exes, xs, ids)
  {
    forall k | 0 <= k < |exes| ensures ExeHolds(more, exes[k], xs[k], ids) {
      HoldsStays(buf, more, exes[k].exe, Cut(xs[k].name));
      HoldsStays(buf, more, exes[k].shape, Cut(xs[k].path));
    }
  }

  // ----- the strings of a file, in the order they are stored -----

  const EMPTY := Blob([], map[])

  /** The five strings of a game's record. */
  function GameItems(g: Game, covers: map<nat, Str>, mappings: seq<Mapping>): seq<Item> {
    [Item(g.name, true), Item(g.slug, true), Item(g.short, true), Item(CoverOf(covers, g.id), true),
     Item(GameIdOf(mappings, g), true)]
  }

  /** The items of a file, the blob before each and at the end, and where each goes. */
  datatype Plan = Plan(items: seq<Item>, blobs: seq<Blob>, refs: seq<Ref>)

  ghost predicate PlanStep(p: Plan, n: nat) {
    && n < |p.items| == |p.refs| && |p.blobs| == |p.items| + 1 && p.blobs[n].Valid()
    && (p.blobs[n + 1], p.refs[n]) == Added(p.blobs[n], p.items[n].text)
  }

  ghost predicate Good(p: Plan) {
    && |p.items| == |p.refs| && |p.blobs| == |p.items| + 1
    && forall n {:trigger PlanStep(p, n)} :: 0 <= n < |p.items| ==> PlanStep(p, n)
  }

  /** There is such a plan, from an empty blob. */
  lemma Planned(items: seq<Item>) returns (p: Plan)
    ensures Good(p) && p.items == items && p.blobs[0] == EMPTY
    ensures forall k :: 0 <= k < |items| ==> p.refs[k] == RefOf(EMPTY, items, k)
  {
    p := Plan(items, seq(|items| + 1, n requires 0 <= n <= |items| => Stored(EMPTY, items, n)),
              seq(|items|, n requires 0 <= n < |items| => RefOf(EMPTY, items, n)));
    forall n | 0 <= n < |items| ensures PlanStep(p, n) { StoredSize(EMPTY, items, n); }
  }

  /** What has been added so far is the start of the plan. */
  ghost predicate Follows(blob: StringBlob, p: Plan)
    reads blob
  {
    Good(p) && blob.count < |p.blobs| && blob.View() == p.blobs[blob.count]
  }

  /** All items from `lo` up to `hi` fit. */
  ghost predicate Fit(p: Plan, lo: nat, hi: nat) {
    hi <= |p.items| == |p.refs| && forall k :: lo <= k < hi ==> p.items[k].packed ==> p.refs[k].off < U32
  }

  lemma FitJoin(p: Plan, lo: nat, mid: nat, hi: nat)
    requires lo <= mid <= hi <= |p.items| == |p.refs|
    ensures Fit(p, lo, hi) <==> Fit(p, lo, mid) && Fit(p, mid, hi)
  {
  }

  lemma FitOne(p: Plan, n: nat)
    requires n < |p.items| == |p.refs|
    ensures Fit(p, n, n + 1) <==> (p.items[n].packed ==> p.refs[n].off < U32)
  {
  }

  method AddItem(blob: StringBlob, text: Str, ghost p: Plan, ghost n: nat) returns (r: Ref)
    requires Follows(blob, p) && blob.count == n && n < |p.items| && p.items[n].text == text
    modifies blob
    ensures Follows(blob, p) && blob.count == n + 1 && old(blob.buf) <= blob.buf
    ensures r == p.refs[n] && Holds(blob.buf, r, Cut(text))
  {
    assert PlanStep(p, n);
    r := blob.Add(text);
  }

  /** The five items from `n` on are those of a record. */
  ghost predicate RecordPlanned(p: Plan, n: nat, r: Record) {
    && n + 5 <= |p.refs| && p.refs[n] == r.name && p.refs[n + 1] == r.slug && p.refs[n + 2] == r.short
    && p.refs[n + 3] == r.cover && p.refs[n + 4] == r.gameId
  }

  lemma RecordFits(p: Plan, n: nat, r: Record)
    requires RecordPlanned(p, n, r) && |p.items| == |p.refs|
    requires p.items[n].packed && p.items[n + 1].packed && p.items[n + 2].packed && p.items[n + 3].packed
    requires p.items[n + 4].packed
    requires r.name.len < 256 && r.slug.len < 256 && r.short.len < 256 && r.cover.len < 256 && r.gameId.len < 256
    ensures r.Fits() <==> r.id < U32 && Fit(p, n, n + 5)
  {
  }

  ghost predicate ListsGame(items: seq<Item>, n: nat, g: Game, covers: map<nat, Str>, mappings: seq<Mapping>) {
    && n + 5 <= |items| && items[n] == Item(g.name, true) && items[n + 1] == Item(g.slug, true)
    && items[n + 2] == Item(g.short, true) && items[n + 3] == Item(CoverOf(covers, g.id), true)
    && items[n + 4] == Item(GameIdOf(mappings, g), true)
  }

  lemma GameItemsAt(items: seq<Item>, n: nat, g: Game, covers: map<nat, Str>, mappings: seq<Mapping>)
    requires n + 5 <= |items| && items[n..n + 5] == GameItems(g, covers, mappings)
    ensures ListsGame(items, n, g, covers, mappings)
  {
    var five := items[n..n + 5];
    assert five[0] == items[n] && five[1] == items[n + 1] && five[2] == items[n + 2];
    assert five[3] == items[n + 3] && five[4] == items[n + 4];
  }

  method AddGame(blob: StringBlob, g: Game, covers: map<nat, Str>, mappings: seq<Mapping>, ghost p: Plan, ghost n: nat)
    returns (r: Record)
    requires Follows(blob, p) && blob.count == n
    requires ListsGame(p.items, n, g, covers, mappings)
    modifies blob
    ensures Follows(blob, p) && blob.count == n + 5 && old(blob.buf) <= blob.buf
    ensures RecordHolds(blob.buf, r, ShownOf(g, covers, mappings))
    ensures r.Fits() <==> g.id < U32 && Fit(p, n, n + 5)
  {
    var x := ShownOf(g, covers, mappings);
    var name := AddItem(blob, g.name, p, n);
    ghost var b1 := blob.buf;
    var slug := AddItem(blob, g.slug, p, n + 1);
    ghost var b2 := blob.buf;
    var short := AddItem(blob, g.short, p, n + 2);
    ghost var b3 := blob.buf;
    var cover := AddItem(blob, CoverOf(covers, g.id), p, n + 3);
    ghost var b4 := blob.buf;
    var gameId := AddItem(blob, GameIdOf(mappings, g), p, n + 4);
    r := Record(g.id, name, slug, short, cover, gameId);
    HoldsStays(b1, blob.buf, name, x.name);
    HoldsStays(b2, blob.buf, slug, x.slug);
    HoldsStays(b3, blob.buf, short, x.short);
    HoldsStays(b4, blob.buf, cover, x.cover);
    RecordFits(p, n, r);
  }

  function RecordItems(games: seq<Game>, covers: map<nat, Str>, mappings: seq<Mapping>, ids: seq<nat>,
        n: nat): (r: seq<Item>)
    requires n <= |ids| && forall i :: 0 <= i < |ids| ==> ids[i] in IdsOf(games)
    ensures |r| == 5 * n
  {
    if n == 0 then []
    else RecordItems(games, covers, mappings, ids, n - 1) + GameItems(GameOf(games, ids[n - 1]), covers, mappings)
  }

  function MappingItems(m: Mapping): (r: seq<Item>)
    ensures |r| == 1 + |m.exes|
  {
    [Item(m.path, m.exes != [])] + seq(|m.exes|, k requires 0 <= k < |m.exes| => Item(m.exes[k], true))
  }

  function ExeItems(mappings: seq<Mapping>, j: nat): (r: seq<Item>)
    requires j <= |mappings|
    ensures |r| == j + |AllExes(mappings, j)|
  {
    if j == 0 then [] else ExeItems(mappings, j - 1) + MappingItems(mappings[j - 1])
  }

  function AllItems(games: seq<Game>, covers: map<nat, Str>, mappings: seq<Mapping>, ids: seq<nat>): seq<Item>
    requires forall i :: 0 <= i < |ids| ==> ids[i] in IdsOf(games)
  {
    RecordItems(games, covers, mappings, ids, |ids|) + ExeItems(mappings, |mappings|)
  }

  lemma SliceBefore<T>(a: seq<T>, b: seq<T>, lo: nat, hi: nat)
    requires lo <= hi <= |a|
    ensures (a + b)[lo..hi] == a[lo..hi]
  {
  }

  lemma SliceAfter<T>(a: seq<T>, b: seq<T>, lo: nat, hi: nat)
    requires lo <= hi <= |b|
    ensures (a + b)[|a| + lo..|a| + hi] == b[lo..hi]
  {
  }

  lemma {:induction false} RecordItemsAt(games: seq<Game>, covers: map<nat, Str>, mappings: seq<Mapping>, ids: seq<nat>,
        n: nat, i: nat)
    requires i < n <= |ids| && forall k :: 0 <= k < |ids| ==> ids[k] in IdsOf(games)
    ensures RecordItems(games, covers, mappings, ids, n)[5 * i..5 * i + 5]
            == GameItems(GameOf(games, ids[i]), covers, mappings)
  {
    var before := RecordItems(games, covers, mappings, ids, n - 1);
    if i < n - 1 {
      RecordItemsAt(games, covers, mappings, ids, n - 1, i);
      SliceBefore(before, GameItems(GameOf(games, ids[n - 1]), covers, mappings), 5 * i, 5 * i + 5);
    } else {
      SliceAfter(before, GameItems(GameOf(games, ids[n - 1]), covers, mappings), 0, 5);
    }
  }

  /** Where the items of mapping `j` start among those of all mappings. */
  function ExeStart(mappings: seq<Mapping>, j: nat): nat
    requires j <= |mappings|
  {
    j + |AllExes(mappings, j)|
  }

  lemma {:induction false} ExeItemsAt(mappings: seq<Mapping>, n: nat, j: nat)
    requires j < n <= |mappings|
    ensures var at := ExeStart(mappings, j);
            && at + 1 + |mappings[j].exes| == ExeStart(mappings, j + 1) <= |ExeItems(mappings, n)|
            && ExeItems(mappings, n)[at..at + 1 + |mappings[j].exes|] == MappingItems(mappings[j])
  {
    var before, more := ExeItems(mappings, n - 1), MappingItems(mappings[n - 1]);
    if j < n - 1 {
      ExeItemsAt(mappings, n - 1, j);
      SliceBefore(before, more, ExeStart(mappings, j), ExeStart(mappings, j + 1));
    } else {
      SliceAfter(before, more, 0, |more|);
    }
  }

  /** The items of record `i` are where they should be. */
  ghost predicate RecordListed(items: seq<Item>, games: seq<Game>, covers: map<nat, Str>, mappings: seq<Mapping>,
        ids: seq<nat>, i: nat)
  {
    i < |ids| && ids[i] in IdsOf(games) && 5 * i + 5 <= |items|
    && items[5 * i..5 * i + 5] == GameItems(GameOf(games, ids[i]), covers, mappings)
  }

  ghost predicate ListsRecords(items: seq<Item>, games: seq<Game>, covers: map<nat, Str>, mappings: seq<Mapping>,
        ids: seq<nat>)
  {
    5 * |ids| <= |items|
    && forall i {:trigger RecordListed(items, games, covers, mappings, ids, i)} ::
         0 <= i < |ids| ==> RecordListed(items, games, covers, mappings, ids, i)
  }

  /** And those of mapping `j`, after `base` others. */
  ghost predicate MappingListed(items: seq<Item>, base: nat, mappings: seq<Mapping>, j: nat) {
    j < |mappings|
    && var at, size := base + ExeStart(mappings, j), 1 + |mappings[j].exes|;
       at + size == base + ExeStart(mappings, j + 1) <= |items| && items[at..at + size] == MappingItems(mappings[j])
  }

  ghost predicate ListsMappings(items: seq<Item>, base: nat, mappings: seq<Mapping>) {
    && |items| == base + ExeStart(mappings, |mappings|)
    && forall j {:trigger MappingListed(items, base, mappings, j)} ::
         0 <= j < |mappings| ==> MappingListed(items, base, mappings, j)
  }

  lemma RecordsListed(games: seq<Game>, covers: map<nat, Str>, mappings: seq<Mapping>, ids: seq<nat>, more: seq<Item>)
    requires forall i :: 0 <= i < |ids| ==> ids[i] in IdsOf(games)
    ensures ListsRecords(RecordItems(games, covers, mappings, ids, |ids|) + more, games, covers, mappings, ids)
  {
    var recs := RecordItems(games, covers, mappings, ids, |ids|);
    forall i | 0 <= i < |ids| ensures RecordListed(recs + more, games, covers, mappings, ids, i) {
      RecordItemsAt(games, covers, mappings, ids, |ids|, i);
      SliceBefore(recs, more, 5 * i, 5 * i + 5);
    }
  }

  lemma {:induction false} MappingsListed(mappings: seq<Mapping>, recs: seq<Item>)
    ensures ListsMappings(recs + ExeItems(mappings, |mappings|), |recs|, mappings)
  {
    var exes := ExeItems(mappings, |mappings|);
    forall j | 0 <= j < |mappings| ensures MappingListed(recs + exes, |recs|, mappings, j) {
      ExeItemsAt(mappings, |mappings|, j);
      SliceAfter(recs, exes, ExeStart(mappings, j), ExeStart(mappings, j + 1));
    }
  }

  // ----- the record table -----

  /** What the client is to see of the included games. */
  ghost function Expected(games: seq<Game>, covers: map<nat, Str>, mappings: seq<Mapping>, ids: seq<nat>): (s: seq<Shown>)
    requires forall i :: 0 <= i < |ids| ==> ids[i] in IdsOf(games)
    ensures |s| == |ids|
    ensures forall i :: 0 <= i < |ids| ==> s[i] == ShownOf(GameOf(games, ids[i]), covers, mappings)
  {
    if ids == [] then []
    else
      var n := |ids| - 1;
      Expected(games, covers, mappings, ids[..n]) + [ShownOf(GameOf(games, ids[n]), covers, mappings)]
  }

  ghost predicate IndexesIds(indexOf: map<nat, nat>, ids: seq<nat>, n: nat) {
    && n <= |ids|
    && (forall i :: 0 <= i < n ==> ids[i] in indexOf)
    && (forall id :: id in indexOf ==> indexOf[id] < n && ids[indexOf[id]] == id)
  }

  /** The record table after `n` games. */
  ghost predicate Tabled(buf: Str, recs: seq<Record>, bytes: Str, games: seq<Game>, covers: map<nat, Str>,
        mappings: seq<Mapping>, ids: seq<nat>, indexOf: map<nat, nat>, n: nat)
    requires forall i :: 0 <= i < |ids| ==> ids[i] in IdsOf(games)
  {
    n <= |ids| && exists shown ::
      && shown == Expected(games, covers, mappings, ids[..n]) && RecordsHold(buf, recs, shown)
      && bytes == Table(Packed(recs)) && IndexesIds(indexOf, ids, n)
  }

  lemma TabledStart(games: seq<Game>, covers: map<nat, Str>, mappings: seq<Mapping>, ids: seq<nat>)
    requires forall i :: 0 <= i < |ids| ==> ids[i] in IdsOf(games)
    ensures Tabled([], [], [], games, covers, mappings, ids, map[], 0)
  {
    assert RecordsHold([], [], []);
  }

  lemma IndexStep(indexOf: map<nat, nat>, ids: seq<nat>, i: nat)
    requires IndexesIds(indexOf, ids, i) && i < |ids| && Rising(ids)
    ensures IndexesIds(indexOf[ids[i] := i], ids, i + 1)
  {
  }

  lemma RecordsGrow(buf: Str, more: Str, recs: seq<Record>, shown: seq<Shown>, r: Record, x: Shown)
    requires RecordsHold(buf, recs, shown) && buf <= more && r.Fits() && RecordHolds(more, r, x)
    ensures RecordsHold(more, recs + [r], shown + [x])
  {
    RecordsStay(buf, more, recs, shown);
  }

  lemma ExpectedSnoc(games: seq<Game>, covers: map<nat, Str>, mappings: seq<Mapping>, ids: seq<nat>, i: nat)
    requires (forall k :: 0 <= k < |ids| ==> ids[k] in IdsOf(games)) && i < |ids|
    ensures Expected(games, covers, mappings, ids[..i + 1])
            == Expected(games, covers, mappings, ids[..i]) + [ShownOf(GameOf(games, ids[i]), covers, mappings)]
  {
    assert ids[..i + 1][..i] == ids[..i];
  }

  lemma RecordsSnoc(recs: seq<Record>, r: Record)
    requires r.Fits() && forall k :: 0 <= k < |recs| ==> recs[k].Fits()
    ensures Table(Packed(recs + [r])) == Table(Packed(recs)) + Pack(r)
  {
    assert Packed(recs + [r])[..|recs|] == Packed(recs);
  }

  lemma TabledStep(buf: Str, more: Str, recs: seq<Record>, bytes: Str, r: Record, games: seq<Game>,
        covers: map<nat, Str>, mappings: seq<Mapping>, ids: seq<nat>, indexOf: map<nat, nat>, i: nat)
    requires Rising(ids) && (forall k :: 0 <= k < |ids| ==> ids[k] in IdsOf(games)) && i < |ids| && buf <= more
    requires Tabled(buf, recs, bytes, games, covers, mappings, ids, indexOf, i)
    requires r.Fits() && RecordHolds(more, r, ShownOf(GameOf(games, ids[i]), covers, mappings))
    ensures Tabled(more, recs + [r], bytes + Pack(r), games, covers, mappings, ids, indexOf[ids[i] := i], i + 1)
  {
    var shown, x := Expected(games, covers, mappings, ids[..i]), ShownOf(GameOf(games, ids[i]), covers, mappings);
    RecordsGrow(buf, more, recs, shown, r, x);
    ExpectedSnoc(games, covers, mappings, ids, i);
    RecordsSnoc(recs, r);
    IndexStep(indexOf, ids, i);
    assert RecordsHold(more, recs + [r], shown + [x]);
  }

  method AddRecord(blob: StringBlob, games: seq<Game>, covers: map<nat, Str>, mappings: seq<Mapping>, ids: seq<nat>,
        i: nat, ghost p: Plan, ghost bytes: Str, ghost recs: seq<Record>, ghost indexOf: map<nat, nat>)
    returns (r: Record)
    requires i < |ids| && Rising(ids) && forall k :: 0 <= k < |ids| ==> ids[k] in IdsOf(games)
    requires Follows(blob, p) && blob.count == 5 * i && ListsRecords(p.items, games, covers, mappings, ids)
    requires Tabled(blob.buf, recs, bytes, games, covers, mappings, ids, indexOf, i)
    modifies blob
    ensures Follows(blob, p) && blob.count == 5 * i + 5
    ensures r.Fits() ==> Tabled(blob.buf, recs + [r], bytes + Pack(r), games, covers, mappings, ids,
        indexOf[ids[i] := i], i + 1)
    ensures r.Fits() <==> ids[i] < U32 && Fit(p, 5 * i, 5 * i + 5)
  {
    ghost var before := blob.buf;
    assert RecordListed(p.items, games, covers, mappings, ids, i);
    GameItemsAt(p.items, 5 * i, GameOf(games, ids[i]), covers, mappings);
    r := AddGame(blob, GameOf(games, ids[i]), covers, mappings, p, 5 * i);
    if r.Fits() { TabledStep(before, blob.buf, recs, bytes, r, games, covers, mappings, ids, indexOf, i); }
  }

  /** Ids and offsets of the first `n` records are 32-bit numbers. */
  ghost predicate RecordsFit(p: Plan, ids: seq<nat>, n: nat) {
    n <= |ids| && (forall i :: 0 <= i < n ==> ids[i] < U32) && Fit(p, 0, 5 * n)
  }

  lemma RecordsFitStep(p: Plan, ids: seq<nat>, i: nat)
    requires i < |ids| && 5 * |ids| <= |p.items| == |p.refs| && RecordsFit(p, ids, i)
    ensures RecordsFit(p, ids, i + 1) <==> ids[i] < U32 && Fit(p, 5 * i, 5 * i + 5)
    ensures RecordsFit(p, ids, |ids|) ==> RecordsFit(p, ids, i + 1)
  {
    FitJoin(p, 0, 5 * i, 5 * i + 5);
    FitJoin(p, 0, 5 * i + 5, 5 * |ids|);
  }

  /** None is `struct.error`: a number beyond 32 bits. */
  method WriteRecords(blob: StringBlob, games: seq<Game>, covers: map<nat, Str>, mappings: seq<Mapping>, ids: seq<nat>,
        ghost p: Plan)
    returns (table: Option<Str>, indexOf: map<nat, nat>, ghost recs: seq<Record>)
    requires Rising(ids) && forall i :: 0 <= i < |ids| ==> ids[i] in IdsOf(games)
    requires Follows(blob, p) && blob.count == 0 && blob.buf == [] && ListsRecords(p.items, games, covers, mappings, ids)
    modifies blob
    ensures table.Some? ==> Follows(blob, p) && blob.count == 5 * |ids|
    ensures table.Some? ==> Tabled(blob.buf, recs, table.value, games, covers, mappings, ids, indexOf, |ids|)
    ensures table.Some? <==> RecordsFit(p, ids, |ids|)
  {
    var bytes: Str := [];
    recs, indexOf := [], map[];
    TabledStart(games, covers, mappings, ids);
    for i := 0 to |ids|
      invariant Follows(blob, p) && blob.count == 5 * i && RecordsFit(p, ids, i)
      invariant Tabled(blob.buf, recs, bytes, games, covers, mappings, ids, indexOf, i)
    {
      RecordsFitStep(p, ids, i);
      var r := AddRecord(blob, games, covers, mappings, ids, i, p, bytes, recs, indexOf);
      if !r.Fits() { return None, indexOf, recs; }
      indexOf := indexOf[ids[i] := i];
      bytes := bytes + Pack(r);
      recs := recs + [r];
    }
    table := Some(bytes);
  }

  // ----- the executable table -----

  /** The executable table for `xs`. */
  ghost predicate Listed(buf: Str, exes: seq<ExeEntry>, bytes: Str, xs: seq<Exe>, ids: seq<nat>) {
    exists ys :: ys == xs && ExesHold(buf, exes, ys, ids) && bytes == Table(PackedExes(exes))
  }

  lemma ListedStart(buf: Str, ids: seq<nat>)
    ensures Listed(buf, [], [], [], ids)
  {
    assert ExesHold(buf, [], [], ids);
  }

  lemma ListedStays(buf: Str, more: Str, exes: seq<ExeEntry>, bytes: Str, xs: seq<Exe>, ids: seq<nat>)
    requires Listed(buf, exes, bytes, xs, ids) && buf <= more
    ensures Listed(more, exes, bytes, xs, ids)
  {
    ExesStay(buf, more, exes, xs, ids);
  }

  lemma ExesGrow(buf: Str, exes: seq<ExeEntry>, e: ExeEntry, xs: seq<Exe>, x: Exe, ids: seq<nat>)
    requires ExesHold(buf, exes, xs, ids) && e.Fits() && ExeHolds(buf, e, x, ids)
    ensures ExesHold(buf, exes + [e], xs + [x], ids)
  {
  }

  lemma ExesSnoc(exes: seq<ExeEntry>, e: ExeEntry)
    requires e.Fits() && forall k :: 0 <= k < |exes| ==> exes[k].Fits()
    ensures Table(PackedExes(exes + [e])) == Table(PackedExes(exes)) + PackExe(e)
  {
    assert PackedExes(exes + [e])[..|exes|] == PackedExes(exes);
  }

  lemma ListedStep(buf: Str, exes: seq<ExeEntry>, bytes: Str, e: ExeEntry, xs: seq<Exe>, x: Exe, ids: seq<nat>)
    requires Listed(buf, exes, bytes, xs, ids) && e.Fits() && ExeHolds(buf, e, x, ids)
    ensures Listed(buf, exes + [e], bytes + PackExe(e), xs + [x], ids)
  {
    ExesSnoc(exes, e);
    ExesGrow(buf, exes, e, xs, x, ids);
  }

  /** One executable of a mapping whose path is stored at `shape`. */
  method AddExe(blob: StringBlob, name: Str, shape: Ref, index: nat, ids: seq<nat>, bytes: Str, ghost path: Str,
        ghost p: Plan, ghost n: nat, ghost exes: seq<ExeEntry>, ghost xs: seq<Exe>)
    returns (e: ExeEntry)
    requires Follows(blob, p) && blob.count == n && n < |p.items| && p.items[n] == Item(name, true)
    requires index < |ids| && Holds(blob.buf, shape, Cut(path)) && Listed(blob.buf, exes, bytes, xs, ids)
    modifies blob
    ensures Follows(blob, p) && blob.count == n + 1 && Holds(blob.buf, shape, Cut(path))
    ensures e.shape == shape && e.index == index
    ensures e.Fits() ==> Listed(blob.buf, exes + [e], bytes + PackExe(e), xs + [Exe(ids[index], name, path)], ids)
    ensures e.Fits() <==> Fit(p, n, n + 1) && shape.off < U32 && index < U32
  {
    ghost var before := blob.buf;
    FitOne(p, n);
    var r := AddItem(blob, name, p, n);
    e := ExeEntry(r, shape, index);
    HoldsStays(before, blob.buf, shape, Cut(path));
    ListedStays(before, blob.buf, exes, bytes, xs, ids);
    if e.Fits() { ListedStep(blob.buf, exes, bytes, e, xs, Exe(ids[index], name, path), ids); }
  }

  /** Executable `k` of a mapping is item `n + k`. */
  ghost predicate ExeListed(items: seq<Item>, n: nat, m: Mapping, k: nat) {
    k < |m.exes| && n + k < |items| && items[n + k] == Item(m.exes[k], true)
  }

  ghost predicate ListsExes(items: seq<Item>, n: nat, m: Mapping) {
    n + |m.exes| <= |items|
    && forall k {:trigger ExeListed(items, n, m, k)} :: 0 <= k < |m.exes| ==> ExeListed(items, n, m, k)
  }

  /** Its path is item `n`, and its executables follow. */
  ghost predicate ListsMapping(items: seq<Item>, n: nat, m: Mapping) {
    n < |items| && items[n] == Item(m.path, m.exes != []) && ListsExes(items, n + 1, m)
  }

  lemma MappingItemsAt(items: seq<Item>, n: nat, m: Mapping)
    requires n + 1 + |m.exes| <= |items| && items[n..n + 1 + |m.exes|] == MappingItems(m)
    ensures ListsMapping(items, n, m)
  {
    var own, from := items[n..n + 1 + |m.exes|], n + 1;
    assert own[0] == items[n];
    forall k | 0 <= k < |m.exes| ensures ExeListed(items, from, m, k) {
      assert own[k + 1] == items[n + 1 + k];
    }
  }

  /** The table of a mapping's first `k` executables. */
  ghost predicate ExesOfDone(buf: Str, p: Plan, n: nat, k: nat, m: Mapping, shape: Ref, index: nat, ids: seq<nat>,
        bytes: Str, exes: seq<ExeEntry>, xs: seq<Exe>)
  {
    k <= |m.exes| && exists ys ::
      && ys == WithExes(xs, m, k) && Listed(buf, exes, bytes, ys, ids)
      && Holds(buf, shape, Cut(m.path))
      && Fit(p, n, n + k) && (k > 0 ==> shape.off < U32 && index < U32)
  }

  method AddExeOf(blob: StringBlob, m: Mapping, k: nat, shape: Ref, index: nat, ids: seq<nat>, bytes: Str,
        ghost p: Plan, ghost n: nat, ghost exes: seq<ExeEntry>, ghost xs: seq<Exe>)
    returns (e: ExeEntry)
    requires k < |m.exes| && n + |m.exes| <= |p.items| && ExeListed(p.items, n, m, k)
    requires index < |ids| && ids[index] == m.gid
    requires Follows(blob, p) && blob.count == n + k
    requires ExesOfDone(blob.buf, p, n, k, m, shape, index, ids, bytes, exes, xs)
    modifies blob
    ensures e.Fits() ==>
              ExesOfDone(blob.buf, p, n, k + 1, m, shape, index, ids, bytes + PackExe(e), exes + [e], xs)
    ensures Follows(blob, p) && blob.count == n + k + 1
    ensures !e.Fits() ==> !(Fit(p, n, n + |m.exes|) && shape.off < U32 && index < U32)
  {
    e := AddExe(blob, m.exes[k], shape, index, ids, bytes, m.path, p, n + k, exes, WithExes(xs, m, k));
    FitJoin(p, n, n + k, n + k + 1);
    FitJoin(p, n, n + k + 1, n + |m.exes|);
  }

  /** The executables of one mapping, all with one record index and one path. */
  method WriteExesOf(blob: StringBlob, m: Mapping, shape: Ref, index: nat, ids: seq<nat>, bytes: Str, ghost p: Plan,
        ghost n: nat, ghost exes: seq<ExeEntry>, ghost xs: seq<Exe>)
    returns (table: Option<Str>, ghost more: seq<ExeEntry>)
    requires Follows(blob, p) && blob.count == n && ListsExes(p.items, n, m)
    requires index < |ids| && ids[index] == m.gid && Holds(blob.buf, shape, Cut(m.path))
    requires Listed(blob.buf, exes, bytes, xs, ids)
    modifies blob
    ensures table.Some? ==> Follows(blob, p) && blob.count == n + |m.exes|
    ensures table.Some? ==> ExesOfDone(blob.buf, p, n, |m.exes|, m, shape, index, ids, table.value, more, xs)
    ensures table.None? ==> !(Fit(p, n, n + |m.exes|) && (m.exes != [] ==> shape.off < U32 && index < U32))
  {
    var out := bytes;
    more := exes;
    for k := 0 to |m.exes|
      invariant Follows(blob, p) && blob.count == n + k
      invariant ExesOfDone(blob.buf, p, n, k, m, shape, index, ids, out, more, xs)
    {
      assert ExeListed(p.items, n, m, k);
      var e := AddExeOf(blob, m, k, shape, index, ids, out, p, n, more, xs);
      if !e.Fits() { return None, more; }
      out := out + PackExe(e);
      more := more + [e];
    }
    table := Some(out);
  }

  /** A mapping's path and executables are written. */
  ghost predicate MappingDone(buf: Str, p: Plan, n: nat, m: Mapping, index: nat, ids: seq<nat>, bytes: Str,
        exes: seq<ExeEntry>, xs: seq<Exe>)
  {
    Fit(p, n, n + 1)
    && exists shape, from :: from == n + 1 && ExesOfDone(buf, p, from, |m.exes|, m, shape, index, ids, bytes, exes, xs)
  }

  lemma MappingEnd(buf: Str, p: Plan, n: nat, m: Mapping, index: nat, ids: seq<nat>, bytes: Str, exes: seq<ExeEntry>,
        xs: seq<Exe>)
    requires MappingDone(buf, p, n, m, index, ids, bytes, exes, xs)
    ensures Listed(buf, exes, bytes, WithExes(xs, m, |m.exes|), ids)
    ensures Fit(p, n, n + 1 + |m.exes|) && (m.exes != [] ==> index < U32)
  {
    var shape :| ExesOfDone(buf, p, n + 1, |m.exes|, m, shape, index, ids, bytes, exes, xs);
    FitJoin(p, n, n + 1, n + 1 + |m.exes|);
  }

  lemma OneShape(buf: Str, p: Plan, n: nat, m: Mapping, shape: Ref, index: nat, ids: seq<nat>, bytes: Str,
        exes: seq<ExeEntry>, xs: seq<Exe>)
    requires ExesOfDone(buf, p, n + 1, |m.exes|, m, shape, index, ids, bytes, exes, xs)
    requires n < |p.items| == |p.refs| && shape == p.refs[n] && p.items[n].packed == (m.exes != [])
    ensures MappingDone(buf, p, n, m, index, ids, bytes, exes, xs)
  {
    FitOne(p, n);
  }

  method WriteMapping(blob: StringBlob, m: Mapping, index: nat, ids: seq<nat>, bytes: Str, ghost p: Plan, ghost n: nat,
        ghost exes: seq<ExeEntry>, ghost xs: seq<Exe>)
    returns (table: Option<Str>, ghost more: seq<ExeEntry>)
    requires Follows(blob, p) && blob.count == n && index < |ids| && ids[index] == m.gid
    requires ListsMapping(p.items, n, m) && Listed(blob.buf, exes, bytes, xs, ids)
    modifies blob
    ensures table.Some? ==> Follows(blob, p) && blob.count == n + 1 + |m.exes|
    ensures table.Some? ==> MappingDone(blob.buf, p, n, m, index, ids, table.value, more, xs)
    ensures table.None? ==> !(Fit(p, n, n + 1 + |m.exes|) && (m.exes != [] ==> index < U32))
  {
    ghost var before := blob.buf;
    var shape := AddItem(blob, m.path, p, n);
    ListedStays(before, blob.buf, exes, bytes, xs, ids);
    table, more := WriteExesOf(blob, m, shape, index, ids, bytes, p, n + 1, exes, xs);
    FitJoin(p, n, n + 1, n + 1 + |m.exes|);
    FitOne(p, n);
    if table.Some? { OneShape(blob.buf, p, n, m, shape, index, ids, table.value, more, xs); }
  }

  ghost predicate Indexed(mappings: seq<Mapping>, indexOf: map<nat, nat>, j: nat) {
    j <= |mappings| && forall i :: 0 <= i < j ==> mappings[i].gid in indexOf
  }

  lemma IndexedStep(mappings: seq<Mapping>, indexOf: map<nat, nat>, j: nat)
    requires Indexed(mappings, indexOf, j) && j < |mappings| && mappings[j].gid in indexOf
    ensures Indexed(mappings, indexOf, j + 1)
  {
  }

  /** The executable table of the first `j` mappings. */
  ghost predicate ExesDone(buf: Str, p: Plan, base: nat, exes: seq<ExeEntry>, bytes: Str, count: nat,
        mappings: seq<Mapping>, ids: seq<nat>, indexOf: map<nat, nat>, j: nat)
  {
    j <= |mappings| && exists xs ::
      && xs == AllExes(mappings, j) && Listed(buf, exes, bytes, xs, ids)
      && count == |xs| && Indexed(mappings, indexOf, j)
      && Fit(p, base, base + ExeStart(mappings, j))
  }

  /** What stops mapping `j`: its game has no record, or a number is beyond 32 bits. */
  ghost predicate MappingFits(p: Plan, base: nat, mappings: seq<Mapping>, indexOf: map<nat, nat>, j: nat)
    requires j < |mappings|
  {
    && mappings[j].gid in indexOf && Fit(p, base + ExeStart(mappings, j), base + ExeStart(mappings, j + 1))
    && (mappings[j].exes != [] ==> indexOf[mappings[j].gid] < U32)
  }

  lemma ExesDoneNow(buf: Str, p: Plan, base: nat, exes: seq<ExeEntry>, bytes: Str, mappings: seq<Mapping>,
        ids: seq<nat>, indexOf: map<nat, nat>, j: nat, xs: seq<Exe>)
    requires j <= |mappings| && xs == AllExes(mappings, j) && Listed(buf, exes, bytes, xs, ids)
    requires Indexed(mappings, indexOf, j) && Fit(p, base, base + ExeStart(mappings, j))
    ensures ExesDone(buf, p, base, exes, bytes, |xs|, mappings, ids, indexOf, j)
  {
  }

  lemma ExesDoneStep(buf: Str, p: Plan, base: nat, exes: seq<ExeEntry>, bytes: Str, count: nat, mappings: seq<Mapping>,
        ids: seq<nat>, indexOf: map<nat, nat>, j: nat)
    requires j < |mappings| && count == |AllExes(mappings, j)| && Indexed(mappings, indexOf, j)
    requires mappings[j].gid in indexOf && Fit(p, base, base + ExeStart(mappings, j))
    requires MappingDone(buf, p, base + ExeStart(mappings, j), mappings[j], indexOf[mappings[j].gid], ids, bytes, exes,
               AllExes(mappings, j))
    ensures ExesDone(buf, p, base, exes, bytes, count + |mappings[j].exes|, mappings, ids, indexOf, j + 1)
  {
    var n := base + ExeStart(mappings, j);
    MappingEnd(buf, p, n, mappings[j], indexOf[mappings[j].gid], ids, bytes, exes, AllExes(mappings, j));
    FitJoin(p, base, n, n + 1 + |mappings[j].exes|);
    IndexedStep(mappings, indexOf, j);
    var xs := WithExes(AllExes(mappings, j), mappings[j], |mappings[j].exes|);
    ExesDoneNow(buf, p, base, exes, bytes, mappings, ids, indexOf, j + 1, xs);
  }

  ghost predicate Stops(p: Plan, n: nat, m: Mapping, indexOf: map<nat, nat>) {
    !(m.gid in indexOf && Fit(p, n, n + 1 + |m.exes|) && (m.exes != [] ==> indexOf[m.gid] < U32))
  }

  lemma StopsThere(p: Plan, base: nat, mappings: seq<Mapping>, indexOf: map<nat, nat>, j: nat, n: nat)
    requires j < |mappings| && Stops(p, n, mappings[j], indexOf)
    requires n == base + ExeStart(mappings, j) && n + 1 + |mappings[j].exes| == base + ExeStart(mappings, j + 1)
    ensures !MappingFits(p, base, mappings, indexOf, j)
  {
  }

  lemma MappingPlace(p: Plan, base: nat, mappings: seq<Mapping>, j: nat, n: nat)
    requires ListsMappings(p.items, base, mappings) && j < |mappings| && n == base + ExeStart(mappings, j)
    ensures var m := mappings[j];
            && n + 1 + |m.exes| == base + ExeStart(mappings, j + 1) <= |p.items|
            && ListsMapping(p.items, n, m)
  {
    assert MappingListed(p.items, base, mappings, j);
    MappingItemsAt(p.items, n, mappings[j]);
  }

  /** None is `KeyError`, for a game outside the records, or `struct.error`. */
  method AddMapping(blob: StringBlob, m: Mapping, ids: seq<nat>, indexOf: map<nat, nat>, bytes: Str, ghost p: Plan,
        ghost n: nat, ghost exes: seq<ExeEntry>, ghost xs: seq<Exe>)
    returns (table: Option<Str>, ghost more: seq<ExeEntry>)
    requires Follows(blob, p) && blob.count == n && IndexesIds(indexOf, ids, |ids|)
    requires ListsMapping(p.items, n, m) && Listed(blob.buf, exes, bytes, xs, ids)
    modifies blob
    ensures table.Some? ==> Follows(blob, p) && blob.count == n + 1 + |m.exes|
    ensures table.Some? ==> m.gid in indexOf
                            && MappingDone(blob.buf, p, n, m, indexOf[m.gid], ids, table.value, more, xs)
    ensures table.None? ==> Stops(p, n, m, indexOf)
  {
    if m.gid !in indexOf { return None, exes; }
    table, more := WriteMapping(blob, m, indexOf[m.gid], ids, bytes, p, n, exes, xs);
  }

  lemma ExesDoneStart(buf: Str, p: Plan, base: nat, mappings: seq<Mapping>, ids: seq<nat>, indexOf: map<nat, nat>)
    requires base <= |p.items| == |p.refs|
    ensures ExesDone(buf, p, base, [], [], 0, mappings, ids, indexOf, 0)
  {
    ListedStart(buf, ids);
    assert ExeStart(mappings, 0) == 0;
  }

  lemma ExesSoFar(buf: Str, p: Plan, base: nat, exes: seq<ExeEntry>, bytes: Str, count: nat, mappings: seq<Mapping>,
        ids: seq<nat>, indexOf: map<nat, nat>, j: nat)
    requires ExesDone(buf, p, base, exes, bytes, count, mappings, ids, indexOf, j)
    ensures j <= |mappings| && count == |AllExes(mappings, j)| && Indexed(mappings, indexOf, j)
    ensures Listed(buf, exes, bytes, AllExes(mappings, j), ids) && Fit(p, base, base + ExeStart(mappings, j))
  {
  }

  /** One round of the loop over the mappings. */
  method NextMapping(blob: StringBlob, mappings: seq<Mapping>, ids: seq<nat>, indexOf: map<nat, nat>, j: nat,
        bytes: Str, ghost p: Plan, ghost base: nat, ghost exes: seq<ExeEntry>, ghost count: nat)
    returns (table: Option<Str>, ghost more: seq<ExeEntry>)
    requires Follows(blob, p) && j < |mappings| && blob.count == base + ExeStart(mappings, j)
    requires IndexesIds(indexOf, ids, |ids|) && ListsMappings(p.items, base, mappings)
    requires ExesDone(blob.buf, p, base, exes, bytes, count, mappings, ids, indexOf, j)
    modifies blob
    ensures table.Some? ==> Follows(blob, p) && blob.count == base + ExeStart(mappings, j + 1)
    ensures table.Some? ==>
              ExesDone(blob.buf, p, base, more, table.value, count + |mappings[j].exes|, mappings, ids, indexOf, j + 1)
    ensures table.None? ==> !MappingFits(p, base, mappings, indexOf, j)
  {
    ghost var n := blob.count;
    MappingPlace(p, base, mappings, j, n);
    ExesSoFar(blob.buf, p, base, exes, bytes, count, mappings, ids, indexOf, j);
    table, more := AddMapping(blob, mappings[j], ids, indexOf, bytes, p, n, exes, AllExes(mappings, j));
    if table.Some? {
      ExesDoneStep(blob.buf, p, base, more, table.value, count, mappings, ids, indexOf, j);
    } else {
      StopsThere(p, base, mappings, indexOf, j, n);
    }
  }

  method WriteExes(blob: StringBlob, mappings: seq<Mapping>, ids: seq<nat>, indexOf: map<nat, nat>, ghost p: Plan,
        ghost base: nat)
    returns (table: Option<Str>, count: nat, ghost exes: seq<ExeEntry>)
    requires Follows(blob, p) && blob.count == base && base <= |p.items|
    requires IndexesIds(indexOf, ids, |ids|) && ListsMappings(p.items, base, mappings)
    modifies blob
    ensures table.Some? ==> Follows(blob, p) && blob.count == base + ExeStart(mappings, |mappings|)
    ensures table.Some? ==>
              ExesDone(blob.buf, p, base, exes, table.value, count, mappings, ids, indexOf, |mappings|)
    ensures table.None? ==> exists j :: 0 <= j < |mappings| && !MappingFits(p, base, mappings, indexOf, j)
  {
    var bytes: Str := [];
    exes, count := [], 0;
    ExesDoneStart(blob.buf, p, base, mappings, ids, indexOf);
    for j := 0 to |mappings|
      invariant Follows(blob, p) && blob.count == base + ExeStart(mappings, j)
      invariant ExesDone(blob.buf, p, base, exes, bytes, count, mappings, ids, indexOf, j)
    {
      var added, more := NextMapping(blob, mappings, ids, indexOf, j, bytes, p, base, exes, count);
      if added.None? { return None, count, exes; }
      bytes, exes, count := added.value, more, count + |mappings[j].exes|;
    }
    table := Some(bytes);
  }

  // ----- the file -----

  ghost predicate HeadParts(file: Str, games: seq<Game>, covers: map<nat, Str>, included: set<nat>,
        mappings: seq<Mapping>, recs: seq<Record>, exes: seq<ExeEntry>, blob: Str, ids: seq<nat>)
    requires included <= IdsOf(games)
  {
    && ReadsBack(file, recs, exes, blob) && ListsSet(ids, included)
    && (forall i :: 0 <= i < |ids| ==> ids[i] in IdsOf(games))
    && RecordsHold(blob, recs, Expected(games, covers, mappings, ids))
    && ExesHold(blob, exes, AllExes(mappings, |mappings|), ids)
  }

  /** A file from which the client reads exactly the included games and the executables. */
  ghost predicate HeadOf(file: Str, games: seq<Game>, covers: map<nat, Str>, included: set<nat>, mappings: seq<Mapping>) {
    included <= IdsOf(games)
    && exists recs, exes, blob, ids :: HeadParts(file, games, covers, included, mappings, recs, exes, blob, ids)
  }

  ghost predicate ListFits(games: seq<Game>, covers: map<nat, Str>, mappings: seq<Mapping>, ids: seq<nat>) {
    && (forall i :: 0 <= i < |ids| ==> ids[i] in IdsOf(games) && ids[i] < U32)
    && var items := AllItems(games, covers, mappings, ids);
       forall k :: 0 <= k < |items| ==> ItemFits(EMPTY, items, k)
  }

  /** Every number of the file is a 32-bit number: ids, sizes, and where the strings go. */
  ghost predicate FileFits(games: seq<Game>, covers: map<nat, Str>, mappings: seq<Mapping>, included: set<nat>)
    requires included <= IdsOf(games)
  {
    && StringsOff(|included|, ExeTotal(mappings)) < U32
    && exists ids :: ListsSet(ids, included) && ListFits(games, covers, mappings, ids)
  }

  lemma TabledAtEnd(early: Str, buf: Str, recs: seq<Record>, bytes: Str, games: seq<Game>, covers: map<nat, Str>,
        mappings: seq<Mapping>, ids: seq<nat>, indexOf: map<nat, nat>)
    requires forall i :: 0 <= i < |ids| ==> ids[i] in IdsOf(games)
    requires Tabled(early, recs, bytes, games, covers, mappings, ids, indexOf, |ids|) && early <= buf
    ensures RecordsHold(buf, recs, Expected(games, covers, mappings, ids)) && bytes == Table(Packed(recs))
    ensures IndexesIds(indexOf, ids, |ids|)
    ensures forall i :: 0 <= i < |ids| ==> ids[i] < U32
  {
    assert ids[..|ids|] == ids;
    RecordsStay(early, buf, recs, Expected(games, covers, mappings, ids));
    forall i | 0 <= i < |ids| ensures ids[i] < U32 {
      assert recs[i].Fits() && RecordHolds(buf, recs[i], Expected(games, covers, mappings, ids)[i]);
    }
  }

  lemma {:induction false} Finished(early: Str, buf: Str, recs: seq<Record>, recTable: Str, exes: seq<ExeEntry>,
        exeTable: Str, exeCount: nat, games: seq<Game>, covers: map<nat, Str>, mappings: seq<Mapping>, ids: seq<nat>,
        indexOf: map<nat, nat>, included: set<nat>)
    requires included <= IdsOf(games) && ListsSet(ids, included) && forall i :: 0 <= i < |ids| ==> ids[i] in IdsOf(games)
    requires Tabled(early, recs, recTable, games, covers, mappings, ids, indexOf, |ids|) && early <= buf
    requires Listed(buf, exes, exeTable, AllExes(mappings, |mappings|), ids) && exeCount == |exes|
    requires StringsOff(|ids|, exeCount) < U32
    ensures HeadOf(Header(|ids|, exeCount) + recTable + exeTable + buf, games, covers, included, mappings)
  {
    TabledAtEnd(early, buf, recs, recTable, games, covers, mappings, ids, indexOf);
    HeadRoundTrip(recs, exes, buf);
    assert HeadParts(Header(|ids|, exeCount) + recTable + exeTable + buf, games, covers, included, mappings, recs,
        exes, buf, ids);
  }

  lemma GidIndexed(games: seq<Game>, mappings: seq<Mapping>, ids: seq<nat>, indexOf: map<nat, nat>, included: set<nat>,
        j: nat)
    requires included <= IdsOf(games) && Curated(mappings) * IdsOf(games) <= included && j < |mappings|
    requires ListsSet(ids, included) && IndexesIds(indexOf, ids, |ids|)
    ensures mappings[j].gid in indexOf <==> mappings[j].gid in IdsOf(games)
  {
    var gid := mappings[j].gid;
    assert gid in Curated(mappings);
    if gid in IdsOf(games) {
      assert gid in ids;
      var i :| 0 <= i < |ids| && ids[i] == gid;
    }
    if gid in indexOf { assert ids[indexOf[gid]] in ids; }
  }

  /** Every mapping found its record exactly when every curated game is in the dump. */
  lemma IndexedMeansKnown(games: seq<Game>, mappings: seq<Mapping>, ids: seq<nat>, indexOf: map<nat, nat>,
        included: set<nat>)
    requires included <= IdsOf(games) && Curated(mappings) * IdsOf(games) <= included
    requires ListsSet(ids, included) && IndexesIds(indexOf, ids, |ids|)
    ensures Indexed(mappings, indexOf, |mappings|) <==> Curated(mappings) <= IdsOf(games)
  {
    forall j | 0 <= j < |mappings| ensures mappings[j].gid in indexOf <==> mappings[j].gid in IdsOf(games) {
      GidIndexed(games, mappings, ids, indexOf, included, j);
    }
    if Curated(mappings) <= IdsOf(games) {
      forall j | 0 <= j < |mappings| ensures mappings[j].gid in indexOf { assert mappings[j].gid in Curated(mappings); }
    }
  }

  lemma OneMappingFits(p: Plan, base: nat, mappings: seq<Mapping>, ids: seq<nat>, indexOf: map<nat, nat>, j: nat)
    requires ListsMappings(p.items, base, mappings) && |p.items| == |p.refs|
    requires IndexesIds(indexOf, ids, |ids|) && |ids| < U32
    requires j < |mappings| && mappings[j].gid in indexOf && Fit(p, base, |p.items|)
    ensures MappingFits(p, base, mappings, indexOf, j)
  {
    assert MappingListed(p.items, base, mappings, j);
    FitJoin(p, base, base + ExeStart(mappings, j), |p.items|);
    FitJoin(p, base + ExeStart(mappings, j), base + ExeStart(mappings, j + 1), |p.items|);
  }

  lemma NoExes(p: Plan, base: nat, mappings: seq<Mapping>, ids: seq<nat>, indexOf: map<nat, nat>)
    requires ListsMappings(p.items, base, mappings) && |p.items| == |p.refs| && IndexesIds(indexOf, ids, |ids|)
    requires exists j :: 0 <= j < |mappings| && !MappingFits(p, base, mappings, indexOf, j)
    ensures !(Indexed(mappings, indexOf, |mappings|) && Fit(p, base, |p.items|)
              && StringsOff(|ids|, ExeTotal(mappings)) < U32)
  {
    var j :| 0 <= j < |mappings| && !MappingFits(p, base, mappings, indexOf, j);
    assert MappingListed(p.items, base, mappings, j);
    if Indexed(mappings, indexOf, |mappings|) && Fit(p, base, |p.items|) && |ids| < U32 {
      assert mappings[j].gid in indexOf;
      OneMappingFits(p, base, mappings, ids, indexOf, j);
    }
  }

  /** Whether the list of the included games fits does not depend on how it is found. */
  lemma FileFitsList(games: seq<Game>, covers: map<nat, Str>, mappings: seq<Mapping>, included: set<nat>, ids: seq<nat>)
    requires included <= IdsOf(games) && ListsSet(ids, included)
    ensures FileFits(games, covers, mappings, included)
            <==> StringsOff(|included|, ExeTotal(mappings)) < U32 && ListFits(games, covers, mappings, ids)
  {
    if FileFits(games, covers, mappings, included) {
      var other :| ListsSet(other, included) && ListFits(games, covers, mappings, other);
      OneList(ids, other, included);
    }
  }

  lemma ListFitsMeans(games: seq<Game>, covers: map<nat, Str>, mappings: seq<Mapping>, ids: seq<nat>, p: Plan)
    requires forall i :: 0 <= i < |ids| ==> ids[i] in IdsOf(games)
    requires p.items == AllItems(games, covers, mappings, ids) && |p.refs| == |p.items|
    requires forall k :: 0 <= k < |p.items| ==> p.refs[k] == RefOf(EMPTY, p.items, k)
    ensures 5 * |ids| <= |p.items|
    ensures ListFits(games, covers, mappings, ids) <==> RecordsFit(p, ids, |ids|) && Fit(p, 5 * |ids|, |p.items|)
  {
    forall k | 0 <= k < |p.items|
      ensures ItemFits(EMPTY, p.items, k) <==> (p.items[k].packed ==> p.refs[k].off < U32)
    {
    }
  }

  lemma ExesEnd(buf: Str, p: Plan, base: nat, exes: seq<ExeEntry>, bytes: Str, count: nat, mappings: seq<Mapping>,
        ids: seq<nat>, indexOf: map<nat, nat>)
    requires ExesDone(buf, p, base, exes, bytes, count, mappings, ids, indexOf, |mappings|)
    requires ListsMappings(p.items, base, mappings)
    ensures Listed(buf, exes, bytes, AllExes(mappings, |mappings|), ids) && count == |exes| == ExeTotal(mappings)
    ensures Indexed(mappings, indexOf, |mappings|) && Fit(p, base, |p.items|)
  {
  }

  lemma {:induction false} BlobsGrow(p: Plan, i: nat, j: nat)
    requires Good(p) && i <= j < |p.blobs|
    ensures p.blobs[i].buf <= p.blobs[j].buf
  {
    if i < j {
      BlobsGrow(p, i, j - 1);
      assert PlanStep(p, j - 1);
      AddedReads(p.blobs[j - 1], p.items[j - 1].text);
    }
  }

  /** The executables, the header and the strings. */
  method WriteRest(blob: StringBlob, games: seq<Game>, covers: map<nat, Str>, mappings: seq<Mapping>, ids: seq<nat>,
        records: Str, indexOf: map<nat, nat>, ghost p: Plan, ghost recs: seq<Record>, ghost included: set<nat>)
    returns (file: Option<Str>)
    requires included <= IdsOf(games) && Curated(mappings) * IdsOf(games) <= included && ListsSet(ids, included)
    requires forall i :: 0 <= i < |ids| ==> ids[i] in IdsOf(games)
    requires Follows(blob, p) && blob.count == 5 * |ids| && ListsMappings(p.items, 5 * |ids|, mappings)
    requires Tabled(blob.buf, recs, records, games, covers, mappings, ids, indexOf, |ids|)
    modifies blob
    ensures file.Some? ==> HeadOf(file.value, games, covers, included, mappings)
    ensures file.Some? <==> Curated(mappings) <= IdsOf(games) && Fit(p, 5 * |ids|, |p.items|)
                            && StringsOff(|ids|, ExeTotal(mappings)) < U32
  {
    ghost var early := blob.buf;
    TabledAtEnd(early, early, recs, records, games, covers, mappings, ids, indexOf);
    IndexedMeansKnown(games, mappings, ids, indexOf, included);
    var entries, exeCount, exes := WriteExes(blob, mappings, ids, indexOf, p, 5 * |ids|);
    if entries.None? {
      NoExes(p, 5 * |ids|, mappings, ids, indexOf);
      return None;
    }
    ExesEnd(blob.buf, p, 5 * |ids|, exes, entries.value, exeCount, mappings, ids, indexOf);
    if StringsOff(|ids|, exeCount) >= U32 { return None; }
    BlobsGrow(p, 5 * |ids|, blob.count);
    Finished(early, blob.buf, recs, records, exes, entries.value, exeCount, games, covers, mappings, ids, indexOf, included);
    file := Some(Header(|ids|, exeCount) + records + entries.value + blob.buf);
  }

  method WriteHead(games: seq<Game>, covers: map<nat, Str>, mappings: seq<Mapping>, included: set<nat>)
    returns (file: Option<Str>)
    requires included <= IdsOf(games) && Curated(mappings) * IdsOf(games) <= included
    ensures file.Some? ==> HeadOf(file.value, games, covers, included, mappings)
    ensures file.Some? <==> Curated(mappings) <= IdsOf(games) && FileFits(games, covers, mappings, included)
  {
    var ids := SortedIds(included);
    forall i | 0 <= i < |ids| ensures ids[i] in included { assert ids[i] in ids; }
    ghost var items := AllItems(games, covers, mappings, ids);
    RecordsListed(games, covers, mappings, ids, ExeItems(mappings, |mappings|));
    MappingsListed(mappings, RecordItems(games, covers, mappings, ids, |ids|));
    FileFitsList(games, covers, mappings, included, ids);
    ghost var p := Planned(items);
    ListFitsMeans(games, covers, mappings, ids, p);
    var blob := new StringBlob();
    var records, indexOf, recs := WriteRecords(blob, games, covers, mappings, ids, p);
    if records.None? { return None; }
    file := WriteRest(blob, games, covers, mappings, ids, records.value, indexOf, p, recs, included);
  }

  /** None is `KeyError` or `struct.error`. There is a file exactly when every curated game is in the
      dump and every number fits. */
  method BuildHead(games: seq<Game>, covers: map<nat, Str>, popularity: map<nat, int>, size: int, mappings: seq<Mapping>)
    returns (file: Option<Str>)
    requires DistinctGames(games)
    ensures var included := Included(games, popularity, size, mappings);
            && (file.Some? ==> included <= IdsOf(games) && HeadOf(file.value, games, covers, included, mappings))
            && (file.Some? <==> Curated(mappings) <= IdsOf(games) && included <= IdsOf(games)
                                && FileFits(games, covers, mappings, included))
    ensures forall id :: id in Included(games, popularity, size, mappings)
                         <==> IsIncluded(games, popularity, size, mappings, id)
  {
    var included := Included(games, popularity, size, mappings);
    TopIdsKnown(games, popularity, size);
    forall id: nat ensures id in included <==> IsIncluded(games, popularity, size, mappings, id) {
      IncludedIs(games, popularity, size, mappings, id);
    }
    file := WriteHead(games, covers, mappings, included);
  }

  /** A pack this small always fits. */
  lemma SmallFits(games: seq<Game>, covers: map<nat, Str>, mappings: seq<Mapping>, included: set<nat>, ids: seq<nat>)
    requires included <= IdsOf(games) && ListsSet(ids, included) && |ids| == |included|
    requires forall id :: id in included ==> id < U32
    requires 16 + 1_275 * |included| + 255 * (|mappings| + ExeTotal(mappings)) < U32
    ensures FileFits(games, covers, mappings, included)
  {
    forall i | 0 <= i < |ids| ensures ids[i] in included { assert ids[i] in ids; }
    var items := AllItems(games, covers, mappings, ids);
    forall k | 0 <= k < |items| ensures ItemFits(EMPTY, items, k) { FewFit(EMPTY, items, k); }
    assert ListFits(games, covers, mappings, ids);
  }
}
