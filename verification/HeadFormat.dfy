/** The layout of head.bin (scripts/build_catalogue.py, `build_head`) and its reader, the client's
    (mello-core/src/catalogue.rs, `Head`). */
module HeadFormat {
  import opened Collections
  import opened Bytes
  import opened StringBlobs
  import opened SortedKeys
  import opened Wrappers

  const MAGIC: Str := [0x4D, 0x48, 0x44, 0x32]

  predicate RefFits(r: Ref) { r.off < U32 && r.len < 256 }

  /** A record: name, slug, short name, cover and game id, in this order. */
  datatype Record = Record(id: nat, name: Ref, slug: Ref, short: Ref, cover: Ref, gameId: Ref) {
    predicate Fits() {
      && id < U32 && RefFits(name) && RefFits(slug) && RefFits(short) && RefFits(cover) && RefFits(gameId)
    }
  }

  datatype ExeEntry = ExeEntry(exe: Ref, shape: Ref, index: nat) {
    predicate Fits() { RefFits(exe) && RefFits(shape) && index < U32 }
  }

  function Pack(r: Record): (b: Str)
    requires r.Fits()
    ensures |b| == 32
  {
    Le32(r.id) + Le32(r.name.off) + Le32(r.slug.off) + Le32(r.short.off) + Le32(r.cover.off) + Le32(r.gameId.off)
    + [r.name.len, r.slug.len, r.short.len, r.cover.len, r.gameId.len, 0, 0, 0]
  }

  function Unpack(b: Str): Record
    requires |b| == 32
  {
    Record(FromLe32(b[..4]), Ref(FromLe32(b[4..8]), b[24]), Ref(FromLe32(b[8..12]), b[25]),
           Ref(FromLe32(b[12..16]), b[26]), Ref(FromLe32(b[16..20]), b[27]), Ref(FromLe32(b[20..24]), b[28]))
  }

  lemma UnpackPack(r: Record)
    requires r.Fits()
    ensures Unpack(Pack(r)) == r
  {
    var b := Pack(r);
    assert b[..4] == Le32(r.id) && b[4..8] == Le32(r.name.off) && b[8..12] == Le32(r.slug.off);
    assert b[12..16] == Le32(r.short.off) && b[16..20] == Le32(r.cover.off) && b[20..24] == Le32(r.gameId.off);
    Le32RoundTrip(r.id);
    Le32RoundTrip(r.name.off);
    Le32RoundTrip(r.slug.off);
    Le32RoundTrip(r.short.off);
    Le32RoundTrip(r.cover.off);
    Le32RoundTrip(r.gameId.off);
  }

  function PackExe(e: ExeEntry): (b: Str)
    requires e.Fits()
    ensures |b| == 16
  {
    Le32(e.exe.off) + Le32(e.shape.off) + Le32(e.index) + [e.exe.len, e.shape.len, 0, 0]
  }

  function UnpackExe(b: Str): ExeEntry
    requires |b| == 16
  {
    ExeEntry(Ref(FromLe32(b[..4]), b[12]), Ref(FromLe32(b[4..8]), b[13]), FromLe32(b[8..12]))
  }

  lemma UnpackPackExe(e: ExeEntry)
    requires e.Fits()
    ensures UnpackExe(PackExe(e)) == e
  {
    var b := PackExe(e);
    assert b[..4] == Le32(e.exe.off) && b[4..8] == Le32(e.shape.off) && b[8..12] == Le32(e.index);
    Le32RoundTrip(e.exe.off);
    Le32RoundTrip(e.shape.off);
    Le32RoundTrip(e.index);
  }

  /** Where the fields of a record and of an executable are. */
  lemma PackLayout(r: Record)
    requires r.Fits()
    ensures var b := Pack(r);
            && b[0..4] == Le32(r.id) && b[4..8] == Le32(r.name.off) && b[8..12] == Le32(r.slug.off)
            && b[12..16] == Le32(r.short.off) && b[16..20] == Le32(r.cover.off) && b[20..24] == Le32(r.gameId.off)
            && b[24] == r.name.len && b[25] == r.slug.len && b[26] == r.short.len && b[27] == r.cover.len
            && b[28] == r.gameId.len && b[29] == b[30] == b[31] == 0
  {
  }

  lemma PackExeLayout(e: ExeEntry)
    requires e.Fits()
    ensures var b := PackExe(e);
            && b[0..4] == Le32(e.exe.off) && b[4..8] == Le32(e.shape.off) && b[8..12] == Le32(e.index)
            && b[12] == e.exe.len && b[13] == e.shape.len && b[14] == b[15] == 0
  {
  }

  /** Rows one after the other. */
  function Table(rows: seq<Str>): Str {
    if rows == [] then [] else Table(rows[..|rows| - 1]) + rows[|rows| - 1]
  }

  lemma Product(width: nat, n: nat)
    ensures 0 <= width * n && width * (n + 1) == width * n + width
  {
  }

  lemma {:induction false} TableSize(rows: seq<Str>, width: nat)
    requires forall k :: 0 <= k < |rows| ==> |rows[k]| == width
    ensures |Table(rows)| == width * |rows|
  {
    if rows != [] {
      TableSize(rows[..|rows| - 1], width);
      Product(width, |rows| - 1);
    }
  }

  /** In a table of rows of one width, the place of a row follows from its number. */
  lemma {:induction false} RowAt(rows: seq<Str>, width: nat, i: nat)
    requires forall k :: 0 <= k < |rows| ==> |rows[k]| == width
    requires i < |rows|
    ensures 0 <= width * i && width * i + width <= |Table(rows)| == width * |rows|
    ensures Table(rows)[width * i..width * i + width] == rows[i]
    decreases |rows|
  {
    var n := |rows| - 1;
    TableSize(rows[..n], width);
    Product(width, n);
    Product(width, i);
    if i < n {
      RowAt(rows[..n], width, i);
      assert rows[..n][i] == rows[i];
    }
  }

  function Packed(recs: seq<Record>): (rows: seq<Str>)
    requires forall k :: 0 <= k < |recs| ==> recs[k].Fits()
    ensures |rows| == |recs| && forall k :: 0 <= k < |rows| ==> |rows[k]| == 32
  {
    seq(|recs|, k requires 0 <= k < |recs| => Pack(recs[k]))
  }

  function PackedExes(exes: seq<ExeEntry>): (rows: seq<Str>)
    requires forall k :: 0 <= k < |exes| ==> exes[k].Fits()
    ensures |rows| == |exes| && forall k :: 0 <= k < |rows| ==> |rows[k]| == 16
  {
    seq(|exes|, k requires 0 <= k < |exes| => PackExe(exes[k]))
  }

  function StringsOff(count: nat, exeCount: nat): nat { 16 + 32 * count + 16 * exeCount }

  ghost predicate AllFit(recs: seq<Record>, exes: seq<ExeEntry>) {
    && (forall k :: 0 <= k < |recs| ==> recs[k].Fits())
    && (forall k :: 0 <= k < |exes| ==> exes[k].Fits())
    && StringsOff(|recs|, |exes|) < U32
  }

  function Header(count: nat, exeCount: nat): (h: Str)
    requires StringsOff(count, exeCount) < U32
    ensures |h| == 16
  {
    MAGIC + Le32(count) + Le32(StringsOff(count, exeCount)) + Le32(exeCount)
  }

  function HeadFile(recs: seq<Record>, exes: seq<ExeEntry>, blob: Str): Str
    requires AllFit(recs, exes)
  {
    Header(|recs|, |exes|) + Table(Packed(recs)) + Table(PackedExes(exes)) + blob
  }

  // ----- the reader -----

  /** The header of a file that the client accepts. */
  datatype Info = Info(count: nat, stringsOff: nat, exeCount: nat)

  function ReadHeader(file: Str): Option<Info> {
    if |file| >= 16 && file[..4] == MAGIC then
      var h := Info(FromLe32(file[4..8]), FromLe32(file[8..12]), FromLe32(file[12..16]));
      if StringsOff(h.count, h.exeCount) <= h.stringsOff <= |file| then Some(h) else None
    else None
  }

  /** A file is refused if and only if it is too short, is not marked "MHD2", or has its strings too
      early or after its end. */
  lemma HeaderRefused(file: Str)
    ensures ReadHeader(file).None?
            <==> || |file| < 16 || file[0] != 'M' as int || file[1] != 'H' as int || file[2] != 'D' as int
                 || file[3] != '2' as int
                 || var off := FromLe32(file[8..12]);
                    16 + 32 * FromLe32(file[4..8]) + 16 * FromLe32(file[12..16]) > off || off > |file|
  {
    if |file| >= 4 {
      assert file[..4] == MAGIC <==> file[0] == MAGIC[0] && file[1] == MAGIC[1] && file[2] == MAGIC[2] && file[3] == MAGIC[3];
    }
  }

  function ReadRecord(file: Str, i: nat): Record
    requires 16 + 32 * i + 32 <= |file|
  {
    Unpack(file[16 + 32 * i..16 + 32 * i + 32])
  }

  function ReadExe(file: Str, h: Info, i: nat): ExeEntry
    requires 16 + 32 * h.count + 16 * i + 16 <= |file|
  {
    UnpackExe(file[16 + 32 * h.count + 16 * i..16 + 32 * h.count + 16 * i + 16])
  }

  /** `string_at` and `static_string`. */
  function ReadString(file: Str, h: Info, r: Ref): Str
    requires h.stringsOff <= |file|
  {
    AsText(ReadAt(file[h.stringsOff..], r))
  }

  /** The reader gets back exactly what was laid out. */
  ghost predicate ReadsBack(file: Str, recs: seq<Record>, exes: seq<ExeEntry>, blob: Str) {
    var h := Info(|recs|, StringsOff(|recs|, |exes|), |exes|);
    && ReadHeader(file) == Some(h) && h.stringsOff <= |file|
    && (forall i :: 0 <= i < |recs| ==> ReadRecord(file, i) == recs[i])
    && (forall i :: 0 <= i < |exes| ==> ReadExe(file, h, i) == exes[i])
    && file[h.stringsOff..] == blob
  }

  lemma HeaderFields(count: nat, exeCount: nat, rest: Str)
    requires StringsOff(count, exeCount) < U32 && StringsOff(count, exeCount) <= 16 + |rest|
    ensures ReadHeader(Header(count, exeCount) + rest) == Some(Info(count, StringsOff(count, exeCount), exeCount))
  {
    var file := Header(count, exeCount) + rest;
    assert file[..4] == MAGIC && file[4..8] == Le32(count);
    assert file[8..12] == Le32(StringsOff(count, exeCount)) && file[12..16] == Le32(exeCount);
    Le32RoundTrip(count);
    Le32RoundTrip(StringsOff(count, exeCount));
    Le32RoundTrip(exeCount);
  }

  lemma FourParts(a: Str, b: Str, c: Str, d: Str)
    ensures a + b + c + d == a + (b + c + d)
    ensures (a + b + c + d)[|a| + |b| + |c|..] == d
  {
  }

  lemma HeaderReads(recs: seq<Record>, exes: seq<ExeEntry>, blob: Str)
    requires AllFit(recs, exes)
    ensures ReadHeader(HeadFile(recs, exes, blob)) == Some(Info(|recs|, StringsOff(|recs|, |exes|), |exes|))
    ensures var off := StringsOff(|recs|, |exes|);
            off <= |HeadFile(recs, exes, blob)| && HeadFile(recs, exes, blob)[off..] == blob
  {
    var head, recTable, exeTable := Header(|recs|, |exes|), Table(Packed(recs)), Table(PackedExes(exes));
    TableSize(Packed(recs), 32);
    TableSize(PackedExes(exes), 16);
    FourParts(head, recTable, exeTable, blob);
    HeaderFields(|recs|, |exes|, recTable + exeTable + blob);
  }

  lemma SliceOfMiddle(a: Str, b: Str, c: Str, lo: nat, hi: nat)
    requires lo <= hi <= |b|
    ensures (a + b + c)[|a| + lo..|a| + hi] == b[lo..hi]
  {
  }

  /** A row of a table with something before and after it. */
  lemma RowIn(head: Str, rows: seq<Str>, width: nat, rest: Str, i: nat)
    requires (forall k :: 0 <= k < |rows| ==> |rows[k]| == width) && i < |rows|
    ensures 0 <= |head| + width * i && |head| + width * i + width <= |head + Table(rows) + rest|
    ensures (head + Table(rows) + rest)[|head| + width * i..|head| + width * i + width] == rows[i]
  {
    RowAt(rows, width, i);
    SliceOfMiddle(head, Table(rows), rest, width * i, width * i + width);
  }

  lemma RowHere(file: Str, head: Str, rows: seq<Str>, width: nat, rest: Str, i: nat, at: nat)
    requires (forall k :: 0 <= k < |rows| ==> |rows[k]| == width) && i < |rows|
    requires file == head + Table(rows) + rest && at == |head| + width * i
    ensures at + width <= |file| && file[at..at + width] == rows[i]
  {
    RowIn(head, rows, width, rest, i);
  }

  lemma Regroup(a: Str, b: Str, c: Str)
    ensures a + b + c == a + (b + c)
  {
  }

  lemma UnpackRow(file: Str, at: nat, r: Record)
    requires r.Fits() && at + 32 <= |file| && file[at..at + 32] == Pack(r)
    ensures Unpack(file[at..at + 32]) == r
  {
    UnpackPack(r);
  }

  lemma UnpackExeRow(file: Str, at: nat, e: ExeEntry)
    requires e.Fits() && at + 16 <= |file| && file[at..at + 16] == PackExe(e)
    ensures UnpackExe(file[at..at + 16]) == e
  {
    UnpackPackExe(e);
  }

  lemma RecordAt(file: Str, head: Str, recs: seq<Record>, rest: Str, i: nat)
    requires (forall k :: 0 <= k < |recs| ==> recs[k].Fits()) && i < |recs|
    requires |head| == 16 && file == head + Table(Packed(recs)) + rest
    ensures 16 + 32 * i + 32 <= |file| && ReadRecord(file, i) == recs[i]
  {
    var rows := Packed(recs);
    assert rows[i] == Pack(recs[i]);
    RowHere(file, head, rows, 32, rest, i, 16 + 32 * i);
    UnpackRow(file, 16 + 32 * i, recs[i]);
  }

  lemma RecordReads(recs: seq<Record>, exes: seq<ExeEntry>, blob: Str, i: nat)
    requires AllFit(recs, exes) && i < |recs|
    ensures 16 + 32 * i + 32 <= |HeadFile(recs, exes, blob)| && ReadRecord(HeadFile(recs, exes, blob), i) == recs[i]
  {
    Regroup(Header(|recs|, |exes|) + Table(Packed(recs)), Table(PackedExes(exes)), blob);
    RecordAt(HeadFile(recs, exes, blob), Header(|recs|, |exes|), recs, Table(PackedExes(exes)) + blob, i);
  }

  lemma ExeAt(file: Str, head: Str, h: Info, exes: seq<ExeEntry>, rest: Str, i: nat)
    requires (forall k :: 0 <= k < |exes| ==> exes[k].Fits()) && i < |exes|
    requires |head| == 16 + 32 * h.count && file == head + Table(PackedExes(exes)) + rest
    ensures 16 + 32 * h.count + 16 * i + 16 <= |file| && ReadExe(file, h, i) == exes[i]
  {
    RowHere(file, head, PackedExes(exes), 16, rest, i, 16 + 32 * h.count + 16 * i);
    UnpackExeRow(file, 16 + 32 * h.count + 16 * i, exes[i]);
  }

  lemma ExeReads(recs: seq<Record>, exes: seq<ExeEntry>, blob: Str, i: nat)
    requires AllFit(recs, exes) && i < |exes|
    ensures var h := Info(|recs|, StringsOff(|recs|, |exes|), |exes|);
            && 16 + 32 * h.count + 16 * i + 16 <= |HeadFile(recs, exes, blob)|
            && ReadExe(HeadFile(recs, exes, blob), h, i) == exes[i]
  {
    TableSize(Packed(recs), 32);
    ExeAt(HeadFile(recs, exes, blob), Header(|recs|, |exes|) + Table(Packed(recs)),
          Info(|recs|, StringsOff(|recs|, |exes|), |exes|), exes, blob, i);
  }

  lemma HeadRoundTrip(recs: seq<Record>, exes: seq<ExeEntry>, blob: Str)
    requires AllFit(recs, exes)
    ensures ReadsBack(HeadFile(recs, exes, blob), recs, exes, blob)
  {
    HeaderReads(recs, exes, blob);
    forall i | 0 <= i < |recs|
      ensures 16 + 32 * i + 32 <= |HeadFile(recs, exes, blob)| && ReadRecord(HeadFile(recs, exes, blob), i) == recs[i]
    {
      RecordReads(recs, exes, blob, i);
    }
    forall i | 0 <= i < |exes|
      ensures var h := Info(|recs|, StringsOff(|recs|, |exes|), |exes|);
              && 16 + 32 * h.count + 16 * i + 16 <= |HeadFile(recs, exes, blob)|
              && ReadExe(HeadFile(recs, exes, blob), h, i) == exes[i]
    {
      ExeReads(recs, exes, blob, i);
    }
  }

  /** The client's binary search over the records of a file. */
  method FindRecord(file: Str, id: nat, ghost recs: seq<Record>, ghost exes: seq<ExeEntry>, ghost blob: Str)
    returns (found: Option<nat>)
    requires ReadsBack(file, recs, exes, blob)
    requires forall i, j :: 0 <= i < j < |recs| ==> recs[i].id < recs[j].id
    ensures found.Some? ==> found.value < |recs| && recs[found.value].id == id
    ensures found.None? ==> forall i :: 0 <= i < |recs| ==> recs[i].id != id
  {
    var count := ReadHeader(file).value.count;
    var key := (i: nat) requires 16 + 32 * i + 32 <= |file| => ReadRecord(file, i).id;
    found := Search(count, key, id);
    if found.None? {
      forall i | 0 <= i < |recs| ensures recs[i].id != id { assert key(i) != id; }
    }
  }
}
