/** The log of drawing records: one record per pointer-down that starts a
    stroke or shape, refreshed by id when the stroke ends. */
module Records {
  import opened Canvas

  datatype Option<T> = None | Some(value: T)

  /** The tool selected in the toolbar. */
  datatype Mode = Pen | Line | Rectangle | TextTool | Eraser

  /** Timestamps are abstract clock readings; `id` is the reading taken when
      the record was created. `points` is never filled in. */
  datatype DrawingRecord = DrawingRecord(
    id: int,
    mode: Mode,
    createdAt: int,
    updatedAt: int,
    points: seq<Point>)

  function NewRecord(mode: Mode, now: int): DrawingRecord
  {
    DrawingRecord(now, mode, now, now, [])
  }

  predicate UniqueIds(ds: seq<DrawingRecord>)
  {
    forall i, j :: 0 <= i < j < |ds| ==> ds[i].id != ds[j].id
  }

  predicate HasId(ds: seq<DrawingRecord>, id: int)
  {
    exists i :: 0 <= i < |ds| && ds[i].id == id
  }

  /** `drawings.map(d => d.id === id ? rec : d)`: every record carrying `id`
      becomes `rec`, every other record stays where and what it was. */
  function ReplaceById(ds: seq<DrawingRecord>, id: int, rec: DrawingRecord): (r: seq<DrawingRecord>)
    ensures |r| == |ds|
    ensures forall i :: 0 <= i < |ds| ==> r[i] == (if ds[i].id == id then rec else ds[i])
  {
    if |ds| == 0 then []
    else [if ds[0].id == id then rec else ds[0]] + ReplaceById(ds[1..], id, rec)
  }

  /** With unique ids and a record that keeps the matched id, replacing by id
      changes exactly one entry and keeps every id in place. */
  lemma ReplaceByIdTouchesOnlyMatch(ds: seq<DrawingRecord>, k: int, rec: DrawingRecord)
    requires UniqueIds(ds) && 0 <= k < |ds| && rec.id == ds[k].id
    ensures var r := ReplaceById(ds, ds[k].id, rec);
      && r[k] == rec
      && (forall j :: 0 <= j < |ds| && j != k ==> r[j] == ds[j])
      && (forall j :: 0 <= j < |ds| ==> r[j].id == ds[j].id)
      && UniqueIds(r)
  {
    var r := ReplaceById(ds, ds[k].id, rec);
    forall j | 0 <= j < |ds| && j != k ensures r[j] == ds[j] {
      if j < k { assert ds[j].id != ds[k].id; } else { assert ds[k].id != ds[j].id; }
    }
  }

  /** A record whose id is later than every logged id keeps the ids unique. */
  lemma AppendFreshKeepsUnique(ds: seq<DrawingRecord>, rec: DrawingRecord)
    requires UniqueIds(ds)
    requires forall i :: 0 <= i < |ds| ==> ds[i].id < rec.id
    ensures UniqueIds(ds + [rec]) && HasId(ds + [rec], rec.id)
  {
    var r := ds + [rec];
    assert r[|ds|].id == rec.id;
  }
}
