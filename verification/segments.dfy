/**
 * The segment lists of the two transcript columns and the update `addSegment` hands to the React
 * state setter (src/app/page.tsx): find the segment by id, replace it where it stands, or append.
 */
module SegmentStore {
  import opened Wrappers

  /** One displayed unit of text. `timestamp` is the `m:ss` label a final segment may carry. */
  datatype Segment = Segment(id: string, text: string, isPartial: bool, timestamp: Option<string>)

  /** The ids of a column, in display order. */
  function Ids(segs: seq<Segment>): seq<string> {
    seq(|segs|, k requires 0 <= k < |segs| => segs[k].id)
  }

  /** No id occurs twice in the column. */
  predicate UniqueIds(segs: seq<Segment>) {
    forall i, j :: 0 <= i < j < |segs| ==> segs[i].id != segs[j].id
  }

  /** `segs.findIndex(s => s.id === id)`: the first position holding `id`, or -1. */
  function IndexOf(segs: seq<Segment>, id: string): (r: int)
    ensures -1 <= r < |segs|
    ensures r >= 0 ==> segs[r].id == id && forall k :: 0 <= k < r ==> segs[k].id != id
    ensures r < 0 <==> id !in Ids(segs)
  {
    if segs == [] then -1
    else if segs[0].id == id then
      assert Ids(segs)[0] == id;
      0
    else
      var r := IndexOf(segs[1..], id);
      assert Ids(segs) == [segs[0].id] + Ids(segs[1..]);
      if r < 0 then -1 else r + 1
  }

  /** The first position holding `id` is what `IndexOf` finds. */
  lemma IndexOfFirst(segs: seq<Segment>, id: string, k: nat)
    requires k < |segs| && segs[k].id == id
    requires forall j :: 0 <= j < k ==> segs[j].id != id
    ensures IndexOf(segs, id) == k
  {
    assert Ids(segs)[k] == id;
  }

  /**
   * The updater passed to the column's setter: a segment whose id is already shown replaces that
   * segment where it stands; any other segment goes at the end. Existing ids keep their order (the
   * old ids are a prefix of the new ones), the new segment is found under its id, every segment with
   * another id is untouched, and ids stay unique.
   */
  function Upsert(segs: seq<Segment>, seg: Segment): (r: seq<Segment>)
    ensures |r| == if seg.id in Ids(segs) then |segs| else |segs| + 1
    ensures Ids(r) == if seg.id in Ids(segs) then Ids(segs) else Ids(segs) + [seg.id]
    ensures IndexOf(r, seg.id) == if seg.id in Ids(segs) then IndexOf(segs, seg.id) else |segs|
    ensures r[IndexOf(r, seg.id)] == seg
    ensures forall k :: 0 <= k < |segs| && segs[k].id != seg.id ==> r[k] == segs[k]
    ensures UniqueIds(segs) ==> UniqueIds(r)
  {
    var idx := IndexOf(segs, seg.id);
    if idx >= 0 then
      var r := segs[idx := seg];
      assert Ids(r) == Ids(segs);
      IndexOfFirst(r, seg.id, idx);
      r
    else
      var r := segs + [seg];
      assert Ids(r) == Ids(segs) + [seg.id];
      assert forall k :: 0 <= k < |segs| ==> r[k].id == Ids(segs)[k] != seg.id;
      r
  }

  /** The segment shown under `id`, if any. */
  function Find(segs: seq<Segment>, id: string): Option<Segment> {
    var k := IndexOf(segs, id);
    if k < 0 then None else Some(segs[k])
  }

  /** After an upsert the column shows the new segment under its id. */
  lemma UpsertIsFound(segs: seq<Segment>, seg: Segment)
    ensures Find(Upsert(segs, seg), seg.id) == Some(seg)
  {
  }

  /**
   * Display order is first-appearance order: once `a` is shown before `b`, no later upsert, of either
   * of them or of anything else, changes that.
   */
  lemma UpsertKeepsOrder(segs: seq<Segment>, seg: Segment, a: string, b: string)
    requires 0 <= IndexOf(segs, a) < IndexOf(segs, b)
    ensures 0 <= IndexOf(Upsert(segs, seg), a) < IndexOf(Upsert(segs, seg), b)
  {
    var r := Upsert(segs, seg);
    var ia, ib := IndexOf(segs, a), IndexOf(segs, b);
    assert Ids(segs)[ia] == a && Ids(segs)[ib] == b;
    assert Ids(r)[ia] == a && Ids(r)[ib] == b;
    assert forall k :: 0 <= k < |segs| ==> r[k].id == Ids(r)[k] == Ids(segs)[k] == segs[k].id;
    IndexOfFirst(r, a, ia);
    IndexOfFirst(r, b, ib);
  }

  /**
   * The sequence of ids `a`, `b`, `a` (the third an update of the first) leaves `a` before `b`, even
   * though `a` was written last; `a`'s segment holds the last text written for it.
   */
  lemma UpdateAfterLaterIdKeepsPlace(segs: seq<Segment>, a1: Segment, b: Segment, a2: Segment)
    requires a1.id == a2.id != b.id
    requires a1.id !in Ids(segs) && b.id !in Ids(segs)
    ensures var r := Upsert(Upsert(Upsert(segs, a1), b), a2);
            IndexOf(r, a1.id) == |segs| && IndexOf(r, b.id) == |segs| + 1 && |r| == |segs| + 2
            && Find(r, a1.id) == Some(a2)
  {
    var r1 := Upsert(segs, a1);
    var r2 := Upsert(r1, b);
    assert a1.id in Ids(r2) by { assert Ids(r2)[|segs|] == a1.id; }
    UpsertKeepsOrder(r2, a2, a1.id, b.id);
  }
}
