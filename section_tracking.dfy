/**
 * The active-section rule that the intersection-observer callbacks of
 * src/components/react/Navbar.tsx and src/components/react/DotNav.tsx share:
 * the entries of one batch are visited in order and every intersecting entry
 * sets the active id, so the last intersecting entry wins and a batch with
 * none leaves the active id as it was.
 */
module SectionTracking {

  /** One observer entry: the observed element's id and whether it intersects the band. */
  datatype Entry = Entry(targetId: string, isIntersecting: bool)

  /** Entry `i` intersects and no later entry of the batch does. */
  predicate IsLastIntersecting(entries: seq<Entry>, i: int) {
    0 <= i < |entries| && entries[i].isIntersecting &&
    forall j :: i < j < |entries| ==> !entries[j].isIntersecting
  }

  /** The active id after the batch `entries`, starting from `current`. */
  function AfterBatch(entries: seq<Entry>, current: string): (r: string)
    // no intersecting entry: unchanged
    ensures (forall i :: 0 <= i < |entries| ==> !entries[i].isIntersecting) ==> r == current
    // otherwise: the id of the last intersecting entry
    ensures (exists i :: 0 <= i < |entries| && entries[i].isIntersecting) ==>
              exists i :: IsLastIntersecting(entries, i) && r == entries[i].targetId
    decreases |entries|
  {
    if entries == [] then current
    else
      var last := entries[|entries| - 1];
      if last.isIntersecting then
        assert IsLastIntersecting(entries, |entries| - 1);
        last.targetId
      else
        var rest := entries[..|entries| - 1];
        assert forall i :: 0 <= i < |rest| ==> rest[i] == entries[i];
        assert forall i :: IsLastIntersecting(rest, i) ==> IsLastIntersecting(entries, i);
        AfterBatch(rest, current)
  }

  /**
   * When every entry reports one of the `ids` and the current id is one of
   * them, so is the id after the batch.
   */
  lemma AfterBatchStaysIn(entries: seq<Entry>, current: string, ids: set<string>)
    requires current in ids
    requires forall i :: 0 <= i < |entries| ==> entries[i].targetId in ids
    ensures AfterBatch(entries, current) in ids
  {
  }
}
