/**
 * The reset handler: gathers the ids of every scanned page and deletes the
 * items one by one. A failure stops the run with no rollback.
 */
module Reset {
  import opened Wrappers
  import opened Lambda
  import opened Store
  import opened Scan

  const ResetDone := Response(Ok200, Message("Survey reset successfully"))
  const ResetFailed := Response(ServerError500, Message("Internal server error during reset"))

  /** How many of `n` deletes take effect when the delete at index `failsAt` (if any) raises. */
  function DeletesApplied(n: nat, failsAt: Option<nat>): (k: nat)
    ensures k <= n
    ensures k < n <==> failsAt.Some? && failsAt.value < n
  {
    if failsAt.Some? && failsAt.value < n then failsAt.value else n
  }

  /**
   * The handler. `deleteFailsAt` is the index of the delete that raises, if
   * any; deletes issued before it stay applied.
   */
  method Handle(table: VoteTable, first: ScanCall, more: seq<ScanCall>, deleteFailsAt: Option<nat>)
    returns (resp: Response)
    modifies table
    ensures Gathered(first, more).None? ==>
              resp == ResetFailed && table.rows == old(table.rows) && table.log == old(table.log)
    ensures Gathered(first, more).Some? ==>
              var items := Gathered(first, more).value;
              var k := DeletesApplied(|items|, deleteFailsAt);
              && table.rows == old(table.rows) - KeysOf(items[..k])
              && table.log == old(table.log) + Deletions(items[..k])
              && resp == (if k < |items| then ResetFailed else ResetDone)
    ensures resp == ResetDone && IsScanOf(old(table.rows), Gathered(first, more).value) ==> table.rows == map[]
  {
    var scanned := GatherScan(first, more);
    if scanned.None? {
      return ResetFailed;
    }
    var items := scanned.value;
    if |items| > 0 {
      ghost var rows0, log0 := table.rows, table.log;
      var j := 0;
      while j < |items|
        invariant 0 <= j <= |items|
        invariant deleteFailsAt.Some? ==> j <= deleteFailsAt.value
        invariant table.rows == rows0 - KeysOf(items[..j])
        invariant table.log == log0 + Deletions(items[..j])
      {
        if deleteFailsAt == Some(j) {
          return ResetFailed;
        }
        assert items[..j + 1] == items[..j] + [items[j]];
        table.DeleteItem(items[j].id);
        j := j + 1;
      }
      assert items[..j] == items;
    }
    if IsScanOf(old(table.rows), items) {
      ResetEmptiesTable(old(table.rows), items);
    }
    return ResetDone;
  }

  /** Deleting the key of every scanned item leaves an empty table. */
  lemma ResetEmptiesTable(rows: map<string, string>, items: seq<Record>)
    requires Covers(rows, items)
    ensures rows - KeysOf(items) == map[]
  {
    forall k | k in rows ensures k in KeysOf(items) {
      var i :| 0 <= i < |items| && items[i].id == k;
      assert items[i] in items;
    }
  }

  /**
   * Reset is idempotent: after a complete reset, a second scan finds nothing,
   * issues no delete, and leaves the same empty table.
   */
  lemma ResetIdempotent(rows: map<string, string>, once: seq<Record>, again: seq<Record>)
    requires IsScanOf(rows, once)
    requires IsScanOf(rows - KeysOf(once), again)
    ensures rows - KeysOf(once) == map[]
    ensures again == [] && Deletions(again) == []
    ensures (rows - KeysOf(once)) - KeysOf(again) == rows - KeysOf(once)
  {
    ResetEmptiesTable(rows, once);
    EmptyTableScansEmpty(again);
  }
}
