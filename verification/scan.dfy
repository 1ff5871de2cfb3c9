/**
 * The paginated full-table scan used by the tally and the reset handlers.
 * A scan is a first call and the further calls issued while the previous
 * response carried a `LastEvaluatedKey`: that key is present exactly when
 * another call follows. Any call may raise instead of returning a page.
 */
module Scan {
  import opened Wrappers
  import opened Store

  datatype ScanCall = Returned(items: seq<Record>) | Raised

  predicate AllReturned(calls: seq<ScanCall>)
  {
    forall i :: 0 <= i < |calls| ==> calls[i].Returned?
  }

  /** The items of the calls, page after page (a call that raised contributes nothing). */
  function Concat(calls: seq<ScanCall>): seq<Record>
  {
    if |calls| == 0 then []
    else Concat(calls[..|calls| - 1]) + (if calls[|calls| - 1].Returned? then calls[|calls| - 1].items else [])
  }

  /** Concatenating the pages commutes with splitting the sequence of calls anywhere. */
  lemma {:induction false} ConcatAppend(a: seq<ScanCall>, b: seq<ScanCall>)
    ensures Concat(a + b) == Concat(a) + Concat(b)
    decreases |b|
  {
    if |b| == 0 {
      assert a + b == a;
    } else {
      var n := |b| - 1;
      assert (a + b)[..|a + b| - 1] == a + b[..n];
      ConcatAppend(a, b[..n]);
    }
  }

  /** What the gathering loop ends with: every item of every page in order, or nothing if a call raised. */
  function Gathered(first: ScanCall, more: seq<ScanCall>): Option<seq<Record>>
  {
    if first.Returned? && AllReturned(more) then Some(first.items + Concat(more)) else None
  }

  /** The result of one scan is the same however its items are split into pages. */
  lemma {:induction false} GatheredIgnoresPaging(first: ScanCall, more: seq<ScanCall>)
    requires first.Returned? && AllReturned(more)
    ensures Gathered(first, more) == Some(Concat([first] + more))
  {
    ConcatAppend([first], more);
    assert [first][..0] == [];
    assert Concat([first]) == first.items;
    assert Gathered(first, more) == Some(first.items + Concat(more));
  }

  /** Scans page after page, extending the item list while a continuation key is present. */
  method GatherScan(first: ScanCall, more: seq<ScanCall>) returns (items: Option<seq<Record>>)
    ensures items == Gathered(first, more)
  {
    if first.Raised? {
      return None;
    }
    var acc := first.items;
    var i := 0;
    while i < |more|
      invariant 0 <= i <= |more|
      invariant AllReturned(more[..i])
      invariant acc == first.items + Concat(more[..i])
    {
      if more[i].Raised? {
        assert !AllReturned(more);
        return None;
      }
      assert more[..i + 1][..i] == more[..i];
      acc := acc + more[i].items;
      i := i + 1;
    }
    assert more[..i] == more;
    return Some(acc);
  }
}
