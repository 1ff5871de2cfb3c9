/**
 * The results handler: gathers every scanned page, extracts the votes,
 * counts them and reports exactly the three options, 0 for an absent one.
 */
module Results {
  import opened Lambda
  import opened Store
  import opened Scan

  /** The vote of each item, in scan order. */
  function Votes(items: seq<Record>): (votes: seq<string>)
    ensures |votes| == |items|
    ensures forall i :: 0 <= i < |items| ==> votes[i] == items[i].vote
  {
    seq(|items|, i requires 0 <= i < |items| => items[i].vote)
  }

  /** `Counter(votes).get(o, 0)`: how many times `o` occurs in `votes`. */
  function Occurrences(votes: seq<string>, o: string): (n: nat)
    ensures n <= |votes|
    ensures n == 0 <==> o !in votes
  {
    if |votes| == 0 then 0
    else (if votes[0] == o then 1 else 0) + Occurrences(votes[1..], o)
  }

  /** The recursive count agrees with the multiplicity of `o` in the multiset of votes. */
  lemma {:induction false} OccurrencesIsMultiplicity(votes: seq<string>, o: string)
    ensures Occurrences(votes, o) == multiset(votes)[o]
  {
    if |votes| > 0 {
      assert votes == [votes[0]] + votes[1..];
      OccurrencesIsMultiplicity(votes[1..], o);
    }
  }

  /** The results dictionary: exactly the three options, each with its number of votes. */
  function VoteCounts(items: seq<Record>): (counts: map<string, nat>)
    ensures counts.Keys == Options
    ensures forall o :: o in Options ==> counts[o] == multiset(Votes(items))[o]
    ensures forall o :: o in Options && o !in Votes(items) ==> counts[o] == 0
  {
    var votes := Votes(items);
    OccurrencesIsMultiplicity(votes, "no");
    OccurrencesIsMultiplicity(votes, "aws");
    OccurrencesIsMultiplicity(votes, "other");
    map["no" := Occurrences(votes, "no"), "aws" := Occurrences(votes, "aws"), "other" := Occurrences(votes, "other")]
  }

  /** The three counts sum to at most the number of votes, and to exactly that when every vote is an accepted option. */
  lemma {:induction false} OptionTotalsBounded(votes: seq<string>)
    ensures Occurrences(votes, "no") + Occurrences(votes, "aws") + Occurrences(votes, "other") <= |votes|
    ensures (forall i :: 0 <= i < |votes| ==> votes[i] in Options) ==>
              Occurrences(votes, "no") + Occurrences(votes, "aws") + Occurrences(votes, "other") == |votes|
  {
    if |votes| > 0 {
      OptionTotalsBounded(votes[1..]);
      if forall i :: 0 <= i < |votes| ==> votes[i] in Options {
        assert votes[0] in Options;
        assert forall i :: 0 <= i < |votes[1..]| ==> votes[1..][i] == votes[i + 1];
      }
    }
  }

  /** The tally reports at most one vote per scanned item, and one per item when every stored vote is an accepted option. */
  lemma TallyTotalBounded(items: seq<Record>)
    ensures var c := VoteCounts(items); c["no"] + c["aws"] + c["other"] <= |items|
    ensures (forall i :: 0 <= i < |items| ==> items[i].vote in Options) ==>
              var c := VoteCounts(items); c["no"] + c["aws"] + c["other"] == |items|
  {
    OptionTotalsBounded(Votes(items));
  }

  /**
   * For a complete scan, the reported counts sum to at most the number of
   * items in the table, and to exactly that number when every stored vote is
   * an accepted option.
   */
  lemma TableTotalBounded(rows: map<string, string>, items: seq<Record>)
    requires IsScanOf(rows, items)
    ensures var c := VoteCounts(items); c["no"] + c["aws"] + c["other"] <= |rows|
    ensures (forall k :: k in rows ==> rows[k] in Options) ==>
              var c := VoteCounts(items); c["no"] + c["aws"] + c["other"] == |rows|
  {
    ScanLength(rows, items);
    TallyTotalBounded(items);
  }

  /** The keys of the scanned items whose vote is `o`. */
  function VoterIds(items: seq<Record>, o: string): set<string>
  {
    if |items| == 0 then {}
    else (if items[0].vote == o then {items[0].id} else {}) + VoterIds(items[1..], o)
  }

  lemma {:induction false} VoterIdsMembership(items: seq<Record>, o: string, x: string)
    ensures x in VoterIds(items, o) <==> exists i :: 0 <= i < |items| && items[i].id == x && items[i].vote == o
  {
    if |items| > 0 {
      var tail := items[1..];
      VoterIdsMembership(tail, o, x);
      if x in VoterIds(tail, o) {
        var j :| 0 <= j < |tail| && tail[j].id == x && tail[j].vote == o;
        assert items[j + 1] == tail[j];
      }
      if exists i :: 0 <= i < |items| && items[i].id == x && items[i].vote == o {
        var i :| 0 <= i < |items| && items[i].id == x && items[i].vote == o;
        if i > 0 {
          assert tail[i - 1] == items[i];
        }
      }
    }
  }

  /** With no item scanned twice, the count of `o` is the number of distinct keys voting `o`. */
  lemma {:induction false} OccurrencesCountVoters(items: seq<Record>, o: string)
    requires DistinctIds(items)
    ensures Occurrences(Votes(items), o) == |VoterIds(items, o)|
  {
    if |items| > 0 {
      var tail := items[1..];
      assert Votes(items)[1..] == Votes(tail);
      assert DistinctIds(tail) by {
        forall i, j | 0 <= i < j < |tail| ensures tail[i].id != tail[j].id {
          assert tail[i] == items[i + 1] && tail[j] == items[j + 1];
        }
      }
      OccurrencesCountVoters(tail, o);
      assert items[0].id !in VoterIds(tail, o) by {
        VoterIdsMembership(tail, o, items[0].id);
      }
    }
  }

  /** For a complete scan, the voters found are exactly the table's items holding `o`. */
  lemma ScanFindsVoters(rows: map<string, string>, items: seq<Record>, o: string)
    requires IsScanOf(rows, items)
    ensures VoterIds(items, o) == VotersFor(rows, o)
  {
    forall x ensures x in VoterIds(items, o) <==> x in VotersFor(rows, o) {
      VoterIdsMembership(items, o, x);
      if x in VotersFor(rows, o) {
        var i :| 0 <= i < |items| && items[i].id == x;
        assert items[i].vote == o;
      }
    }
  }

  /** Each reported count equals the number of items of the table holding that option. */
  lemma TallyMatchesTable(rows: map<string, string>, items: seq<Record>)
    requires IsScanOf(rows, items)
    ensures forall o :: o in Options ==> VoteCounts(items)[o] == |VotersFor(rows, o)|
  {
    forall o | o in Options ensures VoteCounts(items)[o] == |VotersFor(rows, o)| {
      OccurrencesCountVoters(items, o);
      ScanFindsVoters(rows, items, o);
    }
  }

  /** Two complete scans of the same table report the same counts, however their items are ordered and paged. */
  lemma TallyIgnoresScanOrder(rows: map<string, string>, a: seq<Record>, b: seq<Record>)
    requires IsScanOf(rows, a) && IsScanOf(rows, b)
    ensures VoteCounts(a) == VoteCounts(b)
  {
    TallyMatchesTable(rows, a);
    TallyMatchesTable(rows, b);
  }

  /** An empty table reports 0 for every option. */
  lemma EmptyTableTalliesZero(items: seq<Record>)
    requires IsScanOf(map[], items)
    ensures VoteCounts(items) == map["no" := 0, "aws" := 0, "other" := 0]
  {
    EmptyTableScansEmpty(items);
  }

  /** Upserting `id := option` moves `id` out of its old option's voters and into `option`'s. */
  lemma VotersAfterPut(rows: map<string, string>, id: string, option: string, o: string)
    ensures |VotersFor(rows[id := option], o)|
            == |VotersFor(rows, o)| - (if id in rows && rows[id] == o then 1 else 0) + (if option == o then 1 else 0)
  {
    var before, after := VotersFor(rows, o), VotersFor(rows[id := option], o);
    var rest := before - {id};
    assert after - {id} == rest;
    if id in before {
      assert before == rest + {id};
    } else {
      assert before == rest;
    }
    if option == o {
      assert after == rest + {id};
    } else {
      assert after == rest;
    }
  }

  /**
   * A successful vote followed by a tally: the chosen option gains one and the
   * session's previous option loses one. Only a session that has not voted
   * before leaves every other option's count unchanged.
   */
  lemma TallyAfterVote(rows: map<string, string>, before: seq<Record>, after: seq<Record>, id: string, option: string)
    requires IsScanOf(rows, before) && IsScanOf(rows[id := option], after)
    ensures forall o :: o in Options ==>
              VoteCounts(after)[o]
              == VoteCounts(before)[o] - (if id in rows && rows[id] == o then 1 else 0) + (if option == o then 1 else 0)
    ensures id !in rows && option in Options ==>
              VoteCounts(after)[option] == VoteCounts(before)[option] + 1
              && forall o :: o in Options && o != option ==> VoteCounts(after)[o] == VoteCounts(before)[o]
  {
    TallyMatchesTable(rows, before);
    TallyMatchesTable(rows[id := option], after);
    forall o | o in Options
      ensures VoteCounts(after)[o]
              == VoteCounts(before)[o] - (if id in rows && rows[id] == o then 1 else 0) + (if option == o then 1 else 0)
    {
      VotersAfterPut(rows, id, option, o);
    }
  }

  /** The handler: never writes to the table, fails with 500 if a scan call raises, and otherwise reports the tally. */
  method Handle(table: VoteTable, first: ScanCall, more: seq<ScanCall>) returns (resp: Response)
    ensures Gathered(first, more).None? ==> resp == InternalError
    ensures Gathered(first, more).Some? ==> resp == Response(Ok200, Tally(VoteCounts(Gathered(first, more).value)))
    ensures Gathered(first, more).Some? && IsScanOf(table.rows, Gathered(first, more).value) ==>
              resp.statusCode == Ok200 && resp.body.Tally? && resp.body.counts.Keys == Options
              && forall o :: o in Options ==> resp.body.counts[o] == |VotersFor(table.rows, o)|
  {
    var scanned := GatherScan(first, more);
    if scanned.None? {
      return InternalError;
    }
    var items := scanned.value;
    var counts := VoteCounts(items);
    if IsScanOf(table.rows, items) {
      TallyMatchesTable(table.rows, items);
    }
    return Response(Ok200, Tally(counts));
  }
}
