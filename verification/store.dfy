/**
 * The DynamoDB table shared by the three handlers, abstracted as a map from
 * the primary key `id` to the stored `vote` attribute.
 */
module Store {
  /** The closed set of vote options accepted by the vote handler and reported by the tally. */
  const Options: set<string> := {"no", "aws", "other"}

  /** One item returned by a scan. */
  datatype Record = Record(id: string, vote: string)

  /** A single-item write applied to the table. */
  datatype Write = Put(id: string, vote: string) | Delete(id: string)

  class VoteTable {
    /** The items of the table: `id` to `vote`. */
    var rows: map<string, string>
    /** Every single-item write applied so far, in order. */
    ghost var log: seq<Write>

    /** `put_item`: creates the item, or replaces the one with the same key. */
    method PutItem(id: string, vote: string)
      modifies this
      ensures rows == old(rows)[id := vote]
      ensures log == old(log) + [Put(id, vote)]
    {
      rows := rows[id := vote];
      log := log + [Put(id, vote)];
    }

    /** `delete_item`: removes the item with this key; a missing key is not an error. */
    method DeleteItem(id: string)
      modifies this
      ensures rows == old(rows) - {id}
      ensures log == old(log) + [Delete(id)]
    {
      rows := rows - {id};
      log := log + [Delete(id)];
    }
  }

  /** Every scanned record is an item of the table, with its stored vote. */
  ghost predicate Consistent(rows: map<string, string>, recs: seq<Record>)
  {
    forall i :: 0 <= i < |recs| ==> recs[i].id in rows && rows[recs[i].id] == recs[i].vote
  }

  /** No item is returned twice. */
  ghost predicate DistinctIds(recs: seq<Record>)
  {
    forall i, j :: 0 <= i < j < |recs| ==> recs[i].id != recs[j].id
  }

  /** Every item of the table is returned. */
  ghost predicate Covers(rows: map<string, string>, recs: seq<Record>)
  {
    forall k :: k in rows ==> exists i :: 0 <= i < |recs| && recs[i].id == k
  }

  /** `recs` is what a complete scan of a table holding `rows` can return, in some order. */
  ghost predicate IsScanOf(rows: map<string, string>, recs: seq<Record>)
  {
    Consistent(rows, recs) && DistinctIds(recs) && Covers(rows, recs)
  }

  /** The keys of the scanned records. */
  function KeysOf(recs: seq<Record>): set<string>
  {
    set r | r in recs :: r.id
  }

  /** The deletes issued for `recs`, one per record, in order. */
  function Deletions(recs: seq<Record>): (ws: seq<Write>)
    ensures |ws| == |recs|
    ensures forall i :: 0 <= i < |recs| ==> ws[i] == Delete(recs[i].id)
  {
    seq(|recs|, i requires 0 <= i < |recs| => Delete(recs[i].id))
  }

  /** With no item returned twice, there are as many keys as records. */
  lemma {:induction false} DistinctKeysCount(recs: seq<Record>)
    requires DistinctIds(recs)
    ensures |KeysOf(recs)| == |recs|
  {
    if |recs| > 0 {
      var n := |recs| - 1;
      var prefix := recs[..n];
      assert DistinctIds(prefix);
      DistinctKeysCount(prefix);
      assert recs == prefix + [recs[n]];
      assert KeysOf(recs) == KeysOf(prefix) + {recs[n].id};
      assert recs[n].id !in KeysOf(prefix);
    }
  }

  /** A complete scan returns exactly as many records as the table holds items. */
  lemma ScanLength(rows: map<string, string>, recs: seq<Record>)
    requires IsScanOf(rows, recs)
    ensures |recs| == |rows|
  {
    DistinctKeysCount(recs);
    assert KeysOf(recs) == rows.Keys;
  }

  /** The keys of the items whose vote is `o`. */
  ghost function VotersFor(rows: map<string, string>, o: string): set<string>
  {
    set k | k in rows && rows[k] == o
  }

  /** A scan of an empty table returns nothing. */
  lemma EmptyTableScansEmpty(recs: seq<Record>)
    ensures Consistent(map[], recs) <==> recs == []
  {
    if recs != [] {
      var empty: map<string, string> := map[];
      assert recs[0].id !in empty;
    }
  }
}
