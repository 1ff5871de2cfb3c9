# Survey voting service: a Dafny model of the three handlers

The service has three AWS Lambda handlers that share one DynamoDB table:

- `vote` checks a request and upserts the item `{id: sessionId, vote: option}`;
- `results` scans the whole table page by page, counts the votes and reports
  `{no, aws, other}`, with 0 for an option nobody chose;
- `reset` scans the table page by page for ids and deletes every item.

The model keeps the handlers' branches, messages and status codes. The
table is abstracted as the class `Store.VoteTable`. Its field
`rows: map<string, string>` maps the key `id` to the `vote` attribute. Its
ghost field `log` records every single-item write applied, in order.
`put_item` and `delete_item` are its methods.

A scan is modelled as the first `scan` call plus the calls that follow. A
`LastEvaluatedKey` is present exactly when another call follows. Each call
either returns a page of records or raises. `Store.IsScanOf(rows, items)`
says that `items` is what a complete scan of the table can return: every
item once, in some order, with its stored vote.

Failures of the store are parameters of the handlers:

- `Vote.Handle`: `writeFails` says whether `put_item` raises;
- `Reset.Handle`: `deleteFailsAt` gives the index of the delete that raises;
- any handler with a scan: a scan call that raises is `Scan.Raised`.

The item is keyed by the session id (backend/vote.py:88-96), so a second
vote from the same session overwrites the first instead of adding a record:
a session holds at most one vote, and it may change it.
`Results.TallyAfterVote` states the consequence: a vote adds one to its
option, and a session's earlier vote for another option loses one.

Modules: `Wrappers` (Option, Result), `Lambda` (responses), `Store` (the
table and scans), `Scan` (the shared page-gathering loop), `Vote`,
`Results` and `Reset` (one per handler).

## Model

| member | source | states |
|---|---|---|
| `Store.VoteTable.PutItem` | backend/vote.py:94-96 | the item under `id` now holds `vote`, created or replaced, and nothing else changes; one `Put` is logged |
| `Store.VoteTable.DeleteItem` | survey-app/backend/reset.py:69-71 | the item under `id` is gone, a missing key is no error, and nothing else changes; one `Delete` is logged |
| `Store.EmptyTableScansEmpty` | survey-app/backend/reset.py:48-65 | a scan can return records from an empty table only if it returns none |
| `Store.ScanLength` | backend/results.py:40-56 | a complete scan returns exactly as many records as the table holds items |
| `Scan.GatherScan` | backend/results.py:40-56 | the loop (the same one as in survey-app/backend/reset.py:48-61) returns the first page followed by every later page, in order, and fails if any scan call raises |
| `Scan.ConcatAppend` | backend/results.py:51-56 | concatenating the pages of two runs of calls gives the concatenation of each run's pages |
| `Scan.GatheredIgnoresPaging` | backend/results.py:45-56 | the gathered list is the in-order concatenation of all pages, with the first page treated like any other |
| `Vote.Validate` | backend/vote.py:54-84 | an unparsable or non-object body gives 500; a missing body acts as `{}` and gives the session error; a missing or falsy `sessionId` gives 400 "Session ID is required" whatever the `vote` is; only then does a `vote` outside {no, aws, other} give 400 "Invalid vote option"; otherwise the ballot carries the request's session id and option |
| `Vote.Handle` | backend/vote.py:50-123 | a rejected request returns its error and leaves the table and the log unchanged; a failed write returns 500 with the table unchanged; success sets `rows[sessionId] := vote` only, logs one `Put` and returns 200; status 200 is returned exactly when the table was written |
| `Vote.RevoteReplaces` | backend/vote.py:88-96 | voting again under one session keeps only the latest option and does not grow the item count; a vote adds an item only for a new session |
| `Results.Votes` | backend/results.py:61 | one vote per scanned item, in scan order |
| `Results.Occurrences` | backend/results.py:66-73 | the count of an option never exceeds the number of votes, and it is 0 exactly when the option does not occur |
| `Results.OccurrencesIsMultiplicity` | backend/results.py:63-66 | the count equals the option's multiplicity in the multiset of votes, as `Counter` gives it |
| `Results.VoteCounts` | backend/results.py:68-74 | the result has exactly the keys no, aws and other; each value is that option's multiplicity among the votes; an option with no vote reports 0 |
| `Results.OptionTotalsBounded` | backend/results.py:61-74 | the three counts sum to at most the number of votes, and to exactly that number when every vote is in {no, aws, other} |
| `Results.TallyTotalBounded` | backend/results.py:61-74 | the reported counts sum to at most the number of scanned items, with equality when every scanned item's vote is an accepted option |
| `Results.TableTotalBounded` | backend/results.py:40-74 | for a complete scan, the reported counts sum to at most the number of items in the table, with equality when every stored vote is an accepted option |
| `Results.VoterIdsMembership` | backend/results.py:61 | a key is among the voters for an option exactly when some scanned item has that key and that vote |
| `Results.OccurrencesCountVoters` | backend/results.py:61-66 | when no item is scanned twice, an option's count equals the number of distinct keys voting for it |
| `Results.ScanFindsVoters` | backend/results.py:40-61 | a complete scan finds exactly the table's items that hold a given option |
| `Results.TallyMatchesTable` | backend/results.py:40-74 | for a complete scan, each reported count equals the number of table items holding that option |
| `Results.TallyIgnoresScanOrder` | backend/results.py:51-66 | two complete scans of one table report equal counts, however their items are ordered or split into pages |
| `Results.EmptyTableTalliesZero` | backend/results.py:68-74 | an empty table reports `{no: 0, aws: 0, other: 0}` |
| `Results.VotersAfterPut` | backend/vote.py:96 | after an upsert, an option's voters lose the session if it held that option and gain it if it is the new option |
| `Results.TallyAfterVote` | backend/results.py:61-74 | after a successful vote, the chosen option's count rises by one and the session's previous option, if different, falls by one; for a new session every other count is unchanged |
| `Results.Handle` | backend/results.py:29-97 | the handler takes no `modifies` clause, so it never writes to the table; if a scan call raises it returns 500; otherwise it returns 200 with the three counts, and for a complete scan each count is the number of items holding that option |
| `Reset.DeletesApplied` | survey-app/backend/reset.py:68-71 | the number of deletes that take effect is all of them, unless a delete raises, in which case it is the number issued before it |
| `Reset.Handle` | survey-app/backend/reset.py:32-100 | a raising scan returns 500 with the table and log unchanged; otherwise the gathered items' keys are deleted in order, one `Delete` each, until one raises; a failure returns 500 and keeps the earlier deletions; with no items no delete is issued and the result is 200; after a 200 following a complete scan the table is empty |
| `Reset.ResetEmptiesTable` | survey-app/backend/reset.py:65-71 | deleting the key of every scanned item leaves the table empty |
| `Reset.ResetIdempotent` | survey-app/backend/reset.py:48-86 | after a complete reset, a second scan returns nothing, so no delete is issued and the table stays the same empty table |

## Left out

- Creating the boto3 resource and reading the `DYNAMODB_TABLE` environment variable: SDK setup outside the model.
- The batch writer's grouping into batches of 25 and its internal retries: deletes are modelled as sequential single deletes, so a failure at index j leaves exactly the first j deletes applied.
- `ProjectionExpression` and the `LastEvaluatedKey` tokens: a scan is a given sequence of call outcomes; both handlers see records with `id` and `vote`.
- A stored item without a `vote` attribute, which would make `item['vote']` raise: the table maps every key to a vote string, so this cannot arise in the model.
- JSON text parsing: a body is absent, unparsable, or an already parsed value. JSON numbers are integers, so floating point truthiness (`0.0`) is not modelled.
- Vote.Handle: a session id that is truthy but not a string is assumed to be rejected by the store, because the table's key attribute is taken to be a string. The table definition is not part of this model.
- CORS headers, `json.dumps` of the response body, `print` logging and the Lambda `context`: presentation and I/O. Responses are a status code and a decoded body.
- Concurrency between reset and vote, HTTP method routing by API Gateway, and the browser's sessionStorage convention: outside the handlers' code.
