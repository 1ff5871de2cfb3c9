/**
 * The vote handler: parses the request body, checks the session id and then
 * the option, and upserts one item keyed by the session id.
 */
module Vote {
  import opened Wrappers
  import opened Lambda
  import opened Store

  /** A parsed JSON value (numbers are integers here). */
  datatype Json =
    | JNull
    | JBool(b: bool)
    | JNumber(n: int)
    | JString(s: string)
    | JArray(elems: seq<Json>)
    | JObject(fields: map<string, Json>)

  /** The `body` of the incoming event: absent (read as `{}`), `null` or text that does not parse, or a parsed JSON value. */
  datatype RequestBody = NoBody | Unparsable | Parsed(value: Json)

  /** A request that passed both checks. */
  datatype Ballot = Ballot(sessionId: Json, option: string)

  const SessionRequired := Response(BadRequest400, Message("Session ID is required"))
  const InvalidOption := Response(BadRequest400, Message("Invalid vote option"))
  const VoteRecorded := Response(Ok200, Message("Vote recorded successfully"))

  /** Python truthiness: `null`, `false`, `0`, `""`, `[]` and `{}` are false. */
  predicate Truthy(v: Json)
  {
    match v
    case JNull => false
    case JBool(b) => b
    case JNumber(n) => n != 0
    case JString(s) => s != ""
    case JArray(elems) => elems != []
    case JObject(fields) => fields != map[]
  }

  /** `dict.get(key)`: the value stored under `key`, or `null` when it is missing. */
  function Field(fields: map<string, Json>, key: string): Json
  {
    if key in fields then fields[key] else JNull
  }

  /** The object the handler reads its fields from: a missing body stands for `{}`; anything but an object is an error. */
  function BodyFields(body: RequestBody): Option<map<string, Json>>
  {
    match body
    case NoBody => Some(map[])
    case Unparsable => None
    case Parsed(v) => if v.JObject? then Some(v.fields) else None
  }

  /** The request passes the session check. */
  predicate HasSession(fields: map<string, Json>)
  {
    Truthy(Field(fields, "sessionId"))
  }

  /** The `vote` field is one of the accepted options. */
  predicate HasValidOption(fields: map<string, Json>)
  {
    var v := Field(fields, "vote");
    v.JString? && v.s in Options
  }

  /** Parsing and the two checks, in the handler's order: the session id first, then the option. */
  function Validate(body: RequestBody): (r: Result<Ballot, Response>)
    ensures BodyFields(body).None? ==> r == Err(InternalError)
    ensures body.NoBody? ==> r == Err(SessionRequired)
    ensures r == Err(SessionRequired) <==> BodyFields(body).Some? && !HasSession(BodyFields(body).value)
    ensures r == Err(InvalidOption) <==>
              BodyFields(body).Some? && HasSession(BodyFields(body).value) && !HasValidOption(BodyFields(body).value)
    ensures r.Ok? <==> BodyFields(body).Some? && HasSession(BodyFields(body).value) && HasValidOption(BodyFields(body).value)
    ensures r.Ok? ==> Truthy(r.value.sessionId) && r.value.option in Options
    ensures r.Ok? ==>
              && r.value.sessionId == Field(BodyFields(body).value, "sessionId")
              && JString(r.value.option) == Field(BodyFields(body).value, "vote")
  {
    match BodyFields(body)
    case None => Err(InternalError)
    case Some(fields) =>
      var voteOption := Field(fields, "vote");
      var sessionId := Field(fields, "sessionId");
      if !Truthy(sessionId) then Err(SessionRequired)
      else if !(voteOption.JString? && voteOption.s in Options) then Err(InvalidOption)
      else Ok(Ballot(sessionId, voteOption.s))
  }

  /**
   * The handler. `writeFails` says whether the store rejects the `put_item`
   * call; a session id that is not a string is rejected as well, because the
   * table's key attribute is a string.
   */
  method Handle(table: VoteTable, body: RequestBody, writeFails: bool) returns (resp: Response)
    modifies table
    ensures Validate(body).Err? ==>
              resp == Validate(body).error && table.rows == old(table.rows) && table.log == old(table.log)
    ensures Validate(body).Ok? && (writeFails || !Validate(body).value.sessionId.JString?) ==>
              resp == InternalError && table.rows == old(table.rows) && table.log == old(table.log)
    ensures Validate(body).Ok? && !writeFails && Validate(body).value.sessionId.JString? ==>
              var id, option := Validate(body).value.sessionId.s, Validate(body).value.option;
              resp == VoteRecorded
              && table.rows == old(table.rows)[id := option]
              && table.log == old(table.log) + [Put(id, option)]
    ensures resp.statusCode == Ok200 <==> table.rows != old(table.rows) || table.log != old(table.log)
  {
    var checked := Validate(body);
    if checked.Err? {
      return checked.error;
    }
    var ballot := checked.value;
    if writeFails || !ballot.sessionId.JString? {
      return InternalError;
    }
    table.PutItem(ballot.sessionId.s, ballot.option);
    return VoteRecorded;
  }

  /** Voting again under the same session replaces the earlier vote: the item count does not grow and only the latest option is kept. */
  lemma RevoteReplaces(rows: map<string, string>, id: string, earlier: string, later: string)
    ensures rows[id := earlier][id := later] == rows[id := later]
    ensures |rows[id := earlier][id := later]| == |rows[id := earlier]|
    ensures |rows[id := later]| == |rows| + (if id in rows then 0 else 1)
  {
    var once := rows[id := earlier];
    assert id in once;
    assert once[id := later].Keys == once.Keys;
    if id in rows {
      assert rows[id := later].Keys == rows.Keys;
    } else {
      assert rows[id := later].Keys == rows.Keys + {id};
    }
  }
}
