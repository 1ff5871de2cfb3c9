/**
 * The HTTP responses the three handlers return to API Gateway, reduced to
 * the status code and the decoded JSON body. CORS headers are left out.
 */
module Lambda {
  /** The JSON body of a response: either `{"message": ...}` or the tally object. */
  datatype Body = Message(text: string) | Tally(counts: map<string, nat>)

  datatype Response = Response(statusCode: int, body: Body)

  const Ok200: int := 200
  const BadRequest400: int := 400
  const ServerError500: int := 500

  /** The 500 response of the vote and results handlers. */
  const InternalError := Response(ServerError500, Message("Internal server error"))
}
