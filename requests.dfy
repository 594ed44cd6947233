/** Sending requests to the node and classifying its replies (requests.rs).
    Header construction and the HTTP client itself are the transport's. */
module Requests {
  import opened Errors
  import opened Json
  import opened Client

  const TextUnreadableMessage: string := "Node Response Not Parseable into Text."

  /** Any failure to send becomes `NodeUnreachable`. */
  function Send(env: Env, req: Request): (r: Result<Response>)
    ensures r.Err? <==> env.transport(req) == Unreachable
    ensures r.Err? ==> r.error == NodeUnreachable
    ensures r.Ok? ==> env.transport(req) == Received(r.value)
  {
    match env.transport(req)
    case Unreachable => Err(NodeUnreachable)
    case Received(resp) => Ok(resp)
  }

  /** `send_get_req`: a GET of `node_url() + endpoint`. */
  function SendGetReq(ni: NodeInterface, env: Env, endpoint: string): Result<Response>
  {
    Send(env, Get(NodeUrl(ni) + endpoint))
  }

  /** `send_post_req`: a POST of `body` to `node_url() + endpoint`. */
  function SendPostReq(ni: NodeInterface, env: Env, endpoint: string, body: string): Result<Response>
  {
    Send(env, Post(NodeUrl(ni) + endpoint, body))
  }

  /** `parse_response_to_json`: an upstream failure passes through; a body
      that is not text, or text that is not JSON, is
      `FailedParsingNodeResponse` (with a fixed message, or with the text). */
  function ParseResponseToJson(env: Env, resp: Result<Response>): (r: Result<Json>)
    ensures resp.Err? ==> r == Err(resp.error)
    ensures resp == Ok(Unreadable) ==> r == Err(FailedParsingNodeResponse(TextUnreadableMessage))
    ensures resp.Ok? && resp.value.Text? ==>
              r == (match env.parseJson(resp.value.body)
                    case Some(doc) => Ok(doc)
                    case None => Err(FailedParsingNodeResponse(resp.value.body)))
  {
    var response :- resp;
    match response
    case Unreadable => Err(FailedParsingNodeResponse(TextUnreadableMessage))
    case Text(text) =>
      match env.parseJson(text)
      case Some(doc) => Ok(doc)
      case None => Err(FailedParsingNodeResponse(text))
  }

  /** A GET whose reply is read as JSON: the first two steps of every
      query. */
  function FetchGet(ni: NodeInterface, env: Env, endpoint: string): Result<Json>
  {
    ParseResponseToJson(env, SendGetReq(ni, env, endpoint))
  }

  /** A POST whose reply is read as JSON. */
  function FetchPost(ni: NodeInterface, env: Env, endpoint: string, body: string): Result<Json>
  {
    ParseResponseToJson(env, SendPostReq(ni, env, endpoint, body))
  }

  /** `use_json_endpoint_and_check_errors`: the node's reply is a rejection
      (`BadRequest` with the rendered `detail`) exactly when `detail` is
      neither null nor the string "null"; otherwise the reply is returned
      unchanged. */
  function UseJsonEndpointAndCheckErrors(ni: NodeInterface, env: Env, endpoint: string, body: string): (r: Result<Json>)
    ensures FetchPost(ni, env, endpoint, body).Err? ==> r == FetchPost(ni, env, endpoint, body)
    ensures FetchPost(ni, env, endpoint, body).Ok? ==>
              var doc := FetchPost(ni, env, endpoint, body).value;
              var detail := Field(doc, "detail");
              && (r.Ok? <==> detail == Null || detail == Str("null"))
              && (r.Ok? ==> r.value == doc)
              && (r.Err? ==> r.error == BadRequest(Render(detail)) && Render(detail) != "null")
  {
    var doc :- FetchPost(ni, env, endpoint, body);
    var details := Render(Field(doc, "detail"));
    RenderIsNullText(Field(doc, "detail"));
    if details != "null" then Err(BadRequest(details)) else Ok(doc)
  }

  /** Every request goes to `http://ip:port` followed by the endpoint:
      the result is that URL's response, or `NodeUnreachable`. */
  lemma RequestsTargetNodeUrl(ni: NodeInterface, env: Env, endpoint: string, body: string)
    ensures SendGetReq(ni, env, endpoint)
            == match env.transport(Get("http://" + ni.ip + ":" + ni.port + endpoint))
               case Unreachable => Err(NodeUnreachable)
               case Received(resp) => Ok(resp)
    ensures SendPostReq(ni, env, endpoint, body)
            == match env.transport(Post("http://" + ni.ip + ":" + ni.port + endpoint, body))
               case Unreachable => Err(NodeUnreachable)
               case Received(resp) => Ok(resp)
  {
  }
}
