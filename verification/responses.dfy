/**
 * `error_for_response` and the status gate of `request`: how an HTTP response becomes either
 * the parsed JSON document or a raised error.
 */
module Responses {
  import opened Wrappers

  /** A document as `JSON.parse` returns it; an object is a Hash with unique keys. */
  datatype Json =
    | JNull
    | JBool(b: bool)
    | JNum(n: int)
    | JStr(s: string)
    | JArr(items: seq<Json>)
    | JObj(members: seq<(string, Json)>)

  /** The response body: text `JSON.parse` rejects, or the document it yields. */
  datatype Body = Malformed | Document(doc: Json)

  /** What the HTTP layer returns: status code, reason phrase and body. */
  datatype Response = Response(status: int, reason: string, body: Body)

  /** `Error`, and its subclasses `Forbidden` and `NotFound`, each with a message. */
  datatype ApiError = Error(message: string) | Forbidden(message: string) | NotFound(message: string)

  /** What `request` raises: a classified API error, or the parser's error on a success status. */
  datatype RequestError = Api(error: ApiError) | ParserError

  /** Ruby truthiness: nil and false are falsy, everything else is truthy. */
  predicate Truthy(doc: Json) {
    doc != JNull && doc != JBool(false)
  }

  /** `JSON.parse(response.body) rescue nil` gave a truthy result (line 55). */
  predicate Usable(body: Body) {
    body.Document? && Truthy(body.doc)
  }

  /** `hash[key]` on a parsed object; of duplicate keys `JSON.parse` keeps the last. */
  function Find(members: seq<(string, Json)>, key: string): Option<Json>
    decreases |members|
  {
    if members == [] then None
    else if members[|members| - 1].0 == key then Some(members[|members| - 1].1)
    else Find(members[..|members| - 1], key)
  }

  /**
   * A lookup finds a value iff the key occurs, and the value it finds is that of the key's
   * last occurrence.
   */
  lemma {:induction false} FindLast(members: seq<(string, Json)>, key: string)
    ensures Find(members, key).Some? <==> exists i :: 0 <= i < |members| && members[i].0 == key
    ensures Find(members, key).Some? ==>
      exists i :: 0 <= i < |members| && members[i] == (key, Find(members, key).value)
        && forall j :: i < j < |members| ==> members[j].0 != key
    decreases |members|
  {
    if members != [] {
      var n := |members|;
      var front := members[..n - 1];
      if members[n - 1].0 == key {
        assert members[n - 1] == (key, Find(members, key).value);
      } else {
        FindLast(front, key);
        if exists i :: 0 <= i < n && members[i].0 == key {
          var i :| 0 <= i < n && members[i].0 == key;
          assert front[i].0 == key;
        }
        if Find(members, key).Some? {
          var i :| 0 <= i < n - 1 && front[i] == (key, Find(front, key).value)
            && forall j :: i < j < n - 1 ==> front[j].0 != key;
          assert members[i] == front[i];
          forall j | i < j < n
            ensures members[j].0 != key
          {
            if j < n - 1 {
              assert members[j] == front[j];
            }
          }
        }
      }
    }
  }

  /** `result['description'] || '-'` (line 56), for a description that is a JSON string. */
  function Description(doc: Json): (message: string)
    ensures doc.JObj? && Find(doc.members, "description").Some? && Find(doc.members, "description").value.JStr?
      ==> message == Find(doc.members, "description").value.s
    ensures !(doc.JObj? && Find(doc.members, "description").Some? && Find(doc.members, "description").value.JStr?)
      ==> message == "-"
  {
    match doc
    case JObj(members) =>
      (match Find(members, "description")
       case Some(JStr(s)) => s
       case _ => "-")
    case _ => "-"
  }

  /**
   * `error_for_response` (lines 53-63): a body that is not usable JSON gives `Error(reason)`;
   * otherwise 403 and 404 give Forbidden and NotFound carrying the description, and any other
   * status an Error whose message is the reason, ": ", and the description.
   */
  function ErrorForResponse(response: Response): (e: ApiError)
    ensures e.Forbidden? <==> Usable(response.body) && response.status == 403
    ensures e.NotFound? <==> Usable(response.body) && response.status == 404
    ensures !Usable(response.body) ==> e == Error(response.reason)
    ensures Usable(response.body) && !e.Error? ==> e.message == Description(response.body.doc)
    ensures e.Error? ==> response.reason <= e.message
    ensures e.Error? ==> (e.message == response.reason <==> !Usable(response.body))
    ensures Usable(response.body) && e.Error? ==>
      e.message[|response.reason|..] == ": " + Description(response.body.doc)
  {
    if !Usable(response.body) then Error(response.reason)
    else
      var message := Description(response.body.doc);
      if response.status == 403 then Forbidden(message)
      else if response.status == 404 then NotFound(message)
      else Error(response.reason + ": " + message)
  }

  /**
   * Lines 97-98: a status of 300 or more raises the classified error; otherwise the body is
   * parsed and returned, and text the parser rejects raises the parser's error.
   */
  function Outcome(response: Response): (o: Result<Json, RequestError>)
    ensures (o.Failure? && o.error.Api?) <==> response.status >= 300
    ensures o.Failure? && o.error.Api? ==> o.error.error == ErrorForResponse(response)
    ensures o.Success? <==> response.status < 300 && response.body.Document?
    ensures o.Success? ==> o.value == response.body.doc
  {
    if response.status >= 300 then Failure(Api(ErrorForResponse(response)))
    else
      match response.body
      case Malformed => Failure(ParserError)
      case Document(doc) => Success(doc)
  }
}
