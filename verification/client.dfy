/**
 * `Telegram::Bot::Client`: construction from a token and options, `wrap` (turning a bot id,
 * a client, a Hash of options or a token into a client) and `request`.
 */
module Clients {
  import opened Wrappers
  import opened Values
  import opened Preparation
  import opened Responses

  /** `SERVER` (line 8). */
  const Server: string := "https://api.telegram.org"

  /** Keyword options after `symbolize_keys`, keyed by the symbol's name. */
  type Options = map<string, string>

  /** Ruby's `hash[key]`, nil when the key is absent: option lookup and `Telegram.bots[id]`. */
  function Lookup<K, V>(hash: map<K, V>, key: K): (r: Option<V>)
    ensures r.Some? <==> key in hash
    ensures r.Some? ==> r.value == hash[key]
  {
    if key in hash then Some(hash[key]) else None
  }

  /** The `server:` keyword, defaulting to `SERVER`. */
  function ServerOf(keywords: Options): string {
    if "server" in keywords then keywords["server"] else Server
  }

  /** `format(URL_TEMPLATE, server: server, token: token)` (lines 9, 92); nil formats as "". */
  function BaseUri(server: string, token: Option<string>): (uri: string)
    ensures server + "/bot" <= uri && uri[|uri| - 1] == '/'
    ensures uri[|server| + 4..|uri| - 1] == token.GetOr("")
  {
    server + "/bot" + token.GetOr("") + "/"
  }

  /** Different tokens on one server give different base URIs. */
  lemma BaseUriInjective(server: string, a: string, b: string)
    requires BaseUri(server, Some(a)) == BaseUri(server, Some(b))
    ensures a == b
  {
    var uri := BaseUri(server, Some(a));
    assert a == uri[|server| + 4..|uri| - 1] == b;
  }

  class Client {
    const token: Option<string>
    const username: Option<string>
    const baseUri: string

    /**
     * `initialize(token = nil, username = nil, server: SERVER, **options)` (lines 88-93): the
     * positional token and username fall back to the `token` and `username` options.
     */
    constructor (token: Option<string>, username: Option<string>, keywords: Options)
      ensures this.token == if token.Some? then token else Lookup(keywords, "token")
      ensures this.username == if username.Some? then username else Lookup(keywords, "username")
      ensures baseUri == BaseUri(ServerOf(keywords), this.token)
    {
      var t := if token.Some? then token else Lookup(keywords, "token");
      this.token := t;
      this.username := if username.Some? then username else Lookup(keywords, "username");
      this.baseUri := BaseUri(ServerOf(keywords), t);
    }

    /**
     * `request(action, body)` (lines 95-99). The HTTP POST is the `post` parameter: it gets the
     * URI `base_uri + action` and the prepared body, and its response decides the outcome.
     */
    method Request(action: string, body: seq<Member>, post: (string, seq<Part>) -> Response)
      returns (o: Result<Json, RequestError>)
      ensures o == Outcome(post(baseUri + action, PreparedBody(body)))
      ensures (o.Failure? && o.error.Api?) <==> post(baseUri + action, PreparedBody(body)).status >= 300
    {
      var prepared := PrepareBody(body);
      var response := post(baseUri + action, prepared);
      if response.status >= 300 {
        o := Failure(Api(ErrorForResponse(response)));
      } else {
        match response.body
        case Malformed => o := Failure(ParserError);
        case Document(doc) => o := Success(doc);
      }
    }
  }

  /** The kinds of input `wrap` accepts: a Symbol, a Client, a Hash, or anything else as the token. */
  datatype Input =
    | BotId(id: string)
    | Existing(client: Client)
    | Settings(settings: Options)
    | Token(token: Option<string>)

  /** `"#{name} #{input.inspect} not configured"` for the Symbol `:id`. */
  function NotConfigured(id: string): string {
    "Telegram::Bot::Client :" + id + " not configured"
  }

  /**
   * `wrap(input, **options)` (lines 20-27). The registry `Telegram.bots` is the read-only
   * `bots` parameter; the raised RuntimeError is a Failure carrying its message.
   */
  method Wrap(input: Input, options: Options, bots: map<string, Client>) returns (r: Result<Client, string>)
    ensures input.BotId? ==>
      r == if input.id in bots then Success(bots[input.id]) else Failure(NotConfigured(input.id))
    ensures input.Existing? ==> r == Success(input.client)
    ensures input.Settings? ==> r.Success? && fresh(r.value)
    ensures input.Settings? ==> r.value.token == Lookup(input.settings + options, "token")
    ensures input.Settings? ==> r.value.username == Lookup(input.settings + options, "username")
    ensures input.Settings? ==> r.value.baseUri == BaseUri(ServerOf(input.settings + options), r.value.token)
    ensures input.Settings? && "token" in options ==> r.value.token == Some(options["token"])
    ensures input.Token? ==> r.Success? && fresh(r.value)
    ensures input.Token? ==> r.value.token == if input.token.Some? then input.token else Lookup(options, "token")
    ensures input.Token? ==> r.value.username == Lookup(options, "username")
    ensures input.Token? ==> r.value.baseUri == BaseUri(ServerOf(options), r.value.token)
  {
    match input
    case BotId(id) =>
      var found := Lookup(bots, id);  // by_id (lines 29-31)
      if found.Some? {
        r := Success(found.value);
      } else {
        r := Failure(NotConfigured(id));
      }
    case Existing(client) =>
      r := Success(client);
    case Settings(settings) =>
      var client := new Client(None, None, settings + options);
      r := Success(client);
    case Token(token) =>
      var client := new Client(token, None, options);
      r := Success(client);
  }
}
