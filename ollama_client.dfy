/**
 * The client of the Ollama LLM server: the retry policy of `generate`, the
 * shaping of the `/api/tags` listing into a health report, and the
 * never-raise wrappers `chat` and `ensure_model_loaded`.
 *
 * HTTP is abstract: every request is answered by a `Reply` that the caller
 * supplies (a value, or a function of the attempt number when the same
 * request is repeated).
 */
module OllamaIntegration {
  import opened Wrappers
  import opened Json

  const DefaultHost := "http://ollama:11434"
  const DefaultModel := "codellama:7b-instruct"
  const RequestTimeout := 30
  const MaxRetries := 3

  const GeneratePath := "/api/generate"
  const ChatPath := "/api/chat"

  /** Texts of the exceptions `generate` raises itself. */
  const TimedOutMessage := "Ollama request timed out"
  const UnavailableMessage := "Ollama server unavailable"
  /** Names standing for the exceptions Python raises while reading a reply. */
  const HttpErrorName := "HTTPError"
  const JsonDecodeErrorName := "JSONDecodeError"
  const AttributeErrorName := "AttributeError"
  const TypeErrorName := "TypeError"
  const KeyErrorName := "KeyError"
  const ConnectionErrorName := "ConnectionError"
  const TimeoutName := "Timeout"

  const Connected := "connected"
  const Disconnected := "disconnected"
  const ErrorStatus := "error"
  const CannotConnectMessage := "Cannot connect to Ollama server"

  /**
   * What one HTTP request yields: a response (its status code and its body,
   * `None` when the body is not JSON), a connection error, a timeout, or any
   * other exception raised by the HTTP library.
   */
  datatype Reply =
    | Response(status: int, body: Option<Json>)
    | ConnectionFailed
    | TimedOut
    | Failed(error: string)

  /** `raise_for_status` raises for 4xx and 5xx codes. */
  predicate HttpErrorStatus(status: int) {
    400 <= status < 600
  }

  /**
   * `response.json()` used as a dict: the fields of the reply's JSON object,
   * after `raise_for_status` when `raiseForStatus` is set.
   */
  function ReplyObject(reply: Reply, raiseForStatus: bool): (r: Outcome<map<string, Json>>)
    ensures r.Ok? <==> reply.Response? && !(raiseForStatus && HttpErrorStatus(reply.status))
                       && reply.body.Some? && reply.body.value.JObject?
    ensures r.Ok? ==> r.value == reply.body.value.fields
    ensures reply.Failed? ==> r == Raised(reply.error)
  {
    match reply
    case Response(status, body) =>
      if raiseForStatus && HttpErrorStatus(status) then Raised(HttpErrorName)
      else if body.None? then Raised(JsonDecodeErrorName)
      else if body.value.JObject? then Ok(body.value.fields)
      else Raised(AttributeErrorName)
    case ConnectionFailed => Raised(ConnectionErrorName)
    case TimedOut => Raised(TimeoutName)
    case Failed(e) => Raised(e)
  }

  /** `d.get(key, default)` on a JSON object. */
  function Get(fields: map<string, Json>, key: string, default: Json): (r: Json)
    ensures key in fields ==> r == fields[key]
    ensures key !in fields ==> r == default
  {
    if key in fields then fields[key] else default
  }

  /** The JSON body `generate` posts. */
  function GeneratePayload(model: string, prompt: string, temperature: real, maxTokens: int): Json {
    JObject(map[
      "model" := JString(model),
      "prompt" := JString(prompt),
      "stream" := JBool(false),
      "options" := JObject(map["temperature" := JNumber(temperature), "num_predict" := JNumber(maxTokens as real)])
    ])
  }

  /** The JSON body `chat` posts. */
  function ChatPayload(model: string, messages: seq<Json>, temperature: real): Json {
    JObject(map[
      "model" := JString(model),
      "messages" := JArray(messages),
      "stream" := JBool(false),
      "options" := JObject(map["temperature" := JNumber(temperature)])
    ])
  }

  /**
   * What one `generate` attempt that neither timed out nor failed to connect
   * returns: the `response` field, `''` when absent; any other exception is
   * re-raised.
   */
  function Answer(reply: Reply): (r: Outcome<Option<Json>>)
    requires !reply.TimedOut? && !reply.ConnectionFailed?
    ensures r.Ok? <==> ReplyObject(reply, true).Ok?
    ensures r.Ok? ==> r.value.Some?
    ensures r.Ok? && "response" in reply.body.value.fields ==> r.value.value == reply.body.value.fields["response"]
    ensures r.Ok? && "response" !in reply.body.value.fields ==> r.value.value == JString("")
    ensures r.Raised? ==> r == Raised(ReplyObject(reply, true).error)
  {
    match ReplyObject(reply, true)
    case Ok(fields) => Ok(Some(Get(fields, "response", JString(""))))
    case Raised(e) => Raised(e)
  }

  /**
   * The names listed by `[m['name'] for m in models]`: iteration over a list
   * visits its entries, over a dict its keys and over a string its
   * characters, so only an empty dict or string iterates at all without
   * failing on the subscript; anything else is not iterable.
   */
  function ModelNames(models: Json): (r: Outcome<seq<Json>>)
    ensures r.Ok? ==> PyLen(models) == Some(|r.value|)
  {
    match models
    case JArray(items) => NamesOf(items)
    case JObject(fields) => if fields == map[] then Ok([]) else Raised(TypeErrorName)
    case JString(s) => if s == "" then Ok([]) else Raised(TypeErrorName)
    case _ => Raised(TypeErrorName)
  }

  /** `len(x)` for the JSON values that have a length. */
  function PyLen(x: Json): Option<nat> {
    match x
    case JArray(items) => Some(|items|)
    case JObject(fields) => Some(|fields|)
    case JString(s) => Some(|s|)
    case _ => None
  }

  /** An entry `m` of the model list on which `m['name']` succeeds. */
  predicate Named(m: Json) {
    m.JObject? && "name" in m.fields
  }

  /** The `name` field of each entry of a JSON list, left to right; the first entry without one raises. */
  function NamesOf(items: seq<Json>): (r: Outcome<seq<Json>>)
    ensures r.Ok? ==> |r.value| == |items|
  {
    if items == [] then Ok([])
    else if !items[0].JObject? then Raised(TypeErrorName)
    else if "name" !in items[0].fields then Raised(KeyErrorName)
    else match NamesOf(items[1..])
      case Ok(rest) => Ok([items[0].fields["name"]] + rest)
      case Raised(e) => Raised(e)
  }

  /** The comprehension succeeds exactly when every entry is an object with a `name`, and lists those names in order. */
  lemma {:induction false} NamesOfIff(items: seq<Json>)
    ensures NamesOf(items).Ok? <==> forall i | 0 <= i < |items| :: Named(items[i])
    ensures NamesOf(items).Ok? ==> forall i | 0 <= i < |items| :: NamesOf(items).value[i] == items[i].fields["name"]
  {
    if items != [] {
      NamesOfIff(items[1..]);
      if NamesOf(items).Ok? {
        forall i | 0 <= i < |items|
          ensures Named(items[i]) && NamesOf(items).value[i] == items[i].fields["name"]
        {
          if i > 0 {
            assert items[i] == items[1..][i - 1];
            assert NamesOf(items).value[i] == NamesOf(items[1..]).value[i - 1];
          }
        }
      }
    }
  }

  /** The model list is read successfully exactly for a list of named entries, or an empty dict or string. */
  lemma ModelNamesIff(models: Json)
    ensures ModelNames(models).Ok? <==>
      (models.JArray? && forall i | 0 <= i < |models.items| :: Named(models.items[i]))
      || models == JObject(map[]) || models == JString("")
  {
    if models.JArray? {
      NamesOfIff(models.items);
    }
  }

  /** The client as configured from `OLLAMA_HOST` and `OLLAMA_MODEL` (given here as options). */
  class OllamaClient {
    const host: string
    const model: string
    const timeout: nat
    const maxRetries: nat

    constructor(hostSetting: Option<string>, modelSetting: Option<string>)
      ensures host == hostSetting.GetOr(DefaultHost)
      ensures model == modelSetting.GetOr(DefaultModel)
      ensures timeout == RequestTimeout && maxRetries == MaxRetries
    {
      host := hostSetting.GetOr(DefaultHost);
      model := modelSetting.GetOr(DefaultModel);
      timeout := RequestTimeout;
      maxRetries := MaxRetries;
    }

    /**
     * `generate`: posts the same request up to `maxRetries` times; `post(url,
     * body, i)` is the reply to attempt `i`. Only a timeout is retried, and a
     * timeout on the last attempt raises; a connection error raises
     * "Ollama server unavailable" at once, and every other reply ends the
     * loop with its answer or its exception. `made` counts the requests sent.
     */
    method Generate(prompt: string, temperature: real, maxTokens: int, post: (string, Json, nat) -> Reply)
      returns (r: Outcome<Option<Json>>, made: nat)
      ensures made <= maxRetries
      ensures made == 0 <==> maxRetries == 0
      ensures r == Ok(None) <==> maxRetries == 0
      ensures forall i | 0 <= i < made - 1 ::
        post(host + GeneratePath, GeneratePayload(model, prompt, temperature, maxTokens), i).TimedOut?
      ensures made > 0 ==>
        var last := post(host + GeneratePath, GeneratePayload(model, prompt, temperature, maxTokens), made - 1);
        if last.TimedOut? then made == maxRetries && r == Raised(TimedOutMessage)
        else if last.ConnectionFailed? then r == Raised(UnavailableMessage)
        else r == Answer(last)
    {
      var url := host + GeneratePath;
      var payload := GeneratePayload(model, prompt, temperature, maxTokens);
      made := 0;
      var attempt := 0;
      while attempt < maxRetries
        invariant attempt <= maxRetries && made == attempt
        invariant attempt < maxRetries || attempt == 0
        invariant forall i | 0 <= i < attempt :: post(url, payload, i).TimedOut?
      {
        var reply := post(url, payload, attempt);
        made := attempt + 1;
        if reply.TimedOut? {
          if attempt < maxRetries - 1 {
            attempt := attempt + 1;
            continue;
          }
          r := Raised(TimedOutMessage);
          return;
        }
        if reply.ConnectionFailed? {
          r := Raised(UnavailableMessage);
          return;
        }
        r := Answer(reply);
        return;
      }
      r := Ok(None);
    }

    /**
     * `health_check`: the report made from the reply to `GET /api/tags`.
     * It never raises: a connection error reports `disconnected`, any other
     * failure `error`.
     */
    function HealthResult(reply: Reply): (r: Json)
      ensures r.JObject? && "status" in r.fields
      ensures r.fields["status"] == JString(Connected) || r.fields["status"] == JString(Disconnected)
              || r.fields["status"] == JString(ErrorStatus)
      ensures r.fields["status"] == JString(Disconnected) <==> reply.ConnectionFailed?
      ensures r.fields["status"] == JString(Disconnected) ==> r.fields == map["status" := JString(Disconnected), "error" := JString(CannotConnectMessage)]
    {
      if reply.ConnectionFailed? then
        JObject(map["status" := JString(Disconnected), "error" := JString(CannotConnectMessage)])
      else
        match ReplyObject(reply, true)
        case Raised(e) => JObject(map["status" := JString(ErrorStatus), "error" := JString(e)])
        case Ok(fields) =>
          var models := Get(fields, "models", JArray([]));
          match ModelNames(models)
          case Raised(e) => JObject(map["status" := JString(ErrorStatus), "error" := JString(e)])
          case Ok(names) =>
            JObject(map[
              "status" := JString(Connected),
              "models_loaded" := JNumber(PyLen(models).value as real),
              "primary_model_available" := JBool(JString(model) in names),
              "available_models" := JArray(names)
            ])
    }

    /**
     * A successful listing whose `models` is a list of named entries reports
     * `connected`, counts the entries and says whether the configured model
     * is among their names.
     */
    lemma HealthOfListing(status: int, fields: map<string, Json>, items: seq<Json>)
      requires !HttpErrorStatus(status)
      requires "models" in fields && fields["models"] == JArray(items)
      requires forall i | 0 <= i < |items| :: Named(items[i])
      ensures HealthResult(Response(status, Some(JObject(fields)))).fields["status"] == JString(Connected)
      ensures HealthResult(Response(status, Some(JObject(fields)))).fields["models_loaded"] == JNumber(|items| as real)
      ensures HealthResult(Response(status, Some(JObject(fields)))).fields["primary_model_available"]
              == JBool(exists i | 0 <= i < |items| :: Named(items[i]) && items[i].fields["name"] == JString(model))
    {
      NamesOfIff(items);
      var names := NamesOf(items).value;
      assert (JString(model) in names) <==> exists i | 0 <= i < |items| :: items[i].fields["name"] == JString(model) by {
        if JString(model) in names {
          var k :| 0 <= k < |names| && names[k] == JString(model);
          assert items[k].fields["name"] == JString(model);
        }
      }
    }

    /**
     * `chat`: posts `ChatPayload` for the messages to the chat endpoint;
     * `post(url, body)` is the reply. The result is the `message.content` of
     * the reply, `''` when absent; `None` on every exception, which it never
     * lets out.
     */
    function Chat(messages: seq<Json>, temperature: real, post: (string, Json) -> Reply): (r: Option<Json>)
      ensures var reply := post(host + ChatPath, ChatPayload(model, messages, temperature));
        r.Some? <==> ReplyObject(reply, true).Ok?
                     && Get(ReplyObject(reply, true).value, "message", JObject(map[])).JObject?
      ensures var reply := post(host + ChatPath, ChatPayload(model, messages, temperature));
        r.Some? ==> r.value == Get(Get(ReplyObject(reply, true).value, "message", JObject(map[])).fields, "content", JString(""))
      ensures var reply := post(host + ChatPath, ChatPayload(model, messages, temperature));
        reply.ConnectionFailed? || reply.TimedOut? || reply.Failed? ==> r.None?
    {
      var reply := post(host + ChatPath, ChatPayload(model, messages, temperature));
      match ReplyObject(reply, true)
      case Raised(_) => None
      case Ok(fields) =>
        var message := Get(fields, "message", JObject(map[]));
        if message.JObject? then Some(Get(message.fields, "content", JString(""))) else None
    }

    /**
     * `ensure_model_loaded`: lists the models (no status check on this
     * request) and, when the configured model is not listed, asks the server
     * to pull it. `pulled` is the body of the pull request when one was sent.
     * Every exception becomes `false`.
     */
    method EnsureModelLoaded(tags: Reply, pull: Json -> Reply) returns (loaded: bool, pulled: Option<Json>)
      ensures pulled.None? <==> !Listed(tags).Ok? || JString(model) in Listed(tags).value
      ensures pulled.Some? ==> pulled.value == JObject(map["name" := JString(model)])
      ensures pulled.None? ==> (loaded <==> Listed(tags).Ok?)
      ensures pulled.Some? ==> (loaded <==> pull(pulled.value).Response? && !HttpErrorStatus(pull(pulled.value).status))
    {
      var names := Listed(tags);
      if names.Raised? {
        return false, None;
      }
      if JString(model) in names.value {
        return true, None;
      }
      var body := JObject(map["name" := JString(model)]);
      pulled := Some(body);
      var reply := pull(body);
      loaded := reply.Response? && !HttpErrorStatus(reply.status);
    }
  }

  /** `[m['name'] for m in response.json().get('models', [])]` without a status check. */
  function Listed(tags: Reply): (r: Outcome<seq<Json>>)
    ensures tags.ConnectionFailed? || tags.TimedOut? || tags.Failed? ==> r.Raised?
  {
    match ReplyObject(tags, false)
    case Raised(e) => Raised(e)
    case Ok(fields) => ModelNames(Get(fields, "models", JArray([])))
  }
}
