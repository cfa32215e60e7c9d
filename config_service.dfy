/** The configuration service of src/services/configService.ts: three lazily
    filled slots (Windows, Android and Device documents), each loaded through
    the desktop host's bridge when it is present and over HTTP otherwise, and
    kept until the cache is cleared. */
module ConfigService {
  import opened Wrappers

  // ---------------------------------------------------------------------------
  // Documents and the host environment
  // ---------------------------------------------------------------------------

  /** A parsed JSON value. Objects and arrays are kept abstract: `Composite(id)`
      stands for one whole object or array (a WindowsConfig, AndroidConfig or
      DeviceConfig record in the normal case), identified by `id`. */
  datatype Json = Null | Bool(b: bool) | Number(n: real) | Str(s: string) | Composite(id: nat)

  /** JavaScript truthiness of a parsed value, as tested by `if (this.windowsConfig)`. */
  predicate Truthy(v: Json)
    ensures !Truthy(v) <==> v in {Null, Bool(false), Number(0.0), Str("")}
  {
    match v
    case Null => false
    case Bool(b) => b
    case Number(n) => n != 0.0
    case Str(s) => s != ""
    case Composite(_) => true
  }

  /** The three configuration documents. */
  datatype Kind = Windows | Android | Device

  /** The name handed to the bridge's getConfigFile. */
  function ConfigName(k: Kind): string {
    match k
    case Windows => "windows-config"
    case Android => "android-config"
    case Device => "device-config"
  }

  /** The path fetched when there is no bridge. */
  function ConfigUrl(k: Kind): string {
    "/config/" + ConfigName(k) + ".json"
  }

  /** The word used in the "Failed to load … config" message. */
  function Label(k: Kind): string {
    match k
    case Windows => "Windows"
    case Android => "Android"
    case Device => "Device"
  }

  /** How the bridge's getConfigFile promise settles. */
  datatype BridgeReply = Resolved(doc: Json) | Rejected(reason: string)

  /** How response.json() settles. */
  datatype Body = Parsed(doc: Json) | Malformed(reason: string)

  /** How a fetch() settles: a network failure, or a response with its `ok`
      flag, its status text and its body. */
  datatype HttpReply = NetworkError(reason: string) | Response(ok: bool, statusText: string, body: Body)

  /** The environment a load runs in: `window.electronAPI` with its
      getConfigFile when it is present, and the web server's answer to each
      path. Both are oracles: the model assumes nothing about what they return. */
  datatype Host = Host(electronAPI: Option<string -> BridgeReply>, fetch: string -> HttpReply)

  /** A request sent to the outside world. */
  datatype Request = GetConfigFile(name: string) | HttpGet(url: string)

  /** Why a load was rejected. */
  datatype LoadError =
    | BridgeError(reason: string)
    | NetworkFailure(reason: string)
    | StatusError(message: string)
    | ParseError(reason: string)

  /** The one request a fetch of `k` sends; the transport is chosen anew on every call. */
  function RequestFor(host: Host, k: Kind): (req: Request)
    ensures req.GetConfigFile? <==> host.electronAPI.Some?
    ensures req.GetConfigFile? ==> req.name == ConfigName(k)
    ensures req.HttpGet? ==> req.url == "/config/" + ConfigName(k) + ".json"
  {
    if host.electronAPI.Some? then GetConfigFile(ConfigName(k)) else HttpGet(ConfigUrl(k))
  }

  /** Each document has a request of its own, over either transport. */
  lemma RequestIdentifiesKind(host: Host, k1: Kind, k2: Kind)
    requires k1 != k2
    ensures RequestFor(host, k1) != RequestFor(host, k2)
  {
    assert ConfigName(k1)[0] != ConfigName(k2)[0];
    assert ConfigUrl(k1)[8] == ConfigName(k1)[0] && ConfigUrl(k2)[8] == ConfigName(k2)[0];
  }

  /** The `try` block of a loader: ask the bridge when there is one, otherwise
      fetch the JSON file, check `response.ok` and parse the body. It succeeds
      exactly when the chosen transport delivers a document, and that document
      is the result; a response that is not ok is rejected with
      "Failed to load <Label> config: <statusText>", and every other failure
      (a bridge rejection, a network error, a body that does not parse) is
      passed on unchanged by the `catch` block. */
  function Fetch(host: Host, k: Kind): (r: Result<Json, LoadError>)
    ensures host.electronAPI.Some? ==>
      (r.Success? <==> host.electronAPI.value(ConfigName(k)).Resolved?)
    ensures host.electronAPI.Some? && r.Success? ==>
      r.value == host.electronAPI.value(ConfigName(k)).doc
    ensures host.electronAPI.None? ==>
      (r.Success? <==>
         var reply := host.fetch(ConfigUrl(k));
         reply.Response? && reply.ok && reply.body.Parsed?)
    ensures host.electronAPI.None? && r.Success? ==>
      r.value == host.fetch(ConfigUrl(k)).body.doc
    ensures host.electronAPI.None? && host.fetch(ConfigUrl(k)).Response? && !host.fetch(ConfigUrl(k)).ok ==>
      r == Failure(StatusError("Failed to load " + Label(k) + " config: " + host.fetch(ConfigUrl(k)).statusText))
    ensures host.electronAPI.Some? && host.electronAPI.value(ConfigName(k)).Rejected? ==>
      r == Failure(BridgeError(host.electronAPI.value(ConfigName(k)).reason))
    ensures host.electronAPI.None? && host.fetch(ConfigUrl(k)).NetworkError? ==>
      r == Failure(NetworkFailure(host.fetch(ConfigUrl(k)).reason))
    ensures host.electronAPI.None? && host.fetch(ConfigUrl(k)).Response? && host.fetch(ConfigUrl(k)).ok &&
            host.fetch(ConfigUrl(k)).body.Malformed? ==>
      r == Failure(ParseError(host.fetch(ConfigUrl(k)).body.reason))
  {
    match host.electronAPI
    case Some(getConfigFile) =>
      (match getConfigFile(ConfigName(k))
       case Resolved(doc) => Success(doc)
       case Rejected(reason) => Failure(BridgeError(reason)))
    case None =>
      match host.fetch(ConfigUrl(k))
      case NetworkError(reason) => Failure(NetworkFailure(reason))
      case Response(ok, statusText, body) =>
        if !ok then Failure(StatusError("Failed to load " + Label(k) + " config: " + statusText))
        else
          match body
          case Parsed(doc) => Success(doc)
          case Malformed(reason) => Failure(ParseError(reason))
  }

  // ---------------------------------------------------------------------------
  // One load, as a function of the slot it reads and writes
  // ---------------------------------------------------------------------------

  /** What one call of a loader yields: its settled result, the slot's new
      value and the requests it sent. */
  datatype LoadStep = LoadStep(result: Result<Json, LoadError>, slot: Json, sent: seq<Request>)

  /** One call of loadWindowsConfig, loadAndroidConfig or loadDeviceConfig on a
      slot holding `slot`. */
  function Load(slot: Json, host: Host, k: Kind): (step: LoadStep)
    ensures Truthy(slot) ==> step == LoadStep(Success(slot), slot, [])
    ensures !Truthy(slot) ==> step.sent == [RequestFor(host, k)] && step.result == Fetch(host, k)
    ensures step.result.Success? ==> step.slot == step.result.value
    ensures step.result.Failure? ==> step.slot == slot
  {
    if Truthy(slot) then LoadStep(Success(slot), slot, [])
    else
      match Fetch(host, k)
      case Success(doc) => LoadStep(Success(doc), doc, [RequestFor(host, k)])
      case Failure(e) => LoadStep(Failure(e), slot, [RequestFor(host, k)])
  }

  /** Memoisation: once a load has produced a (truthy) document, the next load
      returns that same document and sends nothing, whatever the transport
      would now answer. */
  lemma SecondLoadIsServedFromCache(slot: Json, first: Host, later: Host, k: Kind)
    requires Load(slot, first, k).result.Success?
    requires Truthy(Load(slot, first, k).result.value)
    ensures var s1 := Load(slot, first, k);
            Load(s1.slot, later, k) == LoadStep(s1.result, s1.slot, [])
  {
  }

  /** A failure is not cached: the next load asks the transport again. */
  lemma FailedLoadIsRetried(slot: Json, first: Host, later: Host, k: Kind)
    requires Load(slot, first, k).result.Failure?
    ensures var s2 := Load(Load(slot, first, k).slot, later, k);
            s2.sent == [RequestFor(later, k)] && s2.result == Fetch(later, k)
  {
  }

  /** A document that JavaScript deems false (`null`, `false`, `0`, `""`) is
      stored but never served from the slot: every load fetches it again. */
  lemma FalsyDocumentIsRefetched(slot: Json, first: Host, later: Host, k: Kind)
    requires Load(slot, first, k).result.Success?
    requires !Truthy(Load(slot, first, k).result.value)
    ensures Load(Load(slot, first, k).slot, later, k).sent == [RequestFor(later, k)]
  {
  }

  // ---------------------------------------------------------------------------
  // The service object
  // ---------------------------------------------------------------------------

  class ConfigService {
    var windowsConfig: Json
    var androidConfig: Json
    var deviceConfig: Json
    /** Every request the service has sent to the bridge or over HTTP, oldest first. */
    ghost var requests: seq<Request>

    constructor ()
      ensures windowsConfig == Null && androidConfig == Null && deviceConfig == Null
      ensures requests == []
    {
      windowsConfig, androidConfig, deviceConfig := Null, Null, Null;
      requests := [];
    }

    /** The slot that holds the document of kind `k`. */
    function Slot(k: Kind): Json
      reads this
    {
      match k
      case Windows => windowsConfig
      case Android => androidConfig
      case Device => deviceConfig
    }

    /** loadWindowsConfig(); it writes no slot but its own. */
    method LoadWindowsConfig(host: Host) returns (r: Result<Json, LoadError>)
      modifies this`windowsConfig, this`requests
      ensures var step := Load(old(windowsConfig), host, Windows);
              r == step.result && windowsConfig == step.slot && requests == old(requests) + step.sent
    {
      if Truthy(windowsConfig) {
        return Success(windowsConfig);
      }
      requests := requests + [RequestFor(host, Windows)];
      r := Fetch(host, Windows);
      if r.Success? {
        windowsConfig := r.value;
        r := Success(windowsConfig);
      }
    }

    /** loadAndroidConfig(); it writes no slot but its own. */
    method LoadAndroidConfig(host: Host) returns (r: Result<Json, LoadError>)
      modifies this`androidConfig, this`requests
      ensures var step := Load(old(androidConfig), host, Android);
              r == step.result && androidConfig == step.slot && requests == old(requests) + step.sent
    {
      if Truthy(androidConfig) {
        return Success(androidConfig);
      }
      requests := requests + [RequestFor(host, Android)];
      r := Fetch(host, Android);
      if r.Success? {
        androidConfig := r.value;
        r := Success(androidConfig);
      }
    }

    /** loadDeviceConfig(); it writes no slot but its own. */
    method LoadDeviceConfig(host: Host) returns (r: Result<Json, LoadError>)
      modifies this`deviceConfig, this`requests
      ensures var step := Load(old(deviceConfig), host, Device);
              r == step.result && deviceConfig == step.slot && requests == old(requests) + step.sent
    {
      if Truthy(deviceConfig) {
        return Success(deviceConfig);
      }
      requests := requests + [RequestFor(host, Device)];
      r := Fetch(host, Device);
      if r.Success? {
        deviceConfig := r.value;
        r := Success(deviceConfig);
      }
    }

    /** clearCache(): every slot is emptied, so the next load of each fetches. */
    method ClearCache()
      modifies this`windowsConfig, this`androidConfig, this`deviceConfig
      ensures windowsConfig == Null && androidConfig == Null && deviceConfig == Null
    {
      windowsConfig := Null;
      androidConfig := Null;
      deviceConfig := Null;
    }

    /** reloadAll(): clear, then load all three. Promise.all starts all three
        loads before any settles, so all three requests are sent even when one
        fails; a load that succeeds keeps its document, and the whole call is
        rejected with the error of one of the failed loads. */
    method ReloadAll(host: Host) returns (r: Outcome<LoadError>)
      modifies this`windowsConfig, this`androidConfig, this`deviceConfig, this`requests
      ensures requests == old(requests) + [RequestFor(host, Windows), RequestFor(host, Android), RequestFor(host, Device)]
      ensures forall k :: Slot(k) == (if Fetch(host, k).Success? then Fetch(host, k).value else Null)
      ensures r.Pass? <==> forall k :: Fetch(host, k).Success?
      ensures r.Fail? ==> exists k :: Fetch(host, k) == Failure(r.error)
    {
      ClearCache();
      var w := LoadWindowsConfig(host);
      var a := LoadAndroidConfig(host);
      var d := LoadDeviceConfig(host);
      assert Slot(Windows) == windowsConfig && Slot(Android) == androidConfig && Slot(Device) == deviceConfig;
      if w.Failure? {
        r := Fail(w.error);
      } else if a.Failure? {
        r := Fail(a.error);
      } else if d.Failure? {
        r := Fail(d.error);
      } else {
        r := Pass;
      }
      assert w == Fetch(host, Windows) && a == Fetch(host, Android) && d == Fetch(host, Device);
    }
  }

  // ---------------------------------------------------------------------------
  // Callers
  // ---------------------------------------------------------------------------

  /** A fresh service asked twice for the Android document: a document obtained
      the first time is returned again even if the transport now fails, and a
      failure the first time is followed by a new fetch. */
  method LoadTwice(first: Host, later: Host) returns (r1: Result<Json, LoadError>, r2: Result<Json, LoadError>)
    ensures r1 == Fetch(first, Android)
    ensures r1.Success? && Truthy(r1.value) ==> r2 == r1
    ensures r1.Failure? ==> r2 == Fetch(later, Android)
  {
    var service := new ConfigService();
    r1 := service.LoadAndroidConfig(first);
    r2 := service.LoadAndroidConfig(later);
  }

  /** Loading, clearing the cache and loading again fetches anew. */
  method LoadClearLoad(first: Host, later: Host) returns (r1: Result<Json, LoadError>, r2: Result<Json, LoadError>)
    ensures r1 == Fetch(first, Device)
    ensures r2 == Fetch(later, Device)
  {
    var service := new ConfigService();
    r1 := service.LoadDeviceConfig(first);
    service.ClearCache();
    r2 := service.LoadDeviceConfig(later);
  }
}
