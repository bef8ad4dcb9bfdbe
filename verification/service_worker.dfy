/** The decisions of the service-worker registration: whether `register`
    registers at all and how, what `checkValidServiceWorker` does with the
    response for the worker script, and which configuration callback fires
    when a new worker finishes installing. Browser APIs are replaced by their
    inputs: the environment, the response's status and content type, and the
    worker's state. */
module ServiceWorker {
  import opened Js
  import opened Loopback

  // ---------------------------------------------------------------------------
  // register(config)

  /** What `register` reads: the build mode, whether the browser offers
      service workers, the origin `PUBLIC_URL` resolves to and the page's own. */
  datatype Environment = Environment(
    production: bool,
    workersSupported: bool,
    publicOrigin: string,
    pageOrigin: string)

  /** What happens on the page's `load` event. */
  datatype OnLoad =
    | NoRegistration      // not production, no support, or a foreign origin: no listener
    | CheckThenRegister   // on a local host: `checkValidServiceWorker`
    | RegisterNow         // elsewhere: `registerValidSW`

  function Register(env: Environment, hostname: string): (r: OnLoad)
    ensures r == NoRegistration <==>
      !env.production || !env.workersSupported || env.publicOrigin != env.pageOrigin
    ensures r == CheckThenRegister ==> IsLocalhost(hostname)
    ensures r == RegisterNow ==> !IsLocalhost(hostname)
  {
    if !(env.production && env.workersSupported) then NoRegistration
    else if env.publicOrigin != env.pageOrigin then NoRegistration
    else if IsLocalhost(hostname) then CheckThenRegister
    else RegisterNow
  }

  /** On `localhost` a production build checks the worker script first; on a
      public host name it registers at once. The `127.000.0.1` case is about
      the pattern only: the browser normalises an IPv4 host to `127.0.0.1`
      before the page reads it. */
  lemma RegisterByHost(env: Environment)
    requires env.production && env.workersSupported && env.publicOrigin == env.pageOrigin
    ensures Register(env, "localhost") == CheckThenRegister
    ensures Register(env, "127.000.0.1") == CheckThenRegister
    ensures Register(env, "10.0.0.1") == RegisterNow
  {
    LeadingZerosAccepted();
    WrongPrefixRejected();
  }

  // ---------------------------------------------------------------------------
  // String.prototype.indexOf

  /** `t` occurs in `s` starting at index `i`. */
  predicate OccursAt(s: string, t: string, i: int) {
    0 <= i && i + |t| <= |s| && s[i..i + |t|] == t
  }

  predicate Contains(s: string, t: string) {
    exists i | 0 <= i <= |s| :: OccursAt(s, t, i)
  }

  /** The first occurrence of `t` in `s` at index `from` or later, or -1. */
  function IndexFrom(s: string, t: string, from: nat): (r: int)
    requires from <= |s| + 1
    ensures r == -1 || (from <= r && OccursAt(s, t, r))
    ensures forall j | from <= j && (r == -1 || j < r) :: !OccursAt(s, t, j)
    decreases |s| + 1 - from
  {
    if from + |t| > |s| then -1
    else if s[from..from + |t|] == t then from
    else IndexFrom(s, t, from + 1)
  }

  /** `s.indexOf(t)`: the first index where `t` occurs, or -1. */
  function IndexOf(s: string, t: string): (r: int)
    ensures r == -1 <==> !Contains(s, t)
    ensures r != -1 ==> OccursAt(s, t, r) && forall j | 0 <= j < r :: !OccursAt(s, t, j)
  {
    IndexFrom(s, t, 0)
  }

  // ---------------------------------------------------------------------------
  // checkValidServiceWorker(swUrl, config)

  /** The response to the request for the worker script: its status and its
      `content-type` header, `None` when the header is absent. */
  datatype ScriptResponse = ScriptResponse(status: int, contentType: Option<string>)

  datatype CheckOutcome =
    | UnregisterAndReload   // no worker script here: unregister, then reload the page
    | RegisterWorker        // `registerValidSW`
    | ReportOffline         // the request failed: only a log line

  /** `None` is a failed request (`fetch` rejects). */
  function CheckValid(response: Option<ScriptResponse>): (r: CheckOutcome)
    ensures r == ReportOffline <==> response.None?
    ensures r == UnregisterAndReload <==>
      && response.Some?
      && (response.value.status == 404
          || (response.value.contentType.Some? && !Contains(response.value.contentType.value, "javascript")))
  {
    if response.None? then ReportOffline
    else
      var ct := response.value.contentType;
      if response.value.status == 404 || (ct.Some? && IndexOf(ct.value, "javascript") == -1)
      then UnregisterAndReload
      else RegisterWorker
  }

  /** A response without a content type is taken as the script unless it is a 404. */
  lemma MissingContentTypeRegisters(status: int)
    requires status != 404
    ensures CheckValid(Some(ScriptResponse(status, None))) == RegisterWorker
  {
  }

  /** A JavaScript content type keeps the worker; an HTML page (what a
      development server answers for an unknown path) replaces it. */
  lemma ContentTypeExamples()
    ensures CheckValid(Some(ScriptResponse(200, Some("application/javascript")))) == RegisterWorker
    ensures CheckValid(Some(ScriptResponse(200, Some("text/html")))) == UnregisterAndReload
  {
    assert OccursAt("application/javascript", "javascript", 12);
    assert !Contains("text/html", "javascript");
  }

  // ---------------------------------------------------------------------------
  // registerValidSW(swUrl, config): the `onupdatefound` and `onstatechange` handlers

  /** Which of `config.onUpdate` and `config.onSuccess` are provided. */
  datatype Config = Config(hasOnUpdate: bool, hasOnSuccess: bool)

  datatype Callback = OnUpdate | OnSuccess

  /** The callback fired when the installing worker's state changes to
      `state`; `installing` is false when `registration.installing` was null,
      in which case no state handler was attached. `controlled` is whether the
      page already has a controlling worker. */
  function InstallCallback(installing: bool, state: string, controlled: bool, config: Option<Config>): (r: Option<Callback>)
    ensures r.Some? ==> installing && state == "installed"
    ensures r == Some(OnUpdate) <==>
      installing && state == "installed" && controlled && config.Some? && config.value.hasOnUpdate
    ensures r == Some(OnSuccess) <==>
      installing && state == "installed" && !controlled && config.Some? && config.value.hasOnSuccess
  {
    if !installing || state != "installed" then None
    else if controlled then
      if config.Some? && config.value.hasOnUpdate then Some(OnUpdate) else None
    else
      if config.Some? && config.value.hasOnSuccess then Some(OnSuccess) else None
  }

  /** The two callbacks answer different situations: whatever the
      configuration, a page with a controller is never told the content is
      cached for offline use, and a page without one is never told of an
      update. */
  lemma CallbacksFollowController(state: string, controlled: bool, config: Config)
    ensures controlled ==> InstallCallback(true, state, controlled, Some(config)) != Some(OnSuccess)
    ensures !controlled ==> InstallCallback(true, state, controlled, Some(config)) != Some(OnUpdate)
  {
  }
}
