/** The `Getty` HTTP facade (src/Getty.php): per-call header and option
    assembly over the instance defaults, the listener notifications around
    the transport call with Basic credentials redacted from what listeners
    see, and the `Response` built from the transport's result.

    What the outside world supplies for one call (the `mt_rand` correlation
    id, the body `file_get_contents` returns and the lines it leaves in
    `$http_response_header`) comes in as an `Exchange`; the calls made to the
    listeners and to the transport come out, in order, as a trace of
    `Event`s. */
module Getty {
  import opened PhpValues
  import Utf8
  import Base64
  import StatusLine
  import Redaction
  import opened HttpResponse

  /** A registered observer. Only its identity matters to the facade; its
      `requestStart` and `requestEnd` hooks show up as events. */
  class Listener {
  }

  /** What the environment contributes to one call: the correlation id, the
      transport's body (`None` for PHP's `false` on failure) and the raw
      response lines (`None` when `$http_response_header` is not set). */
  datatype Exchange = Exchange(id: int, body: Option<string>, responseHeader: Option<seq<string>>)

  /** A call the facade makes outward, in the order it makes it. */
  datatype Event =
    | RequestStart(listener: Listener, id: int, url: string, options: map<string, Value>)
    | Transport(url: string, options: map<string, Value>)
    | RequestEnd(listener: Listener, id: int)

  /** The instance defaults every request reads. */
  datatype Config = Config(
    contentType: string,
    timeout: int,
    streamOptions: map<string, Value>,
    header: seq<string>,
    user: Option<string>,
    password: Option<string>)

  /** The defaults a client has right after `new Getty()`. */
  const DefaultConfig: Config := Config("application/json", 10, map[], [], None, None)

  // ---------------------------------------------------------------------
  // Header assembly (buildHeaders)

  /** `($contentType) ?: $this->defaultContentType`. */
  function EffectiveContentType(cfg: Config, contentType: Option<string>): (c: string)
    ensures Truthy(StrOrNull(contentType)) ==> contentType == Some(c)
    ensures !Truthy(StrOrNull(contentType)) ==> c == cfg.contentType
  {
    OrElse(contentType, Some(cfg.contentType)).value
  }

  /** The credentials of the Basic scheme (section 2 of RFC 7617): the
      base64 encoding of `user:password`, read as the bytes PHP holds. */
  function BasicToken(user: string, password: string): string {
    Base64.Encode(Utf8.Encode(user + ":" + password))
  }

  function AuthorizationLine(user: string, password: string): string {
    Redaction.Marker + BasicToken(user, password)
  }

  /** Both credentials, each resolved as `($call) ?: $default`, when both
      are non-null. */
  function ResolvedCredentials(cfg: Config, authUser: Option<string>, authPassword: Option<string>)
    : (r: Option<(string, string)>)
    ensures r.Some? <==> (Truthy(StrOrNull(authUser)) || cfg.user.Some?)
                         && (Truthy(StrOrNull(authPassword)) || cfg.password.Some?)
    ensures r.Some? && Truthy(StrOrNull(authUser)) ==> authUser == Some(r.value.0)
    ensures r.Some? && !Truthy(StrOrNull(authUser)) ==> cfg.user == Some(r.value.0)
    ensures r.Some? && Truthy(StrOrNull(authPassword)) ==> authPassword == Some(r.value.1)
    ensures r.Some? && !Truthy(StrOrNull(authPassword)) ==> cfg.password == Some(r.value.1)
  {
    var user := OrElse(authUser, cfg.user);
    var password := OrElse(authPassword, cfg.password);
    if user.Some? && password.Some? then Some((user.value, password.value)) else None
  }

  /** The header lines of one request: the default lines unchanged, then
      one Content-Type line, then an Authorization line exactly when both
      credentials resolve to non-null values. */
  function BuildHeaders(cfg: Config, contentType: Option<string>, authUser: Option<string>,
                        authPassword: Option<string>): (r: seq<string>)
    ensures |cfg.header| < |r| <= |cfg.header| + 2
    ensures r[..|cfg.header|] == cfg.header
    ensures r[|cfg.header|] == "Content-Type: " + EffectiveContentType(cfg, contentType)
    ensures |r| == |cfg.header| + 2 <==> ResolvedCredentials(cfg, authUser, authPassword).Some?
    ensures |r| == |cfg.header| + 2 ==>
              var (user, password) := ResolvedCredentials(cfg, authUser, authPassword).value;
              r[|r| - 1] == AuthorizationLine(user, password)
  {
    var auth := match ResolvedCredentials(cfg, authUser, authPassword)
      case Some((user, password)) => [AuthorizationLine(user, password)]
      case None => [];
    cfg.header + ["Content-Type: " + EffectiveContentType(cfg, contentType)] + auth
  }

  /** A per-call content type wins unless it is null, "" or "0". */
  lemma {:induction false} ContentTypeFallback(cfg: Config, contentType: Option<string>)
    ensures EffectiveContentType(cfg, contentType) == cfg.contentType
            <==> (contentType == None || contentType == Some("") || contentType == Some("0")
                  || contentType == Some(cfg.contentType))
  {
    FalsyStrings(contentType);
  }

  /** A user or password resolves to null only when the per-call value is
      falsy and the default is null: a falsy per-call value never stops the
      default from being used, and a non-null default is always enough. */
  lemma {:induction false} CredentialsResolve(cfg: Config, authUser: Option<string>, authPassword: Option<string>)
    ensures ResolvedCredentials(cfg, authUser, authPassword).None? <==>
              ((cfg.user == None && !Truthy(StrOrNull(authUser)))
               || (cfg.password == None && !Truthy(StrOrNull(authPassword))))
  {
  }

  /** The Authorization line carries the credentials: its token decodes,
      as base64 and then as UTF-8, back to `user:password`. */
  lemma AuthorizationLineCarriesCredentials(user: string, password: string)
    ensures |AuthorizationLine(user, password)| >= |Redaction.Marker|
    ensures AuthorizationLine(user, password)[..|Redaction.Marker|] == Redaction.Marker
    ensures Base64.Decode(AuthorizationLine(user, password)[|Redaction.Marker|..])
            == Some(Utf8.Encode(user + ":" + password))
    ensures Utf8.Decode(Utf8.Encode(user + ":" + password)) == Some(user + ":" + password)
    ensures Utf8.Encode(user + ":" + password) == Utf8.Encode(user) + [':' as int] + Utf8.Encode(password)
  {
    Utf8.EncodeAppend(user, ":" + password);
    Utf8.EncodeAppend(":", password);
    assert user + ":" + password == user + (":" + password);
    assert Utf8.Encode(":") == [':' as int] by {
      assert ":"[1..] == "";
    }
    var token := BasicToken(user, password);
    assert AuthorizationLine(user, password)[|Redaction.Marker|..] == token;
    Base64.RoundTrip(Utf8.Encode(user + ":" + password));
    Utf8.RoundTrip(user + ":" + password);
  }

  /** For ASCII credentials the encoded bytes are the character codes of
      `user:password`, one byte per character, so the token does not depend
      on how non-ASCII text is held as bytes. */
  lemma AsciiCredentials(user: string, password: string)
    requires forall i | 0 <= i < |user + ":" + password| :: (user + ":" + password)[i] as int < 0x80
    ensures |Utf8.Encode(user + ":" + password)| == |user| + 1 + |password|
    ensures forall i | 0 <= i < |user + ":" + password| ::
              Utf8.Encode(user + ":" + password)[i] == (user + ":" + password)[i] as int
  {
    Utf8.AsciiIsIdentity(user + ":" + password);
  }

  lemma AuthorizationLineIsSingleLine(user: string, password: string)
    ensures SingleLine(BasicToken(user, password))
  {
    Base64.NoLineBreak(Utf8.Encode(user + ":" + password));
  }

  // ---------------------------------------------------------------------
  // Option assembly (buildHttpOptions) and request wrapping

  /** `($timeout) ?: $this->defaultTimeout`. */
  function EffectiveTimeout(cfg: Config, timeout: Option<int>): (t: int)
    ensures (timeout == None || timeout == Some(0)) ==> t == cfg.timeout
    ensures timeout.Some? && timeout.value != 0 ==> t == timeout.value
    ensures t == 0 ==> cfg.timeout == 0
  {
    if Truthy(IntOrNull(timeout)) then timeout.value else cfg.timeout
  }

  const OverriddenKeys: set<string> := {"method", "header", "content", "timeout", "ignore_errors"}

  /** The `http` options of one request: the default stream options with
      the five per-call keys set, whatever the defaults held for them. */
  function BuildHttpOptions(cfg: Config, verb: string, header: seq<string>, content: string,
                            timeout: Option<int>): (r: map<string, Value>)
    ensures r.Keys == cfg.streamOptions.Keys + OverriddenKeys
    ensures forall k | k in cfg.streamOptions && k !in OverriddenKeys :: r[k] == cfg.streamOptions[k]
    ensures r["method"] == Str(verb) && r["header"] == Lines(header) && r["content"] == Str(content)
    ensures r["timeout"] == Int(EffectiveTimeout(cfg, timeout)) && r["ignore_errors"] == Bool(true)
  {
    cfg.streamOptions["method" := Str(verb)]["header" := Lines(header)]["content" := Str(content)]
      ["timeout" := Int(EffectiveTimeout(cfg, timeout))]["ignore_errors" := Bool(true)]
  }

  /** The stream options `request` hands to `fire`: `['http' => options]`. */
  function RequestOptions(cfg: Config, verb: string, content: string, contentType: Option<string>,
                          timeout: Option<int>, authUser: Option<string>, authPassword: Option<string>)
    : (o: map<string, Value>)
    ensures o.Keys == {"http"} && HasHeaderList(o)
    ensures HeaderList(o) == BuildHeaders(cfg, contentType, authUser, authPassword)
  {
    map["http" := Assoc(BuildHttpOptions(cfg, verb, BuildHeaders(cfg, contentType, authUser, authPassword),
                                          content, timeout))]
  }

  /** The stream options hold a header list under `http`. */
  predicate HasHeaderList(options: map<string, Value>) {
    "http" in options && options["http"].Assoc? && "header" in options["http"].entries
    && options["http"].entries["header"].Lines?
  }

  function HeaderList(options: map<string, Value>): seq<string>
    requires HasHeaderList(options)
  {
    options["http"].entries["header"].lines
  }

  /** What `request` builds always has the header list `notifyStart` walks. */
  lemma {:induction false} RequestOptionsShape(cfg: Config, verb: string, content: string,
                                               contentType: Option<string>, timeout: Option<int>,
                                               authUser: Option<string>, authPassword: Option<string>)
    ensures var o := RequestOptions(cfg, verb, content, contentType, timeout, authUser, authPassword);
            o.Keys == {"http"} && HasHeaderList(o)
            && o["http"].entries == BuildHttpOptions(cfg, verb, BuildHeaders(cfg, contentType, authUser, authPassword),
                                                     content, timeout)
            && HeaderList(o) == BuildHeaders(cfg, contentType, authUser, authPassword)
  {
  }

  /** A client with the constructor defaults and no per-call values sends
      a GET with only the JSON Content-Type line, an empty body, a ten
      second timeout and errors ignored. */
  lemma DefaultGetOptions()
    ensures RequestOptions(DefaultConfig, "GET", "", None, None, None, None)
            == map["http" := Assoc(map["method" := Str("GET"),
                                       "header" := Lines(["Content-Type: application/json"]),
                                       "content" := Str(""),
                                       "timeout" := Int(10),
                                       "ignore_errors" := Bool(true)])]
  {
    DefaultHeaders();
  }

  lemma DefaultHeaders()
    ensures BuildHeaders(DefaultConfig, None, None, None) == ["Content-Type: application/json"]
  {
    var cfg := DefaultConfig;
    assert cfg.header == [] && cfg.user == None && !Truthy(StrOrNull(None));
    var h := BuildHeaders(cfg, None, None, None);
    assert ResolvedCredentials(cfg, None, None).None?;
    assert |h| == 1 && h[0] == "Content-Type: " + "application/json";
    assert "Content-Type: " + "application/json" == "Content-Type: application/json";
    assert h == [h[0]];
  }

  // ---------------------------------------------------------------------
  // What listeners see (notifyStart)

  /** The copy listeners receive: when the default user is truthy, every
      header line rewritten by the redaction rule; otherwise the options
      themselves. */
  function Observed(options: map<string, Value>, defaultUser: Option<string>): (r: map<string, Value>)
    requires HasHeaderList(options)
    ensures HasHeaderList(r)
  {
    if Truthy(StrOrNull(defaultUser)) then
      var http := options["http"].entries;
      options["http" := Assoc(http["header" := Lines(Redaction.RedactLines(HeaderList(options)))])]
    else options
  }

  /** Redaction touches the header lines only: every other option and
      every other `http` entry is as it was, the line count is kept and each
      line is rewritten on its own. */
  lemma {:induction false} ObservedChangesOnlyHeaderLines(options: map<string, Value>, defaultUser: Option<string>)
    requires HasHeaderList(options)
    ensures var r := Observed(options, defaultUser);
            r.Keys == options.Keys
            && (forall k | k in options && k != "http" :: r[k] == options[k])
            && r["http"].entries.Keys == options["http"].entries.Keys
            && (forall k | k in options["http"].entries && k != "header" ::
                  r["http"].entries[k] == options["http"].entries[k])
            && |HeaderList(r)| == |HeaderList(options)|
            && (Truthy(StrOrNull(defaultUser)) ==>
                  forall i | 0 <= i < |HeaderList(r)| :: HeaderList(r)[i] == Redaction.Redact(HeaderList(options)[i]))
            && (!Truthy(StrOrNull(defaultUser)) ==> r == options)
  {
  }

  /** Redacting the observed copy again changes nothing. */
  lemma {:induction false} ObservedIdempotent(options: map<string, Value>, defaultUser: Option<string>)
    requires HasHeaderList(options)
    ensures Observed(Observed(options, defaultUser), defaultUser) == Observed(options, defaultUser)
  {
    if Truthy(StrOrNull(defaultUser)) {
      var once := Observed(options, defaultUser);
      Redaction.RedactLinesIdempotent(HeaderList(options));
      assert HeaderList(once) == Redaction.RedactLines(HeaderList(options));
      assert once["http"].entries["header" := Lines(Redaction.RedactLines(HeaderList(once)))]
             == once["http"].entries;
    }
  }

  /** For a request whose credentials resolve while the default user is
      truthy, listeners see the Authorization line as exactly
      `Authorization: Basic _removed_`, while the transport options keep the
      real token. */
  lemma ListenersSeeRemovedCredentials(cfg: Config, verb: string, content: string,
                                       contentType: Option<string>, timeout: Option<int>,
                                       authUser: Option<string>, authPassword: Option<string>)
    requires Truthy(StrOrNull(cfg.user))
    requires ResolvedCredentials(cfg, authUser, authPassword).Some?
    ensures var o := RequestOptions(cfg, verb, content, contentType, timeout, authUser, authPassword);
            var (user, password) := ResolvedCredentials(cfg, authUser, authPassword).value;
            HasHeaderList(o)
            && HeaderList(o)[|HeaderList(o)| - 1] == AuthorizationLine(user, password)
            && HeaderList(Observed(o, cfg.user))[|HeaderList(o)| - 1] == Redaction.Replacement
  {
    var (user, password) := ResolvedCredentials(cfg, authUser, authPassword).value;
    RequestOptionsShape(cfg, verb, content, contentType, timeout, authUser, authPassword);
    AuthorizationLineIsSingleLine(user, password);
    Redaction.RedactAuthorizationLine(BasicToken(user, password));
  }

  /** The trigger is the default user, not the credentials of this call: a
      client without a truthy default user shows listeners the real
      Authorization line even when the call supplies credentials. */
  lemma PerCallCredentialsNotRedacted(cfg: Config, verb: string, content: string,
                                      contentType: Option<string>, timeout: Option<int>,
                                      authUser: Option<string>, authPassword: Option<string>)
    requires !Truthy(StrOrNull(cfg.user))
    ensures var o := RequestOptions(cfg, verb, content, contentType, timeout, authUser, authPassword);
            HasHeaderList(o) && Observed(o, cfg.user) == o
  {
    RequestOptionsShape(cfg, verb, content, contentType, timeout, authUser, authPassword);
  }

  // ---------------------------------------------------------------------
  // The traced calls and the response of fire

  function StartNotifications(listeners: seq<Listener>, id: int, url: string, copy: map<string, Value>)
    : (r: seq<Event>)
    ensures |r| == |listeners|
    ensures forall i | 0 <= i < |listeners| :: r[i] == RequestStart(listeners[i], id, url, copy)
  {
    seq(|listeners|, i requires 0 <= i < |listeners| => RequestStart(listeners[i], id, url, copy))
  }

  function EndNotifications(listeners: seq<Listener>, id: int): (r: seq<Event>)
    ensures |r| == |listeners|
    ensures forall i | 0 <= i < |listeners| :: r[i] == RequestEnd(listeners[i], id)
  {
    seq(|listeners|, i requires 0 <= i < |listeners| => RequestEnd(listeners[i], id))
  }

  /** The outward calls of `fire`: every start hook, the transport call
      with the original options, every end hook. */
  function FireTrace(listeners: seq<Listener>, defaultUser: Option<string>, id: int, url: string,
                     options: map<string, Value>): (t: seq<Event>)
    requires HasHeaderList(options)
    ensures |t| == 2 * |listeners| + 1
    ensures t[|listeners|] == Transport(url, options)
    ensures forall i | 0 <= i < |listeners| :: t[i].RequestStart? && t[i].listener == listeners[i]
    ensures forall i | |listeners| < i < |t| :: t[i].RequestEnd? && t[i].listener == listeners[i - |listeners| - 1]
  {
    StartNotifications(listeners, id, url, Observed(options, defaultUser))
    + [Transport(url, options)]
    + EndNotifications(listeners, id)
  }

  /** The trace in full: listener `i` gets its start call at position `i`
      with the (possibly redacted) copy, the transport gets the unredacted
      options right after the last start call, and listener `i` gets its end
      call, with the same id, `i` places after that. */
  lemma {:induction false} FireTraceOrder(listeners: seq<Listener>, defaultUser: Option<string>, id: int,
                                          url: string, options: map<string, Value>)
    requires HasHeaderList(options)
    ensures var t := FireTrace(listeners, defaultUser, id, url, options);
            |t| == 2 * |listeners| + 1
            && t[|listeners|] == Transport(url, options)
            && (forall i | 0 <= i < |listeners| ::
                  t[i] == RequestStart(listeners[i], id, url, Observed(options, defaultUser))
                  && t[|listeners| + 1 + i] == RequestEnd(listeners[i], id))
  {
    var t := FireTrace(listeners, defaultUser, id, url, options);
    var n := |listeners|;
    var starts := StartNotifications(listeners, id, url, Observed(options, defaultUser));
    var ends := EndNotifications(listeners, id);
    assert t == starts + [Transport(url, options)] + ends;
    forall i | 0 <= i < n
      ensures t[i] == RequestStart(listeners[i], id, url, Observed(options, defaultUser))
      ensures t[n + 1 + i] == RequestEnd(listeners[i], id)
    {
      assert t[i] == starts[i];
      assert t[n + 1 + i] == ends[i];
    }
  }

  /** With no listener registered, the transport call is the only call. */
  lemma {:induction false} NoListenersNoHooks(defaultUser: Option<string>, id: int, url: string,
                                              options: map<string, Value>)
    requires HasHeaderList(options)
    ensures FireTrace([], defaultUser, id, url, options) == [Transport(url, options)]
  {
    assert StartNotifications([], id, url, Observed(options, defaultUser)) == [];
    assert EndNotifications([], id) == [];
  }

  /** End to end over one request with credentials and a truthy default
      user: every listener's start call carries the Authorization line as
      `Authorization: Basic _removed_`, and the one transport call, which
      comes after all of them, carries the real line. */
  lemma RequestTraceHidesCredentials(listeners: seq<Listener>, cfg: Config, id: int, url: string, verb: string,
                                     content: string, contentType: Option<string>, timeout: Option<int>,
                                     authUser: Option<string>, authPassword: Option<string>)
    requires Truthy(StrOrNull(cfg.user))
    requires ResolvedCredentials(cfg, authUser, authPassword).Some?
    ensures var o := RequestOptions(cfg, verb, content, contentType, timeout, authUser, authPassword);
            var (user, password) := ResolvedCredentials(cfg, authUser, authPassword).value;
            var t := FireTrace(listeners, cfg.user, id, url, o);
            var last := |BuildHeaders(cfg, contentType, authUser, authPassword)| - 1;
            t[|listeners|] == Transport(url, o)
            && HeaderList(t[|listeners|].options)[last] == AuthorizationLine(user, password)
            && forall i | 0 <= i < |listeners| ::
                 t[i].RequestStart? && t[i].listener == listeners[i]
                 && HasHeaderList(t[i].options) && HeaderList(t[i].options)[last] == Redaction.Replacement
  {
    var o := RequestOptions(cfg, verb, content, contentType, timeout, authUser, authPassword);
    RequestOptionsShape(cfg, verb, content, contentType, timeout, authUser, authPassword);
    FireTraceOrder(listeners, cfg.user, id, url, o);
    ListenersSeeRemovedCredentials(cfg, verb, content, contentType, timeout, authUser, authPassword);
  }

  /** `$result` seen as a PHP value: a string, or `false` on failure. */
  function ResultValue(result: Option<string>): Value {
    match result
    case None => Bool(false)
    case Some(s) => Str(s)
  }

  /** The Response `fire` builds from the transport's result. */
  function FireResponse(result: Option<string>, responseHeader: Option<seq<string>>): (r: Response)
    ensures 0 <= r.GetCode() <= StatusLine.PhpIntMax
    ensures r.GetBody() == "" || result == Some(r.GetBody())
    ensures r.GetHeader() == [] ==> r.GetCode() == 0
    ensures responseHeader.Some? && responseHeader.value != [] ==> r.GetHeader() == responseHeader.value
  {
    var body := if Truthy(ResultValue(result)) then result.value else "";
    if responseHeader.Some? && |responseHeader.value| > 0 then
      Response(body, responseHeader.value, StatusLine.CodeOf(responseHeader.value[0]))
    else Response(body, [], 0)
  }

  /** A Response always comes back. Its body is the transport's body when
      that is truthy and "" otherwise (failure, "" and "0"); without any
      response lines the header is empty and the code 0; with them, the
      header is those lines and the code is read off the first one. The
      code is never negative. */
  lemma {:induction false} FireResponseRules(result: Option<string>, responseHeader: Option<seq<string>>)
    ensures var r := FireResponse(result, responseHeader);
            (r.body == "" <==> (result == None || result == Some("") || result == Some("0")))
            && (r.body != "" ==> result == Some(r.body))
            && 0 <= r.code <= StatusLine.PhpIntMax
            && (r.header == [] ==> r.code == 0)
            && ((responseHeader == None || responseHeader == Some([])) <==> r.header == [])
            && (r.header != [] ==> Some(r.header) == responseHeader
                                   && r.code == StatusLine.CodeOf(r.header[0]))
  {
    var r := FireResponse(result, responseHeader);
    if responseHeader.Some? && |responseHeader.value| > 0 {
      assert r.header == responseHeader.value;
    }
  }

  /** The 404 example: a response whose status-line reads
      `HTTP/1.1 404 Not Found` has code 404. */
  lemma NotFoundResponse(result: Option<string>, rest: seq<string>)
    ensures FireResponse(result, Some(["HTTP/1.1" + " " + "404" + " " + "Not Found"] + rest)).code == 404
  {
    StatusLine.NotFoundLine();
  }

  // ---------------------------------------------------------------------
  // The client

  class Getty {
    var defaultContentType: string
    var defaultTimeout: int
    var defaultHTTPStreamOptions: map<string, Value>
    var defaultHTTPHeader: seq<string>
    var defaultBasicAuthUser: Option<string>
    var defaultBasicAuthPassword: Option<string>
    var listeners: seq<Listener>

    /** The defaults as one value. */
    function Defaults(): Config
      reads this
    {
      Config(defaultContentType, defaultTimeout, defaultHTTPStreamOptions, defaultHTTPHeader,
             defaultBasicAuthUser, defaultBasicAuthPassword)
    }

    constructor(defaultContentType: string := "application/json", defaultTimeout: int := 10,
                defaultHTTPStreamOptions: map<string, Value> := map[], defaultHTTPHeader: seq<string> := [],
                defaultBasicAuthUser: Option<string> := None, defaultBasicAuthPassword: Option<string> := None)
      ensures Defaults() == Config(defaultContentType, defaultTimeout, defaultHTTPStreamOptions,
                                 defaultHTTPHeader, defaultBasicAuthUser, defaultBasicAuthPassword)
      ensures listeners == []
    {
      this.defaultContentType := defaultContentType;
      this.defaultTimeout := defaultTimeout;
      this.defaultHTTPStreamOptions := defaultHTTPStreamOptions;
      this.defaultHTTPHeader := defaultHTTPHeader;
      this.defaultBasicAuthUser := defaultBasicAuthUser;
      this.defaultBasicAuthPassword := defaultBasicAuthPassword;
      this.listeners := [];
    }

    method SetDefaultTimeout(defaultTimeout: int)
      modifies this
      ensures Defaults() == old(Defaults()).(timeout := defaultTimeout)
      ensures listeners == old(listeners)
    {
      this.defaultTimeout := defaultTimeout;
    }

    method SetDefaultHTTPStreamOptions(defaultHTTPStreamOptions: map<string, Value>)
      modifies this
      ensures Defaults() == old(Defaults()).(streamOptions := defaultHTTPStreamOptions)
      ensures listeners == old(listeners)
    {
      this.defaultHTTPStreamOptions := defaultHTTPStreamOptions;
    }

    method SetDefaultHTTPHeader(defaultHTTPHeaders: seq<string>)
      modifies this
      ensures Defaults() == old(Defaults()).(header := defaultHTTPHeaders)
      ensures listeners == old(listeners)
    {
      this.defaultHTTPHeader := defaultHTTPHeaders;
    }

    /** Sets user and password together. */
    method SetBasicAuth(authUser: Option<string>, authPassword: Option<string>)
      modifies this
      ensures Defaults() == old(Defaults()).(user := authUser, password := authPassword)
      ensures listeners == old(listeners)
    {
      this.defaultBasicAuthUser := authUser;
      this.defaultBasicAuthPassword := authPassword;
    }

    method SetDefaultContentType(defaultContentType: string)
      modifies this
      ensures Defaults() == old(Defaults()).(contentType := defaultContentType)
      ensures listeners == old(listeners)
    {
      this.defaultContentType := defaultContentType;
    }

    /** Appends a listener; there is no removal and no uniqueness check. */
    method AddListener(listener: Listener)
      modifies this
      ensures listeners == old(listeners) + [listener]
      ensures Defaults() == old(Defaults())
    {
      listeners := listeners + [listener];
    }

    /** Calls every listener's start hook, in registration order, with the
        copy of the options that has the header lines redacted when the
        default user is truthy. */
    method NotifyStart(id: int, url: string, streamOptions: map<string, Value>) returns (events: seq<Event>)
      requires HasHeaderList(streamOptions)
      ensures events == StartNotifications(listeners, id, url, Observed(streamOptions, defaultBasicAuthUser))
    {
      events := [];
      if listeners == [] {
        return;
      }
      var copy := streamOptions;
      if Truthy(StrOrNull(defaultBasicAuthUser)) {
        var http := copy["http"].entries;
        var original := http["header"].lines;
        var header := original;
        var i := 0;
        while i < |header|
          invariant 0 <= i <= |header| == |original|
          invariant forall j | 0 <= j < i :: header[j] == Redaction.Redact(original[j])
          invariant forall j | i <= j < |header| :: header[j] == original[j]
        {
          header := header[i := Redaction.Redact(header[i])];
          i := i + 1;
        }
        assert header == Redaction.RedactLines(original);
        copy := copy["http" := Assoc(http["header" := Lines(header)])];
      }
      assert copy == Observed(streamOptions, defaultBasicAuthUser);
      for i := 0 to |listeners|
        invariant |events| == i
        invariant forall j | 0 <= j < i :: events[j] == RequestStart(listeners[j], id, url, copy)
      {
        events := events + [RequestStart(listeners[i], id, url, copy)];
      }
    }

    /** Calls every listener's end hook, in registration order. */
    method NotifyEnd(id: int) returns (events: seq<Event>)
      ensures events == EndNotifications(listeners, id)
    {
      events := [];
      if listeners == [] {
        return;
      }
      for i := 0 to |listeners|
        invariant |events| == i
        invariant forall j | 0 <= j < i :: events[j] == RequestEnd(listeners[j], id)
      {
        events := events + [RequestEnd(listeners[i], id)];
      }
    }

    /** Start hooks, the transport call with the original options, end
        hooks; then the Response from what the transport returned. */
    method Fire(exchange: Exchange, url: string, streamOptions: map<string, Value>)
      returns (response: Response, trace: seq<Event>)
      requires HasHeaderList(streamOptions)
      ensures trace == FireTrace(listeners, defaultBasicAuthUser, exchange.id, url, streamOptions)
      ensures response == FireResponse(exchange.body, exchange.responseHeader)
    {
      var randomId := exchange.id;
      var started := NotifyStart(randomId, url, streamOptions);
      var result := exchange.body;
      var ended := NotifyEnd(randomId);
      trace := started + [Transport(url, streamOptions)] + ended;

      var responseCode := 0;
      var responseHeader: seq<string> := [];
      if exchange.responseHeader.Some? && |exchange.responseHeader.value| > 0 {
        responseHeader := exchange.responseHeader.value;
        responseCode := StatusLine.CodeOf(responseHeader[0]);
      }
      var body := if Truthy(ResultValue(result)) then result.value else "";
      response := Response(body, responseHeader, responseCode);
    }

    /** The generic entry point: build the headers, then the options, then
        fire with `['http' => options]`. */
    method Request(exchange: Exchange, verb: string, url: string, content: string := "",
                   contentType: Option<string> := None, timeout: Option<int> := None,
                   authUser: Option<string> := None, authPassword: Option<string> := None)
      returns (response: Response, trace: seq<Event>)
      ensures trace == FireTrace(listeners, defaultBasicAuthUser, exchange.id, url,
                                 RequestOptions(Defaults(), verb, content, contentType, timeout, authUser, authPassword))
      ensures response == FireResponse(exchange.body, exchange.responseHeader)
    {
      var httpOptions := BuildHttpOptions(Defaults(), verb, BuildHeaders(Defaults(), contentType, authUser, authPassword),
                                          content, timeout);
      RequestOptionsShape(Defaults(), verb, content, contentType, timeout, authUser, authPassword);
      response, trace := Fire(exchange, url, map["http" := Assoc(httpOptions)]);
    }

    /** GET with an empty body and no content-type override. */
    method Get(exchange: Exchange, url: string, timeout: Option<int> := None,
               authUser: Option<string> := None, authPassword: Option<string> := None)
      returns (response: Response, trace: seq<Event>)
      ensures trace == FireTrace(listeners, defaultBasicAuthUser, exchange.id, url,
                                 RequestOptions(Defaults(), "GET", "", None, timeout, authUser, authPassword))
      ensures response == FireResponse(exchange.body, exchange.responseHeader)
    {
      response, trace := Request(exchange, "GET", url, "", None, timeout, authUser, authPassword);
    }

    method Post(exchange: Exchange, url: string, content: string := "", contentType: Option<string> := None,
                timeout: Option<int> := None, authUser: Option<string> := None, authPassword: Option<string> := None)
      returns (response: Response, trace: seq<Event>)
      ensures trace == FireTrace(listeners, defaultBasicAuthUser, exchange.id, url,
                                 RequestOptions(Defaults(), "POST", content, contentType, timeout, authUser, authPassword))
      ensures response == FireResponse(exchange.body, exchange.responseHeader)
    {
      response, trace := Request(exchange, "POST", url, content, contentType, timeout, authUser, authPassword);
    }

    method Put(exchange: Exchange, url: string, content: string := "", contentType: Option<string> := None,
               timeout: Option<int> := None, authUser: Option<string> := None, authPassword: Option<string> := None)
      returns (response: Response, trace: seq<Event>)
      ensures trace == FireTrace(listeners, defaultBasicAuthUser, exchange.id, url,
                                 RequestOptions(Defaults(), "PUT", content, contentType, timeout, authUser, authPassword))
      ensures response == FireResponse(exchange.body, exchange.responseHeader)
    {
      response, trace := Request(exchange, "PUT", url, content, contentType, timeout, authUser, authPassword);
    }

    method Delete(exchange: Exchange, url: string, content: string := "", contentType: Option<string> := None,
                  timeout: Option<int> := None, authUser: Option<string> := None, authPassword: Option<string> := None)
      returns (response: Response, trace: seq<Event>)
      ensures trace == FireTrace(listeners, defaultBasicAuthUser, exchange.id, url,
                                 RequestOptions(Defaults(), "DELETE", content, contentType, timeout, authUser, authPassword))
      ensures response == FireResponse(exchange.body, exchange.responseHeader)
    {
      response, trace := Request(exchange, "DELETE", url, content, contentType, timeout, authUser, authPassword);
    }

    /** Sends method "GET", exactly as `get` does, not "HEAD". */
    method Head(exchange: Exchange, url: string, timeout: Option<int> := None,
                authUser: Option<string> := None, authPassword: Option<string> := None)
      returns (response: Response, trace: seq<Event>)
      ensures trace == FireTrace(listeners, defaultBasicAuthUser, exchange.id, url,
                                 RequestOptions(Defaults(), "GET", "", None, timeout, authUser, authPassword))
      ensures response == FireResponse(exchange.body, exchange.responseHeader)
    {
      response, trace := Request(exchange, "GET", url, "", None, timeout, authUser, authPassword);
    }
  }
}
