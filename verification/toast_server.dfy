/**
 * The packaged flash-toast adapter, `createToastFactory` and the three
 * operations it returns: flash a toast into a fresh session cookie, consume
 * it on the next request, and redirect with a toast.
 *
 * The session library is the assumed one of module Sessions; the flash
 * lifecycle lemmas at the end hold under its `FaithfulCodec` assumption.
 */
module ToastServer {
  import opened Wrappers
  import opened JsValues
  import opened Http
  import opened CookieOptions
  import opened Sessions

  /** `CookieData`: a message and its type tag; an omitted type is `Undefined`. */
  datatype Envelope = Envelope(message: string, toastType: Value)

  /** What the factory's operations close over: the merged cookie config and the storage built from it. */
  datatype Factory = Factory(config: Options, codec: Codec)

  const MessageKey: string := "message"
  const TypeKey: string := "type"

  /** The session a flash commits: no ordinary values, exactly the two flashed keys. */
  function Flashed(e: Envelope): Session {
    Session(map[], map[MessageKey := Str(e.message), TypeKey := e.toastType])
  }

  /**
   * `createToastFactory(options)`: the session storage is created once, from
   * the caller's options spread over the defaults. `storage` stands for the
   * library's `createCookieSessionStorage` with the identity signer.
   */
  function CreateToastFactory(options: Option<Options>, storage: Options -> Codec): (f: Factory)
    ensures options.None? ==> f.config.name == Given(DefaultName) && f.config.maxAge == Given(DefaultMaxAge)
    ensures f.config == CookieConfig(options)
    ensures f.codec == storage(f.config)
  {
    var config := CookieConfig(options);
    Factory(config, storage(config))
  }

  /**
   * `flashToastMessage(envelope, headers?)`: a fresh session (no incoming
   * cookie) gets `message` and `type` flashed and is committed into
   * `Set-Cookie`, replacing any earlier value; no other header changes.
   */
  function FlashToastMessage(f: Factory, e: Envelope, headers: Option<Headers>): (r: Headers)
    ensures r.Keys == OrFresh(headers).Keys + {SetCookie}
    ensures forall k :: k in OrFresh(headers) && k != SetCookie ==> r[k] == OrFresh(headers)[k]
    ensures r[SetCookie] == f.codec.serialize(Flashed(e))
  {
    var session := GetSession(f.codec, None);
    var session := Sessions.Flash(session, MessageKey, Str(e.message));
    var session := Sessions.Flash(session, TypeKey, e.toastType);
    Set(OrFresh(headers), SetCookie, f.codec.serialize(session))
  }

  /** The pair `[cookieData | undefined, headers]` that `consumeToastMessage` resolves to. */
  datatype Consumed = Consumed(toast: Option<Envelope>, headers: Headers)

  /** The session `consumeToastMessage` reads: the one carried by the request's `Cookie` header. */
  function Incoming(f: Factory, request: Headers): Session {
    GetSession(f.codec, Http.Get(request, CookieHeader))
  }

  /**
   * `consumeToastMessage(request, headers?)`: reads `message` and `type`
   * (clearing their flashes), always recommits the session into
   * `Set-Cookie`, and yields a toast only when the message is a non-empty
   * string; its type is passed on exactly as stored.
   */
  function ConsumeToastMessage(f: Factory, request: Headers, headers: Option<Headers>): (r: Consumed)
    ensures r.headers.Keys == OrFresh(headers).Keys + {SetCookie}
    ensures forall k :: k in OrFresh(headers) && k != SetCookie ==> r.headers[k] == OrFresh(headers)[k]
    ensures var s := Incoming(f, request);
      r.headers[SetCookie] == f.codec.serialize(AfterReads(s, {MessageKey, TypeKey}))
    ensures var m := Peek(Incoming(f, request), MessageKey);
      r.toast.Some? <==> m.Str? && m.s != ""
    ensures r.toast.Some? ==>
      r.toast.value == Envelope(Peek(Incoming(f, request), MessageKey).s, Peek(Incoming(f, request), TypeKey))
  {
    var session := GetSession(f.codec, Http.Get(request, CookieHeader));
    var message := Sessions.Get(session, MessageKey);
    var toastType := Sessions.Get(message.session, TypeKey);
    assert toastType.session == AfterReads(session, {MessageKey, TypeKey});
    var out := Set(OrFresh(headers), SetCookie, f.codec.serialize(toastType.session));
    TruthyStringIsNonEmpty(message.value);
    if Truthy(message.value) && IsString(message.value) then
      Consumed(Some(Envelope(message.value.s, toastType.value)), out)
    else
      Consumed(None, out)
  }

  /** `redirectWithToast(path, envelope, headers?)`: a redirect to `path` carrying the flash's headers. */
  function RedirectWithToast(f: Factory, path: string, e: Envelope, headers: Option<Headers>): (r: Redirect)
    ensures r.location == path
    ensures r.headers == FlashToastMessage(f, e, headers)
    ensures r.headers[SetCookie] == f.codec.serialize(Flashed(e))
  {
    Redirect(path, FlashToastMessage(f, e, headers))
  }

  /**
   * An idealised next request: the committed `Set-Cookie` value comes back
   * as the whole `Cookie` header. A real browser sends back only the
   * `name=value` pair, together with its other cookies, and only while the
   * cookie has not expired and its path and domain match; none of that is
   * modelled here.
   */
  function NextRequest(response: Headers): (r: Headers)
    requires SetCookie in response
    ensures r.Keys == {CookieHeader}
    ensures r[CookieHeader] == response[SetCookie]
  {
    map[CookieHeader := response[SetCookie]]
  }

  /** Without a cookie there is nothing to show, and an empty session is committed; no assumption needed. */
  lemma ConsumeWithoutCookie(f: Factory, request: Headers, headers: Option<Headers>)
    requires CookieHeader !in request
    ensures ConsumeToastMessage(f, request, headers).toast == None
    ensures ConsumeToastMessage(f, request, headers).headers[SetCookie] == f.codec.serialize(EmptySession)
  {
  }

  /** Round trip: the toast flashed into a response is the toast consumed from the next request. */
  lemma FlashThenConsume(f: Factory, m: string, t: Value, h: Option<Headers>, h2: Option<Headers>)
    requires FaithfulCodec(f.codec)
    requires m != ""
    ensures ConsumeToastMessage(f, NextRequest(FlashToastMessage(f, Envelope(m, t), h)), h2).toast
         == Some(Envelope(m, t))
  {
    CommitThenGetSession(f.codec, Flashed(Envelope(m, t)));
  }

  /** The request that follows a redirect with a toast consumes that toast. */
  lemma RedirectThenConsume(f: Factory, path: string, m: string, t: Value, h: Option<Headers>, h2: Option<Headers>)
    requires FaithfulCodec(f.codec)
    requires m != ""
    ensures ConsumeToastMessage(f, NextRequest(RedirectWithToast(f, path, Envelope(m, t), h).headers), h2).toast
         == Some(Envelope(m, t))
  {
    FlashThenConsume(f, m, t, h, h2);
  }

  /** A flashed empty message is never shown. */
  lemma FlashEmptyMessageThenConsume(f: Factory, t: Value, h: Option<Headers>, h2: Option<Headers>)
    requires FaithfulCodec(f.codec)
    ensures ConsumeToastMessage(f, NextRequest(FlashToastMessage(f, Envelope("", t), h)), h2).toast == None
  {
    CommitThenGetSession(f.codec, Flashed(Envelope("", t)));
  }

  /**
   * One shot: whatever the first consume saw, the cookie it recommitted
   * yields no toast, as long as the session holds no ordinary `message`.
   */
  lemma ConsumeIsOneShot(f: Factory, request: Headers, h: Option<Headers>, h2: Option<Headers>)
    requires FaithfulCodec(f.codec)
    requires MessageKey !in Incoming(f, request).values
    ensures ConsumeToastMessage(f, NextRequest(ConsumeToastMessage(f, request, h).headers), h2).toast == None
  {
    var s := Incoming(f, request);
    CommitThenGetSession(f.codec, AfterReads(s, {MessageKey, TypeKey}));
  }

  /** Flash, consume, consume: the toast is delivered to the first request and not to the second. */
  lemma FlashConsumeConsume(f: Factory, m: string, t: Value, h: Option<Headers>, h2: Option<Headers>, h3: Option<Headers>)
    requires FaithfulCodec(f.codec)
    requires m != ""
    ensures var first := ConsumeToastMessage(f, NextRequest(FlashToastMessage(f, Envelope(m, t), h)), h2);
      && first.toast == Some(Envelope(m, t))
      && ConsumeToastMessage(f, NextRequest(first.headers), h3).toast == None
  {
    var request := NextRequest(FlashToastMessage(f, Envelope(m, t), h));
    FlashThenConsume(f, m, t, h, h2);
    CommitThenGetSession(f.codec, Flashed(Envelope(m, t)));
    ConsumeIsOneShot(f, request, h2, h3);
  }

  /** At most one toast is pending: flashing again over the same headers replaces the first toast. */
  lemma LaterFlashWins(f: Factory, e1: Envelope, e2: Envelope, h: Option<Headers>)
    ensures FlashToastMessage(f, e2, Some(FlashToastMessage(f, e1, h))) == FlashToastMessage(f, e2, h)
  {
  }
}
