/**
 * The demo application's own copy of the toast adapter. It repeats the
 * packaged adapter's logic (its type tag defaults to
 * 'success' | 'error' | 'warning' | 'info' and its session storage
 * factory is created once per module rather than once per call, neither of
 * which changes behaviour). The bodies below are written out separately
 * from module ToastServer, as in the source, and the lemmas at the end show
 * that the two copies agree on every input.
 */
module DemoToast {
  import opened Wrappers
  import opened JsValues
  import opened Http
  import opened CookieOptions
  import opened Sessions
  import ToastServer

  type Envelope = ToastServer.Envelope
  type Factory = ToastServer.Factory
  type Consumed = ToastServer.Consumed

  /** `createToastFactory(cookieParseOptions?)`: the defaults with the caller's keys spread over them. */
  function CreateToastFactory(options: Option<Options>, storage: Options -> Codec): (f: Factory)
    ensures options.None? ==> f.config == Defaults
    ensures options.Some? && !options.value.name.Absent? ==> f.config.name == options.value.name
    ensures options.Some? && !options.value.maxAge.Absent? ==> f.config.maxAge == options.value.maxAge
    ensures options.Some? && options.value.name.Absent? ==> f.config.name == Given(DefaultName)
    ensures options.Some? && options.value.maxAge.Absent? ==> f.config.maxAge == Given(DefaultMaxAge)
    ensures f.codec == storage(f.config)
  {
    var config := Spread(Options(Given("remix-toasted"), Given(10), Absent, Absent, Absent, Absent, Absent,
                                 Absent, Absent, Absent, Absent),
                         options.GetOr(NoOptions));
    ToastServer.Factory(config, storage(config))
  }

  /** `flashToastMessage`: a fresh session with `message` and `type` flashed, committed into `Set-Cookie`. */
  function FlashToastMessage(f: Factory, e: Envelope, headers: Option<Headers>): (r: Headers)
    ensures r.Keys == OrFresh(headers).Keys + {SetCookie}
    ensures forall k :: k in OrFresh(headers) && k != SetCookie ==> r[k] == OrFresh(headers)[k]
    ensures r[SetCookie] == f.codec.serialize(ToastServer.Flashed(e))
  {
    var session := GetSession(f.codec, None);
    var session := Sessions.Flash(session, "message", Str(e.message));
    var session := Sessions.Flash(session, "type", e.toastType);
    Set(OrFresh(headers), SetCookie, f.codec.serialize(session))
  }

  /** `consumeToastMessage`: read both keys, always recommit, keep only a non-empty string message. */
  function ConsumeToastMessage(f: Factory, request: Headers, headers: Option<Headers>): (r: Consumed)
    ensures r.headers.Keys == OrFresh(headers).Keys + {SetCookie}
    ensures forall k :: k in OrFresh(headers) && k != SetCookie ==> r.headers[k] == OrFresh(headers)[k]
    ensures var s := ToastServer.Incoming(f, request);
      r.headers[SetCookie] == f.codec.serialize(AfterReads(s, {"message", "type"}))
    ensures var m := Peek(ToastServer.Incoming(f, request), "message");
      r.toast.Some? <==> m.Str? && m.s != ""
    ensures r.toast.Some? ==>
      r.toast.value == ToastServer.Envelope(Peek(ToastServer.Incoming(f, request), "message").s,
                                            Peek(ToastServer.Incoming(f, request), "type"))
  {
    var session := GetSession(f.codec, Http.Get(request, "cookie"));
    var message := Sessions.Get(session, "message");
    var toastType := Sessions.Get(message.session, "type");
    assert toastType.session == AfterReads(session, {"message", "type"});
    var out := Set(OrFresh(headers), SetCookie, f.codec.serialize(toastType.session));
    TruthyStringIsNonEmpty(message.value);
    if Truthy(message.value) && IsString(message.value) then
      ToastServer.Consumed(Some(ToastServer.Envelope(message.value.s, toastType.value)), out)
    else
      ToastServer.Consumed(None, out)
  }

  /** `redirectWithToast`: the redirect carries the headers the flash produced for the same toast. */
  function RedirectWithToast(f: Factory, path: string, e: Envelope, headers: Option<Headers>): (r: Redirect)
    ensures r.location == path
    ensures r.headers == FlashToastMessage(f, e, headers)
  {
    Redirect(path, FlashToastMessage(f, e, headers))
  }

  /** The demo's factory is the packaged one for the same options and storage. */
  lemma SameFactory(options: Option<Options>, storage: Options -> Codec)
    ensures CreateToastFactory(options, storage) == ToastServer.CreateToastFactory(options, storage)
  {
  }

  /** The two copies of every operation agree on every input. */
  lemma SameOperations(f: Factory, e: Envelope, request: Headers, path: string, headers: Option<Headers>)
    ensures FlashToastMessage(f, e, headers) == ToastServer.FlashToastMessage(f, e, headers)
    ensures ConsumeToastMessage(f, request, headers) == ToastServer.ConsumeToastMessage(f, request, headers)
    ensures RedirectWithToast(f, path, e, headers) == ToastServer.RedirectWithToast(f, path, e, headers)
  {
  }

  /** The demo adapter's lifecycle, through the equivalence: delivered once, then gone. */
  lemma DemoFlashConsumeConsume(f: Factory, m: string, t: Value, h: Option<Headers>, h2: Option<Headers>, h3: Option<Headers>)
    requires FaithfulCodec(f.codec)
    requires m != ""
    ensures var first := ConsumeToastMessage(f, ToastServer.NextRequest(FlashToastMessage(f, ToastServer.Envelope(m, t), h)), h2);
      && first.toast == Some(ToastServer.Envelope(m, t))
      && ConsumeToastMessage(f, ToastServer.NextRequest(first.headers), h3).toast == None
  {
    var e := ToastServer.Envelope(m, t);
    var request := ToastServer.NextRequest(FlashToastMessage(f, e, h));
    SameOperations(f, e, request, "", h);
    SameOperations(f, e, request, "", h2);
    var first := ConsumeToastMessage(f, request, h2);
    SameOperations(f, e, ToastServer.NextRequest(first.headers), "", h3);
    ToastServer.FlashConsumeConsume(f, m, t, h, h2, h3);
  }
}
