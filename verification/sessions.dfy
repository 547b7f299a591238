/**
 * ASSUMED behaviour of the external cookie-session library the adapter is
 * built on. None of this is code of the adapter; it is the model's reading
 * of the library, and every property proved about the adapter's flash
 * lifecycle rests on it:
 *
 *  - a session holds ordinary values and, separately, flashed values;
 *  - `flash(key, v)` stores `v` as a flashed value of `key`;
 *  - `get(key)` returns the ordinary value of `key` when there is one and
 *    leaves any flash of `key` in place; otherwise it returns the flashed
 *    value AND removes it (flash-clears-on-read), or `undefined` when
 *    neither exists;
 *  - `getSession(header)` yields an empty session when there is no cookie
 *    header or it is empty, and otherwise parses the header;
 *  - `commitSession(s)` serializes the session into a non-empty
 *    `Set-Cookie` value from which parsing gives back the same session
 *    (`FaithfulCodec`); committing never fails.
 */
module Sessions {
  import opened Wrappers
  import opened JsValues

  datatype Session = Session(values: map<string, Value>, flashes: map<string, Value>)

  const EmptySession: Session := Session(map[], map[])

  /** `session.flash(key, v)`: the next read of `key` sees `v`. */
  function Flash(s: Session, key: string, v: Value): (r: Session)
    ensures r.values == s.values
    ensures r.flashes.Keys == s.flashes.Keys + {key}
    ensures r.flashes[key] == v
    ensures forall k :: k in s.flashes && k != key ==> r.flashes[k] == s.flashes[k]
  {
    s.(flashes := s.flashes[key := v])
  }

  /** What `session.get(key)` returns, without the read's side effect: an ordinary value takes precedence. */
  function Peek(s: Session, key: string): Value {
    if key in s.values then s.values[key]
    else if key in s.flashes then s.flashes[key]
    else Undefined
  }

  datatype Read = Read(value: Value, session: Session)

  /** `session.get(key)`: returns `Peek(s, key)`; the flash of `key` is cleared exactly when it was the value read. */
  function Get(s: Session, key: string): (r: Read)
    ensures r.value == Peek(s, key)
    ensures r.session.values == s.values
    ensures key in s.values ==> r.session.flashes == s.flashes
    ensures key !in s.values ==> r.session.flashes.Keys == s.flashes.Keys - {key}
    ensures forall k :: k in r.session.flashes ==> r.session.flashes[k] == s.flashes[k]
  {
    if key in s.values then
      Read(s.values[key], s)
    else if key in s.flashes then
      Read(s.flashes[key], s.(flashes := s.flashes - {key}))
    else
      Read(Undefined, s)
  }

  /** The session after `get` of each of `keys`: the flashes those reads returned are gone. */
  function AfterReads(s: Session, keys: set<string>): Session {
    Session(s.values, s.flashes - (keys - s.values.Keys))
  }

  /**
   * A flashed value is delivered at most once: the first read sees it unless
   * an ordinary value shadows it, and a second read never sees it.
   */
  lemma FlashIsReadOnce(s: Session, key: string, v: Value)
    ensures Get(Flash(s, key, v), key).value == (if key in s.values then s.values[key] else v)
    ensures Get(Get(Flash(s, key, v), key).session, key).value
         == (if key in s.values then s.values[key] else Undefined)
  {
  }

  /** An ordinary value shadows a flash of the same key, and that flash survives the read. */
  lemma OrdinaryValueShadowsFlash(key: string, ordinary: Value, flashed: Value)
    ensures var s := Session(map[key := ordinary], map[key := flashed]);
      Get(s, key) == Read(ordinary, s)
  {
  }

  /** How a session travels in a cookie: serialized into `Set-Cookie`, parsed from `Cookie`. */
  datatype Codec = Codec(serialize: Session -> string, parse: string -> Session)

  /** The assumption on the library's cookie encoding (signing is the identity here). */
  ghost predicate FaithfulCodec(c: Codec) {
    forall s :: c.serialize(s) != "" && c.parse(c.serialize(s)) == s
  }

  /** `getSession(cookieHeader)`: a missing or empty header starts an empty session. */
  function GetSession(c: Codec, cookieHeader: Option<string>): (r: Session)
    ensures cookieHeader.None? ==> r == EmptySession
    ensures cookieHeader == Some("") ==> r == EmptySession
  {
    match cookieHeader
    case None => EmptySession
    case Some(h) => if h == "" then EmptySession else c.parse(h)
  }

  /** Under the codec assumption, a committed session comes back unchanged on the next request. */
  lemma CommitThenGetSession(c: Codec, s: Session)
    requires FaithfulCodec(c)
    ensures GetSession(c, Some(c.serialize(s))) == s
  {
  }
}
