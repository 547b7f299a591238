/**
 * Header sets as plain maps. A `Headers` object stores names lower-cased,
 * so the keys here are the normalised names.
 */
module Http {
  import opened Wrappers

  type Headers = map<string, string>

  const SetCookie: string := "set-cookie"
  const CookieHeader: string := "cookie"

  /** `headers.get(name)`: the value, or null when the header is absent. */
  function Get(h: Headers, name: string): (r: Option<string>)
    ensures r.Some? <==> name in h
    ensures r.Some? ==> r.value == h[name]
  {
    if name in h then Some(h[name]) else None
  }

  /** `headers.set(name, value)`: the name now holds exactly `value`; every other header is kept. */
  function Set(h: Headers, name: string, value: string): (r: Headers)
    ensures r.Keys == h.Keys + {name}
    ensures r[name] == value
    ensures forall k :: k in h && k != name ==> r[k] == h[k]
  {
    h[name := value]
  }

  /** A parameter declared `headers = new Headers()`: an omitted argument is a fresh, empty set. */
  function OrFresh(h: Option<Headers>): (r: Headers)
    ensures h.None? ==> r == map[]
    ensures h.Some? ==> r == h.value
  {
    h.GetOr(map[])
  }

  /** The part of a redirect response this model keeps: its target and its headers. */
  datatype Redirect = Redirect(location: string, headers: Headers)
}
