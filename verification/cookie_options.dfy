/**
 * The cookie options a toast factory is created with, and the object spread
 * `{ name: 'remix-toasted', maxAge: 10, ...cookieParseOptions }` that merges
 * them over the defaults.
 *
 * Each option is a `Slot`: a key the caller left out (`Absent`), a key the
 * caller wrote with the value `undefined`, or a key with a value. A spread
 * copies every key the source object has, so an explicit `undefined`
 * overrides a default just as a value does.
 */
module CookieOptions {
  import opened Wrappers

  datatype Slot<+T> = Absent | Undefined | Given(value: T)

  datatype SameSite = Lax | Strict | NoneAllowed | Enabled | Disabled   // 'lax' | 'strict' | 'none' | true | false

  datatype Priority = Low | Medium | High

  datatype Options = Options(
    name: Slot<string>,
    maxAge: Slot<int>,
    expires: Slot<int>,          // a Date, as milliseconds since the epoch
    domain: Slot<string>,
    path: Slot<string>,
    httpOnly: Slot<bool>,
    secure: Slot<bool>,
    sameSite: Slot<SameSite>,
    priority: Slot<Priority>,
    partitioned: Slot<bool>,
    secrets: Slot<seq<string>>)

  /** The object literal `{}`. */
  const NoOptions: Options :=
    Options(Absent, Absent, Absent, Absent, Absent, Absent, Absent, Absent, Absent, Absent, Absent)

  const DefaultName: string := "remix-toasted"
  const DefaultMaxAge: int := 10   // seconds

  /** The two keys the factory writes before the caller's options. */
  const Defaults: Options := NoOptions.(name := Given(DefaultName), maxAge := Given(DefaultMaxAge))

  /** One key of `{ ...base, ...over }`: the later object wins whenever it has the key. */
  function SpreadKey<T>(base: Slot<T>, over: Slot<T>): Slot<T> {
    if over.Absent? then base else over
  }

  /** `{ ...base, ...over }`, key by key. */
  function Spread(base: Options, over: Options): Options {
    Options(
      SpreadKey(base.name, over.name),
      SpreadKey(base.maxAge, over.maxAge),
      SpreadKey(base.expires, over.expires),
      SpreadKey(base.domain, over.domain),
      SpreadKey(base.path, over.path),
      SpreadKey(base.httpOnly, over.httpOnly),
      SpreadKey(base.secure, over.secure),
      SpreadKey(base.sameSite, over.sameSite),
      SpreadKey(base.priority, over.priority),
      SpreadKey(base.partitioned, over.partitioned),
      SpreadKey(base.secrets, over.secrets))
  }

  /**
   * The `cookie` configuration handed to the session storage. Spreading
   * `undefined` (no options passed) adds no keys.
   */
  function CookieConfig(caller: Option<Options>): (r: Options)
    // a key the caller sets, to a value or to undefined, is taken from the caller
    ensures caller.Some? && !caller.value.name.Absent? ==> r.name == caller.value.name
    ensures caller.Some? && !caller.value.maxAge.Absent? ==> r.maxAge == caller.value.maxAge
    // a default key the caller leaves out keeps its default
    ensures (caller.None? || caller.value.name.Absent?) ==> r.name == Given(DefaultName)
    ensures (caller.None? || caller.value.maxAge.Absent?) ==> r.maxAge == Given(DefaultMaxAge)
    // every key without a default is exactly what the caller passed, or absent
    ensures caller.None? ==> r == Defaults
    ensures caller.Some? ==>
      && r.expires == caller.value.expires
      && r.domain == caller.value.domain
      && r.path == caller.value.path
      && r.httpOnly == caller.value.httpOnly
      && r.secure == caller.value.secure
      && r.sameSite == caller.value.sameSite
      && r.priority == caller.value.priority
      && r.partitioned == caller.value.partitioned
      && r.secrets == caller.value.secrets
  {
    Spread(Defaults, caller.GetOr(NoOptions))
  }

  /** Passing `{}` and passing nothing configure the same cookie. */
  lemma EmptyOptionsAreDefaults()
    ensures CookieConfig(Some(NoOptions)) == CookieConfig(None) == Defaults
  {
  }

  /** Caller options that do not mention `name` or `maxAge` are added next to the defaults. */
  lemma ExtraKeysAddedToDefaults(o: Options)
    requires o.name.Absent? && o.maxAge.Absent?
    ensures CookieConfig(Some(o)) == o.(name := Given(DefaultName), maxAge := Given(DefaultMaxAge))
  {
  }

  /** Caller options that set both defaulted keys are taken as they are. */
  lemma FullOverrideIsCallerOptions(o: Options)
    requires !o.name.Absent? && !o.maxAge.Absent?
    ensures CookieConfig(Some(o)) == o
  {
  }

  /** The first configuration test: extra keys, defaults kept. */
  lemma ExtraKeysExample()
    ensures CookieConfig(Some(NoOptions.(httpOnly := Given(true), path := Given("/test"), sameSite := Given(Strict))))
         == NoOptions.(httpOnly := Given(true), path := Given("/test"), sameSite := Given(Strict),
                       maxAge := Given(10), name := Given("remix-toasted"))
  {
  }

  /** The second configuration test: both defaults overridden. */
  lemma OverrideExample()
    ensures CookieConfig(Some(NoOptions.(httpOnly := Given(true), maxAge := Given(1000), name := Given("test"))))
         == NoOptions.(httpOnly := Given(true), maxAge := Given(1000), name := Given("test"))
  {
  }
}
