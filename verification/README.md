# remix-toasted, modelled in Dafny

This project models the server side of remix-toasted, a "flash once" toast
mechanism for Remix. A handler flashes a message into a short-lived session
cookie and redirects. The next page load consumes the message and recommits
the emptied session, so the message is shown once. The project also models
the demo application that uses the mechanism: an in-memory todo store and
the todo route's `action`.

Modules, one per component:

- `CookieOptions` (cookie_options.dfy) covers the factory's cookie options and their merge: `{ name: 'remix-toasted', maxAge: 10, ...options }`. Each option key is either absent, explicitly `undefined`, or set. This matters because a JavaScript spread also copies an explicit `undefined`.
- `Sessions` (sessions.dfy) is the external cookie-session library. It is an **assumption**, not code of this repository. A session holds ordinary values and flashed values. `get` returns a key's ordinary value when there is one, and leaves that key's flash in place. Otherwise it returns the flashed value and removes the flash (flash-clears-on-read). A session is committed through a `Codec`. The predicate `FaithfulCodec` says that parsing a committed cookie gives back the same session. The round-trip and one-shot lemmas assume `FaithfulCodec`. `ConsumeWithoutCookie` and `LaterFlashWins` do not.
- `ToastServer` (toast_server.dfy) is the packaged `createToastFactory` and its three operations. An empty-string message yields no toast, just like a non-string one (packages/remix-toasted-server/index.ts:52).
- `DemoToast` (demo_toast.dfy) is the demo's copy of the same adapter. Its bodies are written out separately, and lemmas prove that it agrees with the packaged adapter on every input.
- `IntegerParsing` (parse_int.dfy) is `parseInt(s, 10)` as defined in section 19.2.5 of ECMA-262. It is given as a specification function and as a scanning method proved equal to it.
- `TodoStore` (todo_store.dfy) is `db.todos` over a `seq<Todo>`. `create` takes each new id from the array's length (demo/app/db.server.tsx:13). `splice` is modelled with the start rules of ECMA-262, including negative starts.
- `TodoAction` (todo_action.dfy) is the todo route's `action`.
- `Wrappers`, `JsValues` and `Http` are helpers: `Option`, JavaScript values and truthiness, and header maps. Header maps use lower-case keys, because a `Headers` object normalises names.

Parameters in place of unseen code:
- The session storage that the library builds from a cookie configuration is the parameter `storage: Options -> Codec`.
- `ToastServer.NextRequest` is an idealised browser step. The committed `Set-Cookie` value comes back as the whole `Cookie` header of the next request.

## Model

| member | source | states |
|---|---|---|
| CookieOptions.CookieConfig | packages/remix-toasted-server/index.ts:27-33 | A key the caller sets (even to undefined) wins; an omitted `name`/`maxAge` keeps 'remix-toasted'/10; every other key is exactly the caller's; no options gives exactly the defaults |
| CookieOptions.EmptyOptionsAreDefaults | packages/remix-toasted-server/index.ts:27-33 | Passing `{}` or nothing configures exactly `{name: 'remix-toasted', maxAge: 10}` |
| CookieOptions.ExtraKeysAddedToDefaults | packages/remix-toasted-server/index.test.ts:37-53 | Options without `name`/`maxAge` are passed through with both defaults added |
| CookieOptions.FullOverrideIsCallerOptions | packages/remix-toasted-server/index.test.ts:55-69 | Options that set `name` and `maxAge` are used as they are |
| CookieOptions.ExtraKeysExample | packages/remix-toasted-server/index.test.ts:43-52 | `{httpOnly: true, path: '/test', sameSite: 'strict'}` merges to those keys plus maxAge 10 and name 'remix-toasted' |
| CookieOptions.OverrideExample | packages/remix-toasted-server/index.test.ts:61-68 | `{httpOnly: true, maxAge: 1000, name: 'test'}` is the configuration unchanged |
| JsValues.TruthyStringIsNonEmpty | packages/remix-toasted-server/index.ts:52 | The guard `message && typeof message === 'string'` holds exactly for non-empty strings |
| ToastServer.CreateToastFactory | packages/remix-toasted-server/index.ts:24-33 | The factory's storage is built once from the merged configuration, which is the defaults when no options are given |
| ToastServer.FlashToastMessage | packages/remix-toasted-server/index.ts:35-41 | Commits a session with no ordinary values and exactly `message` and `type` flashed into `Set-Cookie`, replacing it; all other headers unchanged |
| ToastServer.ConsumeToastMessage | packages/remix-toasted-server/index.ts:44-56 | Always sets `Set-Cookie` to the incoming session minus the flashes its two reads returned; yields a toast iff the read message is a non-empty string, with the stored type passed through unvalidated; other headers unchanged |
| ToastServer.RedirectWithToast | packages/remix-toasted-server/index.ts:57-60 | Targets `path` and carries exactly the headers the flash returns for the same toast |
| ToastServer.ConsumeWithoutCookie | packages/remix-toasted-server/index.ts:48-55 | With no `Cookie` header there is no toast and an empty session is committed, for any codec |
| ToastServer.FlashThenConsume | packages/remix-toasted-server/index.ts:35-56 | Consuming the cookie of a flash with a non-empty message yields exactly that message and type |
| ToastServer.RedirectThenConsume | packages/remix-toasted-server/index.ts:44-60 | The request that follows a redirect with a non-empty toast consumes exactly that toast |
| ToastServer.FlashEmptyMessageThenConsume | packages/remix-toasted-server/index.ts:52-55 | A flashed empty message is never delivered |
| ToastServer.ConsumeIsOneShot | packages/remix-toasted-server/index.ts:48-55 | The cookie a consume recommits yields no toast on the next consume, if the session has no ordinary `message` |
| ToastServer.FlashConsumeConsume | packages/remix-toasted-server/index.ts:35-56 | Flash, consume, consume: the first consume gets the toast and the second gets none |
| ToastServer.LaterFlashWins | packages/remix-toasted-server/index.ts:35-41 | Flashing twice over the same headers is the same as the second flash alone: at most one toast is pending |
| DemoToast.CreateToastFactory | demo/app/toast.server.ts:12-21 | Defaults when no options; caller keys override `name`/`maxAge` per key; omitted ones keep the defaults |
| DemoToast.FlashToastMessage | demo/app/toast.server.ts:23-29 | Fresh session with `message` and `type` flashed and committed into `Set-Cookie`; only `Set-Cookie` changes |
| DemoToast.ConsumeToastMessage | demo/app/toast.server.ts:32-44 | Always recommits into `Set-Cookie`; toast iff the message is a non-empty string; type passed through |
| DemoToast.RedirectWithToast | demo/app/toast.server.ts:45-48 | Targets `path` with the headers of the flash for the same toast |
| DemoToast.SameFactory | demo/app/toast.server.ts:12-21 | The demo factory equals the packaged one for equal options and storage |
| DemoToast.SameOperations | demo/app/toast.server.ts:23-48 | Flash, consume and redirect of the demo equal the packaged ones on every input |
| DemoToast.DemoFlashConsumeConsume | demo/app/toast.server.ts:23-44 | The demo adapter delivers a flashed toast to the next request and to no request after that |
| IntegerParsing.ParseInt | demo/app/routes/todos.tsx:19-20 | NaN (None) iff no decimal digit follows the leading white space and optional sign; a negative result needs a leading '-' |
| IntegerParsing.ParseIntScan | demo/app/routes/todos.tsx:19 | The engine's left-to-right scan computes exactly `ParseInt` |
| IntegerParsing.ParseIntOfDecimal | demo/app/routes/todos.tsx:19 | `parseInt(String(n) + rest)` is `n` whenever `rest` does not start with a digit |
| IntegerParsing.ParseIntSkipsWhiteSpace | demo/app/routes/todos.tsx:19 | Leading white space does not change the result |
| IntegerParsing.ParseIntSignedExample | demo/app/routes/todos.tsx:19 | `parseInt("-3abc")` is -3: a sign is read and trailing text ignored |
| IntegerParsing.ParseIntNaNExamples | demo/app/routes/todos.tsx:19-20 | "abc", "-" and "" are NaN |
| TodoStore.Create | demo/app/db.server.tsx:12-16 | Returns the old length as id; appends `{id, message}` at the end; length grows by one; existing entries unchanged |
| TodoStore.Read | demo/app/db.server.tsx:17-19 | The entry at position `id`, or none exactly when `id` is out of range |
| TodoStore.Update | demo/app/db.server.tsx:20-22 | In range: only that todo's message changes, and length, ids and other entries are kept; out of range: the TypeError |
| TodoStore.Delete | demo/app/db.server.tsx:23-25 | `0 <= id < length` removes exactly position `id`, keeping order; `id >= length` changes nothing; negative ids count from the end as `splice` does |
| TodoStore.ReadAll | demo/app/db.server.tsx:26-28 | The whole array: the same length, and position `j` holds what `read(j)` returns |
| TodoStore.ReadAfterCreate | demo/app/db.server.tsx:12-19 | After a create, the returned id reads the new todo and every other position reads as before |
| TodoStore.ReadAfterUpdate | demo/app/db.server.tsx:17-22 | After an update, only the updated position reads differently, and it keeps its id |
| TodoStore.DeleteRemovesOne | demo/app/db.server.tsx:23-25 | A delete that removes something removes exactly the todo at the splice start, as a multiset |
| TodoStore.DeleteOnlyRemoves | demo/app/db.server.tsx:23-25 | A delete never introduces a todo |
| TodoStore.CreateKeepsIdsPositions | demo/app/db.server.tsx:12-16 | While only creates happen, every id equals its position, so ids are unique |
| TodoStore.DuplicateIdsAfterDelete | demo/app/db.server.tsx:12-25 | create "a", create "b", delete(0), create "c" leaves two todos with id 1 |
| TodoAction.Action | demo/app/routes/todos.tsx:11-31 | Delete intent: 400 iff id is missing, empty, a file, or NaN to parseInt, else delete at the parsed number; any other intent: 400 iff `new_todo` is missing, empty or a file, else create and return its id; a 400 leaves the store unchanged |
| TodoAction.AtMostOneStoreOperation | demo/app/routes/todos.tsx:14-30 | Every call leaves the store unchanged, or applies one delete, or applies one create |
| TodoAction.DeleteForm | demo/app/routes/todos.tsx:56-59 | A todo's Delete button posts the Delete intent and a non-empty `id` field |
| TodoAction.DeleteFormDeletesAtId | demo/app/routes/todos.tsx:19-24 | A todo's Delete form reaches `db.todos.delete` with that todo's id |
| TodoAction.ShownIdDeleteMissesTodo | demo/app/routes/todos.tsx:57 | After create a, create b, delete a, the Delete form of b leaves b in the store |

## Findings

| source | as written | input that shows it | evidently intended | confidence | as-written member | corrected member |
|---|---|---|---|---|---|---|
| demo/app/routes/todos.tsx:57 | The Delete button posts `todo.id`. The action passes it to `db.todos.delete`, which splices at that array position (demo/app/db.server.tsx:23-25). | create "a", create "b", delete "a"; the store is `[{id: 1, "b"}]`, and posting b's Delete form (`id=1`) removes nothing | remove the todo whose id was posted | not executed; high | TodoAction.ShownIdDeleteMissesTodo | TodoAction.IntendedAction, with TodoStore.DeleteById, proved by TodoAction.IntendedDeleteRemovesShownTodo and TodoStore.DeleteByIdRemovesThatTodo |
| demo/app/db.server.tsx:13 | `create` uses the array length as the new id | create "a", create "b", delete(0), create "c" gives ids 1 and 1 | each new todo gets an id no other todo has | not executed; high | TodoStore.DuplicateIdsAfterDelete | TodoStore.CreateFresh, with TodoStore.NextId, proved by TodoStore.CreateFreshKeepsIdsUnique and TodoAction.IntendedActionKeepsIdsUnique |

## Left out

- The React `Toast` component, its tests, `demo/app/toast.tsx` and the JSX of `demo/app/root.tsx` are left out. They are rendering, DOM and timers. The route's `loader` and component are left out too, apart from the Delete form's fields (`TodoAction.DeleteForm`).
- Cookie serialisation, encoding and the identity `sign`/`unsign` are left out. They live in the external session library, which is represented by the `Codec` parameter and the `FaithfulCodec` assumption.
- JSON serialisation drops `undefined` entries from a session. `FaithfulCodec` idealises this as an exact round trip. Reads of such entries give `undefined` either way.
- `Headers`, `Request`, `Response`, `redirect` and `FormData` objects become maps and records. Not modelled: status codes, the `Location` header, several values under one header name or form key, and header names that are not already lower-case.
- ToastServer.NextRequest: ignores cookie expiry, so the lifecycle lemmas hold whatever time passes. A real browser stops sending the cookie after `maxAge` (10 seconds by default). The step also ignores path and domain matching, the browser's other cookies, and the reduction of `Set-Cookie` to its `name=value` pair.
- `commitSession` never fails in the model. The library can throw, for example on a cookie that is too large. `FaithfulCodec` hides that case.
- Sessions.Get follows the library's precedence: an ordinary value shadows a flash of the same key. The adapter itself never writes ordinary values. So `ConsumeIsOneShot` requires that the session holds no ordinary `message`.
- IntegerParsing.Decimal: writes integers in plain decimal. JavaScript switches to exponent notation from 10^21 on. `TodoAction.DeleteFormDeletesAtId` therefore describes real forms only for ids below that bound, and every id the store creates is below it.
- The adapter mutates the caller's `Headers` object in place and returns it. The model returns a new map with the same contents.
- The `async`/Promise plumbing is left out. So is the race in which two concurrent requests carry the same stale cookie and both consume one message.
- A `Cookie` object passed as options (one alternative of the option type at packages/remix-toasted-server/index.ts:15-22) is not modelled.
- CookieOptions.CookieConfig: models only the keys name, maxAge, expires, domain, path, httpOnly, secure, sameSite, priority, partitioned and secrets. The function-valued `encode`/`decode` options are not modelled. They spread key by key like every other key.
- TodoStore.Read: ids are integers. A fractional or non-numeric `id` (always `undefined` in JavaScript) is not modelled. Every caller passes an integer.
- TodoStore.ReadAll: returns the array's value. JavaScript returns the live array, which later mutations change. That aliasing is not modelled.
- IntegerParsing.ParseInt: returns the exact integer. JavaScript rounds it to a Number, which is Infinity for very long digit strings. As a `splice` start, the rounded value picks the same element, because an array's length is below 2^32.
- `demo/app/utils.server.ts` only instantiates the factory with defaults. It is left out, as are `console.log` at demo/app/db.server.tsx:8 and the build and test tooling.
