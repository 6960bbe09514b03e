# Persistence service model

A Dafny model of `PersistenceService`, the Angular service that puts one
application's data in the browser's `localStorage` or `sessionStorage`. It
namespaces every key with a configurable prefix. The model covers both
versions of the class:

- the library version (`projects/persistence/src/lib/persistence.service.ts`),
  whose `get(key, ...path)` and `set(value, key, ...path)` read and rebuild a
  JSON tree under one key;
- the older application version (`src/persistence.service.ts`), with
  `get(key)` and `set(key, value)`.

The model is built from these modules:

- `Wrappers`: `Option` and `Outcome`. A call that throws out of the service
  gives `Threw`.
- `Json`: JSON values and JavaScript `undefined`.
  - JavaScript truthiness of those values.
  - An abstract codec, a pair of function values standing for
    `JSON.stringify` and `JSON.parse`. What the service relies on from it is
    stated per value as `RoundTrips`.
  - How `get` turns a raw entry into a value.
- `JsonPath`: reading a path out of a tree, as in `parsed = parsed[segment]`.
  - The tree the `path.reduce` in `set` builds, as the function `Assign`.
  - The reduce loop itself, as the method `BuildPath`. It walks down with a
    zipper and rebuilds the tree on the way up, and is proved equal to
    `Assign`.
- `HostStorage`: the browser's `Storage` object, a class over an ordered
  list of distinct keys with their string values.
  - `setItem` replaces a value in place, or appends a new key.
  - `setItem` throws `QuotaExceededError` when the result would not fit the
    store's quota.
- `Scope`: the prefix.
  - Normalising it, deriving store keys and stripping them.
  - What `keys()` lists and what `length()` counts.
  - What `remove(...keys)` leaves, and what `clearAll(pattern)` leaves and
    passes to `remove`.
- `PersistenceTypes`: the configuration, the storage type, the remove event
  and the logged messages.
- `Persistence`: the library class.
  - Its configuration is held in `const` fields.
  - The four observables are append-only logs: `warnings`, `errors`,
    `setEvents` and `removeEvents`.
  - `store` is the host store the support probe found. `supported` is the
    probe's verdict.
- `LegacyPersistence`: the older class.
  - Its constructor, `clearAll`, `length`, `keys`, `remove`,
    `getStorageType`, `deriveKey` and `setPrefix` are the same code as the
    library's. It therefore holds one library object as `base` for that
    state and those operations.
  - It models its own `get`, `set` and set events.

In the older file, the shared operations are at these lines of
`src/persistence.service.ts`:

- `clearAll` at 73-98;
- `length` at 100-109;
- `getStorageType` at 130-132;
- `keys` at 134-154;
- `remove` at 156-178;
- `deriveKey` at 211-213;
- `setPrefix` at 241-250.

Each matches the library code that the table below cites.

Each method loop of the source is a `while` loop with invariants:

- the path walk in `get`;
- the reduce in `set`;
- the `for...in` loops of `keys` and `clearAll`;
- the counter loop of `length`;
- the `forEach` of `remove`.

Each such method's `ensures` ties its result and the new state to a
specification function: `GetResult`, `Written`, `ScopedKeys`, `CountScoped`,
`RemoveAll`, `ClearMatching`, `ClearedSuffixes`, `RemoveEvents` and
`Repeat`. The lemmas state what the source promises about those functions.

When no store was found, `length()` reads `storage.length` on an undefined
`webStorage` and throws. `Length` therefore returns `Threw(TYPE_ERROR)`.

## Model

| member | source | states |
|---|---|---|
| Scope.NormalizePrefix | projects/persistence/src/lib/persistence.service.ts:284-293 | a non-empty prefix ends with "." afterwards; "" and a prefix already ending in "." are unchanged; the result is the input plus at most the one period |
| Scope.NormalizeIdempotent | projects/persistence/src/lib/persistence.service.ts:284-293 | normalising twice gives the same prefix as normalising once |
| Scope.ConfiguredPrefix | projects/persistence/src/lib/persistence.service.ts:56-58 | with no configured prefix the prefix is the default "ls" (line 45), with no period added; otherwise it is the normalised configured prefix |
| Scope.DeriveKey | projects/persistence/src/lib/persistence.service.ts:254-256 | the store key starts with the prefix, and what follows the prefix is the logical key |
| Scope.Strip | projects/persistence/src/lib/persistence.service.ts:220 | stripping the prefix from a key under it gives a logical key whose derived key is that store key |
| Scope.DeriveKeyInjective | projects/persistence/src/lib/persistence.service.ts:254-256 | two logical keys with the same store key are equal |
| Scope.ScopedKeysCount | projects/persistence/src/lib/persistence.service.ts:103-112 | `keys()` returns exactly as many keys as `length()` counts |
| Scope.ScopedKeysMembership | projects/persistence/src/lib/persistence.service.ts:208-228 | a logical key is listed by `keys()` iff its derived key is in the store |
| Scope.PutCount | projects/persistence/src/lib/persistence.service.ts:187 | a `setItem` of a derived key adds one to the count when the key is new, and nothing when it is present |
| Scope.RemoveAllLookup | projects/persistence/src/lib/persistence.service.ts:230-252 | after `remove(...keys)` no `prefix + k` with `k` in keys is present; every other store key reads as before, unprefixed ones included |
| Scope.RemoveAllDistinct | projects/persistence/src/lib/persistence.service.ts:239 | removals keep the store's keys distinct |
| Scope.RemoveAllScopedKeys | projects/persistence/src/lib/persistence.service.ts:230-252 | after `remove(...keys)`, `keys()` lists a key iff it listed it before and the key was not removed |
| Scope.RemoveAllEmptiesScope | src/persistence.service.spec.ts:106-121 | removing every key `keys()` lists leaves `keys()` empty |
| Scope.ClearMatchingLookup | projects/persistence/src/lib/persistence.service.ts:89-99 | after `clearAll`, a key under the prefix whose suffix passes the test is absent; every other key reads as before, so unprefixed keys and keys the test rejects survive |
| Scope.ClearMatchingKeys | projects/persistence/src/lib/persistence.service.ts:89-99 | `clearAll` adds no key to the store |
| Scope.ClearedSuffixesStep | projects/persistence/src/lib/persistence.service.ts:91-93 | each enumerated key adds its suffix to the keys passed to `remove` exactly when it is under the prefix and its suffix passes the test |
| HostStorage.Lookup | projects/persistence/src/lib/persistence.service.ts:120 | `getItem(k)` finds a value iff `k` is among the store's keys, and that value is the one stored with `k` |
| HostStorage.PutLookup | projects/persistence/src/lib/persistence.service.ts:187 | after `setItem(k, v)`, `k` reads `v` and every other key reads as before |
| HostStorage.PutKeys | projects/persistence/src/lib/persistence.service.ts:187 | `setItem` keeps the key order and appends a new key at the end, so enumeration follows insertion order |
| HostStorage.WithoutLookup | projects/persistence/src/lib/persistence.service.ts:239 | after `removeItem(k)`, `k` is absent and every other key reads as before |
| HostStorage.Storage.SetItem | projects/persistence/src/lib/persistence.service.ts:187 | `setItem` throws `QuotaExceededError` and changes nothing when the result would exceed the quota; otherwise it writes the entry |
| HostStorage.Storage.RemoveItem | projects/persistence/src/lib/persistence.service.ts:239 | `removeItem` deletes the key and keeps the store's keys distinct |
| Json.ParseItem | projects/persistence/src/lib/persistence.service.ts:120-131 | an absent entry, "", the text "null" and text that does not parse all read as `null`; any other text reads as what it parses to |
| Json.ParseItemOfEncoding | projects/persistence/src/lib/persistence.service.ts:127-131 | reading back the encoding of a value gives the value |
| JsonPath.AssignThenWalk | projects/persistence/src/lib/persistence.service.ts:167-181 | when the reduce succeeds, walking the same path through the new tree reads the value written |
| JsonPath.AssignFrame | projects/persistence/src/lib/persistence.service.ts:167-181 | every readable path that branches off the written path reads the same value before and after the write |
| JsonPath.AssignIntoEmpty | projects/persistence/src/lib/persistence.service.ts:170-173 | writing into an empty object always succeeds, because missing intermediate objects are created |
| JsonPath.BuildPath | projects/persistence/src/lib/persistence.service.ts:162-185 | the reduce loop, walking down and rebuilding, yields exactly the tree `Assign` defines, or the TypeError when a step meets a non-object |
| Persistence.SetThenGet | projects/persistence/src/lib/persistence.service.ts:148-187 | whatever `set(v, k, ...path)` writes, `get(k, ...path)` then reads `v`, with or without a path |
| Persistence.SetIntoFreshKey | projects/persistence/src/lib/persistence.service.ts:164 | a nested `set` under a key holding nothing or a falsy value always builds its tree, since it starts from `{}` |
| Persistence.SetKeepsSiblings | projects/persistence/src/lib/persistence.service.ts:164-187 | a nested `set` keeps what was stored under the key: every path branching off the written one reads as before |
| Persistence.RemoveOne | projects/persistence/src/lib/persistence.service.ts:93 | the `remove(suffix)` that `clearAll` issues deletes exactly the one store key `prefix + suffix` |
| Persistence.PersistenceService.constructor | projects/persistence/src/lib/persistence.service.ts:49-74 | the notify flags are the configured ones, off when left out; the prefix is the configured prefix; the storage type defaults to local storage; all logs start empty |
| Persistence.PersistenceService.Get | projects/persistence/src/lib/persistence.service.ts:114-146 | unsupported: `null` and exactly one warning; otherwise the parsed entry, `null` for a falsy entry with a path, the value at the path, or `null` when the walk reads a property of `undefined` or `null` |
| Persistence.PersistenceService.Set | projects/persistence/src/lib/persistence.service.ts:148-202 | unsupported: false, one warning, nothing else changes; TypeError in the reduce: false, one error, store unchanged; quota exceeded: false, one error; otherwise true, the store holds the encoded tree under `prefix + key`, and with notify one event carrying the first path segment and the top-level value |
| Persistence.PersistenceService.GetStorageType | projects/persistence/src/lib/persistence.service.ts:204-206 | the name is "localStorage" iff the type is local storage and "sessionStorage" iff it is session storage |
| Persistence.PersistenceService.Keys | projects/persistence/src/lib/persistence.service.ts:208-228 | unsupported: `[]` and exactly one warning; otherwise the stripped keys under the prefix, in store order |
| Persistence.PersistenceService.Length | projects/persistence/src/lib/persistence.service.ts:103-112 | the number of store keys starting with the prefix, with no support check and no warning; throws when there is no store |
| Persistence.PersistenceService.Remove | projects/persistence/src/lib/persistence.service.ts:230-252 | the result is true iff the service is supported or no key is given (a failed key makes it false for good); unsupported: one warning per key; no store: one error per key; otherwise every `prefix + k` is removed, one after another, and with notify one event per key carrying the unprefixed key |
| Persistence.PersistenceService.ClearKey | projects/persistence/src/lib/persistence.service.ts:91-98 | one enumerated key: when it is under the prefix and its suffix passes the test, it is removed through `remove` (one event when notify is on); otherwise nothing changes |
| Persistence.PersistenceService.ClearScoped | projects/persistence/src/lib/persistence.service.ts:87-99 | the loop over a snapshot of the keys leaves exactly `ClearMatching` of the store and logs one remove event per cleared suffix, in order |
| Persistence.PersistenceService.ClearAll | projects/persistence/src/lib/persistence.service.ts:76-101 | unsupported: false, one warning, store unchanged; otherwise always true, with the store cleared of exactly the prefixed keys whose suffix the pattern accepts (all of them without a pattern) |
| PersistenceTypes.NotifySetOf | projects/persistence/src/lib/persistence.service.ts:52-55 | set events are on iff the configuration has notify options whose `setItem` is true |
| PersistenceTypes.NotifyRemoveOf | projects/persistence/src/lib/persistence.service.ts:52-55 | remove events are on iff the configuration has notify options whose `removeItem` is true |
| LegacyPersistence.Encode | src/persistence.service.ts:182-186 | the older `set` encodes nothing exactly when the value is `undefined` |
| LegacyPersistence.LegacyGetResult | src/persistence.service.ts:117-127 | the older `get(key)` reads an entry exactly as the library `get` does with no path |
| LegacyPersistence.LegacySetThenGet | src/persistence.service.ts:180-196 | what `set(k, v)` stores, `get(k)` reads back as `v`; `undefined` is stored as the text "null" and reads back as `null` |
| LegacyPersistence.PersistenceService.constructor | src/persistence.service.ts:46-71 | the same configuration as the library class, and an empty set-event log |
| LegacyPersistence.PersistenceService.Get | src/persistence.service.ts:111-128 | unsupported: `null` and exactly one warning; otherwise the parsed entry, or `null` for an absent, empty, "null" or unparsable entry |
| LegacyPersistence.PersistenceService.Set | src/persistence.service.ts:180-209 | unsupported: false with one warning; quota exceeded: false with one error; otherwise true, the encoding (or "null") stored under `prefix + key`, and with notify one event carrying the caller's key and the encoded text, or `null` for `undefined` |

## Left out

- Support probing (`checkSupport`): the `window` lookup, the random probe key and Safari's private-mode failure are not modelled. The constructor takes the probe's result as the `supported` flag and the found store as `host`. A store that is present while `supported` is false covers the Safari case.
- The rxjs `Observable`/`Subscriber`/`share` plumbing: each stream is an append-only log. Delivery to subscribers is not modelled.
- The JSON grammar: `JSON.stringify` and `JSON.parse` are an abstract codec. Only the per-value round-trip facts in `RoundTrips` are assumed, as preconditions of the lemmas that need them. Errors thrown by `JSON.stringify` (cycles, `BigInt`) are not modelled.
- Numbers are integers, and floating point is not modelled.
- The `RegExp` engine: the `clearAll` pattern is an opaque predicate on the suffix. `None` stands for both a missing and an empty pattern, which the code turns into a catch-all. An invalid pattern, which makes `new RegExp` throw before the support check, is not modelled.
- Persistence.PersistenceService.ClearAll: the prefix test is a literal starts-with, as in `keys()` and `length()`. The code builds `"^" + prefix` as a regular expression, and the model reads all regex syntax in the prefix literally.
  - "." matches any character.
  - Prefixes such as "a+", "x$" or "[ab]" match other keys than a starts-with test does.
  - A prefix that is not a valid regular expression, such as "a(" or "a[", makes `new RegExp` throw a SyntaxError out of every `clearAll` call, before the support check. The model's `ClearAll` never throws.
- HostStorage.Storage.RemoveItem: removal always succeeds on a present store. A key in `remove` therefore fails only through the support flag or a missing store, so either every key fails or none does. The case where an early key fails and a later one succeeds is not modelled.
- JSON objects are maps, so the member order that `JSON.stringify` keeps is not represented. That order is visible in the stored text and in the value a set event carries.
- `for...in` over `Storage`: enumeration is a snapshot of the store's own keys, taken before the loop. Enumerable prototype members (such as `getItem` with an empty prefix) and the effect of removals on the live enumeration are not modelled.
- Dynamic indexing in path `get` and `set`: a path step into anything other than an object reads `undefined`. A write into anything other than an object throws a TypeError. That is faithful for strict-mode primitives, but not for arrays, which accept numeric-string properties, or for strings, which have indexable characters and `length`. Prototype properties such as `constructor` are not modelled either.
- JsonPath.BuildPath: the reduce updates the cache object in place; the model rebuilds the tree on the way back up. The result is the same tree, but aliasing of the cache object is not represented.
- The text of a TypeError is the engine's, and is represented by the constant `TYPE_ERROR`. A `setItem` failure is represented by the quota rule of `HostStorage.Storage.SetItem`, whose message is `QUOTA_EXCEEDED`.
- The unreachable `catch` in `clearAll` is not modelled, because `remove` catches every exception itself.
- The Angular glue is not part of this model: the `PersistenceModule` provider factory, `public-api.ts` re-exports and the dependency-injection token. `src/persistence.config.ts` is kept only as the `Config` record passed to the constructor.
- The test suites' TestBed setup and `localStorage.clear()` are not modelled. The suites' expectations are used only as the properties stated above.
