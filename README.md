# Session token store, modelled in Dafny

This project models `TokenStore` from the Go package `appcontext`
(`tokenstore.go`). It is an in-memory service that issues opaque session
tokens. Each token lives in an expiring key-value store (`TimedStore`) with a
payload. A new token gets the short, unauthenticated lifetime. Authentication
promotes it to a longer lifetime. Every failed lookup or update addressed by
a token is reported as one "invalid or expired token" error.

The project has four modules:

- `Wrappers` (`wrappers.dfy`): `Option` and `Result`.
- `Crypto` (`crypto.dfy`): bytes and 32-byte digests. A `Primitives` record
  holds three functions standing for SHA-256, HMAC-SHA256 and URL-safe
  base64. A token store receives this record when it is built. So every
  proof holds for any functions with these signatures, and nothing about the
  real algorithms (not even injectivity) is assumed.
- `TimedStores` (`timedstore.dfy`): the contract of the expiring store.
  `TimedStore<V>` is a class with a `map<string, Entry<V>>` of values and
  absolute deadlines, plus a default lifetime. The clock is an explicit
  `now: int`. An entry is live iff `now < expiresAt`. Every operation treats
  an expired entry as absent. Module-level lemmas state what the operations do
  to reads across time and to the live count.
- `TokenStores` (`tokenstore.dfy`): the class `TokenStore<T>`. It has a
  `const store`, the mutable `salt`, the `authDuration` and the primitives.
  The ghost field `history` records the MAC message of every issuance.
  `Valid()` says the salt is the seed's SHA-256 digest with one HMAC per
  issuance chained onto it (`SaltChain`). `NewToken` keeps `Valid()`.
  `NewToken` is the only method that may modify the object's own fields. The
  other methods may modify only the store, and each says `unchanged(this)`.

Modelling choices:

- The real clock, the system random generator and the timestamp text are
  inputs. `NewToken` receives `now`, the bytes each random read can deliver,
  the size of the second random block, and the timestamp text as bytes.
- A Go `panic` is the outcome `Panicked(fault)`. Its ensures clauses give the
  state left behind. If the generator cannot fill a buffer, nothing changes.
  A duplicate token panics after the salt has already advanced, because
  `tokenstore.go:87` runs before the insert at `tokenstore.go:90`. The model
  keeps that order.
- Go's `interface{}` payload is `Payload<T>`, where `Nil` is nil. A Go error
  result is `Option<TokenError>`, where `None` is nil. `GetValue` returns the
  same (value, error) pair as the Go code.
- The seed string and the timestamp text are taken as their bytes, since Go's
  `[]byte(s)` is what gets hashed.

Only the first salt is a SHA-256 digest, of the seed. Every later salt is the
HMAC digest of the previous issuance itself, not a hash of it
(`tokenstore.go:86-87`). `SaltChain` states this.

## Model

| member | source | states |
|---|---|---|
| TimedStores.TimedStore.constructor | tokenstore.go:44 | The store starts empty, with the given default lifetime. |
| TimedStores.TimedStore.Count | tokenstore.go:54 | Counts only entries live at `now`. It is at most the number stored. It is zero exactly when every deadline has passed. |
| TimedStores.TimedStore.GetValue | tokenstore.go:66 | Succeeds iff the key is live at `now`, and then returns the stored value unchanged. Otherwise it fails with `NotFound`, whether the key never existed or has expired. |
| TimedStores.TimedStore.AddValue | tokenstore.go:90 | Fails with `DuplicateKey` iff a live entry exists, and then changes nothing. Otherwise it inserts, or overwrites an expired entry, with deadline `now + defaultDuration`, and leaves every other key as it was. |
| TimedStores.TimedStore.SetValue | tokenstore.go:119 | Fails with `NotFound` iff the key is not live, and then changes nothing. Otherwise it replaces the value only and keeps the deadline. |
| TimedStores.TimedStore.SetValueDuration | tokenstore.go:110 | Fails with `NotFound` iff the key is not live, and then changes nothing. Otherwise it resets the deadline to `now + duration` and keeps the value. |
| TimedStores.TimedStore.RemoveValue | tokenstore.go:100 | Fails with `NotFound` iff the key is not live, and then changes nothing. Otherwise it deletes exactly that key. |
| TimedStores.InsertedLiveUntilDeadline | tokenstore.go:90 | An inserted entry reads back its value at every instant before `now + duration` and is absent at every later one. Reads of every other key are unaffected. |
| TimedStores.InsertGrowsCount | tokenstore.go:90 | Inserting a live entry under a key that was not live raises the live count by exactly one. |
| TimedStores.RemoveShrinksCount | tokenstore.go:100 | Deleting a live entry lowers the live count by exactly one. |
| TimedStores.OverwriteKeepsCount | tokenstore.go:110-119 | Overwriting a live entry's value, or giving it a lifetime still running at `now`, leaves the live count unchanged. |
| TimedStores.CountShrinksOverTime | tokenstore.go:53-55 | Without writes, the set of live keys at a later instant is a subset of the earlier one, so the count never grows. |
| TimedStores.ExtendKeepsValue | tokenstore.go:110 | After a duration update the old value still reads back at every instant before `now + duration`, even past the old deadline. From `now + duration` on the key is absent. |
| TimedStores.ReplaceThenLookup | tokenstore.go:119 | After a value update the new value reads back until the unchanged old deadline. |
| TimedStores.RemovedIsAbsent | tokenstore.go:100 | A removed key reads as `NotFound` at every instant. |
| TokenStores.GetRandomBytes | tokenstore.go:127-135 | Returns exactly `n` bytes, the first `n` the generator delivers, or aborts with `RandomUnavailable` when it delivers fewer. It never returns a short buffer. |
| TokenStores.TokenStore.constructor | tokenstore.go:40-49 | Salt is SHA-256 of the seed. The store keeps the given primitives, so later salts and tokens are digests of those same functions. The store is fresh and empty, with default lifetime `noAuth`. `authDuration == auth`. The chain invariant holds with an empty history. |
| TokenStores.TokenStore.Count | tokenstore.go:53-55 | The number of tokens live at `now` in the store. |
| TokenStores.TokenStore.GetValue | tokenstore.go:64-71 | Succeeds (nil error) iff the token is live, and then returns the stored payload unchanged. Otherwise it returns a nil payload with the invalid-or-expired error for that token. |
| TokenStores.TokenStore.NewToken | tokenstore.go:73-96 | A short random read aborts and changes nothing. Otherwise the new salt is the HMAC, keyed by the old salt, of the 128-byte block, the extra bytes and the timestamp. The chain invariant is kept. The token is the base64url text of that same digest. If that token is live, it panics and the store is unchanged. Otherwise the token is registered with a nil payload at the default lifetime and nothing else changes. With a positive default lifetime, `GetValue` then answers (nil, no error) and the count grows by one. |
| TokenStores.TokenStore.RemoveToken | tokenstore.go:98-105 | Succeeds iff the token is live, and then deletes exactly it, after which `GetValue` fails and the count drops by one. Otherwise it returns the invalid-or-expired error and changes nothing. The salt is untouched. |
| TokenStores.TokenStore.SetTokenAsAuthenticated | tokenstore.go:107-115 | Succeeds iff the token is live. On success the deadline becomes `now + authDuration`, never the default lifetime, and the payload is kept. The token then reads back exactly at the instants before that deadline. On failure it returns the invalid-or-expired error and changes nothing. The salt is untouched. |
| TokenStores.TokenStore.SetValue | tokenstore.go:117-124 | Succeeds iff the token is live. On success it replaces only the payload, so `GetValue` returns it and the count is unchanged. On failure it returns the invalid-or-expired error and changes nothing. The salt is untouched. |
| TokenStores.Normalize | tokenstore.go:100-104 | The error-return pattern shared by `RemoveToken`, `SetTokenAsAuthenticated` and `SetValue` (also at lines 111-114 and 120-123). The result is an error exactly when the store reported one, and that error names the requested token. |
| TokenStores.Answer | tokenstore.go:66-70 | The read path. The error is nil exactly when the store read succeeded, and the value is then the store's value unchanged. On failure the value is nil and the error names the requested token. |
| TokenStores.ReadAndWriteErrorsAgree | tokenstore.go:57-62 | There is one error per token (`getInvalidTokenError`). Any two store errors on a write path give the same caller-visible error, and it is the same error a failed read returns. |
| TokenStores.UnknownAndExpiredAlike | tokenstore.go:64-71 | A never-issued token and an expired one get identical answers: a nil payload and the invalid-or-expired error. |
| TokenStores.PromotionSetsDeadline | tokenstore.go:107-115 | A token promoted while still live reads back until `promotedAt + auth`, even past its original deadline, and fails from then on. |

## Left out

- The `TimedStore` implementation (not part of this model): only the contract above is modelled, including lazy expiry. Physical sweeping and its timing are not modelled, since they cannot be observed through this contract.
- TimedStores.TimedStore.RemoveValue: an entry that has expired but has not been swept counts as absent, so removing it fails with `NotFound`. A store that deletes any present entry would succeed here. The chosen contract applies the same liveness rule to every operation.
- The first result of `TimedStore.AddValue`, which `tokenstore.go:90` discards.
- SHA-256, HMAC and base64url internals. They are opaque functions, and no injectivity or collision resistance is assumed.
- Uniqueness of a long run of issued tokens. It depends on the digest being collision-free. The model proves only that `NewToken` never returns a token that is live at that moment: it panics instead.
- Any unpredictability or security claim about tokens. That is a cryptographic or probabilistic property.
- The system random generator, `time.Now()`, the RFC 3339 text format, and the size of the second random block (`Second()/2`). These are inputs. The store's clock and the timestamp text are independent inputs.
- Overflow of Go's 64-bit `time.Duration` in `now + duration`. Integers are unbounded here.
- The text of the error message built at `tokenstore.go:60-61`. The error is one kind carrying the token.
- The mutex-based thread safety of the store and the salt, and concurrent issuance.
- Recovery from a panic. The model reports the panic as an outcome and states the state left behind.
