/** The session-token service: it issues tokens by chaining HMAC digests
    through a rolling salt, keeps each token in an expiring store with a
    payload, promotes a token to the authenticated lifetime, and reports
    every store failure addressed by a token as one error kind.

    The clock (`now`), the bytes the system random generator delivers and
    the text of the current timestamp are parameters. A Go panic is the
    outcome `Panicked`. */
module TokenStores {
  import opened Wrappers
  import opened Crypto
  import opened TimedStores

  /** A payload stored under a token; `Nil` is Go's untyped nil. */
  datatype Payload<T> = Nil | Value(value: T)

  /** The one error callers ever see, naming the token they asked for. */
  datatype TokenError = InvalidOrExpiredToken(token: string)

  /** Why token issuance aborts instead of returning. */
  datatype Fault = DuplicateToken | RandomUnavailable

  datatype Issue = Issued(token: string) | Panicked(fault: Fault)

  /** The size of the main block of random bytes fed into each digest. */
  const RandomBlockSize := 128

  /** The Go pattern `if err != nil { return invalid-token error }; return
      nil`: a store error of any kind becomes the invalid-token error naming
      the requested token. */
  function Normalize(token: string, err: Option<StoreError>): (r: Option<TokenError>)
    ensures r.Some? <==> err.Some?
    ensures r.Some? ==> r.value.token == token
  {
    if err.Some? then Some(InvalidOrExpiredToken(token)) else None
  }

  /** The (value, error) pair the service answers for a store read. */
  function Answer<T>(token: string, read: Result<Payload<T>, StoreError>): (r: (Payload<T>, Option<TokenError>))
    ensures r.1.None? <==> read.Success?
    ensures r.1.None? ==> r.0 == read.value
    ensures r.1.Some? ==> r.0 == Nil && r.1.value.token == token
  {
    if read.Failure? then (Nil, Some(InvalidOrExpiredToken(token))) else (read.value, None)
  }

  /** The salt after the digests of `history` (the MAC messages of every
      issuance so far, oldest first) have been chained onto the seed. */
  ghost function SaltChain(crypto: Primitives, seed: seq<byte>, history: seq<seq<byte>>): (salt: Digest)
    decreases |history|
  {
    if history == [] then crypto.sha256(seed)
    else crypto.hmacSha256(SaltChain(crypto, seed, history[..|history| - 1]), history[|history| - 1])
  }

  /** Takes `n` bytes from the system random generator, of which
      `available` is what it can deliver; a short read aborts. */
  method GetRandomBytes(n: nat, available: seq<byte>) returns (r: Result<seq<byte>, Fault>)
    ensures r.Success? <==> n <= |available|
    ensures r.Success? ==> |r.value| == n && r.value == available[..n]
    ensures r.Failure? ==> r.error == RandomUnavailable
  {
    if |available| < n {
      return Failure(RandomUnavailable);
    }
    return Success(available[..n]);
  }

  class TokenStore<T> {
    const store: TimedStore<Payload<T>>
    var salt: Digest
    /** The lifetime a token gets once its session is authenticated. */
    const authDuration: int
    const crypto: Primitives
    ghost const seed: seq<byte>
    /** The MAC message of every issuance so far, oldest first. */
    ghost var history: seq<seq<byte>>

    /** The salt is the seed's digest with every issuance chained on. */
    ghost predicate Valid()
      reads this
    {
      salt == SaltChain(crypto, seed, history)
    }

    /** Unauthenticated tokens live `noAuth`, authenticated ones `auth`;
        the first salt is the digest of `seed`. */
    constructor (noAuth: int, auth: int, seed: seq<byte>, crypto: Primitives)
      ensures Valid() && fresh(store)
      ensures store.entries == map[] && store.defaultDuration == noAuth
      ensures salt == crypto.sha256(seed) && authDuration == auth
      ensures this.seed == seed && this.crypto == crypto && history == []
    {
      this.crypto := crypto;
      this.seed := seed;
      store := new TimedStore(noAuth);
      salt := crypto.sha256(seed);
      authDuration := auth;
      history := [];
    }

    function Count(now: int): (n: nat)
      reads store
      ensures n == |LiveKeys(store.entries, now)|
    {
      store.Count(now)
    }

    function GetValue(token: string, now: int): (r: (Payload<T>, Option<TokenError>))
      reads store
      ensures r.1.None? <==> Live(store.entries, token, now)
      ensures r.1.None? ==> r.0 == store.entries[token].value
      ensures r.1.Some? ==> r == (Nil, Some(InvalidOrExpiredToken(token)))
    {
      Answer(token, store.GetValue(token, now))
    }

    /** Issues a token: the HMAC, keyed by the current salt, of the random
        block, `extraCount` further random bytes and the timestamp text
        becomes the next salt, and its base64url text is registered with a
        nil payload at the default lifetime. A duplicate aborts, after the
        salt has advanced. */
    method NewToken(entropy: seq<byte>, extraCount: nat, extraEntropy: seq<byte>, stamp: seq<byte>, now: int)
      returns (r: Issue)
      requires Valid()
      modifies this, store
      ensures Valid()
      ensures |entropy| < RandomBlockSize || |extraEntropy| < extraCount ==>
        r == Panicked(RandomUnavailable) && unchanged(this, store)
      ensures RandomBlockSize <= |entropy| && extraCount <= |extraEntropy| ==>
        var message := entropy[..RandomBlockSize] + extraEntropy[..extraCount] + stamp;
        var digest := crypto.hmacSha256(old(salt), message);
        var token := crypto.base64Url(digest);
        && salt == digest
        && history == old(history) + [message]
        && (Live(old(store.entries), token, now) ==>
              r == Panicked(DuplicateToken) && store.entries == old(store.entries))
        && (!Live(old(store.entries), token, now) ==>
              r == Issued(token) && store.entries == old(store.entries)[token := Entry(Nil, now + store.defaultDuration)])
      ensures r.Issued? ==> r.token == crypto.base64Url(salt)
      ensures r.Issued? && 0 < store.defaultDuration ==>
        GetValue(r.token, now) == (Nil, None) && Count(now) == old(Count(now)) + 1
    {
      var block := GetRandomBytes(RandomBlockSize, entropy);
      if block.Failure? {
        return Panicked(block.error);
      }
      var extra := GetRandomBytes(extraCount, extraEntropy);
      if extra.Failure? {
        return Panicked(extra.error);
      }
      var message := block.value + extra.value + stamp;
      var macSum := crypto.hmacSha256(salt, message);
      salt := macSum;
      history := history + [message];
      var strSum := crypto.base64Url(macSum);
      var err := store.AddValue(strSum, Nil, now);
      if err.Some? {
        return Panicked(DuplicateToken);
      }
      if 0 < store.defaultDuration {
        InsertGrowsCount(old(store.entries), strSum, Entry(Nil, now + store.defaultDuration), now);
      }
      return Issued(strSum);
    }

    method RemoveToken(token: string, now: int) returns (err: Option<TokenError>)
      modifies store
      ensures unchanged(this)
      ensures err.None? <==> Live(old(store.entries), token, now)
      ensures err.Some? ==> err.value == InvalidOrExpiredToken(token) && store.entries == old(store.entries)
      ensures err.None? ==> store.entries == old(store.entries) - {token}
      ensures err.None? ==>
        GetValue(token, now) == (Nil, Some(InvalidOrExpiredToken(token))) && Count(now) == old(Count(now)) - 1
    {
      var e := store.RemoveValue(token, now);
      if e.None? {
        RemoveShrinksCount(old(store.entries), token, now);
      }
      return Normalize(token, e);
    }

    /** Restarts a live token's lifetime at `now` with the authenticated
        duration, keeping its payload. */
    method SetTokenAsAuthenticated(token: string, now: int) returns (err: Option<TokenError>)
      modifies store
      ensures unchanged(this)
      ensures err.None? <==> Live(old(store.entries), token, now)
      ensures err.Some? ==> err.value == InvalidOrExpiredToken(token) && store.entries == old(store.entries)
      ensures err.None? ==>
        store.entries == old(store.entries)[token := Entry(old(store.entries)[token].value, now + authDuration)]
      ensures err.None? ==> forall t :: GetValue(token, t).1.None? <==> t < now + authDuration
      ensures err.None? && 0 < authDuration ==> Count(now) == old(Count(now))
    {
      var e := store.SetValueDuration(token, authDuration, now);
      if e.None? && 0 < authDuration {
        OverwriteKeepsCount(old(store.entries), token, store.entries[token], now);
      }
      return Normalize(token, e);
    }

    /** Replaces a live token's payload, keeping its deadline. */
    method SetValue(token: string, value: Payload<T>, now: int) returns (err: Option<TokenError>)
      modifies store
      ensures unchanged(this)
      ensures err.None? <==> Live(old(store.entries), token, now)
      ensures err.Some? ==> err.value == InvalidOrExpiredToken(token) && store.entries == old(store.entries)
      ensures err.None? ==>
        store.entries == old(store.entries)[token := Entry(value, old(store.entries)[token].expiresAt)]
      ensures err.None? ==> GetValue(token, now) == (value, None) && Count(now) == old(Count(now))
    {
      var e := store.SetValue(token, value, now);
      if e.None? {
        OverwriteKeepsCount(old(store.entries), token, store.entries[token], now);
      }
      return Normalize(token, e);
    }
  }

  /** The read path and the write paths report one and the same error for
      a token, whatever the store reported on either. */
  lemma ReadAndWriteErrorsAgree<T>(token: string, read: Result<Payload<T>, StoreError>, e1: StoreError, e2: StoreError)
    requires read.Failure?
    ensures Normalize(token, Some(e1)) == Normalize(token, Some(e2))
    ensures Normalize(token, Some(e1)) == Some(Answer(token, read).1.value)
  {
  }

  /** A token that was never issued and one whose lifetime has run out
      get the same answer. */
  lemma UnknownAndExpiredAlike<T>(m1: Entries<Payload<T>>, m2: Entries<Payload<T>>, token: string, now: int)
    requires token !in m1
    requires token in m2 && m2[token].expiresAt <= now
    ensures Answer(token, Lookup(m1, token, now)) == Answer(token, Lookup(m2, token, now))
    ensures Answer(token, Lookup(m1, token, now)) == (Nil, Some(InvalidOrExpiredToken(token)))
  {
  }

  /** A token issued at `issuedAt` with lifetime `noAuth` and promoted at
      `promotedAt`, while still live, to lifetime `auth` answers exactly
      until `promotedAt + auth`, past its original deadline if that is
      later. */
  lemma PromotionSetsDeadline<T>(m: Entries<Payload<T>>, token: string, noAuth: int, auth: int,
                                 issuedAt: int, promotedAt: int, t: int)
    requires issuedAt <= promotedAt < issuedAt + noAuth
    ensures var issued := m[token := Entry(Nil, issuedAt + noAuth)];
      && Live(issued, token, promotedAt)
      && var promoted := issued[token := Entry(issued[token].value, promotedAt + auth)];
         Answer(token, Lookup(promoted, token, t)) ==
           if t < promotedAt + auth then (Nil, None) else (Nil, Some(InvalidOrExpiredToken(token)))
  {
  }
}
