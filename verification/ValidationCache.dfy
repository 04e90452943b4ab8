/**
 The cached validity of client and prekey profiles. What a profile is checked against (the
 sender's instance tag, and for a prekey profile also the long-term key) is a parameter type;
 the check itself, all but the expiry, is an arbitrary predicate of an unchanged profile.
 */
module ValidationCache {

  predicate Expired(expires: int, now: int) { expires - now <= 0 }

  /** otrng_client_profile_valid and otrng_prekey_profile_valid. */
  predicate Valid<K>(sound: K -> bool, expires: int, k: K, now: int) {
    sound(k) && !Expired(expires, now)
  }

  class CachedProfile<K> {
    const sound: K -> bool
    const expires: int
    var hasValidated: bool
    var validationResult: bool

    constructor (sound: K -> bool, expires: int)
      ensures this.sound == sound && this.expires == expires && !hasValidated
    {
      this.sound, this.expires, hasValidated, validationResult := sound, expires, false, false;
    }

    function State(): Cache
      reads this
    {
      Cache(hasValidated, validationResult)
    }

    /** The two fast_valid functions. */
    method FastValid(k: K, now: int) returns (result: bool)
      modifies this
      ensures (State(), result) == Fast(old(State()), sound, expires, Call(k, now))
    {
      if hasValidated {
        return validationResult && !Expired(expires, now);
      }
      validationResult := Valid(sound, expires, k, now);
      hasValidated := true;
      result := validationResult;
    }
  }

  datatype Cache = Cache(hasValidated: bool, validationResult: bool)

  datatype Call<K> = Call(k: K, now: int)

  function Fast<K>(c: Cache, sound: K -> bool, expires: int, call: Call<K>): (Cache, bool) {
    if c.hasValidated then (c, c.validationResult && !Expired(expires, call.now))
    else
      var v := Valid(sound, expires, call.k, call.now);
      (Cache(true, v), v)
  }

  /** The cache after the first n calls. */
  function After<K>(sound: K -> bool, expires: int, calls: seq<Call<K>>, n: nat): Cache
    requires n <= |calls|
  {
    if n == 0 then Cache(false, false) else Fast(After(sound, expires, calls, n - 1), sound, expires, calls[n - 1]).0
  }

  /** The answer to call n. */
  function Answer<K>(sound: K -> bool, expires: int, calls: seq<Call<K>>, n: nat): bool
    requires n < |calls|
  {
    Fast(After(sound, expires, calls, n), sound, expires, calls[n]).1
  }

  lemma {:induction false} CacheHoldsFirst<K>(sound: K -> bool, expires: int, calls: seq<Call<K>>, n: nat)
    requires 0 < n <= |calls|
    ensures After(sound, expires, calls, n) == Cache(true, Valid(sound, expires, calls[0].k, calls[0].now))
  {
    if n > 1 {
      CacheHoldsFirst(sound, expires, calls, n - 1);
    }
  }

  /** For every sequence of calls: an answer differs from direct validation exactly when the
      profile has not expired at the call and the first call had the other outcome. */
  lemma CacheAgreesIff<K>(sound: K -> bool, expires: int, calls: seq<Call<K>>, n: nat)
    requires n < |calls|
    ensures Answer(sound, expires, calls, n) == Valid(sound, expires, calls[n].k, calls[n].now)
            <==> Expired(expires, calls[n].now) || n == 0
                 || sound(calls[n].k) == Valid(sound, expires, calls[0].k, calls[0].now)
  {
    if n > 0 {
      CacheHoldsFirst(sound, expires, calls, n);
    }
  }

  /** On one tag and key, under a clock that never goes back, every answer is what direct
      validation would say then. */
  lemma CacheAgrees<K>(sound: K -> bool, expires: int, calls: seq<Call<K>>, n: nat)
    requires n < |calls| && forall m | 0 <= m < |calls| :: calls[m].k == calls[0].k
    requires forall m | 0 < m < |calls| :: calls[m - 1].now <= calls[m].now
    ensures Answer(sound, expires, calls, n) == Valid(sound, expires, calls[n].k, calls[n].now)
  {
    NotEarlier(calls, n);
    CacheAgreesIff(sound, expires, calls, n);
  }

  lemma {:induction false} NotEarlier<K>(calls: seq<Call<K>>, n: nat)
    requires n < |calls| && forall m | 0 < m < |calls| :: calls[m - 1].now <= calls[m].now
    ensures calls[0].now <= calls[n].now
  {
    if n > 0 {
      NotEarlier(calls, n - 1);
    }
  }

  /** A clock that goes back keeps a profile rejected that direct validation would accept. */
  lemma ClockSetBack<K>(sound: K -> bool, expires: int, k: K)
    requires sound(k)
    ensures var calls := [Call(k, expires), Call(k, expires - 1)];
            !Answer(sound, expires, calls, 1) && Valid(sound, expires, k, expires - 1)
  {
    var calls := [Call(k, expires), Call(k, expires - 1)];
    CacheHoldsFirst(sound, expires, calls, 1);
  }
}
