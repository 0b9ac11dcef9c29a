/** The expiring key-value store the token service is built on. Only its
    contract is modelled: entries carry an absolute deadline, the clock is
    passed in as `now`, and an entry is live exactly while `now` is strictly
    before its deadline. Every operation treats an expired entry as absent,
    so whether and when expired entries are physically swept is not
    observable. */
module TimedStores {
  import opened Wrappers

  /** A stored value and the instant from which it counts as expired. */
  datatype Entry<V> = Entry(value: V, expiresAt: int)

  type Entries<V> = map<string, Entry<V>>

  datatype StoreError = DuplicateKey | NotFound

  /** `key` holds an entry that has not expired at `now`. */
  predicate Live<V>(m: Entries<V>, key: string, now: int) {
    key in m && now < m[key].expiresAt
  }

  /** The keys whose entries have not expired at `now`. */
  function LiveKeys<V>(m: Entries<V>, now: int): (keys: set<string>) {
    set k | k in m && now < m[k].expiresAt
  }

  /** What a read of `key` at `now` answers. */
  function Lookup<V>(m: Entries<V>, key: string, now: int): (r: Result<V, StoreError>) {
    if Live(m, key, now) then Success(m[key].value) else Failure(NotFound)
  }

  class TimedStore<V> {
    var entries: Entries<V>
    /** The lifetime given to entries inserted by `AddValue`. */
    const defaultDuration: int

    constructor (duration: int)
      ensures entries == map[] && defaultDuration == duration
    {
      entries := map[];
      defaultDuration := duration;
    }

    /** The number of entries that have not expired at `now`. */
    function Count(now: int): (n: nat)
      reads this
      ensures n <= |entries|
      ensures n == 0 <==> forall k :: k in entries ==> entries[k].expiresAt <= now
    {
      LiveKeysWithin(entries, now);
      NoLiveKeys(entries, now);
      |LiveKeys(entries, now)|
    }

    function GetValue(key: string, now: int): (r: Result<V, StoreError>)
      reads this
      ensures r.Success? <==> Live(entries, key, now)
      ensures r.Success? ==> r.value == entries[key].value
      ensures r.Failure? ==> r.error == NotFound
    {
      Lookup(entries, key, now)
    }

    /** Inserts `key` with the default lifetime; a live entry under the same
        key is a duplicate, an expired one is overwritten. */
    method AddValue(key: string, value: V, now: int) returns (err: Option<StoreError>)
      modifies this
      ensures err.Some? <==> Live(old(entries), key, now)
      ensures err.Some? ==> err.value == DuplicateKey && entries == old(entries)
      ensures err.None? ==> entries == old(entries)[key := Entry(value, now + defaultDuration)]
    {
      if Live(entries, key, now) {
        return Some(DuplicateKey);
      }
      entries := entries[key := Entry(value, now + defaultDuration)];
      return None;
    }

    /** Replaces the value of a live entry, keeping its deadline. */
    method SetValue(key: string, value: V, now: int) returns (err: Option<StoreError>)
      modifies this
      ensures err.Some? <==> !Live(old(entries), key, now)
      ensures err.Some? ==> err.value == NotFound && entries == old(entries)
      ensures err.None? ==> entries == old(entries)[key := Entry(value, old(entries)[key].expiresAt)]
    {
      if !Live(entries, key, now) {
        return Some(NotFound);
      }
      entries := entries[key := entries[key].(value := value)];
      return None;
    }

    /** Restarts the lifetime of a live entry at `now` with `duration`,
        keeping its value. */
    method SetValueDuration(key: string, duration: int, now: int) returns (err: Option<StoreError>)
      modifies this
      ensures err.Some? <==> !Live(old(entries), key, now)
      ensures err.Some? ==> err.value == NotFound && entries == old(entries)
      ensures err.None? ==> entries == old(entries)[key := Entry(old(entries)[key].value, now + duration)]
    {
      if !Live(entries, key, now) {
        return Some(NotFound);
      }
      entries := entries[key := entries[key].(expiresAt := now + duration)];
      return None;
    }

    /** Deletes a live entry. */
    method RemoveValue(key: string, now: int) returns (err: Option<StoreError>)
      modifies this
      ensures err.Some? <==> !Live(old(entries), key, now)
      ensures err.Some? ==> err.value == NotFound && entries == old(entries)
      ensures err.None? ==> entries == old(entries) - {key}
    {
      if !Live(entries, key, now) {
        return Some(NotFound);
      }
      entries := entries - {key};
      return None;
    }
  }

  lemma LiveKeysWithin<V>(m: Entries<V>, now: int)
    ensures LiveKeys(m, now) <= m.Keys
    ensures |LiveKeys(m, now)| <= |m|
  {
    SubsetCard(LiveKeys(m, now), m.Keys);
  }

  lemma NoLiveKeys<V>(m: Entries<V>, now: int)
    ensures LiveKeys(m, now) == {} <==> forall k :: k in m ==> m[k].expiresAt <= now
  {
    if exists k :: k in m && now < m[k].expiresAt {
      var k :| k in m && now < m[k].expiresAt;
      assert k in LiveKeys(m, now);
    }
  }

  /** An inserted entry answers with its value until its deadline and is
      absent from then on; every other key answers as before. */
  lemma InsertedLiveUntilDeadline<V>(m: Entries<V>, key: string, value: V, duration: int, now: int, t: int)
    ensures var m' := m[key := Entry(value, now + duration)];
      && Lookup(m', key, t) == (if t < now + duration then Success(value) else Failure(NotFound))
      && forall k :: k != key ==> Lookup(m', k, t) == Lookup(m, k, t)
  {
  }

  /** Inserting an entry that is live at `now` under a key that was not
      live raises the count at `now` by exactly one. */
  lemma InsertGrowsCount<V>(m: Entries<V>, key: string, e: Entry<V>, now: int)
    requires !Live(m, key, now) && now < e.expiresAt
    ensures |LiveKeys(m[key := e], now)| == |LiveKeys(m, now)| + 1
  {
    assert LiveKeys(m[key := e], now) == LiveKeys(m, now) + {key};
  }

  /** Deleting a live entry lowers the count at `now` by exactly one. */
  lemma RemoveShrinksCount<V>(m: Entries<V>, key: string, now: int)
    requires Live(m, key, now)
    ensures |LiveKeys(m - {key}, now)| == |LiveKeys(m, now)| - 1
  {
    assert LiveKeys(m - {key}, now) == LiveKeys(m, now) - {key};
  }

  /** Overwriting a live entry with one still live at `now` (a new value, or
      a positive new lifetime) leaves the count at `now` unchanged. */
  lemma OverwriteKeepsCount<V>(m: Entries<V>, key: string, e: Entry<V>, now: int)
    requires Live(m, key, now) && now < e.expiresAt
    ensures |LiveKeys(m[key := e], now)| == |LiveKeys(m, now)|
  {
    assert LiveKeys(m[key := e], now) == LiveKeys(m, now);
  }

  /** Entries only ever expire as time passes: the count never grows
      without a write. */
  lemma CountShrinksOverTime<V>(m: Entries<V>, t1: int, t2: int)
    requires t1 <= t2
    ensures LiveKeys(m, t2) <= LiveKeys(m, t1)
    ensures |LiveKeys(m, t2)| <= |LiveKeys(m, t1)|
  {
    SubsetCard(LiveKeys(m, t2), LiveKeys(m, t1));
  }

  lemma {:induction false} SubsetCard<X>(a: set<X>, b: set<X>)
    requires a <= b
    ensures |a| <= |b|
  {
    if a != {} {
      var x :| x in a;
      SubsetCard(a - {x}, b - {x});
    }
  }

  /** A duration update keeps the value and moves the deadline to
      `now + duration`, whatever the earlier deadline was. */
  lemma ExtendKeepsValue<V>(m: Entries<V>, key: string, duration: int, now: int, t: int)
    requires Live(m, key, now)
    ensures var m' := m[key := Entry(m[key].value, now + duration)];
      Lookup(m', key, t) == (if t < now + duration then Success(m[key].value) else Failure(NotFound))
  {
  }

  /** A value update is read back until the entry's unchanged deadline. */
  lemma ReplaceThenLookup<V>(m: Entries<V>, key: string, value: V, now: int, t: int)
    requires Live(m, key, now)
    ensures var m' := m[key := Entry(value, m[key].expiresAt)];
      Lookup(m', key, t) == (if t < m[key].expiresAt then Success(value) else Failure(NotFound))
  {
  }

  /** A removed key is absent at every instant. */
  lemma RemovedIsAbsent<V>(m: Entries<V>, key: string, t: int)
    ensures Lookup(m - {key}, key, t) == Failure(NotFound)
  {
  }
}
