/** A cache whose entries can be pinned against eviction by "retention keys".

    The cache state is two finite maps: the stored objects (key to value) and
    the retention table (key to the set of retention keys currently holding
    it). The retain count of a key is the number of distinct retention keys in
    its set; while it is positive the entry may not be evicted. Eviction itself
    belongs to the underlying cache and is modelled as a guarded step that may
    remove any stored entry whose retain count is zero. */
module RetainingCache {
  import opened Wrappers

  /** The cache: stored objects and, per key, the retention keys holding it. */
  datatype State<K, V, T> = State(store: map<K, V>, retained: map<K, set<T>>)

  /** One stored pair, as reported to the eviction observer. */
  datatype Entry<K, V> = Entry(key: K, value: V)

  /** The result of an eviction attempt: the new state, and the entry that
      left the store, if one did. */
  datatype Outcome<K, V, T> = Outcome(state: State<K, V, T>, evicted: Option<Entry<K, V>>)

  /** The cache as freshly created: nothing stored, nothing retained. */
  function Empty<K(!new), V, T>(): (s: State<K, V, T>)
    ensures Valid(s)
    ensures forall k :: k !in s.store && RetainCount(s, k) == 0
  {
    State(map[], map[])
  }

  /** The retention table never holds an empty set: a key with no retention
      keys is simply absent from it. */
  ghost predicate Valid<K(!new), V, T>(s: State<K, V, T>) {
    forall k :: k in s.retained ==> s.retained[k] != {}
  }

  /** The retention keys currently held for `k` (none if it has no row). */
  function Tokens<K(!new), V, T>(s: State<K, V, T>, k: K): set<T> {
    if k in s.retained then s.retained[k] else {}
  }

  /** `retainCountForKey:` -- the number of distinct retention keys held for
      `k`; zero, not an error, for a key that was never retained. */
  function RetainCount<K(!new), V, T>(s: State<K, V, T>, k: K): (n: int)
    ensures n >= 0
    ensures n == 0 <==> Tokens(s, k) == {}
  {
    |Tokens(s, k)|
  }

  /** The underlying cache may evict `k` only when an object is stored there
      and nothing retains it. */
  predicate CanEvict<K(!new), V, T>(s: State<K, V, T>, k: K) {
    k in s.store && RetainCount(s, k) == 0
  }

  /** `retainKey:withRetentionKey:` -- adds `t` to the retention keys of `k`.
      A retention key already held is not counted twice. The token is recorded
      whether or not an object is currently stored at `k`. */
  function Retain<K(!new), V, T>(s: State<K, V, T>, k: K, t: T): (r: State<K, V, T>)
    ensures Tokens(r, k) == Tokens(s, k) + {t}
    ensures t in Tokens(s, k) ==> RetainCount(r, k) == RetainCount(s, k)
    ensures t !in Tokens(s, k) ==> RetainCount(r, k) == RetainCount(s, k) + 1
    ensures forall k' :: k' != k ==> Tokens(r, k') == Tokens(s, k')
    ensures r.store == s.store
    ensures Valid(s) ==> Valid(r)
  {
    State(s.store, s.retained[k := Tokens(s, k) + {t}])
  }

  /** `releaseKey:withRetentionKey:` -- drops `t` from the retention keys of
      `k`; releasing a retention key that is not held changes nothing. The
      stored object stays, even when the count reaches zero. */
  function Release<K(!new), V, T>(s: State<K, V, T>, k: K, t: T): (r: State<K, V, T>)
    ensures Tokens(r, k) == Tokens(s, k) - {t}
    ensures t in Tokens(s, k) ==> RetainCount(r, k) == RetainCount(s, k) - 1
    ensures t !in Tokens(s, k) ==> RetainCount(r, k) == RetainCount(s, k)
    ensures forall k' :: k' != k ==> Tokens(r, k') == Tokens(s, k')
    ensures r.store == s.store
    ensures Valid(s) ==> Valid(r)
  {
    var rest := Tokens(s, k) - {t};
    if rest == {} then State(s.store, s.retained - {k})
    else State(s.store, s.retained[k := rest])
  }

  /** `forceReleaseKey:` -- removes every retention key of `k` at once. The
      stored object stays. */
  function ForceRelease<K(!new), V, T>(s: State<K, V, T>, k: K): (r: State<K, V, T>)
    ensures Tokens(r, k) == {}
    ensures RetainCount(r, k) == 0
    ensures forall k' :: k' != k ==> Tokens(r, k') == Tokens(s, k')
    ensures r.store == s.store
    ensures Valid(s) ==> Valid(r)
  {
    State(s.store, s.retained - {k})
  }

  /** The inherited `setObject:forKey:` -- stores `v` at `k`, replacing any
      previous object, and leaves the retention table alone (so a key retained
      before it was stored is protected from the moment it is stored). */
  function Set<K(!new), V, T>(s: State<K, V, T>, k: K, v: V): (r: State<K, V, T>)
    ensures k in r.store && r.store[k] == v
    ensures forall k' :: k' != k ==> (k' in r.store <==> k' in s.store)
    ensures forall k' :: k' != k && k' in s.store ==> r.store[k'] == s.store[k']
    ensures r.retained == s.retained
    ensures Valid(s) ==> Valid(r)
  {
    State(s.store[k := v], s.retained)
  }

  /** The inherited `objectForKey:` -- the object stored at `k`, if any. */
  function Get<K(!new), V, T>(s: State<K, V, T>, k: K): (r: Option<V>)
    ensures r.Some? <==> k in s.store
    ensures r.Some? ==> r.value == s.store[k]
  {
    if k in s.store then Some(s.store[k]) else None
  }

  /** The underlying cache's eviction of `k`: it happens only when `k` is
      evictable, and then removes exactly that entry and reports it to the
      observer. Otherwise the cache is left as it was and nothing is reported.
      The retention table is not touched: an evictable key has no row in it. */
  function Evict<K(!new), V, T>(s: State<K, V, T>, k: K): (r: Outcome<K, V, T>)
    ensures r.evicted.Some? <==> CanEvict(s, k)
    ensures r.evicted.Some? ==> r.evicted.value == Entry(k, s.store[k])
    ensures r.evicted.Some? ==> r.state.store.Keys == s.store.Keys - {k}
    ensures forall k' :: k' in r.state.store ==> k' in s.store && r.state.store[k'] == s.store[k']
    ensures r.evicted.None? ==> r.state == s
    ensures r.state.retained == s.retained
    ensures Valid(s) ==> Valid(r.state)
  {
    if CanEvict(s, k) then Outcome(State(s.store - {k}, s.retained), Some(Entry(k, s.store[k])))
    else Outcome(s, None)
  }

  // ---------------------------------------------------------------------
  // Algebraic properties of the retention operations.

  /** Retaining twice with the same retention key is the same as once. */
  lemma RetainIdempotent<K(!new), V, T>(s: State<K, V, T>, k: K, t: T)
    ensures Retain(Retain(s, k, t), k, t) == Retain(s, k, t)
  {
  }

  /** Releasing a retention key twice is the same as releasing it once. */
  lemma ReleaseIdempotent<K(!new), V, T>(s: State<K, V, T>, k: K, t: T)
    ensures Release(Release(s, k, t), k, t) == Release(s, k, t)
  {
    var once := Release(s, k, t);
    assert Tokens(once, k) - {t} == Tokens(once, k);
    if Tokens(once, k) != {} {
      assert once.retained[k := Tokens(once, k)] == once.retained;
    }
  }

  /** Release undoes a retain with a retention key that was not held. */
  lemma ReleaseUndoesRetain<K(!new), V, T>(s: State<K, V, T>, k: K, t: T)
    requires Valid(s)
    requires t !in Tokens(s, k)
    ensures Release(Retain(s, k, t), k, t) == s
  {
  }

  /** Force-release clears whatever sequence of retains came before it. */
  lemma ForceReleaseAfterRetain<K(!new), V, T>(s: State<K, V, T>, k: K, t: T)
    ensures ForceRelease(Retain(s, k, t), k) == ForceRelease(s, k)
  {
  }

  /** After the last retention key is released, or after force-release, a
      stored object becomes evictable again (it is not pinned forever). */
  lemma ReleaseReenablesEviction<K(!new), V, T>(s: State<K, V, T>, k: K, t: T)
    requires k in s.store
    requires Tokens(s, k) == {t}
    ensures CanEvict(Release(s, k, t), k)
    ensures CanEvict(ForceRelease(s, k), k)
  {
  }

  /** A stored object can be read back until something removes it. */
  lemma GetAfterSet<K(!new), V, T>(s: State<K, V, T>, k: K, v: V)
    ensures Get(Set(s, k, v), k) == Some(v)
    ensures RetainCount(Set(s, k, v), k) == RetainCount(s, k)
  {
  }

  /** Retention may precede storage: a key retained while absent is protected
      from the moment an object is stored at it. */
  lemma RetainBeforeSetProtects<K(!new), V, T>(k: K, t: T, v: V)
    ensures var s := Set(Retain(Empty<K, V, T>(), k, t), k, v);
            RetainCount(s, k) == 1 && !CanEvict(s, k) && Evict(s, k).state == s
  {
  }
}
