/** Runs of the retaining cache: finite sequences of client calls
    (retain, release, force-release, set) interleaved with eviction attempts
    by the underlying cache. Which key the cache tries to evict, and when, is
    left entirely to the run; the retention guard alone decides whether the
    attempt succeeds. */
module Traces {
  import opened Wrappers
  import opened RetainingCache

  /** One atomic transition of the cache. */
  datatype Step<K, V, T> =
    | RetainStep(key: K, token: T)
    | ReleaseStep(key: K, token: T)
    | ForceReleaseStep(key: K)
    | SetStep(key: K, value: V)
    | EvictStep(key: K)

  /** Performs one step. Only an eviction step can report an evicted entry,
      and an entry leaves the store exactly when it is reported. */
  function Apply<K(!new), V, T>(s: State<K, V, T>, step: Step<K, V, T>): (r: Outcome<K, V, T>)
    ensures r.evicted.Some? ==> step.EvictStep? && CanEvict(s, step.key)
    ensures r.evicted.Some? ==> r.evicted.value == Entry(step.key, s.store[step.key])
    ensures forall k :: k in s.store && k !in r.state.store <==> r.evicted.Some? && r.evicted.value.key == k
    ensures Valid(s) ==> Valid(r.state)
  {
    match step
    case RetainStep(k, t) => Outcome(Retain(s, k, t), None)
    case ReleaseStep(k, t) => Outcome(Release(s, k, t), None)
    case ForceReleaseStep(k) => Outcome(ForceRelease(s, k), None)
    case SetStep(k, v) => Outcome(Set(s, k, v), None)
    case EvictStep(k) => Evict(s, k)
  }

  /** The state reached from `s` by performing `steps` in order. */
  function Run<K(!new), V, T>(s: State<K, V, T>, steps: seq<Step<K, V, T>>): State<K, V, T>
    decreases |steps|
  {
    if |steps| == 0 then s
    else Apply(Run(s, steps[..|steps| - 1]), steps[|steps| - 1]).state
  }

  /** The entries reported to the eviction observer during `steps`, in order. */
  function Evictions<K(!new), V, T>(s: State<K, V, T>, steps: seq<Step<K, V, T>>): seq<Entry<K, V>>
    decreases |steps|
  {
    if |steps| == 0 then []
    else
      var before := Run(s, steps[..|steps| - 1]);
      var out := Apply(before, steps[|steps| - 1]);
      Evictions(s, steps[..|steps| - 1]) + (if out.evicted.Some? then [out.evicted.value] else [])
  }

  /** True when `step` gives up retention key `t` of key `k`. */
  predicate Cancels<K(==), V, T(==)>(step: Step<K, V, T>, k: K, t: T) {
    match step
    case ReleaseStep(k', t') => k' == k && t' == t
    case ForceReleaseStep(k') => k' == k
    case _ => false
  }

  /** True when `step` gives up some retention key of `k`. */
  predicate ReleasesKey<K(==), V, T>(step: Step<K, V, T>, k: K) {
    (step.ReleaseStep? || step.ForceReleaseStep?) && step.key == k
  }

  /** No step after position `i` gives up retention key `t` of `k`. */
  ghost predicate HeldAfter<K, V, T>(steps: seq<Step<K, V, T>>, i: nat, k: K, t: T) {
    forall j :: i < j < |steps| ==> !Cancels(steps[j], k, t)
  }

  /** The retention keys of `k` that are outstanding after `steps`, read off
      the history alone: those used to retain `k` and not released (singly or
      by force-release) since. */
  ghost function Outstanding<K, V, T>(steps: seq<Step<K, V, T>>, k: K): set<T> {
    set i | 0 <= i < |steps| && steps[i].RetainStep? && steps[i].key == k && HeldAfter(steps, i, k, steps[i].token)
      :: steps[i].token
  }

  // ---------------------------------------------------------------------
  // Properties of runs.

  /** The normal form of the retention table is kept by every run. */
  lemma {:induction false} RunPreservesValid<K(!new), V, T>(s: State<K, V, T>, steps: seq<Step<K, V, T>>)
    requires Valid(s)
    ensures Valid(Run(s, steps))
    decreases |steps|
  {
    if |steps| > 0 {
      RunPreservesValid(s, steps[..|steps| - 1]);
    }
  }

  /** Run of a prefix followed by one more step. */
  lemma RunSnoc<K(!new), V, T>(s: State<K, V, T>, steps: seq<Step<K, V, T>>, i: int)
    requires 0 <= i < |steps|
    ensures Run(s, steps[..i + 1]) == Apply(Run(s, steps[..i]), steps[i]).state
  {
    assert steps[..i + 1][..i] == steps[..i];
  }

  /** The retention floor: at no point of any run does a step remove an entry
      whose retain count is positive, and every reported eviction was of an
      unretained entry. */
  lemma RetentionFloor<K(!new), V, T>(s: State<K, V, T>, steps: seq<Step<K, V, T>>, i: int, k: K)
    requires 0 <= i < |steps|
    requires k in Run(s, steps[..i]).store
    requires RetainCount(Run(s, steps[..i]), k) > 0
    ensures k in Run(s, steps[..i + 1]).store
    ensures Apply(Run(s, steps[..i]), steps[i]).evicted.Some? ==>
              Apply(Run(s, steps[..i]), steps[i]).evicted.value.key != k
  {
    RunSnoc(s, steps, i);
  }

  /** A retained entry stays stored, and stays retained by at least the same
      retention keys, until some step releases a retention key of it or
      force-releases it. */
  lemma {:induction false} RetainedEntryPersists<K(!new), V, T>(s: State<K, V, T>, steps: seq<Step<K, V, T>>, k: K)
    requires k in s.store
    requires RetainCount(s, k) > 0
    requires forall i :: 0 <= i < |steps| ==> !ReleasesKey(steps[i], k)
    ensures k in Run(s, steps).store
    ensures Tokens(s, k) <= Tokens(Run(s, steps), k)
    ensures RetainCount(Run(s, steps), k) > 0
    decreases |steps|
  {
    if |steps| > 0 {
      var prefix := steps[..|steps| - 1];
      assert forall i :: 0 <= i < |prefix| ==> prefix[i] == steps[i];
      RetainedEntryPersists(s, prefix, k);
      var before := Run(s, prefix);
      var last := steps[|steps| - 1];
      assert !ReleasesKey(last, k);
      assert Tokens(before, k) <= Tokens(Apply(before, last).state, k);
    }
  }

  /** A stored entry survives every run during which its retain count stays
      positive before each step: it can only be evicted after its last
      retention key is released or it is force-released. */
  lemma {:induction false} StoredWhileRetained<K(!new), V, T>(s: State<K, V, T>, steps: seq<Step<K, V, T>>, k: K)
    requires k in s.store
    requires forall i :: 0 <= i < |steps| ==> RetainCount(Run(s, steps[..i]), k) > 0
    ensures k in Run(s, steps).store
    decreases |steps|
  {
    if |steps| > 0 {
      var n := |steps| - 1;
      var prefix := steps[..n];
      forall i | 0 <= i < |prefix| ensures RetainCount(Run(s, prefix[..i]), k) > 0 {
        assert prefix[..i] == steps[..i];
      }
      StoredWhileRetained(s, prefix, k);
      RetentionFloor(s, steps, n, k);
      assert steps[..n + 1] == steps;
    }
  }

  /** Two retention keys on a stored entry: releasing one of them leaves it
      protected, and the eviction attempt that follows removes nothing. */
  lemma OneOfTwoReleased<K(!new), V, T>(k: K, v: V, t1: T, t2: T)
    requires t1 != t2
    ensures var s := Retain(Retain(Set(Empty<K, V, T>(), k, v), k, t1), k, t2);
            k in Run(s, [ReleaseStep(k, t1), EvictStep(k)]).store
  {
    var s := Retain(Retain(Set(Empty<K, V, T>(), k, v), k, t1), k, t2);
    var steps := [ReleaseStep(k, t1), EvictStep(k)];
    assert steps[..0] == [];
    assert RetainCount(Run(s, steps[..1]), k) == 1 by {
      assert steps[..1][..0] == [];
    }
    StoredWhileRetained(s, steps, k);
  }

  /** Releasing retention keys never removes anything by itself: a run with
      no eviction step reports no eviction and keeps every stored key. */
  lemma {:induction false} OnlyEvictionRemoves<K(!new), V, T>(s: State<K, V, T>, steps: seq<Step<K, V, T>>)
    requires forall i :: 0 <= i < |steps| ==> !steps[i].EvictStep?
    ensures Evictions(s, steps) == []
    ensures s.store.Keys <= Run(s, steps).store.Keys
    decreases |steps|
  {
    if |steps| > 0 {
      var prefix := steps[..|steps| - 1];
      assert forall i :: 0 <= i < |prefix| ==> prefix[i] == steps[i];
      OnlyEvictionRemoves(s, prefix);
      assert !steps[|steps| - 1].EvictStep?;
    }
  }

  /** The retention keys of `k` after one step, in the same terms as
      `Outstanding` uses for the history. */
  lemma TokensAfterStep<K(!new), V, T>(s: State<K, V, T>, x: Step<K, V, T>, k: K, t: T)
    ensures t in Tokens(Apply(s, x).state, k) <==>
              (x.RetainStep? && x.key == k && x.token == t)
              || (t in Tokens(s, k) && !Cancels(x, k, t))
  {
  }

  /** `Outstanding` after one more step. */
  lemma OutstandingSnoc<K, V, T>(steps: seq<Step<K, V, T>>, k: K, t: T)
    requires |steps| > 0
    ensures var n := |steps| - 1;
            t in Outstanding(steps, k) <==>
              (steps[n].RetainStep? && steps[n].key == k && steps[n].token == t)
              || (t in Outstanding(steps[..n], k) && !Cancels(steps[n], k, t))
  {
  }

  /** Count accuracy: starting from an empty cache, the retention keys held
      for any key are exactly those the history leaves outstanding, so
      `retainCountForKey:` is the number of distinct outstanding retention
      keys. */
  lemma {:induction false} CountMatchesHistory<K(!new), V, T>(steps: seq<Step<K, V, T>>, k: K)
    ensures Tokens(Run(Empty(), steps), k) == Outstanding(steps, k)
    ensures RetainCount(Run(Empty(), steps), k) == |Outstanding(steps, k)|
    decreases |steps|
  {
    if |steps| > 0 {
      var n := |steps| - 1;
      CountMatchesHistory(steps[..n], k);
      var before: State<K, V, T> := Run(Empty(), steps[..n]);
      forall t ensures t in Tokens(Apply(before, steps[n]).state, k) <==> t in Outstanding(steps, k) {
        TokensAfterStep(before, steps[n], k, t);
        OutstandingSnoc(steps, k, t);
      }
      assert Run(Empty(), steps) == Apply(before, steps[n]).state;
      assert Tokens(Run(Empty(), steps), k) == Outstanding(steps, k);
    }
  }
}
