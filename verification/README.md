# ADLYRetainingCache, modelled in Dafny

`ADLYRetainingCache` is an `NSCache` subclass whose entries can be pinned
against eviction. A caller retains a cached key with a *retention key* (any
object used as a token); the key's retain count is the number of distinct
retention keys currently holding it, and while that count is positive the
cache must not evict the entry. `releaseKey:withRetentionKey:` drops one
retention key, `forceReleaseKey:` drops all of them, and
`retainCountForKey:` reports the count. A count that reaches zero does not
evict anything by itself; it only makes the entry eligible again.

The model is a pure state machine over two finite maps:

- `RetainingCache` (`retaining_cache.dfy`): the state
  `State(store: map<K, V>, retained: map<K, set<T>>)`, the four retention
  operations, the inherited `setObject:forKey:` / `objectForKey:`, and the
  underlying cache's eviction as a guarded step `Evict` that succeeds only on
  a stored key whose retain count is zero and then reports the evicted entry
  (standing in for the `cache:willEvictObject:` delegate call).
- `Traces` (`traces.dfy`): runs of the cache as sequences of steps, where the
  run itself chooses which key the cache tries to evict and when. This is how
  the nondeterminism of `NSCache` eviction is represented: any eviction
  policy is one particular choice of `EvictStep`s.
- `Wrappers` (`wrappers.dfy`): an `Option` type.

The retention table is kept in a normal form (`Valid`): a key with no
retention keys has no row at all. Every operation preserves it, which is what
makes "release undoes a fresh retain" an equality of states.

Keys, values and retention keys are opaque types compared by equality.

## Model

| member | source | states |
|---|---|---|
| RetainingCache.RetainCount | ADLYRetainingCache/ADLYRetainingCache.h:17 | the retain count is never negative, and is zero exactly when no retention key is held for the key (including keys never retained) |
| RetainingCache.Retain | ADLYRetainingCache/ADLYRetainingCache.h:9-10 | the key's retention keys become the old set plus the new one; the count rises by one for a retention key not yet held and is unchanged for one already held; other keys' retention and all stored objects are unchanged |
| RetainingCache.Release | ADLYRetainingCache/ADLYRetainingCache.h:12 | the released retention key leaves the key's set; the count drops by one if it was held and is unchanged otherwise; the stored objects and other keys' retention are unchanged |
| RetainingCache.ForceRelease | ADLYRetainingCache/ADLYRetainingCache.h:14-15 | afterwards the key holds no retention key and its count is 0, whatever it was; stored objects and other keys are unchanged |
| RetainingCache.Evict | ADLYRetainingCache/ADLYRetainingCache.h:4 | an eviction happens and is reported exactly when the key is stored and unretained; it removes only that entry, reports its key and value, and otherwise leaves the cache unchanged; a retained stored key survives |
| RetainingCache.Set | ADLYRetainingCache/ADLYRetainingCache.h:7 | the inherited store operation puts the object at the key, leaves every other entry and the whole retention table alone |
| RetainingCache.Get | ADLYRetainingCache/ADLYRetainingCache.h:7 | the inherited lookup finds an object exactly when one is stored at the key, and returns that object |
| RetainingCache.Empty | ADLYRetainingCache/ADLYRetainingCache.h:3 | a new cache stores nothing and every key's retain count is 0 |
| RetainingCache.RetainIdempotent | ADLYRetainingCache/ADLYRetainingCache.h:3 | retaining twice with the same retention key yields the same cache as retaining once, since only unique retention keys count |
| RetainingCache.ReleaseIdempotent | ADLYRetainingCache/ADLYRetainingCache.h:12 | releasing the same retention key a second time changes nothing |
| RetainingCache.ReleaseUndoesRetain | ADLYRetainingCache/ADLYRetainingCache.h:3 | releasing a retention key that a retain has just added restores the exact earlier cache |
| RetainingCache.ForceReleaseAfterRetain | ADLYRetainingCache/ADLYRetainingCache.h:14 | force-release erases the effect of any preceding retain on that key |
| RetainingCache.ReleaseReenablesEviction | ADLYRetainingCache/ADLYRetainingCache.h:9 | once the last retention key is released, or the key is force-released, a stored object becomes evictable again |
| RetainingCache.GetAfterSet | ADLYRetainingCache/ADLYRetainingCache.h:3 | an object just stored is found by lookup, and storing does not change the key's retain count |
| RetainingCache.RetainBeforeSetProtects | ADLYRetainingCache/ADLYRetainingCache.h:9 | a key retained before any object is stored at it is protected as soon as an object is stored: count 1, not evictable, an eviction attempt changes nothing |
| Traces.Apply | ADLYRetainingCache/ADLYRetainingCache.h:4 | in one step, an entry leaves the store exactly when it is reported as evicted, and only an eviction step of an unretained stored key reports anything |
| Traces.RunPreservesValid | ADLYRetainingCache/ADLYRetainingCache.h:3 | every run keeps the retention table in normal form |
| Traces.RetentionFloor | ADLYRetainingCache/ADLYRetainingCache.h:9 | at every point of every run, a stored entry with positive retain count is still stored after the next step and is not the one reported as evicted |
| Traces.RetainedEntryPersists | ADLYRetainingCache/ADLYRetainingCache.h:9 | a stored, retained entry stays stored and keeps at least its retention keys through any run that neither releases one of its retention keys nor force-releases it |
| Traces.StoredWhileRetained | ADLYRetainingCache/ADLYRetainingCache.h:9 | a stored entry is still stored after any run in which its retain count is positive before every step, whatever retains and releases of other retention keys happen in between: it can leave only after its last retention key is released or it is force-released |
| Traces.OneOfTwoReleased | ADLYRetainingCache/ADLYRetainingCache.h:9 | an entry held by two retention keys is not evicted after only one of them is released |
| Traces.OnlyEvictionRemoves | ADLYRetainingCache/ADLYRetainingCache.h:4 | a run of retains, releases, force-releases and stores reports no eviction and removes no stored key: a count dropping to zero evicts nothing by itself |
| Traces.TokensAfterStep | ADLYRetainingCache/ADLYRetainingCache.h:10-15 | after one step a retention key is held exactly when that step retained it or it was held before and the step did not release or force-release it |
| Traces.CountMatchesHistory | ADLYRetainingCache/ADLYRetainingCache.h:3 | from an empty cache, after any run, the retention keys held for a key are exactly those the history leaves outstanding (retained and not since released or force-released), and the retain count is their number |

## Left out

- Thread safety: the header promises safe access from multiple threads; the model treats every operation as one atomic sequential transition and has no locking.
- `NSCache` internals: cost and count limits, the order in which victims are chosen, and memory-pressure behaviour belong to the closed framework class. Eviction is left as the guarded step `Evict`, attempted on whatever key a run chooses.
- The `cache:willEvictObject:` delegate call is represented only by the evicted entry that `Evict` reports; delegate registration is not modelled. The delegate method receives only the evicted object; the key carried in the reported entry is a modelling convenience.
- `_simulateEvictionOfObjectForKey:` (ADLYRetainingCache/ADLYRetainingCache.h:23): a test-only hook whose effect the header does not state.
- `removeObjectForKey:` and the other inherited `NSCache` operations besides storing and lookup: the header does not say how explicit removal interacts with retention.
- Object identity and the fact that keys are not copied: keys, values and retention keys are opaque values with equality.
- RetainingCache.RetainCount: the result is `NSInteger`; the model uses an unbounded integer, since a count of distinct retention keys cannot reach the 64-bit limit in practice.
- The implementation file is not part of this model; where the header leaves a choice open, the model records a retention key even for a key with no stored object, and releases leave the stored object in place.
