/** Tag reconciliation: read, diff, remove, then write. */
module TagSync {
  import opened StringOrder
  import opened StringSets

  type Tags = map<string, string>

  function Max(a: nat, b: nat): (r: nat)
    ensures r >= a && r >= b && r in {a, b}
  {
    if a < b then b else a
  }

  const RESERVED_PREFIX := "aws:"

  predicate Reserved(key: string) {
    RESERVED_PREFIX <= key
  }

  /** The keys that begin with aws, in lower case, and a colon. */
  lemma ReservedKeys(key: string)
    ensures Reserved(key)
            <==> |key| >= 4 && key[0] == 'a' && key[1] == 'w' && key[2] == 's' && key[3] == ':'
  {
    assert RESERVED_PREFIX <= key ==> forall i :: 0 <= i < 4 ==> key[i] == RESERVED_PREFIX[i];
    if |key| >= 4 { assert key[..4] == [key[0], key[1], key[2], key[3]]; }
  }

  ghost function UserKeys(tags: Tags): set<string> {
    set k | k in tags && !Reserved(k)
  }

  /** What a resource should hold: its own reserved tags and the desired user tags. */
  ghost function Reconciled(current: Tags, desired: Tags): Tags {
    map k | k in current.Keys + desired.Keys && (if Reserved(k) then k in current else k in desired)
      :: if Reserved(k) then current[k] else desired[k]
  }

  /** Reserved tags are untouched and the user tags are exactly the desired ones. */
  lemma ReconciledMeaning(current: Tags, desired: Tags)
    ensures var r := Reconciled(current, desired);
            && (forall k :: Reserved(k) ==>
                  (k in r <==> k in current) && (k in r ==> r[k] == current[k]))
            && (forall k :: !Reserved(k) ==>
                  (k in r <==> k in desired) && (k in r ==> r[k] == desired[k]))
            && Reconciled(r, desired) == r
  {
  }

  /** The tags of one resource, as the service keeps them; any call may fail and then does nothing. */
  class TagStore {
    var tags: Tags
    ghost var writes: nat  // how many writes the service has accepted
    ghost var peak: nat    // the most tags the resource has ever held
    ghost var failures: nat

    constructor ()
      ensures tags == map[] && writes == 0 && peak == 0 && failures == 0
    {
      tags, writes, peak, failures := map[], 0, 0, 0;
    }

    method Read() returns (current: Tags, ok: bool)
      modifies this`failures
      ensures ok ==> current == tags
      ensures failures == old(failures) + if ok then 0 else 1
    {
      ok := *;
      failures := failures + if ok then 0 else 1;
      current := if ok then tags else map[];
    }

    method Put(upsert: Tags) returns (ok: bool)
      modifies this
      ensures if ok then tags == old(tags) + upsert && writes == old(writes) + 1
                         && peak == Max(old(peak), |tags|)
              else tags == old(tags) && writes == old(writes) && peak == old(peak)
      ensures failures == old(failures) + if ok then 0 else 1
    {
      ok := *;
      failures := failures + if ok then 0 else 1;
      if ok {
        tags := tags + upsert;
        writes, peak := writes + 1, Max(peak, |tags|);
      }
    }

    method Remove(keys: seq<string>) returns (ok: bool)
      modifies this
      ensures if ok then tags == old(tags) - Elements(keys) && writes == old(writes) + 1
                         && peak == Max(old(peak), |tags|)
              else tags == old(tags) && writes == old(writes) && peak == old(peak)
      ensures failures == old(failures) + if ok then 0 else 1
    {
      ok := *;
      failures := failures + if ok then 0 else 1;
      if ok {
        var gone := set k | k in keys;
        tags := tags - gone;
        writes, peak := writes + 1, Max(peak, |tags|);
      }
    }
  }

  ghost function Upserts(current: Tags, desired: Tags): Tags {
    map k | k in desired && !Reserved(k) && (k !in current || current[k] != desired[k]) :: desired[k]
  }

  ghost function Removals(current: Tags, desired: Tags): set<string> {
    UserKeys(current) - desired.Keys
  }

  method Diff(current: Tags, desired: Tags) returns (upsert: Tags, remove: seq<string>)
    ensures upsert == Upserts(current, desired)
    ensures Names(remove, Removals(current, desired))
  {
    upsert := CollectUpserts(current, desired);
    remove := CollectRemovals(current, desired);
    SortedDistinctNames(remove);
    remove := Sort(remove);
  }

  /** The first loop of the diff, over the desired tags in any order. */
  method CollectUpserts(current: Tags, desired: Tags) returns (upsert: Tags)
    ensures upsert == Upserts(current, desired)
  {
    upsert := map[];
    var keys := desired.Keys;
    while keys != {}
      invariant keys <= desired.Keys
      invariant upsert.Keys == Upserts(current, desired).Keys - keys
      invariant forall k :: k in upsert ==> upsert[k] == desired[k]
      decreases |keys|
    {
      var k :| k in keys;
      keys := keys - {k};
      if Reserved(k) {
        continue;
      }
      if k !in current || current[k] != desired[k] {
        upsert := upsert[k := desired[k]];
      }
    }
  }

  lemma VisitKey(goal: set<string>, keys: set<string>, k: string)
    requires k in keys
    ensures goal - (keys - {k}) == goal - keys + if k in goal then {k} else {}
  {
  }

  /** The second loop of the diff, over the current tags in any order. */
  method CollectRemovals(current: Tags, desired: Tags) returns (remove: seq<string>)
    ensures Distinct(remove) && Elements(remove) == Removals(current, desired)
  {
    remove := [];
    ghost var goal := Removals(current, desired);
    var keys := current.Keys;
    while keys != {}
      invariant keys <= current.Keys
      invariant Distinct(remove) && Elements(remove) == goal - keys
      decreases |keys|
    {
      var k :| k in keys;
      ElementsAppend(remove, k);
      VisitKey(goal, keys, k);
      assert k in goal <==> !Reserved(k) && k !in desired;
      assert k !in Elements(remove);
      keys := keys - {k};
      if Reserved(k) {
        continue;
      }
      if k !in desired {
        remove := remove + [k];
      }
    }
  }

  /**
   * Success leaves exactly the reconciled tags. On the way the resource never holds more tags than
   * the larger of its first and last counts, a failure stops between the two, and a resource
   * that is already reconciled is not written to.
   */
  method Sync(store: TagStore, desired: Tags) returns (ok: bool)
    modifies store
    ensures ok ==> store.tags == Reconciled(old(store.tags), desired)
    ensures store.peak <= Max(old(store.peak),
                              Max(|old(store.tags)|, |Reconciled(old(store.tags), desired)|))
    ensures !ok ==> store.tags == old(store.tags)
                    || store.tags == old(store.tags) - Removals(old(store.tags), desired)
    ensures old(store.tags) == Reconciled(old(store.tags), desired) ==>
              store.writes == old(store.writes)
    ensures store.writes <= old(store.writes) + 2
    ensures store.failures == old(store.failures) + if ok then 0 else 1
  {
    var current;
    current, ok := store.Read();
    if !ok {
      return;
    }
    var upsert, removals := Diff(current, desired);
    DiffReconciles(current, desired);
    DiffIsEmpty(current, desired);
    ok := Apply(store, upsert, removals);
  }

  /** The two writes of a sync, each skipped when it would be empty. */
  method Apply(store: TagStore, upsert: Tags, removals: seq<string>) returns (ok: bool)
    modifies store
    ensures ok ==> store.tags == old(store.tags) - Elements(removals) + upsert
    ensures !ok ==> store.tags == old(store.tags)
                    || store.tags == old(store.tags) - Elements(removals)
    ensures store.peak <= Max(old(store.peak), Max(
              |old(store.tags)|, |old(store.tags) - Elements(removals) + upsert|))
    ensures Elements(removals) == {} && upsert == map[] ==> store.writes == old(store.writes)
    ensures store.writes <= old(store.writes) + 2
    ensures store.failures == old(store.failures) + if ok then 0 else 1
  {
    ok := RemoveSome(store, removals);
    if ok {
      ok := PutSome(store, upsert);
    }
  }

  method RemoveSome(store: TagStore, removals: seq<string>) returns (ok: bool)
    modifies store
    ensures store.tags == if ok then old(store.tags) - Elements(removals) else old(store.tags)
    ensures store.peak <= Max(old(store.peak), |old(store.tags)|)
    ensures Elements(removals) == {} ==> store.writes == old(store.writes)
    ensures store.writes <= old(store.writes) + 1
    ensures store.failures == old(store.failures) + if ok then 0 else 1
  {
    ok := true;
    NoElements(removals);
    if |removals| > 0 {
      ok := store.Remove(removals);
      SubmapCount(old(store.tags) - Elements(removals), old(store.tags));
    } else {
      assert store.tags - Elements(removals) == store.tags;
    }
  }

  method PutSome(store: TagStore, upsert: Tags) returns (ok: bool)
    modifies store
    ensures store.tags == if ok then old(store.tags) + upsert else old(store.tags)
    ensures store.peak <= Max(old(store.peak), |old(store.tags) + upsert|)
    ensures upsert == map[] ==> store.writes == old(store.writes)
    ensures store.writes <= old(store.writes) + 1
    ensures store.failures == old(store.failures) + if ok then 0 else 1
  {
    ok := true;
    if |upsert| > 0 {
      ok := store.Put(upsert);
    } else {
      assert store.tags + upsert == store.tags;
    }
  }

  lemma SubmapCount(a: Tags, b: Tags)
    requires a.Keys <= b.Keys
    ensures |a| <= |b|
  {
    assert |b.Keys - a.Keys| == |b.Keys| - |a.Keys|;
  }

  /** Removing and then writing is the reconciliation. */
  lemma DiffReconciles(current: Tags, desired: Tags)
    ensures current - Removals(current, desired) + Upserts(current, desired)
            == Reconciled(current, desired)
  {
    var result := current - Removals(current, desired) + Upserts(current, desired);
    var goal := Reconciled(current, desired);
    forall k ensures k in result <==> k in goal {}
    forall k | k in result && k in goal ensures result[k] == goal[k] {}
  }

  /** A reconciled resource has nothing to remove and nothing to write. */
  lemma DiffIsEmpty(current: Tags, desired: Tags)
    ensures current == Reconciled(current, desired) ==>
              Removals(current, desired) == {} && Upserts(current, desired) == map[]
  {
    var goal := Reconciled(current, desired);
    if current == goal {
      forall k ensures k !in Removals(current, desired) {
        assert k in current ==> k in goal;
      }
      forall k ensures k !in Upserts(current, desired) {
        assert k in desired && !Reserved(k) ==> k in goal && goal[k] == desired[k];
      }
    }
  }
}
