/**
 * The state store's record algebra.
 *
 * A generation of the controller's state is a partial record: a map from
 * field names to values. The only way records are combined is the object
 * spread `{ ...base, ...partial }`, a shallow merge in which every field of
 * `partial` overrides the same field of `base` and no field is ever removed.
 */
module StateStore {

  /** `{ ...base, ...partial }`: last write wins per field, nothing is deleted. */
  function Merge<K, V>(base: map<K, V>, partial: map<K, V>): (r: map<K, V>)
    ensures r.Keys == base.Keys + partial.Keys
    ensures forall k :: k in partial ==> r[k] == partial[k]
    ensures forall k :: k in base && k !in partial ==> r[k] == base[k]
  {
    base + partial
  }

  /** Every field of `small` is present in `big` with the same value. */
  ghost predicate Submap<K, V>(small: map<K, V>, big: map<K, V>)
  {
    forall k :: k in small ==> k in big && big[k] == small[k]
  }

  /**
   * Merging a record into one that has all its fields gives the second
   * record back. This is why the commit's snapshot
   * `stale = { ...stale, ...current }` makes `stale` equal to the
   * pre-commit `current` while no field of `stale` is missing from `current`.
   */
  lemma SnapshotIsCurrent<K, V>(stale: map<K, V>, current: map<K, V>)
    requires stale.Keys <= current.Keys
    ensures Merge(stale, current) == current
  {
    var r := Merge(stale, current);
    assert r.Keys == current.Keys;
    forall k | k in r ensures r[k] == current[k] {
    }
  }

  /** Two successive merges are one merge of the merged partials. */
  lemma MergeAssociative<K, V>(a: map<K, V>, b: map<K, V>, c: map<K, V>)
    ensures Merge(Merge(a, b), c) == Merge(a, Merge(b, c))
  {
    var lhs, rhs := Merge(Merge(a, b), c), Merge(a, Merge(b, c));
    assert lhs.Keys == rhs.Keys;
    forall k | k in lhs ensures lhs[k] == rhs[k] {
    }
  }

  /** Applying the same partial record twice is the same as applying it once. */
  lemma MergeIdempotent<K, V>(base: map<K, V>, partial: map<K, V>)
    ensures Merge(Merge(base, partial), partial) == Merge(base, partial)
  {
    var once := Merge(base, partial);
    SnapshotIsCurrent(partial, once);
    MergeAssociative(base, partial, partial);
    SnapshotIsCurrent(partial, partial);
  }

  /**
   * Staging `partial` on top of a staged record that the current state
   * already reflects, and committing, yields exactly `current` merged with
   * `partial`: the other fields are untouched.
   */
  lemma CommitOfStaged<K, V>(current: map<K, V>, staged: map<K, V>, partial: map<K, V>)
    requires Submap(staged, current)
    ensures Merge(current, Merge(staged, partial)) == Merge(current, partial)
  {
    var lhs, rhs := Merge(current, Merge(staged, partial)), Merge(current, partial);
    assert lhs.Keys == rhs.Keys;
    forall k | k in lhs ensures lhs[k] == rhs[k] {
    }
  }

  /**
   * `{ ...base, ...{ ...base, ...partial } }`, the double spread of the
   * `defaultState` setter, is the single merge of `partial` into `base`.
   */
  lemma MergeOntoSelf<K, V>(base: map<K, V>, partial: map<K, V>)
    ensures Merge(base, Merge(base, partial)) == Merge(base, partial)
  {
    MergeAssociative(base, base, partial);
    SnapshotIsCurrent(base, base);
  }
}
