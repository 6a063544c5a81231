/**
 * A listener set as the controller keeps it: a JavaScript `Set`, which holds
 * each handler at most once and iterates in insertion order. It is modelled
 * as a sequence without duplicates; `Set.prototype.add` appends a handler
 * that is not yet present and `Set.prototype.delete` drops one occurrence
 * while keeping the order of the rest.
 */
module Registry {

  ghost predicate NoDuplicates<T>(s: seq<T>)
  {
    forall i, j :: 0 <= i < j < |s| ==> s[i] != s[j]
  }

  /** The first handler of a duplicate-free set does not recur, and the rest is duplicate-free. */
  lemma TailNoDuplicates<T>(s: seq<T>)
    requires s != [] && NoDuplicates(s)
    ensures s[0] !in s[1..] && NoDuplicates(s[1..])
  {
    forall j | 0 <= j < |s[1..]| ensures s[1..][j] != s[0] {
      assert s[1..][j] == s[j + 1];
    }
    forall a, b | 0 <= a < b < |s[1..]| ensures s[1..][a] != s[1..][b] {
      assert s[1..][a] == s[a + 1] && s[1..][b] == s[b + 1];
    }
  }

  /** `set.add(h)`: a no-op when `h` is present, otherwise `h` goes last. */
  function Add<T(==, !new)>(s: seq<T>, h: T): (r: seq<T>)
    ensures NoDuplicates(s) ==> NoDuplicates(r)
    ensures h in r
    ensures forall x :: x in r <==> x in s || x == h
    ensures h in s ==> r == s
    ensures h !in s ==> |r| == |s| + 1 && r[..|s|] == s
  {
    if h in s then s else s + [h]
  }

  /** `set.delete(h)`: removes `h` and keeps the order of every other handler. */
  function Remove<T(==, !new)>(s: seq<T>, h: T): (r: seq<T>)
    ensures h !in r
    ensures h !in s ==> r == s
    ensures |r| <= |s|
  {
    if s == [] then []
    else if s[0] == h then Remove(s[1..], h)
    else [s[0]] + Remove(s[1..], h)
  }

  /** After `set.delete(h)` the members are exactly the old members other than `h`. */
  lemma {:induction false} RemoveMembers<T(!new)>(s: seq<T>, h: T)
    ensures forall x :: x in Remove(s, h) <==> x in s && x != h
  {
    if s != [] {
      RemoveMembers(s[1..], h);
      assert forall x :: x in s <==> x == s[0] || x in s[1..];
    }
  }

  /** Deleting from a duplicate-free set leaves it duplicate-free. */
  lemma {:induction false} RemoveKeepsNoDuplicates<T(!new)>(s: seq<T>, h: T)
    requires NoDuplicates(s)
    ensures NoDuplicates(Remove(s, h))
  {
    if s != [] {
      TailNoDuplicates(s);
      RemoveKeepsNoDuplicates(s[1..], h);
      RemoveMembers(s[1..], h);
      if s[0] != h {
        var rest := Remove(s[1..], h);
        assert Remove(s, h) == [s[0]] + rest;
        forall a, b | 0 <= a < b < |[s[0]] + rest| ensures ([s[0]] + rest)[a] != ([s[0]] + rest)[b] {
          if a == 0 {
            assert ([s[0]] + rest)[b] == rest[b - 1];
          } else {
            assert ([s[0]] + rest)[a] == rest[a - 1] && ([s[0]] + rest)[b] == rest[b - 1];
          }
        }
      }
    }
  }

  /** Registering a new handler and removing it again restores the set, order included. */
  lemma RemoveUndoesAdd<T(!new)>(s: seq<T>, h: T)
    requires h !in s
    ensures Remove(Add(s, h), h) == s
  {
    assert Add(s, h) == s + [h] + [];
    RemoveSingleOccurrence(s, h, []);
    assert s + [] == s;
  }

  /** Removing a handler twice is the same as removing it once. */
  lemma RemoveIdempotent<T(!new)>(s: seq<T>, h: T)
    ensures Remove(Remove(s, h), h) == Remove(s, h)
  {
  }

  /** Adding a handler twice is the same as adding it once. */
  lemma AddIdempotent<T(!new)>(s: seq<T>, h: T)
    ensures Add(Add(s, h), h) == Add(s, h)
  {
  }

  /** Deleting from a concatenation deletes from each part. */
  lemma {:induction false} RemoveDistributes<T(!new)>(a: seq<T>, b: seq<T>, h: T)
    ensures Remove(a + b, h) == Remove(a, h) + Remove(b, h)
  {
    if a == [] {
      assert a + b == b;
    } else {
      assert (a + b)[0] == a[0];
      assert (a + b)[1..] == a[1..] + b;
      RemoveDistributes(a[1..], b, h);
    }
  }

  /**
   * Deleting one handler from a duplicate-free set keeps every other handler
   * in its relative order: the result is the input with that single position cut out.
   */
  lemma RemoveCutsOnePosition<T(!new)>(s: seq<T>, h: T, i: nat)
    requires NoDuplicates(s)
    requires i < |s| && s[i] == h
    ensures Remove(s, h) == s[..i] + s[i + 1..]
  {
    OccursOnce(s, i);
    assert s == s[..i] + [h] + s[i + 1..];
    RemoveSingleOccurrence(s[..i], h, s[i + 1..]);
  }

  /** In a duplicate-free sequence the element at `i` occurs nowhere else. */
  lemma OccursOnce<T>(s: seq<T>, i: nat)
    requires NoDuplicates(s) && i < |s|
    ensures s[i] !in s[..i] && s[i] !in s[i + 1..]
  {
    var front, back := s[..i], s[i + 1..];
    forall j | 0 <= j < |front| ensures front[j] != s[i] {
      assert front[j] == s[j];
    }
    forall j | 0 <= j < |back| ensures back[j] != s[i] {
      assert back[j] == s[i + 1 + j];
    }
  }

  lemma RemoveSingleOccurrence<T(!new)>(front: seq<T>, h: T, back: seq<T>)
    requires h !in front && h !in back
    ensures Remove(front + [h] + back, h) == front + back
  {
    assert [h][1..] == [];
    assert Remove([h], h) == Remove([], h) == [];
    RemoveDistributes(front, [h], h);
    assert Remove(front + [h], h) == front;
    RemoveDistributes(front + [h], back, h);
  }
}
