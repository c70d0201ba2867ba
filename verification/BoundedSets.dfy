/** Bounded sample sets of the evidence importer: whatever the order of arrival, the smallest values stay. */
module BoundedSets {
  import opened Orders

  /** `s` holds the `k` smallest members of `all` (all of them if there are no more than `k`). */
  ghost predicate KeepsSmallest<T(!new)>(lt: (T, T) -> bool, k: nat, all: set<T>, s: set<T>) {
    && s <= all && (|s| == k || s == all) && |s| <= k
    && forall x, y :: x in s && y in all && y !in s ==> lt(x, y)
  }

  lemma SubsetOfSameSize<T>(a: set<T>, b: set<T>)
    requires a <= b && |a| >= |b|
    ensures a == b
  {
    assert b == a + (b - a) && |b| == |a| + |b - a|;
  }

  /** There is only one such set. */
  lemma SmallestUnique<T(!new)>(lt: (T, T) -> bool, k: nat, all: set<T>, s: set<T>, t: set<T>)
    requires StrictTotal(lt) && KeepsSmallest(lt, k, all, s) && KeepsSmallest(lt, k, all, t)
    ensures s == t
  {
    if s == all { SubsetOfSameSize(t, s); }
    else if t == all { SubsetOfSameSize(s, t); }
    else if s <= t { SubsetOfSameSize(s, t); }
    else {
      var x :| x in s && x !in t;
      forall y | y in t ensures y in s {
        if y !in s { assert false; }
      }
      SubsetOfSameSize(t, s);
    }
  }

  /** Python's `max` of a non-empty set. */
  method Max<T(!new, ==)>(lt: (T, T) -> bool, s: set<T>) returns (m: T)
    requires StrictTotal(lt) && s != {}
    ensures m in s && forall x :: x in s && x != m ==> lt(x, m)
  {
    m :| m in s;
    var rest := s - {m};
    while rest != {}
      invariant rest <= s && m in s && m !in rest
      invariant forall x :: x in s && x !in rest && x != m ==> lt(x, m)
      decreases rest
    {
      var x :| x in rest;
      rest := rest - {x};
      if lt(m, x) { m := x; }
    }
  }

  /** Whatever had been seen when `before` kept the smallest, `after` keeps the smallest once `added` is seen too. */
  ghost predicate Kept<T(!new)>(lt: (T, T) -> bool, k: nat, before: set<T>, added: set<T>, after: set<T>) {
    forall seen :: KeepsSmallest(lt, k, seen, before) ==> KeepsSmallest(lt, k, seen + added, after)
  }

  /** `_add_bounded`. */
  method AddBounded<T(!new, ==)>(lt: (T, T) -> bool, values: set<T>, value: T, maximum: nat) returns (r: set<T>)
    requires StrictTotal(lt)
    ensures Kept(lt, maximum, values, {value}, r)
  {
    r := values + {value};
    if |r| > maximum {
      var m := Max(lt, r);
      forall seen | KeepsSmallest(lt, maximum, seen, values)
        ensures KeepsSmallest(lt, maximum, seen + {value}, r - {m})
      {
        EvictKeepsSmallest(lt, maximum, seen, values, value, m);
      }
      r := r - {m};
    } else {
      forall seen | KeepsSmallest(lt, maximum, seen, values) ensures KeepsSmallest(lt, maximum, seen + {value}, r) {
        RoomKeepsSmallest(lt, maximum, seen, values, value);
      }
    }
  }

  lemma KeptNothing<T(!new)>(lt: (T, T) -> bool, k: nat, s: set<T>)
    ensures Kept(lt, k, s, {}, s)
  {
  }

  lemma KeptTwice<T(!new)>(lt: (T, T) -> bool, k: nat, a: set<T>, first: set<T>, b: set<T>, second: set<T>, c: set<T>)
    requires Kept(lt, k, a, first, b) && Kept(lt, k, b, second, c)
    ensures Kept(lt, k, a, first + second, c)
  {
  }

  lemma RoomKeepsSmallest<T(!new)>(lt: (T, T) -> bool, k: nat, seen: set<T>, values: set<T>, value: T)
    requires StrictTotal(lt) && KeepsSmallest(lt, k, seen, values) && |values + {value}| <= k
    ensures KeepsSmallest(lt, k, seen + {value}, values + {value})
  {
    if value in values {
      assert values + {value} == values && seen + {value} == seen;
    } else {
      assert |values + {value}| == |values| + 1;
    }
  }

  lemma EvictKeepsSmallest<T(!new)>(lt: (T, T) -> bool, k: nat, seen: set<T>, values: set<T>, value: T, m: T)
    requires StrictTotal(lt) && KeepsSmallest(lt, k, seen, values) && |values + {value}| > k
    requires m in values + {value} && forall x :: x in values + {value} && x != m ==> lt(x, m)
    ensures KeepsSmallest(lt, k, seen + {value}, values + {value} - {m})
  {
  }
}
