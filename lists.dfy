/** List operations the application builds with Array.prototype.filter, spread and includes. */
module Lists {

  /** `s.filter(p)`: the elements of `s` that satisfy `p`, in their original order. */
  function Filter<T>(s: seq<T>, p: T -> bool): (r: seq<T>)
    ensures |r| <= |s|
    ensures forall i :: 0 <= i < |r| ==> p(r[i])
    decreases |s|
  {
    if |s| == 0 then [] else (if p(s[0]) then [s[0]] else []) + Filter(s[1..], p)
  }

  /** `r` can be obtained from `s` by deleting elements (the order of what remains is kept). */
  predicate IsSubsequence<T(==)>(r: seq<T>, s: seq<T>)
    decreases |s|
  {
    if r == [] then true
    else if s == [] then false
    else if r[0] == s[0] then IsSubsequence(r[1..], s[1..])
    else IsSubsequence(r, s[1..])
  }

  /** `s.filter(x => x !== v)`. */
  function RemoveAll<T(==)>(s: seq<T>, v: T): seq<T>
  {
    Filter(s, x => x != v)
  }

  /** The `prev.includes(v) ? prev.filter(x => x !== v) : [...prev, v]` updater shared by the toggles. */
  function Toggle<T(==)>(s: seq<T>, v: T): seq<T>
  {
    if v in s then RemoveAll(s, v) else s + [v]
  }

  /** No value occurs twice. */
  predicate NoDuplicates<T(==)>(s: seq<T>)
  {
    forall i, j :: 0 <= i < j < |s| ==> s[i] != s[j]
  }

  lemma {:induction false} FilterMembership<T>(s: seq<T>, p: T -> bool, x: T)
    ensures x in Filter(s, p) <==> x in s && p(x)
    decreases |s|
  {
    if |s| > 0 {
      FilterMembership(s[1..], p, x);
      assert s == [s[0]] + s[1..];
    }
  }

  /** Filtering keeps exactly the occurrences of the values `p` accepts. */
  lemma {:induction false} FilterCount<T>(s: seq<T>, p: T -> bool, x: T)
    ensures multiset(Filter(s, p))[x] == if p(x) then multiset(s)[x] else 0
    decreases |s|
  {
    if |s| > 0 {
      FilterCount(s[1..], p, x);
      assert s == [s[0]] + s[1..];
    }
  }

  lemma {:induction false} FilterAppend<T>(a: seq<T>, b: seq<T>, p: T -> bool)
    ensures Filter(a + b, p) == Filter(a, p) + Filter(b, p)
    decreases |a|
  {
    if |a| == 0 {
      assert a + b == b;
    } else {
      FilterAppend(a[1..], b, p);
      assert (a + b)[1..] == a[1..] + b;
    }
  }

  /** A filter that accepts every element changes nothing. */
  lemma {:induction false} FilterKeepsAll<T>(s: seq<T>, p: T -> bool)
    requires forall i :: 0 <= i < |s| ==> p(s[i])
    ensures Filter(s, p) == s
    decreases |s|
  {
    if |s| > 0 {
      FilterKeepsAll(s[1..], p);
    }
  }

  /** Two predicates that agree on the elements of `s` filter it alike. */
  lemma {:induction false} FilterAgrees<T>(s: seq<T>, p: T -> bool, q: T -> bool)
    requires forall i :: 0 <= i < |s| ==> p(s[i]) == q(s[i])
    ensures Filter(s, p) == Filter(s, q)
    decreases |s|
  {
    if |s| > 0 {
      FilterAgrees(s[1..], p, q);
    }
  }

  /** Filtering stage after stage is filtering once by the conjunction. */
  lemma {:induction false} FilterTwice<T>(s: seq<T>, p: T -> bool, q: T -> bool)
    ensures Filter(Filter(s, p), q) == Filter(s, x => p(x) && q(x))
    decreases |s|
  {
    if |s| > 0 {
      FilterTwice(s[1..], p, q);
      FilterAppend(if p(s[0]) then [s[0]] else [], Filter(s[1..], p), q);
    }
  }

  /** A filter followed by a second is one filter by any predicate equal to their conjunction. */
  lemma {:induction false} FilterThen<T>(s: seq<T>, p: T -> bool, q: T -> bool, r: T -> bool)
    requires forall x :: r(x) == (p(x) && q(x))
    ensures Filter(Filter(s, p), q) == Filter(s, r)
    decreases |s|
  {
    if |s| > 0 {
      FilterThen(s[1..], p, q, r);
      FilterAppend(if p(s[0]) then [s[0]] else [], Filter(s[1..], p), q);
    }
  }

  /** Filtering twice by the same predicate is filtering once. */
  lemma {:induction false} FilterIdempotent<T>(s: seq<T>, p: T -> bool)
    ensures Filter(Filter(s, p), p) == Filter(s, p)
  {
    FilterKeepsAll(Filter(s, p), p);
  }

  lemma {:induction false} FilterIsSubsequence<T>(s: seq<T>, p: T -> bool)
    ensures IsSubsequence(Filter(s, p), s)
    decreases |s|
  {
    if |s| > 0 {
      FilterIsSubsequence(s[1..], p);
      var rest := Filter(s[1..], p);
      if !p(s[0]) && rest != [] {
        assert Filter(s, p) == rest;
        assert p(rest[0]) && rest[0] != s[0];
      }
    }
  }

  lemma {:induction false} SubsequenceReflexive<T>(s: seq<T>)
    ensures IsSubsequence(s, s)
    decreases |s|
  {
    if s != [] {
      SubsequenceReflexive(s[1..]);
    }
  }

  /** Every element of a subsequence comes from the sequence. */
  lemma {:induction false} SubsequenceMembers<T>(r: seq<T>, s: seq<T>, x: T)
    requires IsSubsequence(r, s)
    requires x in r
    ensures x in s
    decreases |s|
  {
    if r[0] == s[0] {
      if x != r[0] {
        SubsequenceMembers(r[1..], s[1..], x);
      }
    } else {
      SubsequenceMembers(r, s[1..], x);
    }
  }

  /**
   * Removing a value deletes every occurrence of it and nothing else: the
   * other values keep their number of occurrences and their order.
   */
  lemma RemoveAllSpec<T>(s: seq<T>, v: T)
    ensures v !in RemoveAll(s, v)
    ensures IsSubsequence(RemoveAll(s, v), s)
    ensures forall w :: w != v ==> multiset(RemoveAll(s, v))[w] == multiset(s)[w]
  {
    FilterMembership(s, x => x != v, v);
    FilterIsSubsequence(s, x => x != v);
    forall w | w != v ensures multiset(RemoveAll(s, v))[w] == multiset(s)[w] {
      FilterCount(s, x => x != v, w);
    }
  }

  /** Toggling flips the membership of the toggled value and of no other. */
  lemma ToggleMembership<T>(s: seq<T>, v: T, w: T)
    ensures v in Toggle(s, v) <==> v !in s
    ensures w != v ==> (w in Toggle(s, v) <==> w in s)
  {
    FilterMembership(s, x => x != v, v);
    FilterMembership(s, x => x != v, w);
  }

  /** Toggling an absent value appends it; toggling a present one keeps the rest in order. */
  lemma ToggleShape<T>(s: seq<T>, v: T)
    ensures v !in s ==> Toggle(s, v) == s + [v]
    ensures v in s ==> v !in Toggle(s, v) && IsSubsequence(Toggle(s, v), s)
    ensures v in s ==> forall w :: w != v ==> multiset(Toggle(s, v))[w] == multiset(s)[w]
  {
    RemoveAllSpec(s, v);
  }

  /** Toggling an absent value twice gives back the original list. */
  lemma ToggleTwice<T>(s: seq<T>, v: T)
    requires v !in s
    ensures Toggle(Toggle(s, v), v) == s
  {
    FilterAppend(s, [v], x => x != v);
    FilterKeepsAll(s, x => x != v);
  }

  lemma {:induction false} FilterNoDuplicates<T>(s: seq<T>, p: T -> bool)
    requires NoDuplicates(s)
    ensures NoDuplicates(Filter(s, p))
    decreases |s|
  {
    if |s| > 0 {
      FilterNoDuplicates(s[1..], p);
      FilterMembership(s[1..], p, s[0]);
      var rest := Filter(s[1..], p);
      if p(s[0]) {
        forall i, j | 0 <= i < j < |[s[0]] + rest| ensures ([s[0]] + rest)[i] != ([s[0]] + rest)[j] {
          if i == 0 {
            assert ([s[0]] + rest)[j] == rest[j - 1];
          }
        }
      }
    }
  }

  /** Removing a value keeps a duplicate-free list duplicate-free. */
  lemma RemoveAllNoDuplicates<T>(s: seq<T>, v: T)
    requires NoDuplicates(s)
    ensures NoDuplicates(RemoveAll(s, v))
  {
    FilterNoDuplicates(s, x => x != v);
  }

  /** The toggles keep a duplicate-free list duplicate-free. */
  lemma ToggleNoDuplicates<T>(s: seq<T>, v: T)
    requires NoDuplicates(s)
    ensures NoDuplicates(Toggle(s, v))
  {
    if v in s {
      FilterNoDuplicates(s, x => x != v);
    }
  }
}
