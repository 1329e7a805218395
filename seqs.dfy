/** Sequence helpers shared by the models: order-preserving selection
    (a list comprehension with an `if`), duplicate freedom and flattening. */
module Seqs {

  predicate NoDup<T(==)>(s: seq<T>) {
    forall i, j :: 0 <= i < j < |s| ==> s[i] != s[j]
  }

  lemma NoDupAppend<T>(s: seq<T>, x: T)
    requires NoDup(s) && x !in s
    ensures NoDup(s + [x])
  {
  }

  /** `r` is `s` with some elements left out, the rest in their order. */
  ghost predicate IsSubsequence<T>(r: seq<T>, s: seq<T>)
    decreases |s|
  {
    if r == [] then true
    else if s == [] then false
    else (r[0] == s[0] && IsSubsequence(r[1..], s[1..])) || IsSubsequence(r, s[1..])
  }

  /** `[x for x in s if p(x)]` */
  function Filter<T>(s: seq<T>, p: T -> bool): (r: seq<T>)
    ensures |r| <= |s|
    ensures forall x :: x in r ==> x in s && p(x)
    ensures forall x :: x in s && p(x) ==> x in r
  {
    if s == [] then [] else (if p(s[0]) then [s[0]] else []) + Filter(s[1..], p)
  }

  lemma {:induction false} FilterAppend<T>(s: seq<T>, x: T, p: T -> bool)
    ensures Filter(s + [x], p) == Filter(s, p) + (if p(x) then [x] else [])
  {
    if s == [] {
      assert s + [x] == [x];
    } else {
      assert (s + [x])[1..] == s[1..] + [x];
      FilterAppend(s[1..], x, p);
    }
  }

  lemma {:induction false} FilterIsSubsequence<T>(s: seq<T>, p: T -> bool)
    ensures IsSubsequence(Filter(s, p), s)
  {
    if s != [] {
      FilterIsSubsequence(s[1..], p);
      var r := Filter(s, p);
      if p(s[0]) {
        assert r[0] == s[0] && r[1..] == Filter(s[1..], p);
      } else {
        assert r == Filter(s[1..], p);
      }
    }
  }

  lemma {:induction false} FilterIdempotent<T>(s: seq<T>, p: T -> bool)
    ensures Filter(Filter(s, p), p) == Filter(s, p)
  {
    if s != [] {
      FilterIdempotent(s[1..], p);
      var r := Filter(s, p);
      if p(s[0]) {
        assert r == [s[0]] + Filter(s[1..], p);
        assert r[0] == s[0] && r[1..] == Filter(s[1..], p);
        assert Filter(r, p) == [s[0]] + Filter(r[1..], p);
      } else {
        assert r == Filter(s[1..], p);
      }
    }
  }

  /** Every element kept satisfies the predicate. */
  lemma FilterSatisfies<T>(s: seq<T>, p: T -> bool)
    ensures forall i :: 0 <= i < |Filter(s, p)| ==> p(Filter(s, p)[i])
  {
    var r := Filter(s, p);
    forall i | 0 <= i < |r| ensures p(r[i]) {
      assert r[i] in r;
    }
  }

  /** Some element kept satisfies `q` exactly when some element of `s`
      satisfies both predicates. */
  lemma FilterSome<T>(s: seq<T>, p: T -> bool, q: T -> bool)
    ensures (exists i :: 0 <= i < |Filter(s, p)| && q(Filter(s, p)[i]))
        <==> exists i :: 0 <= i < |s| && p(s[i]) && q(s[i])
  {
    var r := Filter(s, p);
    if exists i :: 0 <= i < |s| && p(s[i]) && q(s[i]) {
      var i :| 0 <= i < |s| && p(s[i]) && q(s[i]);
      assert s[i] in r;
      var j :| 0 <= j < |r| && r[j] == s[i];
      assert exists k :: 0 <= k < |Filter(s, p)| && q(Filter(s, p)[k]);
    }
  }

  /** A longer prefix keeps at least as many elements. */
  lemma {:induction false} FilterPrefixMonotone<T>(s: seq<T>, p: T -> bool, i: nat, j: nat)
    requires i <= j <= |s|
    ensures |Filter(s[..i], p)| <= |Filter(s[..j], p)|
    decreases j - i
  {
    if i < j {
      FilterPrefixMonotone(s, p, i, j - 1);
      var t := s[..j - 1];
      assert s[..j] == t + [s[j - 1]];
      FilterAppend(t, s[j - 1], p);
      assert |Filter(s[..j], p)| >= |Filter(t, p)|;
    }
  }

  /** Filtering with a predicate that every element meets changes nothing. */
  lemma {:induction false} FilterAll<T>(s: seq<T>, p: T -> bool)
    requires forall i :: 0 <= i < |s| ==> p(s[i])
    ensures Filter(s, p) == s
  {
    if s != [] {
      FilterAll(s[1..], p);
    }
  }

  lemma {:induction false} FilterNoDup<T>(s: seq<T>, p: T -> bool)
    requires NoDup(s)
    ensures NoDup(Filter(s, p))
  {
    if s != [] {
      FilterNoDup(s[1..], p);
      var r := Filter(s, p);
      if p(s[0]) {
        assert r == [s[0]] + Filter(s[1..], p);
        assert s[0] !in s[1..];
        forall i, j | 0 <= i < j < |r| ensures r[i] != r[j] {
          if i == 0 {
            assert r[j] in Filter(s[1..], p);
          } else {
            assert r[i] == Filter(s[1..], p)[i - 1] && r[j] == Filter(s[1..], p)[j - 1];
          }
        }
      }
    }
  }

  /** `sum(ss, [])`: the concatenation of the inner sequences, in order. */
  function Flatten<T>(ss: seq<seq<T>>): seq<T>
  {
    if ss == [] then [] else ss[0] + Flatten(ss[1..])
  }

  lemma {:induction false} FlattenAppend<T>(ss: seq<seq<T>>, s: seq<T>)
    ensures Flatten(ss + [s]) == Flatten(ss) + s
  {
    if ss == [] {
      assert [s][1..] == [];
    } else {
      assert (ss + [s])[1..] == ss[1..] + [s];
      FlattenAppend(ss[1..], s);
    }
  }

  /** Extending a prefix by the next element. */
  lemma PrefixAppend<T>(s: seq<T>, i: nat)
    requires i < |s|
    ensures s[..i] + [s[i]] == s[..i + 1]
  {
  }

  /** The same, after a fixed front part. */
  lemma PrefixAppendAfter<T>(front: seq<T>, s: seq<T>, i: nat)
    requires i < |s|
    ensures front + s[..i] + [s[i]] == front + s[..i + 1]
  {
    PrefixAppend(s, i);
    assert front + s[..i] + [s[i]] == front + (s[..i] + [s[i]]);
  }
}
