/** The synonym dictionary of rank.py and `Ranker.update_syn`, which merges
    one name into another (rank.py:137-164). A synonym map sends a variant
    spelling to the name that stands for it. */
module Synonyms {

  type SynonymMap = map<string, string>

  /** `target`: where `n1` already points, or `n1` itself (rank.py:149-151). */
  function Target(syn: SynonymMap, n1: string): string {
    if n1 in syn then syn[n1] else n1
  }

  /** `source` once the first branch has run: the name merged away. When `n2`
      already pointed somewhere else, that old value is merged away too
      (rank.py:153-158). */
  function Source(syn: SynonymMap, n1: string, n2: string): string {
    if n2 in syn && syn[n2] != Target(syn, n1) then syn[n2] else n2
  }

  /** The dictionary `update_syn(syn, n1, n2)` leaves behind: no key is
      removed; `n2`, the merged-away name and every key that pointed at it now
      point at the target; every other entry keeps its value. */
  function Merged(syn: SynonymMap, n1: string, n2: string): (r: SynonymMap)
    ensures r.Keys == syn.Keys + {n2, Source(syn, n1, n2)}
    ensures forall k :: k in r ==>
      r[k] == if k == n2 || k == Source(syn, n1, n2) || (k in syn && syn[k] == Source(syn, n1, n2))
              then Target(syn, n1) else syn[k]
    ensures r[n2] == Target(syn, n1)
    ensures n2 in syn && syn[n2] != Target(syn, n1) ==> r[syn[n2]] == Target(syn, n1)
  {
    var t := Target(syn, n1);
    var src := Source(syn, n1, n2);
    var mid := if n2 in syn && syn[n2] != t then syn[n2 := t] else syn;
    Redirected(mid[src := t], src, t)
  }

  /** Every entry whose value is `source` now points at `target`. */
  function Redirected(m: SynonymMap, source: string, target: string): (r: SynonymMap)
    ensures r.Keys == m.Keys
    ensures forall k :: k in r ==> r[k] == (if m[k] == source then target else m[k])
  {
    map k | k in m :: if m[k] == source then target else m[k]
  }

  /** `Ranker.update_syn` (rank.py:137-164). The Python function mutates the
      dictionary it is given and returns it; here the updated dictionary is
      the result. */
  method UpdateSyn(syn: SynonymMap, n1: string, n2: string) returns (r: SynonymMap)
    ensures r == Merged(syn, n1, n2)
  {
    r := syn;
    var target := n1;
    if target in r {
      target := r[target];
    }
    var source := n2;
    if source in r {
      if r[source] != target {
        var newSource := r[source];
        r := r[source := target];
        source := newSource;
      }
    }
    r := r[source := target];
    r := RedirectAll(r, source, target);
  }

  /** The loop over `keys_list` (rank.py:161-163). */
  method RedirectAll(m: SynonymMap, source: string, target: string) returns (r: SynonymMap)
    ensures r == Redirected(m, source, target)
  {
    r := m;
    var keys := set k | k in m && m[k] == source;
    while keys != {}
      invariant keys <= m.Keys && r.Keys == m.Keys
      invariant forall k :: k in r ==>
        r[k] == if k !in keys && m[k] == source then target else m[k]
      invariant forall k :: k in keys ==> m[k] == source
      decreases keys
    {
      var k :| k in keys;
      r := r[k := target];
      keys := keys - {k};
    }
  }

  /** No name is both a variant and a name that variants point at, so one
      lookup always reaches the name that stands for a variant. */
  predicate Flat(syn: SynonymMap) {
    syn.Keys !! syn.Values
  }

  /** A merge keeps the map flat, provided the target is not `n2` itself
      (the redirect loop at rank.py:161-163 is what makes this hold). */
  lemma MergedKeepsFlat(syn: SynonymMap, n1: string, n2: string)
    requires Flat(syn)
    requires Target(syn, n1) != n2
    ensures Flat(Merged(syn, n1, n2))
  {
    var r := Merged(syn, n1, n2);
    var t := Target(syn, n1);
    var src := Source(syn, n1, n2);
    assert t !in syn by {
      if n1 in syn {
        assert syn[n1] in syn.Values;
      }
    }
    assert src != t;
    forall k | k in r ensures r[k] !in r {
      if r[k] != t {
        assert k in syn && r[k] == syn[k] && syn[k] != src;
        assert syn[k] in syn.Values;
      }
    }
  }

  /** The merged-away names are values or the new name; the new values are
      the old ones and the target. */
  lemma MergedValues(syn: SynonymMap, n1: string, n2: string)
    ensures Merged(syn, n1, n2).Values <= syn.Values + {Target(syn, n1)}
    ensures Source(syn, n1, n2) == n2 || Source(syn, n1, n2) in syn.Values
    ensures Target(syn, n1) == n1 || Target(syn, n1) in syn.Values
  {
    var r := Merged(syn, n1, n2);
    forall v | v in r.Values ensures v in syn.Values + {Target(syn, n1)} {
      var k :| k in r && r[k] == v;
      if v != Target(syn, n1) {
        assert k in syn && syn[k] == v;
      }
    }
    if n2 in syn {
      assert syn[n2] in syn.Values;
    }
    if n1 in syn {
      assert syn[n1] in syn.Values;
    }
  }
}
