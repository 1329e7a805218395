/** `Ranker.filter_names` (rank.py:167-193): every pair of distinct names is
    compared once, in sorted order, and a close pair is merged into the
    synonym map. The similarity score (`fuzz.ratio`) and the yes/no prompt
    (`Ranker.ask`) are parameters of the model. */
module NameFilter {
  import opened Seqs
  import opened Text
  import opened Synonyms
  import opened Standings

  /** `fuzz.ratio(a, b)`: a similarity score, 100 for identical strings. */
  type Score = (string, string) -> int

  /** The answer to "are `a` and `b` the same person?". */
  type Oracle = (string, string) -> bool

  /** Scores from here up to 99 merge without asking. */
  const AutoMerge: int := 93

  /** Scores from here up to `AutoMerge - 1` merge when the prompt says yes. */
  const AskFloor: int := 86

  /** The test applied to `name` and a later name `n` (rank.py:186-190, and
      the same test at rank.py:225-229 and rank.py:260-264). */
  predicate SameRacer(score: Score, ask: Oracle, name: string, n: string) {
    var r := score(n, name);
    (AutoMerge <= r < 100) || (AskFloor <= r < AutoMerge && ask(name, n))
  }

  /** One comparison of the inner loop. */
  function Step(syn: SynonymMap, score: Score, ask: Oracle, name: string, n: string): SynonymMap {
    if SameRacer(score, ask, name, n) then Merged(syn, name, n) else syn
  }

  /** The inner loop: `name` against every name in `rest`, in order. */
  function CompareWith(syn: SynonymMap, score: Score, ask: Oracle, name: string, rest: seq<string>): SynonymMap
    decreases |rest|
  {
    if rest == [] then syn
    else CompareWith(Step(syn, score, ask, name, rest[0]), score, ask, name, rest[1..])
  }

  /** The outer loop: each name against the names after it. */
  function CompareAll(syn: SynonymMap, score: Score, ask: Oracle, names: seq<string>): SynonymMap
    decreases |names|
  {
    if names == [] then syn
    else CompareAll(CompareWith(syn, score, ask, names[0], names[1..]), score, ask, names[1..])
  }

  /** `names += df['Name'].to_list()` over the races, in order. */
  function AllNames(data: seq<seq<RaceRow>>): seq<string> {
    if data == [] then [] else AllNames(data[..|data| - 1]) + Names(data[|data| - 1])
  }

  /** Every racer of every race is among the names collected. */
  lemma {:induction false} InAllNames(data: seq<seq<RaceRow>>, k: nat, i: nat)
    requires k < |data| && i < |data[k]|
    ensures data[k][i].name in AllNames(data)
    decreases |data|
  {
    var front := data[..|data| - 1];
    if k < |data| - 1 {
      assert front[k] == data[k];
      InAllNames(front, k, i);
    } else {
      assert Names(data[k])[i] == data[k][i].name;
    }
  }

  /** `set(names) - set(synonyms.keys())`, listed in the order of `names`. */
  function Canonical(names: seq<string>, syn: SynonymMap): seq<string> {
    Filter(names, n => n !in syn)
  }

  /** `Ranker.filter_names` */
  method FilterNames(data: seq<seq<RaceRow>>, score: Score, ask: Oracle)
    returns (synonyms: SynonymMap, fNames: seq<string>)
    ensures synonyms == CompareAll(map[], score, ask, SortedUnique(AllNames(data)))
    ensures fNames == Canonical(SortedUnique(AllNames(data)), synonyms)
    ensures Flat(synonyms)
    ensures forall k :: k in synonyms ==> k in AllNames(data) && synonyms[k] in fNames
    ensures forall n :: n in fNames <==> n in AllNames(data) && n !in synonyms
    ensures NoDup(fNames)
  {
    var names: seq<string> := [];
    for i := 0 to |data|
      invariant names == AllNames(data[..i])
    {
      assert data[..i + 1][..i] == data[..i];
      names := names + Names(data[i]);
    }
    assert data[..|data|] == data;
    names := SortedUnique(names);
    StrictlySortedNoDup(names);
    synonyms := CompareNames(names, score, ask);
    fNames := Canonical(names, synonyms);
    CanonicalNames(names, score, ask);
  }

  /** The two nested loops of filter_names (rank.py:183-190). */
  method CompareNames(names: seq<string>, score: Score, ask: Oracle) returns (synonyms: SynonymMap)
    ensures synonyms == CompareAll(map[], score, ask, names)
  {
    synonyms := map[];
    for i := 0 to |names|
      invariant CompareAll(synonyms, score, ask, names[i..]) == CompareAll(map[], score, ask, names)
    {
      assert names[i..][1..] == names[i + 1..];
      synonyms := CompareLater(synonyms, names, i, score, ask);
    }
  }

  /** The inner loop of filter_names (rank.py:184-190): name `i` against
      every name after it. */
  method CompareLater(syn: SynonymMap, names: seq<string>, i: nat, score: Score, ask: Oracle)
    returns (synonyms: SynonymMap)
    requires i < |names|
    ensures synonyms == CompareWith(syn, score, ask, names[i], names[i + 1..])
  {
    synonyms := syn;
    for j := i + 1 to |names|
      invariant CompareWith(synonyms, score, ask, names[i], names[j..])
             == CompareWith(syn, score, ask, names[i], names[i + 1..])
    {
      assert names[j..][1..] == names[j + 1..];
      var r := score(names[j], names[i]);
      if 100 > r >= AutoMerge {
        synonyms := UpdateSyn(synonyms, names[i], names[j]);
      } else if AutoMerge > r >= AskFloor {
        if ask(names[i], names[j]) {
          synonyms := UpdateSyn(synonyms, names[i], names[j]);
        }
      }
    }
  }

  /** What filter_names promises of its two results, given distinct names:
      the map is flat, each variant is one of the names and points at a name
      that is kept, and the kept names are the names that are not variants. */
  lemma CanonicalNames(names: seq<string>, score: Score, ask: Oracle)
    requires NoDup(names)
    ensures var syn := CompareAll(map[], score, ask, names);
      && Flat(syn)
      && (forall k :: k in syn ==> k in names && syn[k] in Canonical(names, syn))
      && (forall n :: n in Canonical(names, syn) <==> n in names && n !in syn)
      && NoDup(Canonical(names, syn))
  {
    var syn := CompareAll(map[], score, ask, names);
    CompareAllShape(map[], score, ask, names);
    FilterNoDup(names, n => n !in syn);
    forall k | k in syn ensures syn[k] in Canonical(names, syn) {
      assert syn[k] in syn.Values;
    }
  }

  // ----- the shape of the synonym map -----

  /** While `name` is compared with `rest`, no value of the map is among the
      names still to come; then each merge keeps the map flat, new values are
      `name`, and new keys come from `rest` or from old values. */
  lemma {:induction false} CompareWithShape(syn: SynonymMap, score: Score, ask: Oracle, name: string, rest: seq<string>)
    requires Flat(syn)
    requires name !in rest
    requires forall v :: v in syn.Values ==> v !in rest
    ensures Flat(CompareWith(syn, score, ask, name, rest))
    ensures CompareWith(syn, score, ask, name, rest).Values <= syn.Values + {name}
    ensures forall k :: k in CompareWith(syn, score, ask, name, rest) ==>
      k in syn || k in syn.Values || k == name || k in rest
    decreases |rest|
  {
    if rest != [] {
      var n := rest[0];
      var next := Step(syn, score, ask, name, n);
      MergedValues(syn, name, n);
      if SameRacer(score, ask, name, n) {
        MergedKeepsFlat(syn, name, n);
      }
      assert forall v :: v in next.Values ==> v !in rest[1..] by {
        forall v | v in next.Values ensures v !in rest[1..] {
          assert v in syn.Values || v == name || v == Target(syn, name);
          assert forall x :: x in rest[1..] ==> x in rest;
        }
      }
      assert name !in rest[1..] by {
        assert forall x :: x in rest[1..] ==> x in rest;
      }
      CompareWithShape(next, score, ask, name, rest[1..]);
      var r := CompareWith(next, score, ask, name, rest[1..]);
      assert forall v :: v in next.Values ==> v in syn.Values || v == name;
      forall k | k in r ensures k in syn || k in syn.Values || k == name || k in rest {
        if k in next && k !in syn {
          assert k == n || k == Source(syn, name, n);
        }
      }
    }
  }

  /** The whole comparison, started from a flat map none of whose values is
      still to be compared, leaves a flat map whose keys and values are old
      keys, old values or compared names. */
  lemma {:induction false} CompareAllShape(syn: SynonymMap, score: Score, ask: Oracle, names: seq<string>)
    requires Flat(syn)
    requires NoDup(names)
    requires forall v :: v in syn.Values ==> v !in names
    ensures Flat(CompareAll(syn, score, ask, names))
    ensures forall v :: v in CompareAll(syn, score, ask, names).Values ==> v in syn.Values || v in names
    ensures forall k :: k in CompareAll(syn, score, ask, names) ==> k in syn || k in syn.Values || k in names
    decreases |names|
  {
    if names != [] {
      var rest := names[1..];
      assert forall x :: x in rest ==> x in names;
      assert names[0] !in rest by {
        forall j | 0 <= j < |rest| ensures rest[j] != names[0] {
          assert rest[j] == names[j + 1];
        }
      }
      CompareWithShape(syn, score, ask, names[0], rest);
      var next := CompareWith(syn, score, ask, names[0], rest);
      assert NoDup(rest) by {
        forall i, j | 0 <= i < j < |rest| ensures rest[i] != rest[j] {
          assert rest[i] == names[i + 1] && rest[j] == names[j + 1];
        }
      }
      CompareAllShape(next, score, ask, rest);
    }
  }

  // ----- every pair once -----

  /** The pairs `(name, n)` for `n` in `rest`, in order. */
  function PairsWith(name: string, rest: seq<string>): (ps: seq<(string, string)>)
    ensures |ps| == |rest|
    ensures forall j :: 0 <= j < |rest| ==> ps[j] == (name, rest[j])
  {
    seq(|rest|, j requires 0 <= j < |rest| => (name, rest[j]))
  }

  /** The pairs the two loops visit, in the order they visit them. */
  function Pairs(names: seq<string>): seq<(string, string)> {
    if names == [] then [] else PairsWith(names[0], names[1..]) + Pairs(names[1..])
  }

  /** Merging pair by pair. */
  function StepAll(syn: SynonymMap, score: Score, ask: Oracle, pairs: seq<(string, string)>): SynonymMap
    decreases |pairs|
  {
    if pairs == [] then syn
    else StepAll(Step(syn, score, ask, pairs[0].0, pairs[0].1), score, ask, pairs[1..])
  }

  lemma {:induction false} StepAllAppend(syn: SynonymMap, score: Score, ask: Oracle, p: seq<(string, string)>, q: seq<(string, string)>)
    ensures StepAll(syn, score, ask, p + q) == StepAll(StepAll(syn, score, ask, p), score, ask, q)
    decreases |p|
  {
    if p == [] {
      assert p + q == q;
    } else {
      assert (p + q)[1..] == p[1..] + q;
      StepAllAppend(Step(syn, score, ask, p[0].0, p[0].1), score, ask, p[1..], q);
    }
  }

  lemma {:induction false} CompareWithPairs(syn: SynonymMap, score: Score, ask: Oracle, name: string, rest: seq<string>)
    ensures CompareWith(syn, score, ask, name, rest) == StepAll(syn, score, ask, PairsWith(name, rest))
    decreases |rest|
  {
    if rest != [] {
      assert PairsWith(name, rest)[1..] == PairsWith(name, rest[1..]);
      CompareWithPairs(Step(syn, score, ask, name, rest[0]), score, ask, name, rest[1..]);
    }
  }

  /** filter_names applies the merge test to the pairs of `Pairs(names)`,
      in that order, and to nothing else. */
  lemma {:induction false} CompareAllPairs(syn: SynonymMap, score: Score, ask: Oracle, names: seq<string>)
    ensures CompareAll(syn, score, ask, names) == StepAll(syn, score, ask, Pairs(names))
    decreases |names|
  {
    if names != [] {
      CompareWithPairs(syn, score, ask, names[0], names[1..]);
      StepAllAppend(syn, score, ask, PairsWith(names[0], names[1..]), Pairs(names[1..]));
      CompareAllPairs(CompareWith(syn, score, ask, names[0], names[1..]), score, ask, names[1..]);
    }
  }

  /** Over sorted distinct names, `Pairs` holds each pair `a < b` of the
      names exactly once, with the smaller name first. */
  lemma PairsOfSorted(names: seq<string>)
    requires StrictlySorted(names)
    ensures NoDup(Pairs(names))
    ensures forall a, b :: (a, b) in Pairs(names) <==> a in names && b in names && LexLt(a, b)
  {
    PairsMembers(names);
    StrictlySortedNoDup(names);
    PairsNoDup(names);
  }

  lemma {:induction false} PairsMembers(names: seq<string>)
    requires StrictlySorted(names)
    ensures forall a, b :: (a, b) in Pairs(names) <==> a in names && b in names && LexLt(a, b)
    decreases |names|
  {
    if names != [] {
      var rest := names[1..];
      var head := PairsWith(names[0], rest);
      assert StrictlySorted(rest);
      PairsMembers(rest);
      StrictlySortedNoDup(names);
      assert names[0] !in rest;
      assert forall x :: x in names <==> x == names[0] || x in rest;
      assert forall a, b :: (a, b) in head <==> a == names[0] && b in rest;
      assert Pairs(names) == head + Pairs(rest);
      forall a, b ensures (a, b) in Pairs(names) <==> a in names && b in names && LexLt(a, b) {
        if a in names && b in names && LexLt(a, b) && a != names[0] {
          if b == names[0] {
            var i :| 0 <= i < |names| && names[i] == a;
            LexLtAsymmetric(a, b);
          }
        }
        if a == names[0] && b in rest {
          var j :| 0 <= j < |rest| && rest[j] == b;
          assert LexLt(names[0], names[j + 1]);
        }
        if a == names[0] && b == names[0] {
          LexLtIrreflexive(a);
        }
      }
    }
  }

  /** Over distinct names, no pair is visited twice. */
  lemma {:induction false} PairsNoDup(names: seq<string>)
    requires NoDup(names)
    ensures NoDup(Pairs(names))
    decreases |names|
  {
    if names != [] {
      var rest := names[1..];
      var head := PairsWith(names[0], rest);
      assert NoDup(rest) by {
        forall i, j | 0 <= i < j < |rest| ensures rest[i] != rest[j] {
          assert rest[i] == names[i + 1] && rest[j] == names[j + 1];
        }
      }
      PairsNoDup(rest);
      PairsFirst(rest);
      assert names[0] !in rest by {
        forall j | 0 <= j < |rest| ensures rest[j] != names[0] {
          assert rest[j] == names[j + 1];
        }
      }
      var all := Pairs(names);
      assert all == head + Pairs(rest);
      forall i, j | 0 <= i < j < |all| ensures all[i] != all[j] {
        if j < |head| {
          assert all[i].1 == rest[i] && all[j].1 == rest[j];
        } else if i < |head| {
          assert all[j] == Pairs(rest)[j - |head|];
        } else {
          assert all[i] == Pairs(rest)[i - |head|] && all[j] == Pairs(rest)[j - |head|];
        }
      }
    }
  }

  /** Every visited pair starts with one of the names. */
  lemma {:induction false} PairsFirst(names: seq<string>)
    ensures forall k :: 0 <= k < |Pairs(names)| ==> Pairs(names)[k].0 in names
    decreases |names|
  {
    if names != [] {
      var rest := names[1..];
      PairsFirst(rest);
      var head := PairsWith(names[0], rest);
      assert Pairs(names) == head + Pairs(rest);
      forall k | 0 <= k < |Pairs(names)| ensures Pairs(names)[k].0 in names {
        if k >= |head| {
          assert Pairs(names)[k] == Pairs(rest)[k - |head|];
          assert Pairs(rest)[k - |head|].0 in rest;
        }
      }
    }
  }

  // ----- the prompt matters only inside its band -----

  /** Two prompts that agree on every pair whose score lies in the asking
      band give the same synonym map. */
  lemma {:induction false} AskOnlyInBand(syn: SynonymMap, score: Score, ask1: Oracle, ask2: Oracle, pairs: seq<(string, string)>)
    requires forall i :: 0 <= i < |pairs| && AskFloor <= score(pairs[i].1, pairs[i].0) < AutoMerge ==>
      ask1(pairs[i].0, pairs[i].1) == ask2(pairs[i].0, pairs[i].1)
    ensures StepAll(syn, score, ask1, pairs) == StepAll(syn, score, ask2, pairs)
    decreases |pairs|
  {
    if pairs != [] {
      assert Step(syn, score, ask1, pairs[0].0, pairs[0].1) == Step(syn, score, ask2, pairs[0].0, pairs[0].1);
      AskOnlyInBand(Step(syn, score, ask1, pairs[0].0, pairs[0].1), score, ask1, ask2, pairs[1..]);
    }
  }
}
