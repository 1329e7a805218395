/** The parts of app.py that compute rather than draw: the numbering and
    minimum-races filter of the rankings table (app.py:166-168, 191-193,
    241-244) and the result history of one runner, with its race labels
    (app.py:339-364). */
module AppView {
  import opened Wrappers
  import opened Seqs
  import opened Text
  import opened Standings

  // ----- the rankings table -----

  /** A row of `get_rankings`: name, rating, uncertainty and the number of
      races run. */
  datatype RankingRow = RankingRow(name: string, rating: real, sigma: real, racesParticipated: int)

  /** A row of `rankings_df` once the `rank` column is added. */
  datatype NumberedRow = NumberedRow(rank: int, row: RankingRow)

  /** `rankings_df['rank'] = range(1, len(rankings_df) + 1)` */
  function Numbered(rows: seq<RankingRow>): seq<NumberedRow> {
    seq(|rows|, i requires 0 <= i < |rows| => NumberedRow(i + 1, rows[i]))
  }

  predicate EnoughRaces(minRaces: int, r: NumberedRow) {
    r.row.racesParticipated >= minRaces
  }

  /** `rankings_df[rankings_df['races_participated'] >= min_races]` */
  function Displayed(table: seq<NumberedRow>, minRaces: int): seq<NumberedRow> {
    Filter(table, r => EnoughRaces(minRaces, r))
  }

  /** The ranks run from 1 to the number of rows, in row order. */
  lemma NumberedRanks(rows: seq<RankingRow>)
    ensures |Numbered(rows)| == |rows|
    ensures forall i :: 0 <= i < |rows| ==> Numbered(rows)[i].rank == i + 1 && Numbered(rows)[i].row == rows[i]
  {
  }

  /** The displayed table keeps exactly the rows with enough races, in
      their order, and their ranks still increase down the table. */
  lemma {:induction false} DisplayedRows(table: seq<NumberedRow>, minRaces: int)
    requires forall i, j :: 0 <= i < j < |table| ==> table[i].rank < table[j].rank
    ensures IsSubsequence(Displayed(table, minRaces), table)
    ensures forall r :: r in Displayed(table, minRaces) <==> r in table && EnoughRaces(minRaces, r)
    ensures forall i, j :: 0 <= i < j < |Displayed(table, minRaces)| ==>
      Displayed(table, minRaces)[i].rank < Displayed(table, minRaces)[j].rank
    decreases |table|
  {
    var p := (r: NumberedRow) => EnoughRaces(minRaces, r);
    FilterIsSubsequence(table, p);
    if table != [] {
      DisplayedRows(table[1..], minRaces);
      var d := Displayed(table, minRaces);
      var rest := Displayed(table[1..], minRaces);
      if p(table[0]) {
        assert d == [table[0]] + rest;
        forall i, j | 0 <= i < j < |d| ensures d[i].rank < d[j].rank {
          if i == 0 {
            assert d[j] == rest[j - 1] && rest[j - 1] in table[1..];
          } else {
            assert d[i] == rest[i - 1] && d[j] == rest[j - 1];
          }
        }
      } else {
        assert d == rest;
      }
    }
  }

  // ----- the result history of a runner -----

  /** An entry of `race_history`: its optional name and its results. */
  datatype Race = Race(raceName: Option<string>, data: seq<RaceRow>)

  /** An entry of `rating_history`. */
  datatype HistoryEntry = HistoryEntry(race: int, raceName: string, place: string, totalRunners: int)

  /** The `IndexError` of `race_name[-2]` on a name shorter than two
      characters. */
  datatype NameError = NameTooShort

  /** `race.get('race_name', f'Race {i+1}')` */
  function RaceName(race: Race, i: nat): string {
    race.raceName.GetOr("Race " + NatToString(i + 1))
  }

  /** The display form of a race name (app.py:345-350): ".csv" is removed
      from the end, then a final '_' and digit. */
  function CleanRaceName(name: string): (r: Result<string, NameError>)
    ensures var base := if EndsWith(name, ".csv") then name[..|name| - 4] else name;
      && (r.Failure? <==> |base| < 2)
      && (r.Success? ==> r.value <= base && |base| - 2 <= |r.value|)
      && (r.Success? && r.value != base ==> base == r.value + ['_', base[|base| - 1]] && IsDigit(base[|base| - 1]))
      && (|base| >= 2 && base[|base| - 2] == '_' && IsDigit(base[|base| - 1]) ==> r == Success(base[..|base| - 2]))
  {
    var base := if EndsWith(name, ".csv") then name[..|name| - 4] else name;
    if |base| < 2 then Failure(NameTooShort)
    else if base[|base| - 2] == '_' && IsDigit(base[|base| - 1]) then Success(base[..|base| - 2])
    else Success(base)
  }

  /** The labels tried for the cleaned name `name`: the name itself, then
      `name_1`, `name_2`, ... */
  function Label(name: string, k: nat): string {
    if k == 0 then name else name + ['_'] + NatToString(k)
  }

  lemma LabelInjective(name: string, i: nat, j: nat)
    requires Label(name, i) == Label(name, j)
    ensures i == j
  {
    if i != 0 && j != 0 {
      var a := NatToString(i);
      var b := NatToString(j);
      assert |a| == |b|;
      assert a == Label(name, i)[|name| + 1..];
      assert b == Label(name, j)[|name| + 1..];
    }
  }

  /** `chosen` is the first of the labels of `name` that is not in `used`. */
  ghost predicate FirstFree(chosen: string, name: string, used: seq<string>) {
    chosen !in used && exists k: nat :: chosen == Label(name, k) && forall m :: 0 <= m < k ==> Label(name, m) in used
  }

  /** The `while` loop of app.py:352-357. */
  method ChooseLabel(name: string, used: seq<string>) returns (chosen: string)
    ensures FirstFree(chosen, name, used)
  {
    var idx := 1;
    var tmp := name;
    while tmp in used
      invariant 1 <= idx && tmp == Label(name, idx - 1)
      invariant forall m :: 0 <= m < idx - 1 ==> Label(name, m) in used
      decreases |used| + 1 - idx
    {
      LabelsFill(name, (set x: string | x in used), idx);
      SetOfSeq(used);
      tmp := name + ['_'] + NatToString(idx);
      idx := idx + 1;
    }
    chosen := tmp;
  }

  /** At most `|used|` labels of a name can be taken. */
  lemma {:induction false} LabelsFill(name: string, used: set<string>, n: nat)
    requires forall m :: 0 <= m < n ==> Label(name, m) in used
    ensures n <= |used|
  {
    if n > 0 {
      var rest := used - {Label(name, n - 1)};
      forall m | 0 <= m < n - 1 ensures Label(name, m) in rest {
        if Label(name, m) == Label(name, n - 1) {
          LabelInjective(name, m, n - 1);
        }
      }
      LabelsFill(name, rest, n - 1);
    }
  }

  lemma {:induction false} SetOfSeq(s: seq<string>)
    ensures |set x: string | x in s| <= |s|
  {
    if s != [] {
      SetOfSeq(s[1..]);
      assert (set x: string | x in s) == (set x: string | x in s[1..]) + {s[0]};
    }
  }

  /** The runner appears in the race. */
  predicate Runs(race: Race, runner: string) {
    runner in Names(race.data)
  }

  /** The index of the first row with the runner's name. */
  function FirstRow(data: seq<RaceRow>, runner: string): (i: nat)
    requires runner in Names(data)
    ensures i < |data| && data[i].name == runner
    ensures forall j :: 0 <= j < i ==> data[j].name != runner
  {
    if data[0].name == runner then 0
    else
      assert runner in Names(data[1..]) by {
        var i :| 0 <= i < |data| && Names(data)[i] == runner;
        assert Names(data[1..])[i - 1] == runner;
      }
      var k := FirstRow(data[1..], runner);
      assert forall j :: 1 <= j < k + 1 ==> data[j] == data[1..][j - 1];
      k + 1
  }

  /** `race_data[race_data['name'] == runner]['place'].iloc[0]`: the place
      on the runner's first row. */
  function FirstPlace(data: seq<RaceRow>, runner: string): string
    requires runner in Names(data)
  {
    data[FirstRow(data, runner)].place
  }

  /** The indices of the races the runner ran, in order. */
  function Participating(races: seq<Race>, runner: string): (ps: seq<nat>)
    ensures forall j :: 0 <= j < |ps| ==> ps[j] < |races| && Runs(races[ps[j]], runner)
    ensures forall i :: 0 <= i < |races| && Runs(races[i], runner) ==> i in ps
    ensures forall j, k :: 0 <= j < k < |ps| ==> ps[j] < ps[k]
    decreases |races|
  {
    if races == [] then []
    else
      var n := |races| - 1;
      var front := Participating(races[..n], runner);
      assert forall i :: 0 <= i < n ==> races[..n][i] == races[i];
      front + if Runs(races[n], runner) then [n] else []
  }

  function Labels(history: seq<HistoryEntry>): (ls: seq<string>)
    ensures |ls| == |history| && forall j :: 0 <= j < |history| ==> ls[j] == history[j].raceName
  {
    seq(|history|, j requires 0 <= j < |history| => history[j].raceName)
  }

  /** The history entry of race `i` once its label is chosen. */
  ghost predicate EntryOf(e: HistoryEntry, races: seq<Race>, i: nat, runner: string, used: seq<string>)
    requires i < |races| && Runs(races[i], runner)
  {
    var name := CleanRaceName(RaceName(races[i], i));
    && name.Success?
    && e.race == i + 1
    && FirstFree(e.raceName, name.value, used)
    && e.place == FirstPlace(races[i].data, runner)
    && e.totalRunners == |races[i].data|
  }

  /** `history` holds one entry per race of `ps`, in order, with distinct
      labels. */
  ghost predicate HistoryOf(races: seq<Race>, runner: string, ps: seq<nat>, history: seq<HistoryEntry>) {
    && |history| == |ps|
    && NoDup(Labels(history))
    && forall j :: 0 <= j < |ps| ==>
         ps[j] < |races| && Runs(races[ps[j]], runner) && EntryOf(history[j], races, ps[j], runner, Labels(history[..j]))
  }

  /** The `rating_history` loop of app.py:339-364: one entry per race the
      runner ran, in order, with distinct labels; it fails on the first such
      race whose name is too short to clean. */
  method BuildHistory(races: seq<Race>, runner: string) returns (r: Result<seq<HistoryEntry>, NameError>)
    ensures r.Failure? <==> SomeNameFails(races, Participating(races, runner))
    ensures r.Success? ==> HistoryOf(races, runner, Participating(races, runner), r.value)
  {
    var history: seq<HistoryEntry> := [];
    for i := 0 to |races|
      invariant HistoryOf(races, runner, Participating(races[..i], runner), history)
    {
      var next := AddRace(races, runner, i, history);
      if next.Failure? {
        HistoryFails(races, runner, i);
        return Failure(next.error);
      }
      history := next.value;
    }
    assert races[..|races|] == races;
    HistoryClean(races, runner, Participating(races, runner), history);
    return Success(history);
  }

  /** One pass of the `rating_history` loop: race `i` adds an entry when the
      runner ran it, and fails when its name cannot be cleaned. */
  method AddRace(races: seq<Race>, runner: string, i: nat, history: seq<HistoryEntry>)
    returns (next: Result<seq<HistoryEntry>, NameError>)
    requires i < |races|
    requires HistoryOf(races, runner, Participating(races[..i], runner), history)
    ensures next.Failure? <==> Runs(races[i], runner) && CleanRaceName(RaceName(races[i], i)).Failure?
    ensures next.Success? ==> HistoryOf(races, runner, Participating(races[..i + 1], runner), next.value)
  {
    HistoryStep(races, runner, i);
    var race := races[i];
    if runner in Names(race.data) {
      var place := FirstPlace(race.data, runner);
      var raceName := race.raceName.GetOr("Race " + NatToString(i + 1));
      var cleaned := CleanRaceName(raceName);
      if cleaned.Failure? {
        return Failure(cleaned.error);
      }
      var chosen := ChooseLabel(cleaned.value, Labels(history));
      var entry := HistoryEntry(i + 1, chosen, place, |race.data|);
      HistoryExtend(races, runner, Participating(races[..i], runner), history, i, entry);
      return Success(history + [entry]);
    }
    return Success(history);
  }

  /** The participating races of one more race. */
  lemma HistoryStep(races: seq<Race>, runner: string, i: nat)
    requires i < |races|
    ensures Participating(races[..i + 1], runner)
         == Participating(races[..i], runner) + if Runs(races[i], runner) then [i] else []
  {
    assert races[..i + 1][..i] == races[..i];
  }

  /** A race the runner ran whose name cannot be cleaned is a failing
      participating race. */
  lemma HistoryFails(races: seq<Race>, runner: string, i: nat)
    requires i < |races| && Runs(races[i], runner) && CleanRaceName(RaceName(races[i], i)).Failure?
    ensures SomeNameFails(races, Participating(races, runner))
  {
    var ps := Participating(races, runner);
    assert i in ps;
    var j :| 0 <= j < |ps| && ps[j] == i;
    assert CleanRaceName(RaceName(races[ps[j]], ps[j])).Failure?;
  }

  /** Some race of `ps` has a name too short to clean. */
  predicate SomeNameFails(races: seq<Race>, ps: seq<nat>)
    requires forall j :: 0 <= j < |ps| ==> ps[j] < |races|
  {
    exists j :: 0 <= j < |ps| && CleanRaceName(RaceName(races[ps[j]], ps[j])).Failure?
  }

  /** Every race of a complete history has a name that could be cleaned. */
  lemma HistoryClean(races: seq<Race>, runner: string, ps: seq<nat>, history: seq<HistoryEntry>)
    requires HistoryOf(races, runner, ps, history)
    ensures forall j :: 0 <= j < |ps| ==> CleanRaceName(RaceName(races[ps[j]], ps[j])).Success?
  {
    forall j | 0 <= j < |ps| ensures CleanRaceName(RaceName(races[ps[j]], ps[j])).Success? {
      assert EntryOf(history[j], races, ps[j], runner, Labels(history[..j]));
    }
  }

  /** Appending the entry of one more race, under a label not used yet. */
  lemma HistoryExtend(races: seq<Race>, runner: string, ps: seq<nat>, history: seq<HistoryEntry>, i: nat, e: HistoryEntry)
    requires HistoryOf(races, runner, ps, history)
    requires i < |races| && Runs(races[i], runner) && EntryOf(e, races, i, runner, Labels(history))
    ensures HistoryOf(races, runner, ps + [i], history + [e])
  {
    var h := history + [e];
    var qs := ps + [i];
    assert Labels(h) == Labels(history) + [e.raceName];
    assert e.raceName !in Labels(history);
    NoDupAppend(Labels(history), e.raceName);
    forall j | 0 <= j < |qs|
      ensures qs[j] < |races| && Runs(races[qs[j]], runner) && EntryOf(h[j], races, qs[j], runner, Labels(h[..j]))
    {
      if j < |history| {
        assert h[..j] == history[..j] && h[j] == history[j] && qs[j] == ps[j];
      } else {
        assert h[..j] == history;
      }
    }
  }
}
