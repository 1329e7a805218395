/** `Ranker` of rank.py: the player table, the synonym map and the rounds
    handed to the rating method, and the operations that build them —
    `get_data` (rank.py:87-110), `get_standing` (rank.py:196-237) and `rank`
    (rank.py:240-280). The rating mathematics of `openelo` is not modelled:
    a player is either fresh or seeded with a rating, and `round_update` is
    recorded as the standing and contest time it received. */
module Ranking {
  import opened Wrappers
  import opened Seqs
  import opened Text
  import opened Synonyms
  import opened Standings
  import opened NameFilter
  import opened Calendar

  /** An `openelo.Player`: `Player()` or `Player.with_rating(rating, sigma,
      update_time)`. */
  datatype Player = Fresh | Seeded(rating: real, sigma: real, updateTime: int)

  /** `self.players`: a dict from name to player, which iterates its keys
      in insertion order. */
  datatype PlayerTable = PlayerTable(entries: map<string, Player>, order: seq<string>) {
    ghost predicate Valid() {
      NoDup(order) && forall n :: n in entries <==> n in order
    }

    /** `players[key] = value`: a new key goes last, an old one keeps its
        place. */
    function Put(key: string, value: Player): (t: PlayerTable)
      ensures Valid() ==> t.Valid()
      ensures t.entries == entries[key := value]
      ensures key in entries ==> t.order == order
      ensures key !in entries ==> t.order == order + [key]
    {
      if key in entries then PlayerTable(entries[key := value], order)
      else
        var t := PlayerTable(entries[key := value], order + [key]);
        assert Valid() ==> key !in order;
        t
    }
  }

  /** The uncertainty given to every seeded player (rank.py:255, 257, 261, 264). */
  const SeedSigma: real := 500.0

  /** One entry of a standing: the player (by its key in the player table)
      and its range of zero-based ranks. */
  datatype Entry = Entry(player: string, lo: int, hi: int)

  /** One call of `round_update`: the standing and the contest time. */
  datatype Round = Round(standing: seq<Entry>, contestTime: int)

  /** The exceptions the modelled code can raise. */
  datatype RankError =
    | MissingPlayer(key: string)   // KeyError from `self.players[name]`
    | PlayersChangedSize           // RuntimeError: dictionary changed size during iteration
    | ContestTimeUnset             // UnboundLocalError: `contest_time` read before assignment

  // ----- get_data -----

  /** The files `get_data` reads: the entries of the directory that are
      files, in sorted order, when the extension is "csv" (rank.py:104-108). */
  function DataFiles(listing: seq<string>, isFile: string -> bool, ext: string): seq<string> {
    if ext == "csv" then Filter(SortedUnique(listing), isFile) else []
  }

  function ReadAll(files: seq<string>, read: string -> seq<RaceRow>): (dfs: seq<seq<RaceRow>>)
    ensures |dfs| == |files|
    ensures forall i :: 0 <= i < |files| ==> dfs[i] == read(files[i])
  {
    seq(|files|, i requires 0 <= i < |files| => read(files[i]))
  }

  // ----- get_standing -----

  /** The name a race row stands for: its synonym if it has one. */
  function Resolve(syn: SynonymMap, raceName: string): string {
    if raceName in syn then syn[raceName] else raceName
  }

  predicate Registered(syn: SynonymMap, players: map<string, Player>, raceName: string) {
    Resolve(syn, raceName) in players
  }

  /** The standing of a race whose every row is registered. */
  function ExpectedStanding(df: seq<RaceRow>, syn: SynonymMap): (st: seq<Entry>)
    ensures |st| == |df|
  {
    var places := Places(df);
    seq(|df|, i requires 0 <= i < |df| =>
      Entry(Resolve(syn, df[i].name), PlaceRange(places, i).0, PlaceRange(places, i).1))
  }

  predicate RowsRegistered(df: seq<RaceRow>, syn: SynonymMap, players: map<string, Player>, k: nat)
    requires k <= |df|
  {
    forall j :: 0 <= j < k ==> Registered(syn, players, df[j].name)
  }

  /** The index of the first row that is not registered, or the number of
      rows if there is none. */
  function FirstUnregistered(df: seq<RaceRow>, syn: SynonymMap, players: map<string, Player>): (i: nat)
    ensures i <= |df|
    ensures forall j :: 0 <= j < i ==> Registered(syn, players, df[j].name)
    ensures i < |df| ==> !Registered(syn, players, df[i].name)
  {
    if df == [] then 0
    else if !Registered(syn, players, df[0].name) then 0
    else 1 + FirstUnregistered(df[1..], syn, players)
  }

  /** What the new-racer loop (rank.py:221-233) leaves behind: the synonym
      map after the merges it made, and whether it added the racer to the
      player table (after which the loop's next step raises). */
  datatype Probe = Probe(syn: SynonymMap, added: bool)

  function ProbeNewRacer(syn: SynonymMap, score: Score, ask: Oracle, name: string, keys: seq<string>): Probe
    decreases |keys|
  {
    if keys == [] then Probe(syn, false)
    else if SameRacer(score, ask, name, keys[0]) then
      ProbeNewRacer(Merged(syn, name, keys[0]), score, ask, name, keys[1..])
    else Probe(syn, true)
  }

  /** The result of get_standing and the state it leaves. */
  datatype Outcome = Outcome(result: Result<seq<Entry>, RankError>, syn: SynonymMap, players: PlayerTable)

  /** What get_standing does with a row it cannot look up: a synonym whose
      name is not a player raises KeyError; a name that is neither a
      synonym nor a player goes through the new-racer loop, which raises
      whichever way it ends. */
  function UnregisteredOutcome(syn: SynonymMap, players: PlayerTable, raceName: string,
                               score: Score, ask: Oracle): Outcome
  {
    if raceName in syn then Outcome(Failure(MissingPlayer(syn[raceName])), syn, players)
    else
      var p := ProbeNewRacer(syn, score, ask, raceName, players.order);
      if p.added then Outcome(Failure(PlayersChangedSize), p.syn, players.Put(raceName, Fresh))
      else Outcome(Failure(MissingPlayer(raceName)), p.syn, players)
  }

  function StandingOutcome(df: seq<RaceRow>, syn: SynonymMap, players: PlayerTable, score: Score, ask: Oracle): Outcome
  {
    var i := FirstUnregistered(df, syn, players.entries);
    if i == |df| then Outcome(Success(ExpectedStanding(df, syn)), syn, players)
    else UnregisteredOutcome(syn, players, df[i].name, score, ask)
  }

  // ----- seeding from a previous ranking -----

  /** Every player among `keys` that the fuzzy rule matches with `name`
      gets `seed` (rank.py:259-264). */
  function FuzzySeed(players: PlayerTable, keys: seq<string>, name: string, seed: Player,
                     score: Score, ask: Oracle): PlayerTable
  {
    PlayerTable(
      map n | n in players.entries :: if n in keys && SameRacer(score, ask, name, n) then seed else players.entries[n],
      players.order)
  }

  /** One baseline entry: the player of that name, else the player its
      synonym stands for, else every player the fuzzy rule matches
      (rank.py:253-264). */
  function SeedOne(players: PlayerTable, syn: SynonymMap, name: string, rating: real,
                   score: Score, ask: Oracle): PlayerTable
  {
    var seed := Seeded(rating, SeedSigma, 0);
    if name in players.entries then players.Put(name, seed)
    else if name in syn then players.Put(syn[name], seed)
    else FuzzySeed(players, players.order, name, seed, score, ask)
  }

  /** The baseline entries applied in order. */
  function SeedAll(players: PlayerTable, syn: SynonymMap, baseline: seq<(string, real)>,
                   score: Score, ask: Oracle): PlayerTable
    decreases |baseline|
  {
    if baseline == [] then players
    else
      var last := baseline[|baseline| - 1];
      SeedOne(SeedAll(players, syn, baseline[..|baseline| - 1], score, ask), syn, last.0, last.1, score, ask)
  }

  function Seeding(players: PlayerTable, syn: SynonymMap, previousRank: Option<seq<(string, real)>>,
                   score: Score, ask: Oracle): PlayerTable
  {
    match previousRank
    case None => players
    case Some(baseline) => SeedAll(players, syn, baseline, score, ask)
  }

  /** `{name: openelo.Player() for name in names}` */
  function InitialPlayers(names: seq<string>): (players: PlayerTable)
    ensures forall n :: n in players.entries <==> n in names
    ensures forall n :: n in players.entries ==> players.entries[n] == Fresh
    ensures NoDup(names) ==> players.Valid()
  {
    PlayerTable(map n | n in names :: Fresh, names)
  }

  /** The rounds of a successful run: each race's standing at its time. */
  function Rounds(dfs: seq<seq<RaceRow>>, syn: SynonymMap, times: seq<int>): (rs: seq<Round>)
    requires |times| == |dfs|
    ensures |rs| == |dfs|
  {
    seq(|dfs|, i requires 0 <= i < |dfs| => Round(ExpectedStanding(dfs[i], syn), times[i]))
  }

  lemma RoundsAt(dfs: seq<seq<RaceRow>>, syn: SynonymMap, times: seq<int>, i: nat)
    requires |times| == |dfs| && i < |dfs|
    ensures Rounds(dfs, syn, times)[i] == Round(ExpectedStanding(dfs[i], syn), times[i])
  {
  }

  /** `first_date` (rank.py:266-270): the date of the first key, or
      2022-12-22 when there is no first key or it is not a date. */
  function FirstDate(dates: seq<string>): (d: Date)
    ensures ValidDate(d)
    ensures dates != [] && ParseDate(dates[0]).Some? ==> d == ParseDate(dates[0]).value
    ensures !(dates != [] && ParseDate(dates[0]).Some?) ==> d == Date(2022, 12, 22)
  {
    if dates != [] && ParseDate(dates[0]).Some? then ParseDate(dates[0]).value
    else Date(2022, 12, 22)
  }

  /** The try block of the race loop (rank.py:274-279): the time of race
      `idx` from its key, or one day after `contestTime`; `None` when the
      key is not a date and no time was set before. It agrees with
      `ContestTimes` race by race. */
  method NextContestTime(dates: seq<string>, idx: nat, firstDate: Date, contestTime: Option<int>)
    returns (next: Option<int>)
    requires idx < |dates| && firstDate == FirstDate(dates)
    requires idx == 0 ==> contestTime.None?
    requires idx > 0 ==> ContestTimes(dates).Some? && contestTime == Some(ContestTimes(dates).value[idx - 1])
    ensures next.None? <==> ContestTimes(dates).None?
    ensures next.Some? ==> ContestTimes(dates).Some? && next.value == ContestTimes(dates).value[idx]
  {
    var day := ParseDate(dates[idx]);
    if day.Some? {
      next := Some(SecondsPerDay * (Ordinal(day.value) - Ordinal(firstDate)));
    } else if contestTime.Some? {
      next := Some(contestTime.value + SecondsPerDay);
    } else {
      next := None;
    }
    if idx > 0 {
      ContestTimesStep(dates, idx);
    }
  }

  class Ranker {
    var synonyms: SynonymMap
    var players: PlayerTable
    /** The calls made to `round_update`, in order. */
    var rounds: seq<Round>
    /** The previous ranking, as the (name, rating) items of its dict. */
    const previousRank: Option<seq<(string, real)>>

    ghost predicate Valid()
      reads this
    {
      players.Valid()
    }

    constructor (previousRank: Option<seq<(string, real)>>)
      ensures Valid()
      ensures this.previousRank == previousRank
      ensures synonyms == map[] && players == PlayerTable(map[], []) && rounds == []
    {
      this.previousRank := previousRank;
      synonyms := map[];
      players := PlayerTable(map[], []);
      rounds := [];
    }

    /** `Ranker.get_data`: the races and date keys of the data files, in
        sorted file order. */
    method GetData(listing: seq<string>, isFile: string -> bool, ext: string, read: string -> seq<RaceRow>)
      returns (dfs: seq<seq<RaceRow>>, dates: seq<string>)
      ensures dfs == ReadAll(DataFiles(listing, isFile, ext), read)
      ensures dates == KeysOf(DataFiles(listing, isFile, ext))
    {
      dfs := [];
      dates := [];
      var sorted := SortedUnique(listing);
      ghost var files: seq<string> := [];
      for i := 0 to |sorted|
        invariant files == if ext == "csv" then Filter(sorted[..i], isFile) else []
        invariant dfs == ReadAll(files, read) && dates == KeysOf(files)
      {
        FilterAppend(sorted[..i], sorted[i], isFile);
        PrefixAppend(sorted, i);
        var file := sorted[i];
        if isFile(file) {
          if ext == "csv" {
            ReadKeysAppend(files, file, read);
            dfs := dfs + [read(file)];
            dates := dates + [DateKey(file)];
            files := files + [file];
          }
        }
      }
      assert sorted[..|sorted|] == sorted;
    }

    /** `Ranker.get_standing` */
    method GetStanding(df: seq<RaceRow>, score: Score, ask: Oracle) returns (r: Result<seq<Entry>, RankError>)
      requires Valid()
      modifies this
      ensures Valid()
      ensures rounds == old(rounds)
      ensures Outcome(r, synonyms, players) == StandingOutcome(df, old(synonyms), old(players), score, ask)
    {
      ghost var syn, table := synonyms, players;
      ghost var expected := ExpectedStanding(df, syn);
      var standing: seq<Entry> := [];
      var lastPlace := 1;
      for idx := 0 to |df|
        invariant lastPlace == 1 + NumericCount(Places(df)[..idx])
        invariant standing == expected[..idx]
        invariant RowsRegistered(df, syn, table.entries, idx)
        invariant synonyms == syn && players == table && rounds == old(rounds)
      {
        var entry, next := StandingRow(df, idx, lastPlace, syn, table, score, ask);
        if entry.Failure? {
          return Failure(entry.error);
        }
        lastPlace := next;
        PrefixAppend(expected, idx);
        standing := standing + [entry.value];
      }
      assert expected[..|df|] == expected;
      StandingSucceeds(df, syn, table, score, ask);
      return Success(standing);
    }

    /** One step of the loop of get_standing (rank.py:207-235): the entry of
        row `idx`, or the exception its lookup raises. */
    method StandingRow(df: seq<RaceRow>, idx: nat, lastPlace: int, ghost syn: SynonymMap, ghost table: PlayerTable,
                       score: Score, ask: Oracle)
      returns (entry: Result<Entry, RankError>, next: int)
      requires idx < |df| && Valid()
      requires synonyms == syn && players == table && RowsRegistered(df, syn, table.entries, idx)
      requires lastPlace == 1 + NumericCount(Places(df)[..idx])
      modifies this
      ensures Valid() && rounds == old(rounds)
      ensures next == 1 + NumericCount(Places(df)[..idx + 1])
      ensures entry.Success? ==>
        && entry.value == ExpectedStanding(df, syn)[idx]
        && synonyms == syn && players == table
        && RowsRegistered(df, syn, table.entries, idx + 1)
      ensures entry.Failure? ==>
        Outcome(Failure(entry.error), synonyms, players) == StandingOutcome(df, syn, table, score, ask)
    {
      NumericCountStep(Places(df), idx);
      var place1, place2;
      place1, place2, next := RowPlaces(df[idx].place, lastPlace, |df|);
      var name := ResolveRow(df[idx].name, score, ask);
      if name.Failure? {
        StandingFailsAt(df, syn, table, idx, score, ask);
        return Failure(name.error), next;
      }
      entry := Success(Entry(name.value, place1, place2));
    }

    /** The lookup of one row's name (rank.py:216-233 and the
        `self.players[name]` of rank.py:235). */
    method ResolveRow(raceName: string, score: Score, ask: Oracle) returns (r: Result<string, RankError>)
      requires Valid()
      modifies this
      ensures Valid()
      ensures rounds == old(rounds)
      ensures Registered(old(synonyms), old(players).entries, raceName) ==>
        r == Success(Resolve(old(synonyms), raceName)) && synonyms == old(synonyms) && players == old(players)
      ensures !Registered(old(synonyms), old(players).entries, raceName) ==>
        r.Failure? && UnregisteredOutcome(old(synonyms), old(players), raceName, score, ask)
                      == Outcome(Failure(r.error), synonyms, players)
    {
      var name: string;
      if raceName in synonyms {
        name := synonyms[raceName];
      } else if raceName in players.entries {
        name := raceName;
      } else {
        var err := NewRacer(raceName, score, ask);
        return Failure(err);
      }
      if name !in players.entries {
        return Failure(MissingPlayer(name));
      }
      return Success(name);
    }

    /** The loop over the player table for a name that is neither a synonym
        nor a player (rank.py:221-233). Adding the name grows the table it
        iterates, so the next step raises; without an addition the lookup
        at rank.py:235 raises. */
    method NewRacer(raceName: string, score: Score, ask: Oracle) returns (err: RankError)
      requires Valid()
      requires raceName !in players.entries
      modifies this
      ensures Valid()
      ensures rounds == old(rounds)
      ensures var p := ProbeNewRacer(old(synonyms), score, ask, raceName, old(players).order);
        && synonyms == p.syn
        && players == (if p.added then old(players).Put(raceName, Fresh) else old(players))
        && err == (if p.added then PlayersChangedSize else MissingPlayer(raceName))
    {
      var keys := players.order;
      for k := 0 to |keys|
        invariant ProbeNewRacer(synonyms, score, ask, raceName, keys[k..])
               == ProbeNewRacer(old(synonyms), score, ask, raceName, keys)
        invariant players == old(players) && rounds == old(rounds)
      {
        assert keys[k..][1..] == keys[k + 1..];
        var n := keys[k];
        var s := score(n, raceName);
        if 100 > s >= AutoMerge {
          synonyms := UpdateSyn(synonyms, raceName, n);
        } else if AutoMerge > s >= AskFloor {
          if ask(raceName, n) {
            synonyms := UpdateSyn(synonyms, raceName, n);
          } else {
            players := players.Put(raceName, Fresh);
            return PlayersChangedSize;
          }
        } else {
          players := players.Put(raceName, Fresh);
          return PlayersChangedSize;
        }
      }
      return MissingPlayer(raceName);
    }

    /** The seeding block of `Ranker.rank` (rank.py:252-264). */
    method SeedPlayers(score: Score, ask: Oracle)
      requires Valid()
      modifies this
      ensures Valid()
      ensures synonyms == old(synonyms) && rounds == old(rounds)
      ensures players == Seeding(old(players), synonyms, previousRank, score, ask)
    {
      if previousRank.Some? {
        var baseline := previousRank.value;
        for b := 0 to |baseline|
          invariant Valid()
          invariant synonyms == old(synonyms) && rounds == old(rounds)
          invariant players == SeedAll(old(players), synonyms, baseline[..b], score, ask)
        {
          assert baseline[..b + 1][..b] == baseline[..b];
          var (name, rating) := baseline[b];
          var seed := Seeded(rating, SeedSigma, 0);
          if name in players.entries {
            players := players.Put(name, seed);
          } else if name in synonyms {
            players := players.Put(synonyms[name], seed);
          } else {
            SeedFuzzy(name, seed, score, ask);
          }
        }
        assert baseline[..|baseline|] == baseline;
      }
    }

    /** The fuzzy branch of the seeding (rank.py:259-264): it only
        overwrites, so the table keeps its keys and their order. */
    method SeedFuzzy(name: string, seed: Player, score: Score, ask: Oracle)
      requires Valid()
      modifies this
      ensures Valid()
      ensures synonyms == old(synonyms) && rounds == old(rounds)
      ensures players == FuzzySeed(old(players), old(players).order, name, seed, score, ask)
    {
      var keys := players.order;
      for k := 0 to |keys|
        invariant synonyms == old(synonyms) && rounds == old(rounds)
        invariant players == FuzzySeed(old(players), keys[..k], name, seed, score, ask)
      {
        PrefixAppend(keys, k);
        var n := keys[k];
        FuzzySeedStep(old(players), keys[..k], n, name, seed, score, ask);
        var s := score(n, name);
        if 100 > s >= AutoMerge && n in players.entries {
          players := players.Put(n, seed);
        } else if AutoMerge > s >= AskFloor && n in players.entries {
          if ask(name, n) {
            players := players.Put(n, seed);
          }
        }
      }
      assert keys[..|keys|] == keys;
    }

    /** `Ranker.rank` (rank.py:240-280): read the races, merge the spellings
        of the racers, build and seed the player table, then hand each race
        to the rating method. */
    method Rank(listing: seq<string>, isFile: string -> bool, ext: string, read: string -> seq<RaceRow>,
                score: Score, ask: Oracle) returns (r: Result<(), RankError>)
      modifies this
      ensures Valid()
      ensures var files := DataFiles(listing, isFile, ext);
        var names := SortedUnique(AllNames(ReadAll(files, read)));
        var times := ContestTimes(KeysOf(files));
        && synonyms == CompareAll(map[], score, ask, names)
        && players == Seeding(InitialPlayers(Canonical(names, synonyms)), synonyms, previousRank, score, ask)
        && (r.Success? <==> times.Some?)
        && (r.Failure? ==> r.error == ContestTimeUnset && rounds == old(rounds))
        && (times.Some? ==> rounds == old(rounds) + Rounds(ReadAll(files, read), synonyms, times.value))
    {
      var dfs, dates := GetData(listing, isFile, ext, read);
      var fNames;
      synonyms, fNames := FilterNames(dfs, score, ask);
      players := InitialPlayers(fNames);
      ghost var initial := players;
      SeedPlayers(score, ask);
      SeedingKeepsKeys(initial, synonyms, previousRank, score, ask);
      RacesRegistered(dfs, synonyms, players);
      r := RunRounds(dfs, dates, score, ask);
    }

    /** `self.get_standing(df)` on a race whose every racer is registered:
        it returns the expected standing and changes nothing. */
    method RegisteredStanding(df: seq<RaceRow>, score: Score, ask: Oracle) returns (standing: seq<Entry>)
      requires Valid() && RowsRegistered(df, synonyms, players.entries, |df|)
      modifies this
      ensures synonyms == old(synonyms) && players == old(players) && rounds == old(rounds)
      ensures standing == ExpectedStanding(df, synonyms)
    {
      var r := GetStanding(df, score, ask);
      StandingSucceeds(df, synonyms, players, score, ask);
      standing := r.value;
    }

    /** The first date and the loop over the races (rank.py:266-280). A key
        that is not a date takes the time one day after the race before it;
        on the first race there is no time before it, so the loop raises. */
    method RunRounds(dfs: seq<seq<RaceRow>>, dates: seq<string>, score: Score, ask: Oracle)
      returns (r: Result<(), RankError>)
      requires Valid() && |dfs| == |dates|
      requires forall k :: 0 <= k < |dfs| ==> RowsRegistered(dfs[k], synonyms, players.entries, |dfs[k]|)
      modifies this
      ensures Valid()
      ensures synonyms == old(synonyms) && players == old(players)
      ensures r.Success? <==> ContestTimes(dates).Some?
      ensures r.Failure? ==> r.error == ContestTimeUnset && rounds == old(rounds)
      ensures ContestTimes(dates).Some? ==> rounds == old(rounds) + Rounds(dfs, synonyms, ContestTimes(dates).value)
    {
      var firstDate := FirstDate(dates);
      ghost var times := ContestTimes(dates);
      ghost var all := if times.Some? then Rounds(dfs, synonyms, times.value) else [];
      var contestTime: Option<int> := None;
      for idx := 0 to |dfs|
        invariant synonyms == old(synonyms) && players == old(players)
        invariant times.None? ==> idx == 0
        invariant times.Some? ==> |all| == |dfs|
        invariant rounds == old(rounds) + all[..idx]
        invariant idx == 0 ==> contestTime.None?
        invariant idx > 0 ==> contestTime == Some(times.value[idx - 1])
      {
        contestTime := RaceRound(dfs, dates, idx, firstDate, contestTime, score, ask);
        if contestTime.None? {
          return Failure(ContestTimeUnset);
        }
        RoundsAt(dfs, synonyms, times.value, idx);
        PrefixAppendAfter(old(rounds), all, idx);
      }
      assert all[..|dfs|] == all;
      return Success(());
    }

    /** One pass of the race loop (rank.py:273-280): the standing of race
        `idx`, its contest time and the call to the rating method; no call
        when there is no contest time. */
    method RaceRound(dfs: seq<seq<RaceRow>>, dates: seq<string>, idx: nat, firstDate: Date,
                     contestTime: Option<int>, score: Score, ask: Oracle)
      returns (next: Option<int>)
      requires Valid() && |dfs| == |dates| && idx < |dfs|
      requires RowsRegistered(dfs[idx], synonyms, players.entries, |dfs[idx]|)
      requires firstDate == FirstDate(dates)
      requires idx == 0 ==> contestTime.None?
      requires idx > 0 ==> ContestTimes(dates).Some? && contestTime == Some(ContestTimes(dates).value[idx - 1])
      modifies this
      ensures Valid() && synonyms == old(synonyms) && players == old(players)
      ensures next.None? <==> ContestTimes(dates).None?
      ensures next.None? ==> rounds == old(rounds)
      ensures next.Some? ==>
        && ContestTimes(dates).Some? && next.value == ContestTimes(dates).value[idx]
        && rounds == old(rounds) + [Round(ExpectedStanding(dfs[idx], synonyms), next.value)]
    {
      var standing := RegisteredStanding(dfs[idx], score, ask);
      next := NextContestTime(dates, idx, firstDate, contestTime);
      if next.Some? {
        rounds := rounds + [Round(standing, next.value)];
      }
    }
  }

  // ----- lemmas -----

  /** The seeding only overwrites players when every synonym stands for a
      player: the table keeps its names and their order. */
  lemma SeedingKeepsKeys(players: PlayerTable, syn: SynonymMap, previousRank: Option<seq<(string, real)>>,
                         score: Score, ask: Oracle)
    requires forall k :: k in syn ==> syn[k] in players.entries
    ensures Seeding(players, syn, previousRank, score, ask).entries.Keys == players.entries.Keys
    ensures Seeding(players, syn, previousRank, score, ask).order == players.order
  {
    if previousRank.Some? {
      SeedAllKeepsKeys(players, syn, previousRank.value, score, ask);
    }
  }

  lemma {:induction false} SeedAllKeepsKeys(players: PlayerTable, syn: SynonymMap, baseline: seq<(string, real)>,
                                            score: Score, ask: Oracle)
    requires forall k :: k in syn ==> syn[k] in players.entries
    ensures SeedAll(players, syn, baseline, score, ask).entries.Keys == players.entries.Keys
    ensures SeedAll(players, syn, baseline, score, ask).order == players.order
    decreases |baseline|
  {
    if baseline != [] {
      SeedAllKeepsKeys(players, syn, baseline[..|baseline| - 1], score, ask);
    }
  }

  /** The new-racer loop adds the racer exactly when some player in the
      table is not judged the same racer; until then it merges the name
      with every player it meets. */
  lemma {:induction false} NewRacerAdded(syn: SynonymMap, score: Score, ask: Oracle, name: string, keys: seq<string>)
    ensures ProbeNewRacer(syn, score, ask, name, keys).added
        <==> exists i :: 0 <= i < |keys| && !SameRacer(score, ask, name, keys[i])
    decreases |keys|
  {
    if keys != [] {
      var rest := ProbeNewRacer(Merged(syn, name, keys[0]), score, ask, name, keys[1..]);
      NewRacerAdded(Merged(syn, name, keys[0]), score, ask, name, keys[1..]);
      if exists i :: 0 <= i < |keys| && !SameRacer(score, ask, name, keys[i]) {
        var i :| 0 <= i < |keys| && !SameRacer(score, ask, name, keys[i]);
        if i > 0 {
          assert keys[1..][i - 1] == keys[i];
        }
      }
      if exists i :: 0 <= i < |keys[1..]| && !SameRacer(score, ask, name, keys[1..][i]) {
        var i :| 0 <= i < |keys[1..]| && !SameRacer(score, ask, name, keys[1..][i]);
        assert keys[i + 1] == keys[1..][i];
      }
    }
  }

  /** Each entry of a standing is the row's player with rank `p - 1` for a
      numeric place `p`, and a band reaching the last rank otherwise. */
  lemma StandingEntry(df: seq<RaceRow>, syn: SynonymMap, i: nat)
    requires i < |df|
    ensures ExpectedStanding(df, syn)[i].player == Resolve(syn, df[i].name)
    ensures IsNumericPlace(df[i].place) ==>
      ExpectedStanding(df, syn)[i].lo == ExpectedStanding(df, syn)[i].hi == ParseInt(df[i].place).value - 1
    ensures !IsNumericPlace(df[i].place) ==>
      1 <= ExpectedStanding(df, syn)[i].lo <= ExpectedStanding(df, syn)[i].hi == |df|
  {
    if !IsNumericPlace(df[i].place) {
      TieBand(Places(df), i, i);
    }
  }

  /** Every player after the seeding is as before or was seeded, with
      uncertainty 500 and update time 0, from one of the baseline ratings. */
  lemma {:induction false} SeedAllEntries(players: PlayerTable, syn: SynonymMap, baseline: seq<(string, real)>,
                                          score: Score, ask: Oracle)
    ensures var t := SeedAll(players, syn, baseline, score, ask);
      forall n :: n in t.entries ==>
        (n in players.entries && t.entries[n] == players.entries[n])
        || exists i :: 0 <= i < |baseline| && t.entries[n] == Seeded(baseline[i].1, SeedSigma, 0)
    decreases |baseline|
  {
    if baseline != [] {
      var front := baseline[..|baseline| - 1];
      SeedAllEntries(players, syn, front, score, ask);
      var t0 := SeedAll(players, syn, front, score, ask);
      var t := SeedAll(players, syn, baseline, score, ask);
      var last := |baseline| - 1;
      forall n | n in t.entries
        ensures (n in players.entries && t.entries[n] == players.entries[n])
             || exists i :: 0 <= i < |baseline| && t.entries[n] == Seeded(baseline[i].1, SeedSigma, 0)
      {
        if t.entries[n] != Seeded(baseline[last].1, SeedSigma, 0) {
          assert n in t0.entries && t.entries[n] == t0.entries[n];
          if exists i :: 0 <= i < |front| && t0.entries[n] == Seeded(front[i].1, SeedSigma, 0) {
            var i :| 0 <= i < |front| && t0.entries[n] == Seeded(front[i].1, SeedSigma, 0);
            assert baseline[i] == front[i];
          }
        }
      }
    }
  }

  /** After filter_names, every racer of every race is a player or a
      synonym of one, so get_standing inside rank never meets an unknown
      name. */
  lemma RacesRegistered(data: seq<seq<RaceRow>>, syn: SynonymMap, players: PlayerTable)
    requires forall k :: k in syn ==> syn[k] in players.entries
    requires forall n :: n in AllNames(data) && n !in syn ==> n in players.entries
    ensures forall k :: 0 <= k < |data| ==> RowsRegistered(data[k], syn, players.entries, |data[k]|)
  {
    forall k, i | 0 <= k < |data| && 0 <= i < |data[k]| ensures Registered(syn, players.entries, data[k][i].name) {
      InAllNames(data, k, i);
    }
  }

  lemma FuzzySeedStep(t: PlayerTable, keys: seq<string>, n: string, name: string, seed: Player, score: Score, ask: Oracle)
    requires n in t.entries
    ensures FuzzySeed(t, keys + [n], name, seed, score, ask)
         == if SameRacer(score, ask, name, n) then FuzzySeed(t, keys, name, seed, score, ask).Put(n, seed)
            else FuzzySeed(t, keys, name, seed, score, ask)
  {
    var a := FuzzySeed(t, keys + [n], name, seed, score, ask);
    var b := FuzzySeed(t, keys, name, seed, score, ask);
    if SameRacer(score, ask, name, n) {
      assert a.entries == b.entries[n := seed];
    } else {
      assert a.entries == b.entries;
    }
  }

  lemma ReadKeysAppend(files: seq<string>, f: string, read: string -> seq<RaceRow>)
    ensures ReadAll(files + [f], read) == ReadAll(files, read) + [read(f)]
    ensures KeysOf(files + [f]) == KeysOf(files) + [DateKey(f)]
  {
  }

  /** get_standing ends at the first row it cannot look up. */
  lemma StandingFailsAt(df: seq<RaceRow>, syn: SynonymMap, players: PlayerTable, i: nat, score: Score, ask: Oracle)
    requires i < |df|
    requires RowsRegistered(df, syn, players.entries, i)
    requires !Registered(syn, players.entries, df[i].name)
    ensures StandingOutcome(df, syn, players, score, ask) == UnregisteredOutcome(syn, players, df[i].name, score, ask)
  {
    FirstUnregisteredAt(df, syn, players.entries, i);
  }

  /** get_standing succeeds, changing nothing, when it can look up every
      row. */
  lemma StandingSucceeds(df: seq<RaceRow>, syn: SynonymMap, players: PlayerTable, score: Score, ask: Oracle)
    requires RowsRegistered(df, syn, players.entries, |df|)
    ensures StandingOutcome(df, syn, players, score, ask) == Outcome(Success(ExpectedStanding(df, syn)), syn, players)
  {
    FirstUnregisteredNone(df, syn, players.entries);
  }

  lemma {:induction false} FirstUnregisteredAt(df: seq<RaceRow>, syn: SynonymMap, players: map<string, Player>, i: nat)
    requires i < |df|
    requires forall j :: 0 <= j < i ==> Registered(syn, players, df[j].name)
    requires !Registered(syn, players, df[i].name)
    ensures FirstUnregistered(df, syn, players) == i
  {
    if i > 0 {
      FirstUnregisteredAt(df[1..], syn, players, i - 1);
    }
  }

  lemma {:induction false} FirstUnregisteredNone(df: seq<RaceRow>, syn: SynonymMap, players: map<string, Player>)
    requires forall j :: 0 <= j < |df| ==> Registered(syn, players, df[j].name)
    ensures FirstUnregistered(df, syn, players) == |df|
  {
    if df != [] {
      FirstUnregisteredNone(df[1..], syn, players);
    }
  }
}
