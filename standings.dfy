/** One race as rank.py reads it (a `Place` and a `Name` column) and the rank
    range that `Ranker.get_standing` gives each row (rank.py:196-237). */
module Standings {
  import opened Wrappers
  import opened Seqs
  import opened Text

  /** One line of a race file: the place cell and the racer's name. */
  datatype RaceRow = RaceRow(place: string, name: string)

  function Places(df: seq<RaceRow>): (ps: seq<string>)
    ensures |ps| == |df|
    ensures forall i :: 0 <= i < |df| ==> ps[i] == df[i].place
  {
    seq(|df|, i requires 0 <= i < |df| => df[i].place)
  }

  /** `df['Name'].to_list()` */
  function Names(df: seq<RaceRow>): (ns: seq<string>)
    ensures |ns| == |df|
    ensures forall i :: 0 <= i < |df| ==> ns[i] == df[i].name
  {
    seq(|df|, i requires 0 <= i < |df| => df[i].name)
  }

  /** `int(place)` succeeds. */
  predicate IsNumericPlace(place: string) {
    ParseInt(place).Some?
  }

  /** How many of `places` are numeric. */
  function NumericCount(places: seq<string>): nat {
    |Filter(places, IsNumericPlace)|
  }

  lemma NumericCountStep(places: seq<string>, i: nat)
    requires i < |places|
    ensures NumericCount(places[..i + 1])
         == NumericCount(places[..i]) + if IsNumericPlace(places[i]) then 1 else 0
  {
    PrefixAppend(places, i);
    FilterAppend(places[..i], places[i], IsNumericPlace);
  }

  /** The pair `(place_1, place_2)` for a row with place cell `place`, when
      `lastPlace` is the counter before it and the race has `n` rows: a
      numeric place `p` gives `(p - 1, p - 1)`, any other place
      `(lastPlace, n)` (rank.py:207-214). */
  function RowRange(place: string, lastPlace: int, n: int): (int, int) {
    match ParseInt(place)
    case Some(p) => (p - 1, p - 1)
    case None => (lastPlace, n)
  }

  /** The pair the loop of get_standing computes for row `i`: the counter
      starts at 1 and only numeric rows advance it, so a row without a
      numeric place is tied from one past the number of numeric rows before
      it up to the number of rows. */
  function PlaceRange(places: seq<string>, i: nat): (int, int)
    requires i < |places|
  {
    RowRange(places[i], 1 + NumericCount(places[..i]), |places|)
  }

  /** One step of the loop of get_standing (rank.py:207-214): the two ends
      of the row's range and the next value of `last_place`. */
  method RowPlaces(place: string, lastPlace: int, n: int) returns (place1: int, place2: int, next: int)
    ensures (place1, place2) == RowRange(place, lastPlace, n)
    ensures next == lastPlace + if IsNumericPlace(place) then 1 else 0
  {
    match ParseInt(place) {
      case Some(p) =>
        place1 := p - 1;
        place2 := place1;
        next := lastPlace + 1;
      case None =>
        place1 := lastPlace;
        place2 := n;
        next := lastPlace;
    }
  }

  /** A row without a numeric place gets a non-empty band that ends at the
      size of the race, and the band of a later such row starts no earlier. */
  lemma {:induction false} TieBand(places: seq<string>, i: nat, j: nat)
    requires i <= j < |places|
    requires !IsNumericPlace(places[i]) && !IsNumericPlace(places[j])
    ensures 1 <= PlaceRange(places, i).0 <= PlaceRange(places, i).1 == |places|
    ensures PlaceRange(places, i).0 <= PlaceRange(places, j).0
  {
    assert |Filter(places[..i], IsNumericPlace)| <= i;
    if i < j {
      NumericCountMonotone(places, i, j);
    }
  }

  lemma NumericCountMonotone(places: seq<string>, i: nat, j: nat)
    requires i <= j <= |places|
    ensures NumericCount(places[..i]) <= NumericCount(places[..j])
  {
    FilterPrefixMonotone(places, IsNumericPlace, i, j);
  }

  /** After `k` rows with numeric places, a row without one is tied from
      `k + 1` to the number of rows: with five rows whose third place is
      "Ab." that row gets `(3, 5)`. */
  lemma AfterFinishers(places: seq<string>, k: nat)
    requires k < |places|
    requires forall i :: 0 <= i < k ==> IsNumericPlace(places[i])
    requires !IsNumericPlace(places[k])
    ensures PlaceRange(places, k) == (k + 1, |places|)
  {
    FilterAll(places[..k], IsNumericPlace);
  }
}
