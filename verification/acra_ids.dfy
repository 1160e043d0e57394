/** The dataset-id map of the ACRA extractor: the rendered data.gov.sg page
    is searched for (dataset id, letter) pairs, and the pairs become a map
    from letter to dataset id.  The regex search is an input: the list of
    match pairs in page order. */
module AcraIds {
  import opened Text
  import Dedup

  /** One regex match: group 1 is the dataset id, group 2 the letter. */
  datatype Match = Match(datasetId: string, letter: string)

  predicate IsHexLower(c: char) { IsDigit(c) || 'a' <= c <= 'f' }

  /** Group 2 of the pattern: `[A-Z]|Others`. */
  predicate IsLetterKey(k: string) {
    (|k| == 1 && IsUpperAscii(k[0])) || k == "Others"
  }

  /** Group 1 of the pattern: `d_[a-f0-9]+`. */
  predicate IsDatasetId(v: string) {
    |v| >= 3 && v[..2] == "d_" && forall i :: 2 <= i < |v| ==> IsHexLower(v[i])
  }

  /** What the pattern guarantees of every match it reports. */
  predicate WellFormed(m: Match) { IsDatasetId(m.datasetId) && IsLetterKey(m.letter) }

  /** Index of the last match for `letter`, or -1 when there is none. */
  function LastIndex(ms: seq<Match>, letter: string): (i: int)
    ensures -1 <= i < |ms|
    ensures i >= 0 ==> ms[i].letter == letter
    ensures forall j :: i < j < |ms| ==> ms[j].letter != letter
  {
    if ms == [] then -1
    else if ms[|ms| - 1].letter == letter then |ms| - 1
    else LastIndex(ms[..|ms| - 1], letter)
  }

  /** `{letter: dataset_id for dataset_id, letter in matches}`: the
      comprehension writes the pairs in order, so a later pair for the same
      letter overwrites an earlier one. */
  function DatasetMap(ms: seq<Match>): (m: map<string, string>)
    ensures m.Keys == set i | 0 <= i < |ms| :: ms[i].letter
    ensures forall k :: k in m ==> LastIndex(ms, k) >= 0 && m[k] == ms[LastIndex(ms, k)].datasetId
    ensures (forall i :: 0 <= i < |ms| ==> WellFormed(ms[i])) ==>
      forall k :: k in m ==> IsLetterKey(k) && IsDatasetId(m[k])
  {
    if ms == [] then map[]
    else
      var init := ms[..|ms| - 1];
      var last := ms[|ms| - 1];
      var m := DatasetMap(init)[last.letter := last.datasetId];
      assert m.Keys == (set i | 0 <= i < |init| :: init[i].letter) + {last.letter};
      assert forall i :: 0 <= i < |init| ==> init[i] == ms[i];
      m
  }

  function Letter(m: Match): string { m.letter }

  /** `dataset_map.items()`, the order in which the extractor later walks
      the ids: a dict keeps each key where it was first inserted and a later
      pair only overwrites the value, so the items are the matched letters,
      once each, in the order of their first match, each with the id of its
      last match. */
  function DatasetItems(ms: seq<Match>): (items: seq<(string, string)>)
    ensures forall i :: 0 <= i < |items| ==> items[i].0 in DatasetMap(ms) && items[i].1 == DatasetMap(ms)[items[i].0]
    ensures forall k :: k in DatasetMap(ms) ==> exists i :: 0 <= i < |items| && items[i].0 == k
    ensures forall i, j :: 0 <= i < j < |items| ==> items[i].0 != items[j].0
    ensures forall i :: 0 <= i < |items| ==> items[i].0 in Dedup.KeySet(ms, Letter)
    ensures forall i, j :: 0 <= i < j < |items| ==>
      Dedup.FirstIndex(ms, Letter, items[i].0) < Dedup.FirstIndex(ms, Letter, items[j].0)
  {
    ItemsInMap(ms);
    ItemsCover(ms);
    ItemsOrdered(ms);
    Items(ms)
  }

  /** The first match of every letter, in page order. */
  function Firsts(ms: seq<Match>): seq<Match> {
    Dedup.DropDuplicates(ms, Letter)
  }

  /** A letter matched at `t` has its last match at `t` or later. */
  lemma LastIndexFrom(ms: seq<Match>, t: nat)
    requires t < |ms|
    ensures t <= LastIndex(ms, ms[t].letter)
  {
  }

  function Items(ms: seq<Match>): seq<(string, string)> {
    var firsts := Firsts(ms);
    seq(|firsts|, i requires 0 <= i < |firsts| =>
      var k := firsts[i].letter;
      LastIndexFrom(ms, Dedup.FirstIndex(ms, Letter, k));
      (k, ms[LastIndex(ms, k)].datasetId))
  }

  /** Each item carries the map's value for its letter. */
  lemma ItemsInMap(ms: seq<Match>)
    ensures forall i :: 0 <= i < |Items(ms)| ==>
      Items(ms)[i].0 in DatasetMap(ms) && Items(ms)[i].1 == DatasetMap(ms)[Items(ms)[i].0]
  {
    var firsts := Firsts(ms);
    forall i | 0 <= i < |Items(ms)|
      ensures Items(ms)[i].0 in DatasetMap(ms) && Items(ms)[i].1 == DatasetMap(ms)[Items(ms)[i].0]
    {
      var t := Dedup.FirstIndex(ms, Letter, Letter(firsts[i]));
      assert ms[t].letter == Items(ms)[i].0;
    }
  }

  /** Every key of the map has an item. */
  lemma ItemsCover(ms: seq<Match>)
    ensures forall k :: k in DatasetMap(ms) ==> exists i :: 0 <= i < |Items(ms)| && Items(ms)[i].0 == k
  {
    forall k | k in DatasetMap(ms)
      ensures exists i :: 0 <= i < |Items(ms)| && Items(ms)[i].0 == k
    {
      var t :| 0 <= t < |ms| && ms[t].letter == k;
      Dedup.KeySetHas(ms, Letter, t);
      var i := Dedup.FirstIndex(Firsts(ms), Letter, k);
      assert Items(ms)[i].0 == k;
    }
  }

  /** The items' letters are distinct and in first-match order. */
  lemma ItemsOrdered(ms: seq<Match>)
    ensures forall i, j :: 0 <= i < j < |Items(ms)| ==> Items(ms)[i].0 != Items(ms)[j].0
    ensures forall i :: 0 <= i < |Items(ms)| ==> Items(ms)[i].0 in Dedup.KeySet(ms, Letter)
    ensures forall i, j :: 0 <= i < j < |Items(ms)| ==>
      Dedup.FirstIndex(ms, Letter, Items(ms)[i].0) < Dedup.FirstIndex(ms, Letter, Items(ms)[j].0)
  {
    var items, firsts := Items(ms), Firsts(ms);
    assert |items| == |firsts| && forall i :: 0 <= i < |items| ==> items[i].0 == Letter(firsts[i]);
    forall i, j | 0 <= i < j < |items|
      ensures Dedup.FirstIndex(ms, Letter, items[i].0) < Dedup.FirstIndex(ms, Letter, items[j].0)
    {
      Dedup.DropDuplicatesOrdered(ms, Letter, i, j);
    }
  }

  /** A letter that comes back keeps its first place and takes its last id:
      B, A, B gives the items B then A, with B's second id. */
  lemma ItemsKeepFirstPlace()
    ensures DatasetItems([Match("d_1", "B"), Match("d_2", "A"), Match("d_3", "B")]) == [("B", "d_3"), ("A", "d_2")]
  {
    var ms := [Match("d_1", "B"), Match("d_2", "A"), Match("d_3", "B")];
    assert Firsts(ms) == [ms[0], ms[1]];
  }

  /** A match whose letter does not come up again decides that letter's id,
      whatever earlier matches said. */
  lemma LastMatchWins(ms: seq<Match>, j: nat)
    requires j < |ms|
    requires forall k :: j < k < |ms| ==> ms[k].letter != ms[j].letter
    ensures DatasetMap(ms)[ms[j].letter] == ms[j].datasetId
  {
    assert ms[j].letter in DatasetMap(ms);
  }

  /** No matches give the empty map (which the script still writes out). */
  lemma NoMatchesEmptyMap()
    ensures DatasetMap([]) == map[]
  {
  }
}
