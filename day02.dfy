/** Day 2, box-ID checksum: count the letters of every ID, record once per
    ID each distinct count that occurs, tally those records over all IDs,
    and multiply the tallies of the counts above one. */
module Day02 {
  import opened Tallies
  import Keys

  /** The letter table `getLetterFrequencies` builds, one character at a
      time. */
  function Frequencies(s: string): map<char, nat>
  {
    if s == [] then map[] else Inc(Frequencies(s[..|s| - 1]), s[|s| - 1])
  }

  /** The keys are the distinct characters of the ID and each maps to the
      number of times it occurs. */
  lemma {:induction false} FrequenciesCount(s: string)
    ensures forall c :: c in Frequencies(s) <==> c in s
    ensures forall c | c in Frequencies(s) :: Frequencies(s)[c] == multiset(s)[c]
  {
    if s != [] {
      var front := s[..|s| - 1];
      FrequenciesCount(front);
      assert s == front + [s[|s| - 1]];
      assert multiset(s) == multiset(front) + multiset{s[|s| - 1]};
    }
  }

  /** The counts add up to the length of the ID. */
  lemma {:induction false} FrequenciesSum(s: string)
    ensures SumValues(Frequencies(s)) == |s|
  {
    if s != [] {
      FrequenciesSum(s[..|s| - 1]);
      SumValuesInc(Frequencies(s[..|s| - 1]), s[|s| - 1]);
    }
  }

  /** The example of the doc comment, `"aabcdd"`. */
  lemma FrequenciesExample()
    ensures Frequencies("aabcdd") == map['a' := 2, 'b' := 1, 'c' := 1, 'd' := 2]
  {
    assert "aabcdd"[..5] == "aabcd";
    assert "aabcd"[..4] == "aabc";
    assert "aabc"[..3] == "aab";
    assert "aab"[..2] == "aa";
    assert "aa"[..1] == "a";
    assert "a"[..0] == "";
  }

  /** `getLetterFrequencies`, lines 107-126. */
  method LetterFrequencies(boxID: string) returns (letterFrequencies: map<char, nat>)
    ensures letterFrequencies == Frequencies(boxID)
    ensures forall c :: c in letterFrequencies <==> c in boxID
    ensures forall c | c in letterFrequencies :: letterFrequencies[c] == multiset(boxID)[c]
  {
    letterFrequencies := map[];
    for i := 0 to |boxID|
      invariant letterFrequencies == Frequencies(boxID[..i])
    {
      var letter := boxID[i];
      assert boxID[..i + 1][..i] == boxID[..i];
      if letter in letterFrequencies && letterFrequencies[letter] != 0 {
        letterFrequencies := letterFrequencies[letter := letterFrequencies[letter] + 1];
      } else {
        letterFrequencies := letterFrequencies[letter := 1];
      }
    }
    assert boxID[..|boxID|] == boxID;
    FrequenciesCount(boxID);
  }

  /** The counts occurring in a letter table: the keys of `repeatCounts`
      at lines 70-80. */
  function RepeatCounts(freq: map<char, nat>): set<int>
  {
    set c | c in freq :: freq[c] as int
  }

  /** The ID has a letter that occurs exactly k times. */
  ghost predicate HasLetterRepeated(id: string, k: int)
  {
    exists c | c in id :: multiset(id)[c] == k
  }

  lemma RepeatCountsOfId(id: string, k: int)
    ensures k in RepeatCounts(Frequencies(id)) <==> HasLetterRepeated(id, k)
  {
    FrequenciesCount(id);
  }

  /** The tally with one added to the entry of every count in `ks`: a missing
      entry starts at one, and the entries of other counts are unchanged. */
  function Bumped(tally: map<int, nat>, ks: set<int>): (r: map<int, nat>)
  {
    map k | k in tally.Keys + ks :: (if k in tally then tally[k] else 0) + (if k in ks then 1 else 0)
  }

  /** The module-level `globalLetterRepeats` table. */
  class RepeatTally {
    var counts: map<int, nat>

    constructor ()
      ensures counts == map[]
    {
      counts := map[];
    }

    /** `updateGlobalLetterRepeats`, lines 68-95: each distinct count of the
        ID is recorded once, however many letters share it. */
    method UpdateGlobalLetterRepeats(newIdLetterFrequencies: map<char, nat>)
      modifies this
      ensures counts == Bumped(old(counts), RepeatCounts(newIdLetterFrequencies))
    {
      var repeatCounts: set<int> := {};
      var letters := newIdLetterFrequencies.Keys;
      while letters != {}
        invariant letters <= newIdLetterFrequencies.Keys
        invariant repeatCounts == set c | c in newIdLetterFrequencies && c !in letters :: newIdLetterFrequencies[c] as int
        decreases |letters|
      {
        var letter :| letter in letters;
        repeatCounts := repeatCounts + {newIdLetterFrequencies[letter] as int};
        letters := letters - {letter};
      }
      assert repeatCounts == RepeatCounts(newIdLetterFrequencies);
      ghost var start := counts;
      var pending := repeatCounts;
      while pending != {}
        invariant pending <= repeatCounts
        invariant counts == Bumped(start, repeatCounts - pending)
        decreases |pending|
      {
        var repeatCount :| repeatCount in pending;
        ghost var done := repeatCounts - pending;
        if repeatCount in counts && counts[repeatCount] != 0 {
          counts := counts[repeatCount := counts[repeatCount] + 1];
        } else {
          counts := counts[repeatCount := 1];
        }
        pending := pending - {repeatCount};
        assert repeatCounts - pending == done + {repeatCount};
        BumpedAdd(start, done, repeatCount);
      }
      assert repeatCounts - pending == repeatCounts;
    }
  }

  /** Recording one more count bumps exactly its entry. */
  lemma BumpedAdd(tally: map<int, nat>, done: set<int>, k: int)
    requires k !in done
    ensures Bumped(tally, done + {k}) == Inc(Bumped(tally, done), k)
  {
    var b := Bumped(tally, done);
    assert k in b ==> b[k] != 0 || k !in done;
  }

  /** The table after every ID has been recorded in turn. */
  function Tally(ids: seq<string>): map<int, nat>
  {
    if ids == [] then map[]
    else Bumped(Tally(ids[..|ids| - 1]), RepeatCounts(Frequencies(ids[|ids| - 1])))
  }

  /** How many of the IDs have a letter occurring exactly k times. */
  ghost function IdsWithRepeat(ids: seq<string>, k: int): nat
  {
    if ids == [] then 0
    else IdsWithRepeat(ids[..|ids| - 1], k) + (if HasLetterRepeated(ids[|ids| - 1], k) then 1 else 0)
  }

  /** Entry k of the table is the number of IDs with a letter occurring
      exactly k times, and the entry exists exactly when that number is
      not zero (k = 1 included). */
  lemma {:induction false} TallyCounts(ids: seq<string>, k: int)
    ensures k in Tally(ids) <==> IdsWithRepeat(ids, k) > 0
    ensures k in Tally(ids) ==> Tally(ids)[k] == IdsWithRepeat(ids, k)
  {
    if ids != [] {
      TallyCounts(ids[..|ids| - 1], k);
      RepeatCountsOfId(ids[|ids| - 1], k);
    }
  }

  /** A factor of the checksum: single instances are ignored. */
  function Factor(tally: map<int, nat>, k: int): nat
    requires k in tally
  {
    if k > 1 then tally[k] else 1
  }

  /** The product of the factors of the keys in `ks`, in no particular order. */
  ghost function Product(tally: map<int, nat>, ks: set<int>): nat
    requires ks <= tally.Keys
    decreases |ks|
  {
    if ks == {} then 1
    else
      Keys.NonEmptyHasElement(ks);
      var k :| k in ks;
      Factor(tally, k) * Product(tally, ks - {k})
  }

  /** The product can be split at any key, not only the one the definition
      picks. */
  lemma {:induction false} ProductRemove(tally: map<int, nat>, ks: set<int>, k: int)
    requires ks <= tally.Keys && k in ks
    ensures Product(tally, ks) == Factor(tally, k) * Product(tally, ks - {k})
    decreases |ks|
  {
    var j :| j in ks && Product(tally, ks) == Factor(tally, j) * Product(tally, ks - {j});
    if j != k {
      var kj, kk := ks - {j}, ks - {k};
      assert |kj| < |ks| by { assert kj < ks; }
      assert |kk| < |ks| by { assert kk < ks; }
      ProductRemove(tally, kj, k);
      ProductRemove(tally, kk, j);
      assert kj - {k} == kk - {j};
    }
  }

  /** The checksum of a table: the product of the entries of all counts
      above one. */
  ghost function CheckSumOf(tally: map<int, nat>): nat
  {
    Product(tally, tally.Keys)
  }

  /** `calculateCheckSum`, lines 43-58: a running product over the keys. */
  method CalculateCheckSum(letterRepeatsCount: map<int, nat>) returns (checkSumTotal: nat)
    ensures checkSumTotal == CheckSumOf(letterRepeatsCount)
  {
    checkSumTotal := 1;
    var pending := letterRepeatsCount.Keys;
    while pending != {}
      invariant pending <= letterRepeatsCount.Keys
      invariant checkSumTotal * Product(letterRepeatsCount, pending) == CheckSumOf(letterRepeatsCount)
      decreases |pending|
    {
      var repeats :| repeats in pending;
      ProductRemove(letterRepeatsCount, pending, repeats);
      ghost var rest := Product(letterRepeatsCount, pending - {repeats});
      ghost var f := Factor(letterRepeatsCount, repeats);
      assert checkSumTotal * (f * rest) == CheckSumOf(letterRepeatsCount);
      if repeats > 1 {
        assert f == letterRepeatsCount[repeats];
        MulAssoc(checkSumTotal, f, rest);
        checkSumTotal := checkSumTotal * letterRepeatsCount[repeats];
      } else {
        assert f == 1;
      }
      assert checkSumTotal * rest == CheckSumOf(letterRepeatsCount);
      pending := pending - {repeats};
    }
  }

  lemma MulAssoc(a: int, b: int, c: int)
    ensures a * (b * c) == (a * b) * c
  {
  }

  /** An empty table has checksum 1. */
  lemma CheckSumEmpty()
    ensures CheckSumOf(map[]) == 1
  {
  }

  /** The entry of count 1 plays no part. */
  lemma CheckSumIgnoresSingles(tally: map<int, nat>, v: nat)
    ensures CheckSumOf(tally[1 := v]) == CheckSumOf(tally - {1})
  {
    var t := tally[1 := v];
    ProductRemove(t, t.Keys, 1);
    assert t.Keys - {1} == (tally - {1}).Keys;
    ProductIgnores(t, tally - {1}, t.Keys - {1});
  }

  /** Two tables agreeing on the keys in `ks` have the same product over them. */
  lemma {:induction false} ProductIgnores(a: map<int, nat>, b: map<int, nat>, ks: set<int>)
    requires ks <= a.Keys && ks <= b.Keys
    requires forall k | k in ks :: a[k] == b[k]
    ensures Product(a, ks) == Product(b, ks)
    decreases |ks|
  {
    if ks != {} {
      Keys.NonEmptyHasElement(ks);
      var k :| k in ks;
      ProductRemove(a, ks, k);
      ProductRemove(b, ks, k);
      assert |ks - {k}| < |ks| by { assert ks - {k} < ks; }
      ProductIgnores(a, b, ks - {k});
    }
  }

  /** The example of the doc comment: 249 * 30 * 1. */
  lemma CheckSumExample()
    ensures CheckSumOf(map[1 := 250, 2 := 249, 3 := 30, 4 := 1]) == 7470
  {
    var t := map[1 := 250, 2 := 249, 3 := 30, 4 := 1];
    ProductRemove(t, {1, 2, 3, 4}, 1);
    ProductRemove(t, {2, 3, 4}, 2);
    ProductRemove(t, {3, 4}, 3);
    ProductRemove(t, {4}, 4);
    assert {1, 2, 3, 4} - {1} == {2, 3, 4};
    assert {2, 3, 4} - {2} == {3, 4};
    assert {3, 4} - {3} == {4};
    assert t.Keys == {1, 2, 3, 4};
  }

  /** `day2Task`, lines 15-33, from the list of IDs onwards. */
  method Day2Task(boxIds: seq<string>) returns (resultingCheckSum: nat)
    ensures resultingCheckSum == CheckSumOf(Tally(boxIds))
  {
    var globalLetterRepeats := new RepeatTally();
    for i := 0 to |boxIds|
      invariant globalLetterRepeats.counts == Tally(boxIds[..i])
    {
      var letterRepeatsForBoxId := LetterFrequencies(boxIds[i]);
      assert boxIds[..i + 1][..i] == boxIds[..i];
      globalLetterRepeats.UpdateGlobalLetterRepeats(letterRepeatsForBoxId);
    }
    assert boxIds[..|boxIds|] == boxIds;
    resultingCheckSum := CalculateCheckSum(globalLetterRepeats.counts);
  }
}
