/** The counting part of bleu.py: n-grams of a segment, clipped matches, and precisions. */
module Bleu {

  type Word = string
  type Segment = seq<Word>
  type Counter = multiset<seq<Word>>

  // The first i windows of k words.
  function Windows(s: Segment, k: nat, i: nat): (w: seq<seq<Word>>)
    requires i > 0 ==> i - 1 + k <= |s|
    ensures |w| == i && forall j :: 0 <= j < i ==> w[j] == s[j..j + k]
  {
    if i == 0 then [] else Windows(s, k, i - 1) + [s[i - 1..i - 1 + k]]
  }

  function Possible(s: Segment, k: nat): nat {
    if |s| + 1 > k then |s| + 1 - k else 0
  }

  function Grams(s: Segment, k: nat): Counter {
    multiset(Windows(s, k, Possible(s, k)))
  }

  // All n-grams of orders 1 to max.
  function AllGrams(s: Segment, max: nat): Counter {
    if max == 0 then multiset{} else AllGrams(s, max - 1) + Grams(s, max)
  }

  // Counter's |, which keeps the greater count of each.
  function Union(a: Counter, b: Counter): (c: Counter)
    ensures forall g :: c[g] == if a[g] < b[g] then b[g] else a[g]
  {
    a + (b - a)
  }

  function Merged(references: seq<Segment>, max: nat): Counter {
    if references == [] then multiset{}
    else Union(Merged(references[..|references| - 1], max), AllGrams(references[|references| - 1], max))
  }

  // The k-grams of all references together, each as often as in the reference that has it most often.
  function MergedOf(references: seq<Segment>, k: nat): Counter {
    if references == [] then multiset{}
    else Union(MergedOf(references[..|references| - 1], k), Grams(references[|references| - 1], k))
  }

  // How many k-grams of the translation are in the references, each at most as often as there.
  function Matches(references: seq<Segment>, translation: Segment, k: nat): nat {
    |Grams(translation, k) * MergedOf(references, k)|
  }

  // ---------- counting one order at a time ----------

  lemma {:induction false} WindowLength(s: Segment, k: nat, g: seq<Word>)
    requires g in Grams(s, k)
    ensures |g| == k
  {
    var w := Windows(s, k, Possible(s, k));
    assert g in w;
    var j :| 0 <= j < |w| && w[j] == g;
    assert w[j] == s[j..j + k];
  }

  lemma {:induction false} AllGramsAt(s: Segment, max: nat, g: seq<Word>)
    ensures AllGrams(s, max)[g] == if 1 <= |g| <= max then Grams(s, |g|)[g] else 0
  {
    hide Grams;
    if max > 0 {
      AllGramsAt(s, max - 1, g);
      if g in Grams(s, max) {
        WindowLength(s, max, g);
      }
    }
  }

  lemma {:induction false} MergedAt(references: seq<Segment>, max: nat, g: seq<Word>)
    ensures Merged(references, max)[g] == if 1 <= |g| <= max then MergedOf(references, |g|)[g] else 0
  {
    hide Grams, AllGrams;
    if references != [] {
      var n := |references| - 1;
      MergedAt(references[..n], max, g);
      AllGramsAt(references[n], max, g);
    }
  }

  lemma {:induction false} MergedLength(references: seq<Segment>, k: nat, g: seq<Word>)
    requires g in MergedOf(references, k)
    ensures |g| == k
  {
    hide Grams;
    var n := |references| - 1;
    if g in Grams(references[n], k) {
      WindowLength(references[n], k, g);
    } else {
      MergedLength(references[..n], k, g);
    }
  }

  /** The counts of a segment's k-grams sum up to max(0, len - k + 1). */
  lemma {:induction false} CountsSum(s: Segment, k: nat)
    ensures |Grams(s, k)| == Possible(s, k) == (if |s| - k + 1 > 0 then |s| - k + 1 else 0)
  {
  }

  predicate StandsAt(s: Segment, g: seq<Word>, i: nat) {
    i + |g| <= |s| && s[i..i + |g|] == g
  }

  // Where g stands in the segment.
  function Positions(s: Segment, g: seq<Word>): set<nat> {
    set i: nat | i < |s| + 1 && StandsAt(s, g, i)
  }

  // The positions before i.
  function PositionsBefore(s: Segment, g: seq<Word>, i: nat): set<nat> {
    set j: nat | j < i && StandsAt(s, g, j)
  }

  lemma {:induction false} PositionsNext(s: Segment, g: seq<Word>, i: nat)
    ensures |PositionsBefore(s, g, i + 1)| == |PositionsBefore(s, g, i)| + if StandsAt(s, g, i) then 1 else 0
  {
    hide StandsAt;
    assert PositionsBefore(s, g, i + 1) == PositionsBefore(s, g, i) + if StandsAt(s, g, i) then {i} else {};
  }

  lemma {:induction false} OneWindowMore(s: Segment, g: seq<Word>, i: nat)
    requires i + |g| <= |s|
    ensures multiset(Windows(s, |g|, i + 1))[g] == multiset(Windows(s, |g|, i))[g] + if StandsAt(s, g, i) then 1 else 0
  {
    WindowsNext(s, |g|, i);
    OneMore(multiset(Windows(s, |g|, i)), s[i..i + |g|], g);
  }

  lemma {:induction false} OneMore(m: Counter, x: seq<Word>, g: seq<Word>)
    ensures (m + multiset{x})[g] == m[g] + if x == g then 1 else 0
  {
  }

  lemma {:induction false} WindowsCount(s: Segment, g: seq<Word>, i: nat)
    requires i > 0 ==> i - 1 + |g| <= |s|
    ensures multiset(Windows(s, |g|, i))[g] == |PositionsBefore(s, g, i)|
  {
    if i == 0 {
      assert PositionsBefore(s, g, 0) == {};
    } else {
      var k := i - 1;
      hide Windows, PositionsBefore;
      WindowsCount(s, g, k);
      OneWindowMore(s, g, k);
      PositionsNext(s, g, k);
    }
  }

  // Each n-gram counts as often as it stands in the segment.
  ghost predicate CountsPositions(counts: Counter, s: Segment, max: nat) {
    forall g :: counts[g] == if 1 <= |g| <= max then |Positions(s, g)| else 0
  }

  /** A k-gram counts as often as it stands in the segment; nothing of another length counts. */
  lemma {:induction false} GramsCount(s: Segment, k: nat, g: seq<Word>)
    ensures Grams(s, k)[g] == if |g| == k then |Positions(s, g)| else 0
  {
    if |g| == k {
      WindowsCount(s, g, Possible(s, k));
      assert PositionsBefore(s, g, Possible(s, k)) == Positions(s, g);
    } else if g in Grams(s, k) {
      WindowLength(s, k, g);
    }
  }

  // ---------- clipped matches ----------

  lemma {:induction false} PartSize(a: Counter, b: Counter)
    ensures |a * b| <= |a| && (|a * b| == |a| <==> a <= b)
  {
    assert a == a * b + (a - b);
    if a <= b {
      assert a * b == a;
    }
    if |a * b| == |a| {
      assert |a - b| == 0;
    }
  }

  /** Matches never exceed possible matches. They reach them exactly if no k-gram of the translation
      occurs in it more often than in every reference. */
  lemma {:induction false} MatchesAtMostPossible(references: seq<Segment>, translation: Segment, k: nat)
    ensures Matches(references, translation, k) <= Possible(translation, k)
    ensures Matches(references, translation, k) == Possible(translation, k) <==>
              forall g :: g in Grams(translation, k) ==> exists i :: 0 <= i < |references| && Grams(translation, k)[g] <= Grams(references[i], k)[g]
  {
    hide Grams, MergedOf;
    CountsSum(translation, k);
    var a, b := Grams(translation, k), MergedOf(references, k);
    PartSize(a, b);
    if a <= b {
      forall g | g in a ensures exists i :: 0 <= i < |references| && a[g] <= Grams(references[i], k)[g] {
        MostInSome(references, k, g);
      }
    }
    if forall g :: g in a ==> exists i :: 0 <= i < |references| && a[g] <= Grams(references[i], k)[g] {
      forall g | g in a ensures a[g] <= b[g] {
        var i :| 0 <= i < |references| && a[g] <= Grams(references[i], k)[g];
        AtLeastEach(references, k, i, g);
      }
    }
  }

  lemma {:induction false} AtLeastEach(references: seq<Segment>, k: nat, i: nat, g: seq<Word>)
    requires i < |references|
    ensures Grams(references[i], k)[g] <= MergedOf(references, k)[g]
  {
    hide Grams;
    var n := |references| - 1;
    if i < n {
      AtLeastEach(references[..n], k, i, g);
    }
  }

  // The merged count of g is that of some reference.
  lemma {:induction false} MostInSome(references: seq<Segment>, k: nat, g: seq<Word>)
    requires MergedOf(references, k)[g] > 0
    ensures exists i :: 0 <= i < |references| && MergedOf(references, k)[g] <= Grams(references[i], k)[g]
  {
    hide Grams;
    var n := |references| - 1;
    if MergedOf(references, k)[g] != Grams(references[n], k)[g] {
      MostInSome(references[..n], k, g);
      var i :| 0 <= i < n && MergedOf(references[..n], k)[g] <= Grams(references[..n][i], k)[g];
      assert references[i] == references[..n][i];
    }
  }

  lemma {:induction false} OwnReference(references: seq<Segment>, translation: Segment, k: nat)
    requires translation in references
    ensures Matches(references, translation, k) == Possible(translation, k)
  {
    hide Grams, Matches, Possible;
    MatchesAtMostPossible(references, translation, k);
    var i :| 0 <= i < |references| && references[i] == translation;
    assert forall g :: Grams(translation, k)[g] <= Grams(references[i], k)[g];
  }

  // ---------- a corpus ----------

  // Segments are paired up to the shorter of the two lists.
  function Pairs(references: seq<seq<Segment>>, translations: seq<Segment>): nat {
    if |references| < |translations| then |references| else |translations|
  }

  function TotalMatches(references: seq<seq<Segment>>, translations: seq<Segment>, k: nat, n: nat): nat
    requires n <= Pairs(references, translations)
  {
    if n == 0 then 0 else TotalMatches(references, translations, k, n - 1) + Matches(references[n - 1], translations[n - 1], k)
  }

  function TotalPossible(references: seq<seq<Segment>>, translations: seq<Segment>, k: nat, n: nat): nat
    requires n <= Pairs(references, translations)
  {
    if n == 0 then 0 else TotalPossible(references, translations, k, n - 1) + Possible(translations[n - 1], k)
  }

  function Precision(matches: nat, possible: nat, smooth: bool): real {
    if smooth then (matches + 1) as real / (possible + 1) as real
    else if possible > 0 then matches as real / possible as real
    else 0.0
  }

  lemma {:induction false} Fraction(a: nat, b: nat)
    requires a <= b && b > 0
    ensures 0.0 <= a as real / b as real <= 1.0 && (a as real / b as real == 1.0 <==> a == b)
  {
    var q := a as real / b as real;
    assert q * b as real == a as real;
    if q == 1.0 {
      assert a as real == b as real;
    }
    if q > 1.0 {
      MoreThan(q, b as real);
    }
  }

  lemma {:induction false} MoreThan(q: real, b: real)
    requires q > 1.0 && b > 0.0
    ensures q * b > b
  {
  }

  lemma {:induction false} PrecisionFits(m: nat, p: nat, smooth: bool)
    requires m <= p
    ensures 0.0 <= Precision(m, p, smooth) <= 1.0
    ensures p > 0 ==> (Precision(m, p, smooth) == 1.0 <==> m == p)
  {
    Fraction(m + 1, p + 1);
    if p > 0 {
      Fraction(m, p);
    }
  }

  // q is the precision: the quotient of matches and possible matches, 0 if nothing is possible, and
  // with smoothing the quotient of one more of each.
  ghost predicate IsPrecision(q: real, matches: nat, possible: nat, smooth: bool) {
    if smooth then q * (possible + 1) as real == (matches + 1) as real
    else if possible > 0 then q * possible as real == matches as real
    else q == 0.0
  }

  lemma {:induction false} PrecisionIs(matches: nat, possible: nat, smooth: bool)
    ensures IsPrecision(Precision(matches, possible, smooth), matches, possible, smooth)
  {
    if smooth {
      Quotient(matches + 1, possible + 1);
    } else if possible > 0 {
      Quotient(matches, possible);
    }
  }

  lemma {:induction false} Quotient(a: nat, b: nat)
    requires b > 0
    ensures a as real / b as real * b as real == a as real
  {
  }

  /** The loop over the orders. */
  method Precisions(matches: seq<nat>, possible: seq<nat>, smooth: bool) returns (precisions: seq<real>)
    requires |matches| == |possible|
    ensures |precisions| == |matches|
    ensures forall k :: 0 <= k < |matches| ==> IsPrecision(precisions[k], matches[k], possible[k], smooth)
  {
    hide IsPrecision;
    precisions := [];
    for i := 0 to |matches|
      invariant |precisions| == i
      invariant forall k :: 0 <= k < i ==> IsPrecision(precisions[k], matches[k], possible[k], smooth)
    {
      PrecisionIs(matches[i], possible[i], smooth);
      var q := 0.0;
      if smooth {
        q := (matches[i] + 1) as real / (possible[i] + 1) as real;
      } else if possible[i] > 0 {
        q := matches[i] as real / possible[i] as real;
      }
      assert q == Precision(matches[i], possible[i], smooth);
      precisions := precisions + [q];
    }
  }

  /** Main result. For every corpus and order the precision is between 0 and 1, smoothed or not; and if
      each translation is one of its references, all possible matches are matches. */
  lemma {:induction false} PrecisionInRange(references: seq<seq<Segment>>, translations: seq<Segment>, k: nat, n: nat, smooth: bool)
    requires n <= Pairs(references, translations)
    ensures var m, p := TotalMatches(references, translations, k, n), TotalPossible(references, translations, k, n);
            && m <= p && 0.0 <= Precision(m, p, smooth) <= 1.0
            && ((forall i :: 0 <= i < n ==> translations[i] in references[i]) ==> m == p && (p > 0 ==> Precision(m, p, smooth) == 1.0))
  {
    hide TotalMatches, TotalPossible, Precision;
    TotalsFit(references, translations, k, n);
    PrecisionFits(TotalMatches(references, translations, k, n), TotalPossible(references, translations, k, n), smooth);
  }

  lemma {:induction false} TotalsFit(references: seq<seq<Segment>>, translations: seq<Segment>, k: nat, n: nat)
    requires n <= Pairs(references, translations)
    ensures TotalMatches(references, translations, k, n) <= TotalPossible(references, translations, k, n)
    ensures (forall i :: 0 <= i < n ==> translations[i] in references[i]) ==>
              TotalMatches(references, translations, k, n) == TotalPossible(references, translations, k, n)
  {
    hide Matches, Possible;
    if n > 0 {
      TotalsFit(references, translations, k, n - 1);
      MatchesAtMostPossible(references[n - 1], translations[n - 1], k);
      if translations[n - 1] in references[n - 1] {
        OwnReference(references[n - 1], translations[n - 1], k);
      }
    }
  }

  // ---------- the loops ----------

  lemma {:induction false} WindowsNext(s: Segment, k: nat, i: nat)
    requires i + k <= |s|
    ensures multiset(Windows(s, k, i + 1)) == multiset(Windows(s, k, i)) + multiset{s[i..i + k]}
  {
    assert Windows(s, k, i + 1) == Windows(s, k, i) + [s[i..i + k]];
  }

  /** _get_ngrams. */
  method GetNgrams(segment: Segment, maxOrder: nat) returns (counts: Counter)
    ensures counts == AllGrams(segment, maxOrder)
    ensures CountsPositions(counts, segment, maxOrder)
  {
    hide Positions;
    counts := multiset{};
    for order := 1 to maxOrder + 1
      invariant counts == AllGrams(segment, order - 1)
    {
      ghost var before := counts;
      counts := CountOrder(segment, order, counts);
      assert AllGrams(segment, order) == before + Grams(segment, order);
    }
    forall g ensures counts[g] == if 1 <= |g| <= maxOrder then |Positions(segment, g)| else 0 {
      AllGramsAt(segment, maxOrder, g);
      GramsCount(segment, |g|, g);
    }
  }

  // The loop for one order.
  method CountOrder(segment: Segment, order: nat, counts0: Counter) returns (counts: Counter)
    requires order >= 1
    ensures counts == counts0 + Grams(segment, order)
  {
    hide Windows;
    var n := if |segment| - order + 1 > 0 then |segment| - order + 1 else 0;
    counts := counts0;
    assert multiset(Windows(segment, order, 0)) == multiset{};
    for i := 0 to n
      invariant counts == counts0 + multiset(Windows(segment, order, i))
    {
      var ngram := segment[i..i + order];
      WindowsNext(segment, order, i);
      counts := counts[ngram := counts[ngram] + 1];
      assert counts == counts0 + multiset(Windows(segment, order, i)) + multiset{ngram};
    }
  }

  method MergeReferences(references: seq<Segment>, maxOrder: nat) returns (merged: Counter)
    ensures merged == Merged(references, maxOrder)
  {
    hide CountsPositions;
    merged := multiset{};
    for i := 0 to |references|
      invariant merged == Merged(references[..i], maxOrder)
    {
      var counts := GetNgrams(references[i], maxOrder);
      merged := Union(merged, counts);
      assert references[..i + 1][..i] == references[..i];
    }
    assert references[..|references|] == references;
  }

  // Counts of k-grams among those n-grams of the overlap that have been looked at.
  ghost predicate Sorted(overlap: Counter, rest: set<seq<Word>>, parts: seq<Counter>) {
    forall k :: 0 <= k < |parts| ==> SortedPart(overlap, rest, parts[k], k)
  }

  ghost predicate SortedPart(overlap: Counter, rest: set<seq<Word>>, part: Counter, k: nat) {
    forall g :: part[g] == if |g| == k + 1 && g !in rest then overlap[g] else 0
  }

  lemma {:induction false} SortOne(overlap: Counter, rest: set<seq<Word>>, parts: seq<Counter>, g: seq<Word>)
    requires Sorted(overlap, rest, parts) && g in rest && 1 <= |g| <= |parts|
    ensures var k := |g| - 1;
            && parts[k][g] == 0
            && |parts[k][g := overlap[g]]| == |parts[k]| + overlap[g]
            && Sorted(overlap, rest - {g}, parts[k := parts[k][g := overlap[g]]])
  {
    var k := |g| - 1;
    var more := parts[k][g := overlap[g]];
    assert more == parts[k] + multiset{}[g := overlap[g]];
    var parts' := parts[k := more];
    forall i | 0 <= i < |parts| ensures SortedPart(overlap, rest - {g}, parts'[i], i) {
      assert SortedPart(overlap, rest, parts[i], i);
    }
  }

  lemma {:induction false} AllSorted(references: seq<Segment>, translation: Segment, parts: seq<Counter>, k: nat)
    requires Sorted(AllGrams(translation, |parts|) * Merged(references, |parts|), {}, parts) && 1 <= k <= |parts|
    ensures |parts[k - 1]| == Matches(references, translation, k)
  {
    hide Grams, MergedOf, AllGrams, Merged;
    var max, part, own := |parts|, parts[k - 1], Grams(translation, k) * MergedOf(references, k);
    assert SortedPart(AllGrams(translation, max) * Merged(references, max), {}, part, k - 1);
    forall g ensures part[g] == own[g] {
      AllGramsAt(translation, max, g);
      MergedAt(references, max, g);
      if |g| != k && g in own {
        WindowLength(translation, k, g);
      }
    }
    assert part == own;
  }

  // for ngram in overlap: matches_by_order[len(ngram)-1] += overlap[ngram]
  method AddMatches(references: seq<Segment>, translation: Segment, matches0: seq<nat>) returns (matches: seq<nat>)
    ensures |matches| == |matches0|
    ensures forall k :: 0 <= k < |matches| ==> matches[k] == matches0[k] + Matches(references, translation, k + 1)
  {
    hide Sorted, AllGrams, Merged, Matches, Grams, MergedOf, CountsPositions;
    var maxOrder := |matches0|;
    var merged := MergeReferences(references, maxOrder);
    var counts := GetNgrams(translation, maxOrder);
    var overlap := counts * merged;
    matches := matches0;
    var rest := set g | g in overlap;
    ghost var parts: seq<Counter> := seq(maxOrder, _ => multiset{});
    NothingSorted(overlap, rest, parts);
    while rest != {}
      invariant forall g :: g in rest ==> g in overlap
      invariant |matches| == |parts| == maxOrder && Sorted(overlap, rest, parts)
      invariant forall k :: 0 <= k < maxOrder ==> matches[k] == matches0[k] + |parts[k]|
      decreases |rest|
    {
      var ngram :| ngram in rest;
      assert ngram in counts;
      AllGramsAt(translation, maxOrder, ngram);
      SortOne(overlap, rest, parts, ngram);
      var k := |ngram| - 1;
      parts := parts[k := parts[k][ngram := overlap[ngram]]];
      matches := matches[k := matches[k] + overlap[ngram]];
      rest := rest - {ngram};
    }
    forall k | 0 <= k < maxOrder ensures matches[k] == matches0[k] + Matches(references, translation, k + 1) {
      AllSorted(references, translation, parts, k + 1);
    }
  }

  lemma {:induction false} NothingSorted(overlap: Counter, rest: set<seq<Word>>, parts: seq<Counter>)
    requires (forall g :: g in overlap <==> g in rest) && forall k :: 0 <= k < |parts| ==> parts[k] == multiset{}
    ensures Sorted(overlap, rest, parts)
  {
  }

  method AddPossible(translation: Segment, possible0: seq<nat>) returns (possible: seq<nat>)
    ensures |possible| == |possible0|
    ensures forall k :: 0 <= k < |possible| ==> possible[k] == possible0[k] + Possible(translation, k + 1)
  {
    possible := possible0;
    for order := 1 to |possible0| + 1
      invariant |possible| == |possible0|
      invariant forall k :: 0 <= k < order - 1 ==> possible[k] == possible0[k] + Possible(translation, k + 1)
      invariant forall k :: order - 1 <= k < |possible| ==> possible[k] == possible0[k]
    {
      var count := |translation| - order + 1;
      if count > 0 {
        possible := possible[order - 1 := possible[order - 1] + count];
      }
    }
  }

  /** The first loop of compute_bleu: for each order the clipped matches and the possible matches of the
      whole corpus. */
  method CountMatches(references: seq<seq<Segment>>, translations: seq<Segment>, maxOrder: nat) returns (matches: seq<nat>, possible: seq<nat>)
    ensures |matches| == |possible| == maxOrder
    ensures var n := Pairs(references, translations);
            forall k :: 0 <= k < maxOrder ==> matches[k] == TotalMatches(references, translations, k + 1, n)
                                               && possible[k] == TotalPossible(references, translations, k + 1, n)
  {
    hide Matches, Possible;
    matches := seq(maxOrder, _ => 0);
    possible := seq(maxOrder, _ => 0);
    for i := 0 to Pairs(references, translations)
      invariant |matches| == |possible| == maxOrder
      invariant forall k :: 0 <= k < maxOrder ==> matches[k] == TotalMatches(references, translations, k + 1, i)
                                                   && possible[k] == TotalPossible(references, translations, k + 1, i)
    {
      matches := AddMatches(references[i], translations[i], matches);
      possible := AddPossible(translations[i], possible);
    }
  }
}
