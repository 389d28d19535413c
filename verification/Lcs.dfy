/** Longest common subsequences as in rouge.py: the table, its length entry, and the reconstruction. */
module Lcs {

  // The elements of s are found in x, at these rising positions.
  ghost predicate Picks(s: seq<Word>, x: seq<Word>, at: seq<nat>) {
    && |at| == |s|
    && (forall k :: 0 <= k < |s| ==> at[k] < |x| && x[at[k]] == s[k])
    && (forall k, l :: 0 <= k < l < |s| ==> at[k] < at[l])
  }

  ghost predicate Subsequence(s: seq<Word>, x: seq<Word>) {
    exists at :: Picks(s, x, at)
  }

  ghost predicate Common(s: seq<Word>, x: seq<Word>, y: seq<Word>) {
    Subsequence(s, x) && Subsequence(s, y)
  }

  // len is the greatest length of a common subsequence.
  ghost predicate Longest(x: seq<Word>, y: seq<Word>, len: nat) {
    && (exists s :: Common(s, x, y) && |s| == len)
    && (forall s :: Common(s, x, y) ==> |s| <= len)
  }

  type Word = string

  type Table = map<(nat, nat), nat>

  // The recurrence that the loops of _lcs follow.
  function Entry(x: seq<Word>, y: seq<Word>, i: nat, j: nat): nat
    requires i <= |x| && j <= |y|
  {
    if i == 0 || j == 0 then 0
    else if x[i - 1] == y[j - 1] then Entry(x, y, i - 1, j - 1) + 1
    else Max(Entry(x, y, i - 1, j), Entry(x, y, i, j - 1))
  }

  function Max(a: nat, b: nat): nat { if a < b then b else a }

  ghost predicate Complete(x: seq<Word>, y: seq<Word>, table: Table) {
    forall i: nat, j: nat :: i <= |x| && j <= |y| ==> (i, j) in table && table[(i, j)] == Entry(x, y, i, j)
  }

  function Reconstruct(x: seq<Word>, y: seq<Word>, table: Table, i: nat, j: nat): seq<(Word, nat)>
    requires i <= |x| && j <= |y| && Complete(x, y, table)
  {
    if i == 0 || j == 0 then []
    else if x[i - 1] == y[j - 1] then Reconstruct(x, y, table, i - 1, j - 1) + [(x[i - 1], i)]
    else if table[(i - 1, j)] > table[(i, j - 1)] then Reconstruct(x, y, table, i - 1, j)
    else Reconstruct(x, y, table, i, j - 1)
  }

  function Words(pairs: seq<(Word, nat)>): (words: seq<Word>)
    ensures |words| == |pairs| && forall k :: 0 <= k < |words| ==> words[k] == pairs[k].0
  {
    seq(|pairs|, k requires 0 <= k < |pairs| => pairs[k].0)
  }

  // ---------- no common subsequence is longer ----------

  // A subsequence that does not use the last element.
  lemma {:induction false} Shorter(s: seq<Word>, x: seq<Word>, at: seq<nat>)
    requires x != [] && Picks(s, x, at) && (s == [] || at[|s| - 1] < |x| - 1)
    ensures Subsequence(s, x[..|x| - 1])
  {
    var w := x[..|x| - 1];
    forall k | 0 <= k < |s| ensures at[k] < |w| && w[at[k]] == s[k] {
      assert k < |s| - 1 ==> at[k] < at[|s| - 1];
    }
    assert Picks(s, w, at);
  }

  lemma {:induction false} Init(s: seq<Word>, x: seq<Word>)
    requires x != [] && s != [] && Subsequence(s, x)
    ensures Subsequence(s[..|s| - 1], x[..|x| - 1])
  {
    var at :| Picks(s, x, at);
    var k := |s| - 1;
    assert Picks(s[..k], x, at[..k]);
    assert k > 0 ==> at[k - 1] < at[k];
    Shorter(s[..k], x, at[..k]);
  }

  /** No common subsequence is longer than the recurrence says. */
  lemma {:induction false} AtMost(x: seq<Word>, y: seq<Word>, i: nat, j: nat, s: seq<Word>)
    requires i <= |x| && j <= |y| && Common(s, x[..i], y[..j])
    ensures |s| <= Entry(x, y, i, j)
    decreases i + j
  {
    hide Subsequence;
    if s != [] {
      NonEmpty(s, x[..i]);
      NonEmpty(s, y[..j]);
      assert x[..i][..i - 1] == x[..i - 1] && y[..j][..j - 1] == y[..j - 1];
      if x[i - 1] == y[j - 1] {
        Init(s, x[..i]);
        Init(s, y[..j]);
        AtMost(x, y, i - 1, j - 1, s[..|s| - 1]);
      } else if s[|s| - 1] != x[i - 1] {
        LastUnused(s, x[..i]);
        AtMost(x, y, i - 1, j, s);
      } else {
        LastUnused(s, y[..j]);
        AtMost(x, y, i, j - 1, s);
      }
    }
  }

  lemma {:induction false} NonEmpty(s: seq<Word>, x: seq<Word>)
    requires s != [] && Subsequence(s, x)
    ensures x != []
  {
    var at :| Picks(s, x, at);
    assert at[0] < |x|;
  }

  lemma {:induction false} LastUnused(s: seq<Word>, x: seq<Word>)
    requires x != [] && s != [] && Subsequence(s, x) && s[|s| - 1] != x[|x| - 1]
    ensures Subsequence(s, x[..|x| - 1])
  {
    var at :| Picks(s, x, at);
    assert x[at[|s| - 1]] == s[|s| - 1];
    Shorter(s, x, at);
  }

  // ---------- the reconstruction is one of that length ----------

  lemma {:induction false} Extend(s: seq<Word>, x: seq<Word>, i: nat, a: Word)
    requires 0 < i <= |x| && Subsequence(s, x[..i - 1]) && x[i - 1] == a
    ensures Subsequence(s + [a], x[..i])
  {
    var last: nat := i - 1;
    var at: seq<nat> :| Picks(s, x[..last], at);
    assert forall k :: 0 <= k < |s| ==> x[..last][at[k]] == x[..i][at[k]];
    assert Picks(s + [a], x[..i], at + [last]);
  }

  lemma {:induction false} Widen(s: seq<Word>, x: seq<Word>, i: nat)
    requires 0 < i <= |x| && Subsequence(s, x[..i - 1])
    ensures Subsequence(s, x[..i])
  {
    var at :| Picks(s, x[..i - 1], at);
    assert forall k :: 0 <= k < |s| ==> x[..i - 1][at[k]] == x[..i][at[k]];
    assert Picks(s, x[..i], at);
  }

  lemma {:induction false} Nothing(x: seq<Word>)
    ensures Subsequence([], x)
  {
    assert Picks([], x, []);
  }

  /** The words that _recon puts together are a common subsequence of the two prefixes, of the length
      that the table holds. */
  lemma {:induction false} ReconstructIsCommon(x: seq<Word>, y: seq<Word>, table: Table, i: nat, j: nat)
    requires i <= |x| && j <= |y| && Complete(x, y, table)
    ensures var words := Words(Reconstruct(x, y, table, i, j));
            Common(words, x[..i], y[..j]) && |words| == table[(i, j)]
    decreases i + j
  {
    hide Subsequence;
    var words := Words(Reconstruct(x, y, table, i, j));
    if i == 0 || j == 0 {
      assert words == [];
      Nothing(x[..i]);
      Nothing(y[..j]);
    } else if x[i - 1] == y[j - 1] {
      ReconstructIsCommon(x, y, table, i - 1, j - 1);
      var fewer := Words(Reconstruct(x, y, table, i - 1, j - 1));
      assert words == fewer + [x[i - 1]];
      Extend(fewer, x, i, x[i - 1]);
      Extend(fewer, y, j, x[i - 1]);
    } else if table[(i - 1, j)] > table[(i, j - 1)] {
      ReconstructIsCommon(x, y, table, i - 1, j);
      Widen(words, x, i);
    } else {
      ReconstructIsCommon(x, y, table, i, j - 1);
      Widen(words, y, j);
    }
  }

  // Each word comes with its position in the first i words of x, counted from 1; positions rise.
  ghost predicate Placed(pairs: seq<(Word, nat)>, x: seq<Word>, i: nat) {
    && i <= |x|
    && (forall k :: 0 <= k < |pairs| ==> 1 <= pairs[k].1 <= i && x[pairs[k].1 - 1] == pairs[k].0)
    && (forall k, l :: 0 <= k < l < |pairs| ==> pairs[k].1 < pairs[l].1)
  }

  lemma {:induction false} PlaceOneMore(pairs: seq<(Word, nat)>, x: seq<Word>, i: nat)
    requires 0 < i <= |x| && Placed(pairs, x, i - 1)
    ensures Placed(pairs, x, i) && Placed(pairs + [(x[i - 1], i)], x, i)
  {
  }

  /** The positions that _recon returns beside the words are right. */
  lemma {:induction false} ReconstructPlaces(x: seq<Word>, y: seq<Word>, table: Table, i: nat, j: nat)
    requires i <= |x| && j <= |y| && Complete(x, y, table)
    ensures Placed(Reconstruct(x, y, table, i, j), x, i)
    decreases i + j
  {
    if i == 0 || j == 0 {
    } else if x[i - 1] == y[j - 1] {
      hide Placed;
      ReconstructPlaces(x, y, table, i - 1, j - 1);
      PlaceOneMore(Reconstruct(x, y, table, i - 1, j - 1), x, i);
    } else if table[(i - 1, j)] > table[(i, j - 1)] {
      hide Placed;
      ReconstructPlaces(x, y, table, i - 1, j);
      PlaceOneMore(Reconstruct(x, y, table, i - 1, j), x, i);
    } else {
      hide Placed;
      ReconstructPlaces(x, y, table, i, j - 1);
    }
  }

  lemma {:induction false} EntryIsLongest(x: seq<Word>, y: seq<Word>, table: Table, i: nat, j: nat)
    requires i <= |x| && j <= |y| && Complete(x, y, table)
    ensures Longest(x[..i], y[..j], table[(i, j)])
  {
    hide Common;
    ReconstructIsCommon(x, y, table, i, j);
    forall s | Common(s, x[..i], y[..j]) ensures |s| <= table[(i, j)] {
      AtMost(x, y, i, j, s);
    }
  }

  // ---------- the loops ----------

  /** _lcs: the entries are those of the recurrence, and that makes each the greatest length of a common
      subsequence of the two prefixes. */
  method FillTable(x: seq<Word>, y: seq<Word>) returns (table: Table)
    ensures Complete(x, y, table) && forall key :: key in table ==> key.0 <= |x| && key.1 <= |y|
    ensures forall i, j :: 0 <= i <= |x| && 0 <= j <= |y| ==> Longest(x[..i], y[..j], table[(i, j)])
  {
    hide Longest;
    var n, m := |x|, |y|;
    table := map[];
    for i := 0 to n + 1
      invariant forall key :: key in table <==> key.0 < i && key.1 <= m
      invariant forall key :: key in table ==> table[key] == Entry(x, y, key.0, key.1)
    {
      for j := 0 to m + 1
        invariant forall key :: key in table <==> (key.0 < i && key.1 <= m) || (key.0 == i && key.1 < j)
        invariant forall key :: key in table ==> table[key] == Entry(x, y, key.0, key.1)
      {
        if i == 0 || j == 0 {
          table := table[(i, j) := 0];
        } else if x[i - 1] == y[j - 1] {
          table := table[(i, j) := table[(i - 1, j - 1)] + 1];
        } else {
          table := table[(i, j) := Max(table[(i - 1, j)], table[(i, j - 1)])];
        }
      }
    }
    forall i: nat, j: nat | i <= n && j <= m ensures Longest(x[..i], y[..j], table[(i, j)]) {
      EntryIsLongest(x, y, table, i, j);
    }
  }

  method LengthOfLcs(x: seq<Word>, y: seq<Word>) returns (len: nat)
    ensures Longest(x, y, len)
  {
    var table := FillTable(x, y);
    len := table[(|x|, |y|)];
    assert x[..|x|] == x && y[..|y|] == y;
  }

  /** _recon_lcs: a common subsequence of both, and none is longer. */
  method ReconstructLcs(x: seq<Word>, y: seq<Word>) returns (words: seq<Word>)
    ensures Common(words, x, y) && Longest(x, y, |words|)
  {
    var table := FillTable(x, y);
    words := Words(Reconstruct(x, y, table, |x|, |y|));
    ReconstructIsCommon(x, y, table, |x|, |y|);
    assert x[..|x|] == x && y[..|y|] == y;
  }
}
