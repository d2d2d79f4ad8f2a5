/** `difflib.get_close_matches` with the similarity left abstract.

  The clinic code only ever calls it with a fixed count and a cutoff of 0.5.
  `SequenceMatcher.ratio()` is modelled as a function parameter `sim`, applied
  as `sim(candidate, word)` (difflib sets the candidate as the first sequence).
  What is modelled is the part difflib adds around the ratio: keep the
  candidates scoring at least the cutoff, then take the `n` largest
  `(score, candidate)` pairs, best first.
 */
module Fuzzy {
  import opened Wrappers
  import opened Text

  /** `SequenceMatcher(None, a, b).ratio()`, left abstract. */
  type Similarity = (string, string) -> real

  /** One `(score, candidate)` tuple of difflib's result list. */
  datatype Scored = Scored(score: real, name: string)

  /** Python's `<` on `(score, name)` tuples. */
  predicate Below(a: Scored, b: Scored) {
    a.score < b.score || (a.score == b.score && StrLess(a.name, b.name))
  }

  /** The candidates whose score reaches the cutoff, in candidate order. */
  function Qualified(word: string, candidates: seq<string>, cutoff: real, sim: Similarity): (r: seq<Scored>)
    ensures |r| <= |candidates|
    ensures forall j :: 0 <= j < |r| ==>
      r[j].name in candidates && r[j].score == sim(r[j].name, word) && r[j].score >= cutoff
    ensures forall x :: x in candidates && sim(x, word) >= cutoff ==> Scored(sim(x, word), x) in r
  {
    if candidates == [] then []
    else
      var x := candidates[0];
      var rest := Qualified(word, candidates[1..], cutoff, sim);
      if sim(x, word) >= cutoff then [Scored(sim(x, word), x)] + rest else rest
  }

  /** Position of a largest tuple of `items[from..]` (the first such in a tie
      on the whole tuple). */
  function MaxIndexFrom(items: seq<Scored>, from: nat): (k: nat)
    requires from < |items|
    ensures from <= k < |items|
    ensures forall i :: from <= i < |items| ==> items[i].score <= items[k].score
    decreases |items| - from
  {
    if from == |items| - 1 then from
    else
      var m := MaxIndexFrom(items, from + 1);
      if Below(items[from], items[m]) then m else from
  }

  /** Position of a largest tuple of `items`. */
  function MaxIndex(items: seq<Scored>): (k: nat)
    requires items != []
    ensures k < |items|
    ensures forall i :: 0 <= i < |items| ==> items[i].score <= items[k].score
  {
    MaxIndexFrom(items, 0)
  }

  /** Where the `i`-th element of `RemoveAt(items, k)` sits in `items`. */
  function Skip(i: nat, k: nat): nat {
    if i < k then i else i + 1
  }

  /** `items` without its `k`-th element. */
  function RemoveAt<T>(items: seq<T>, k: nat): (r: seq<T>)
    requires k < |items|
    ensures |r| == |items| - 1
    ensures forall i :: 0 <= i < |r| ==> r[i] == items[Skip(i, k)]
  {
    seq(|items| - 1, i requires 0 <= i < |items| - 1 => items[Skip(i, k)])
  }

  /** `heapq.nlargest(n, items)`: repeatedly take a largest remaining tuple,
      ties on the score broken by the name as `Below` orders them, so the
      result agrees with Python's up to the order of identical tuples. */
  function Largest(items: seq<Scored>, n: nat): (r: seq<Scored>)
    ensures |r| == if n < |items| then n else |items|
    decreases n
  {
    if n == 0 || items == [] then []
    else
      var k := MaxIndex(items);
      [items[k]] + Largest(RemoveAt(items, k), n - 1)
  }

  /** One step of `Largest`: a best tuple, then the largest of the rest. */
  lemma LargestStep(items: seq<Scored>, n: nat)
    requires n > 0 && items != []
    ensures var k := MaxIndex(items);
      Largest(items, n) == [items[k]] + Largest(RemoveAt(items, k), n - 1)
  {
  }

  /** Where the `j`-th tuple of `Largest(items, n)` was taken from: `Largest`
      draws its tuples from `items`. */
  function Origin(items: seq<Scored>, n: nat, j: nat): (i: nat)
    requires j < |Largest(items, n)|
    ensures i < |items| && items[i] == Largest(items, n)[j]
    decreases n
  {
    var k := MaxIndex(items);
    LargestStep(items, n);
    if j == 0 then k
    else Skip(Origin(RemoveAt(items, k), n - 1, j - 1), k)
  }

  /** `Largest` draws its tuples from `items`. */
  lemma LargestFrom(items: seq<Scored>, n: nat)
    ensures forall j :: 0 <= j < |Largest(items, n)| ==> Largest(items, n)[j] in items
  {
    forall j | 0 <= j < |Largest(items, n)|
      ensures Largest(items, n)[j] in items
    {
      var i := Origin(items, n, j);
    }
  }

  /** The first tuple of `Largest` scores at least as much as every tuple of
      `items`. */
  lemma LargestHead(items: seq<Scored>, n: nat)
    requires Largest(items, n) != []
    ensures forall i :: 0 <= i < |items| ==> items[i].score <= Largest(items, n)[0].score
  {
  }

  /** `Largest` lists its tuples best first. */
  lemma {:induction false} LargestSorted(items: seq<Scored>, n: nat)
    ensures var r := Largest(items, n);
      forall j :: 0 < j < |r| ==> r[j].score <= r[j - 1].score
    decreases n
  {
    if n > 0 && items != [] {
      var k := MaxIndex(items);
      var rest := RemoveAt(items, k);
      var tail := Largest(rest, n - 1);
      var r := Largest(items, n);
      LargestStep(items, n);
      LargestSorted(rest, n - 1);
      if tail != [] {
        var m := MaxIndex(rest);
        LargestStep(rest, n - 1);
        assert tail[0] == rest[m] == items[Skip(m, k)];
      }
      forall j | 0 < j < |r|
        ensures r[j].score <= r[j - 1].score
      {
        if j > 1 {
          assert r[j] == tail[j - 1] && r[j - 1] == tail[j - 2];
        }
      }
    }
  }

  function Names(items: seq<Scored>): (r: seq<string>)
    ensures |r| == |items|
    ensures forall j :: 0 <= j < |r| ==> r[j] == items[j].name
  {
    seq(|items|, j requires 0 <= j < |items| => items[j].name)
  }

  /** `difflib.get_close_matches(word, candidates, n, cutoff)`. */
  function CloseMatches(word: string, candidates: seq<string>, n: nat, cutoff: real, sim: Similarity): seq<string> {
    Names(Largest(Qualified(word, candidates, cutoff, sim), n))
  }

  /** Number of candidates scoring at least `cutoff`, duplicates included. */
  function CountQualifying(word: string, candidates: seq<string>, cutoff: real, sim: Similarity): nat {
    if candidates == [] then 0
    else (if sim(candidates[0], word) >= cutoff then 1 else 0) + CountQualifying(word, candidates[1..], cutoff, sim)
  }

  /** The qualifying list has one entry per qualifying candidate. */
  lemma {:induction false} QualifiedCount(word: string, candidates: seq<string>, cutoff: real, sim: Similarity)
    ensures |Qualified(word, candidates, cutoff, sim)| == CountQualifying(word, candidates, cutoff, sim)
  {
    if candidates != [] {
      QualifiedCount(word, candidates[1..], cutoff, sim);
    }
  }

  /** Every tuple left out of `Largest` scores no more than any tuple it keeps. */
  lemma {:induction false} LargestKeepsTheBest(items: seq<Scored>, n: nat, i: nat, j: nat)
    requires i < |items|
    requires j < |Largest(items, n)|
    requires items[i] !in Largest(items, n)
    ensures items[i].score <= Largest(items, n)[j].score
    decreases n
  {
    var k := MaxIndex(items);
    var rest := RemoveAt(items, k);
    var tail := Largest(rest, n - 1);
    LargestStep(items, n);
    if j == 0 {
      assert Largest(items, n)[0] == items[k];
    } else {
      assert i != k by {
        assert Largest(items, n)[0] == items[k];
      }
      var i' := if i < k then i else i - 1;
      assert rest[i'] == items[i] by {
        assert Skip(i', k) == i;
      }
      NotInTail(items[k], tail, items[i]);
      assert Largest(items, n)[j] == tail[j - 1];
      LargestKeepsTheBest(rest, n - 1, i', j - 1);
    }
  }

  lemma NotInTail(head: Scored, tail: seq<Scored>, x: Scored)
    requires x !in [head] + tail
    ensures x !in tail
  {
  }

  /** What `get_close_matches` promises for any count and cutoff: at most `n`
      results, all of them qualifying candidates, best first; none exactly
      when no candidate qualifies; and a first result no candidate beats. */
  lemma {:induction false} CloseMatchesShape(word: string, candidates: seq<string>, n: nat, cutoff: real, sim: Similarity, r: seq<string>)
    requires r == CloseMatches(word, candidates, n, cutoff, sim)
    ensures var c := CountQualifying(word, candidates, cutoff, sim);
      |r| == if c < n then c else n
    ensures forall j :: 0 <= j < |r| ==> r[j] in candidates && sim(r[j], word) >= cutoff
    ensures n > 0 ==> (r == [] <==> forall x :: x in candidates ==> sim(x, word) < cutoff)
    ensures forall j :: 0 < j < |r| ==> sim(r[j], word) <= sim(r[j - 1], word)
    ensures r != [] ==> forall x :: x in candidates ==> sim(x, word) <= sim(r[0], word)
  {
    var q := Qualified(word, candidates, cutoff, sim);
    var top := Largest(q, n);
    CloseMatchesCount(word, candidates, n, cutoff, sim, q, top, r);
    CloseMatchesFrom(word, candidates, n, cutoff, sim, q, top, r);
    CloseMatchesNone(word, candidates, n, cutoff, sim, q, top, r);
    CloseMatchesSorted(word, candidates, n, cutoff, sim, q, top, r);
    if r != [] {
      CloseMatchesBest(word, candidates, n, cutoff, sim, q, top, r);
    }
  }

  lemma CloseMatchesCount(word: string, candidates: seq<string>, n: nat, cutoff: real, sim: Similarity,
                          q: seq<Scored>, top: seq<Scored>, r: seq<string>)
    requires q == Qualified(word, candidates, cutoff, sim) && top == Largest(q, n) && r == Names(top)
    ensures var c := CountQualifying(word, candidates, cutoff, sim);
      |r| == if c < n then c else n
  {
    QualifiedCount(word, candidates, cutoff, sim);
  }

  lemma CloseMatchesNone(word: string, candidates: seq<string>, n: nat, cutoff: real, sim: Similarity,
                         q: seq<Scored>, top: seq<Scored>, r: seq<string>)
    requires q == Qualified(word, candidates, cutoff, sim) && top == Largest(q, n) && r == Names(top)
    ensures n > 0 ==> (r == [] <==> forall x :: x in candidates ==> sim(x, word) < cutoff)
  {
    if n > 0 && r == [] {
      assert q == [];
    }
    if n > 0 && r != [] {
      assert top[0] == q[Origin(q, n, 0)];
    }
  }

  lemma CloseMatchesSorted(word: string, candidates: seq<string>, n: nat, cutoff: real, sim: Similarity,
                           q: seq<Scored>, top: seq<Scored>, r: seq<string>)
    requires q == Qualified(word, candidates, cutoff, sim) && top == Largest(q, n) && r == Names(top)
    ensures forall j :: 0 < j < |r| ==> sim(r[j], word) <= sim(r[j - 1], word)
  {
    LargestSorted(q, n);
    forall j | 0 < j < |r|
      ensures sim(r[j], word) <= sim(r[j - 1], word)
    {
      assert top[j] == q[Origin(q, n, j)];
      assert top[j - 1] == q[Origin(q, n, j - 1)];
    }
  }

  lemma {:induction false} CloseMatchesFrom(word: string, candidates: seq<string>, n: nat, cutoff: real, sim: Similarity,
                                            q: seq<Scored>, top: seq<Scored>, r: seq<string>)
    requires q == Qualified(word, candidates, cutoff, sim) && top == Largest(q, n) && r == Names(top)
    ensures forall j :: 0 <= j < |r| ==> r[j] in candidates && sim(r[j], word) >= cutoff
  {
    forall j | 0 <= j < |r|
      ensures r[j] in candidates && sim(r[j], word) >= cutoff
    {
      assert top[j] == q[Origin(q, n, j)];
    }
  }

  lemma {:induction false} CloseMatchesBest(word: string, candidates: seq<string>, n: nat, cutoff: real, sim: Similarity,
                                            q: seq<Scored>, top: seq<Scored>, r: seq<string>)
    requires q == Qualified(word, candidates, cutoff, sim) && top == Largest(q, n) && r == Names(top)
    requires r != []
    ensures forall x :: x in candidates ==> sim(x, word) <= sim(r[0], word)
  {
    LargestHead(q, n);
    assert top[0] == q[Origin(q, n, 0)];
    forall x | x in candidates
      ensures sim(x, word) <= sim(r[0], word)
    {
      if sim(x, word) >= cutoff {
        assert Scored(sim(x, word), x) in q;
      }
    }
  }

  /** `generate_suggestions`: at most three close matches with cutoff 0.5. */
  function Suggestions(word: string, candidates: seq<string>, sim: Similarity): (r: seq<string>)
    ensures var c := CountQualifying(word, candidates, 0.5, sim);
      |r| == if c < 3 then c else 3
    ensures forall j :: 0 <= j < |r| ==> r[j] in candidates && sim(r[j], word) >= 0.5
    ensures r == [] <==> forall x :: x in candidates ==> sim(x, word) < 0.5
    ensures forall j :: 0 < j < |r| ==> sim(r[j], word) <= sim(r[j - 1], word)
  {
    var r := CloseMatches(word, candidates, 3, 0.5, sim);
    CloseMatchesShape(word, candidates, 3, 0.5, sim, r);
    r
  }

  /** `match_patient_name`: the single best close match, or `None`. */
  function BestMatch(word: string, candidates: seq<string>, sim: Similarity): (r: Option<string>)
    ensures r.None? <==> forall x :: x in candidates ==> sim(x, word) < 0.5
    ensures r.Some? ==> r.value in candidates && sim(r.value, word) >= 0.5
    ensures r.Some? ==> forall x :: x in candidates ==> sim(x, word) <= sim(r.value, word)
  {
    var matches := CloseMatches(word, candidates, 1, 0.5, sim);
    CloseMatchesShape(word, candidates, 1, 0.5, sim, matches);
    if matches != [] then Some(matches[0]) else None
  }
}
