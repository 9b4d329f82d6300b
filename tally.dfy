/** Reading the chain back: per-candidate totals over the non-genesis blocks,
    and the winner or tie among the candidates with the most votes. */
module ElectionResults {
  import opened Blocks

  /** Every block after the genesis block has a first vote to read. */
  predicate BallotsReadable(chain: seq<Block>)
  {
    forall i :: 1 <= i < |chain| ==> |chain[i].votes| >= 1
  }

  /** The candidate of each non-genesis block's first vote, in chain order. */
  function Ballots(chain: seq<Block>): (cs: seq<string>)
    requires BallotsReadable(chain)
    ensures |cs| == if |chain| == 0 then 0 else |chain| - 1
    ensures forall i :: 0 <= i < |cs| ==> cs[i] == chain[i + 1].votes[0].candidate
  {
    if |chain| <= 1 then []
    else seq(|chain| - 1, i requires 0 <= i < |chain| - 1 => chain[i + 1].votes[0].candidate)
  }

  /** Go's `m[c]++` on a map of ints: a missing key counts from zero. */
  function Inc(m: map<string, int>, c: string): map<string, int>
  {
    m[c := (if c in m then m[c] else 0) + 1]
  }

  /** The counts of each name in cs, accumulated in order. */
  function Counts(cs: seq<string>): map<string, int>
  {
    if cs == [] then map[]
    else
      var n := |cs| - 1;
      Inc(Counts(cs[..n]), cs[n])
  }

  /** The names counted are those of cs, each as often as it occurs. */
  lemma {:induction false} CountsSpec(cs: seq<string>)
    ensures forall c :: c in Counts(cs) <==> c in cs
    ensures forall c :: c in Counts(cs) ==> Counts(cs)[c] == multiset(cs)[c]
  {
    if cs != [] {
      var n := |cs| - 1;
      CountsSpec(cs[..n]);
      assert cs == cs[..n] + [cs[n]];
    }
  }

  lemma CountsStep(cs: seq<string>, i: nat)
    requires 0 < i <= |cs|
    ensures Counts(cs[..i]) == Inc(Counts(cs[..i - 1]), cs[i - 1])
  {
    assert cs[..i][..i - 1] == cs[..i - 1];
  }

  /** The results map: how many non-genesis blocks name each candidate. */
  function Tally(chain: seq<Block>): map<string, int>
    requires BallotsReadable(chain)
  {
    Counts(Ballots(chain))
  }

  /** The first loop of CalculateElectionResults: one increment per block
      from index 1 on. */
  method CountBallots(chain: seq<Block>) returns (results: map<string, int>)
    requires BallotsReadable(chain)
    ensures results == Tally(chain)
  {
    results := map[];
    ghost var cs := Ballots(chain);
    var i := 1;
    while i < |chain|
      invariant 1 <= i <= |cs| + 1
      invariant results == Counts(cs[..i - 1])
    {
      var candidate := chain[i].votes[0].candidate;
      assert candidate == cs[i - 1];
      CountsStep(cs, i);
      results := results[candidate := (if candidate in results then results[candidate] else 0) + 1];
      assert results == Inc(Counts(cs[..i - 1]), cs[i - 1]);
      i := i + 1;
    }
    assert cs[..i - 1] == cs;
  }

  /** An arbitrary key, fixed once so that Sum and its lemmas agree on it. */
  ghost function Pick(m: map<string, int>): (k: string)
    requires m != map[]
    ensures k in m
  {
    var k :| k in m; k
  }

  /** The sum of all values of m. */
  ghost function Sum(m: map<string, int>): int
    decreases |m|
  {
    if m == map[] then 0
    else
      var k := Pick(m);
      assert (m - {k}).Keys == m.Keys - {k};
      m[k] + Sum(m - {k})
  }

  /** The sum does not depend on which key is taken out first. */
  lemma {:induction false} SumRemove(m: map<string, int>, k: string)
    requires k in m
    ensures Sum(m) == m[k] + Sum(m - {k})
    decreases |m|
  {
    var j := Pick(m);
    if j != k {
      assert (m - {j}).Keys == m.Keys - {j};
      assert (m - {k}).Keys == m.Keys - {k};
      SumRemove(m - {j}, k);
      SumRemove(m - {k}, j);
      assert m - {j} - {k} == m - {k} - {j};
    }
  }

  lemma SumInc(m: map<string, int>, c: string)
    ensures Sum(Inc(m, c)) == Sum(m) + 1
  {
    SumRemove(Inc(m, c), c);
    if c in m {
      SumRemove(m, c);
      assert Inc(m, c) - {c} == m - {c};
    } else {
      assert Inc(m, c) - {c} == m;
    }
  }

  /** All counts together add up to the number of ballots. */
  lemma {:induction false} SumOfCounts(cs: seq<string>)
    ensures Sum(Counts(cs)) == |cs|
  {
    if cs != [] {
      var n := |cs| - 1;
      SumOfCounts(cs[..n]);
      SumInc(Counts(cs[..n]), cs[n]);
    }
  }

  /** A candidate has a ballot exactly when some non-genesis block names it. */
  lemma BallotsMembership(chain: seq<Block>, c: string)
    requires BallotsReadable(chain)
    ensures c in Ballots(chain) <==> exists i :: 1 <= i < |chain| && chain[i].votes[0].candidate == c
  {
    var cs := Ballots(chain);
    if c in cs {
      var k :| 0 <= k < |cs| && cs[k] == c;
      assert chain[k + 1].votes[0].candidate == c;
    }
    if exists i :: 1 <= i < |chain| && chain[i].votes[0].candidate == c {
      var i :| 1 <= i < |chain| && chain[i].votes[0].candidate == c;
      assert cs[i - 1] == c;
    }
  }

  /** Tally counts, stated against the chain: a candidate is a key exactly
      when some non-genesis block names it, its count is the number of such
      blocks (at least one), and the counts add up to the number of
      non-genesis blocks. */
  lemma TallyCounts(chain: seq<Block>)
    requires BallotsReadable(chain)
    ensures forall c :: c in Tally(chain) <==> exists i :: 1 <= i < |chain| && chain[i].votes[0].candidate == c
    ensures forall c :: c in Tally(chain) ==> Tally(chain)[c] == multiset(Ballots(chain))[c] >= 1
    ensures Sum(Tally(chain)) == if |chain| == 0 then 0 else |chain| - 1
  {
    CountsSpec(Ballots(chain));
    forall c
      ensures c in Tally(chain) <==> exists i :: 1 <= i < |chain| && chain[i].votes[0].candidate == c
    {
      BallotsMembership(chain, c);
    }
    SumOfCounts(Ballots(chain));
  }

  /** x is the largest value of m, or 0 when no value is positive: what the
      winner loop's `maxVotes`, started at 0, ends as. */
  ghost predicate IsTop(m: map<string, int>, x: int)
  {
    && x >= 0
    && (forall k :: k in m ==> m[k] <= x)
    && (x > 0 ==> exists k :: k in m && m[k] == x)
  }

  ghost function Top(m: map<string, int>): (x: int)
    ensures IsTop(m, x)
    decreases |m|
  {
    if m == map[] then 0
    else
      var k := Pick(m);
      assert (m - {k}).Keys == m.Keys - {k};
      var r := Top(m - {k});
      assert forall j :: j in m && j != k ==> j in m - {k} && (m - {k})[j] == m[j];
      if m[k] > r then m[k] else r
  }

  lemma TopUnique(m: map<string, int>, x: int, y: int)
    requires IsTop(m, x) && IsTop(m, y)
    ensures x == y
  {
  }

  /** The candidates whose count equals the top count. */
  ghost function TieSet(m: map<string, int>): set<string>
  {
    set k | k in m && m[k] == Top(m)
  }

  /** "Tie" when several candidates share the top count; the one candidate
      holding a positive top count otherwise; "" when nobody has a vote. */
  ghost function Winner(m: map<string, int>): string
  {
    var t := TieSet(m);
    if |t| > 1 then "Tie"
    else if Top(m) > 0 then (assert m[Pick(m)] <= Top(m); var w :| w in t; w)
    else ""
  }

  /** No element occurs twice. */
  predicate NoDuplicates<T(==)>(s: seq<T>)
  {
    forall i, j :: 0 <= i < j < |s| ==> s[i] != s[j]
  }

  lemma {:induction false} DistinctCardinality<T>(s: seq<T>)
    requires NoDuplicates(s)
    ensures |set x | x in s| == |s|
  {
    if s != [] {
      var n := |s| - 1;
      DistinctCardinality(s[..n]);
      assert (set x | x in s) == (set x | x in s[..n]) + {s[n]};
      assert s[n] !in (set x | x in s[..n]);
    }
  }

  /** A set of one element holds nothing else. */
  lemma Singleton(t: set<string>, a: string, b: string)
    requires |t| == 1 && a in t && b in t
    ensures a == b
  {
    assert |t - {a}| == 0;
    assert b in t - {a} || b == a;
  }

  /** The second loop of CalculateElectionResults. Go visits map entries in an
      unspecified order; here each step takes any key not yet visited, so the
      contract holds for every visiting order. */
  method FindWinner(results: map<string, int>) returns (winner: string, tieCandidates: seq<string>)
    ensures winner == Winner(results)
    ensures forall c :: c in tieCandidates <==> c in TieSet(results)
    ensures NoDuplicates(tieCandidates) && |tieCandidates| == |TieSet(results)|
  {
    winner := "";
    var maxVotes := 0;
    tieCandidates := [];
    var remaining := results.Keys;
    while remaining != {}
      invariant remaining <= results.Keys
      invariant maxVotes >= 0
      invariant forall k :: k in results && k !in remaining ==> results[k] <= maxVotes
      invariant maxVotes > 0 ==> winner in results && winner !in remaining && results[winner] == maxVotes
      invariant maxVotes == 0 ==> winner == ""
      invariant forall c :: c in tieCandidates <==> c in results && c !in remaining && results[c] == maxVotes
      invariant NoDuplicates(tieCandidates)
      invariant maxVotes > 0 ==> |tieCandidates| > 0 && tieCandidates[0] == winner
      decreases remaining
    {
      var candidate :| candidate in remaining;
      var votes := results[candidate];
      if votes > maxVotes {
        maxVotes := votes;
        winner := candidate;
        tieCandidates := [candidate];
      } else if votes == maxVotes {
        tieCandidates := tieCandidates + [candidate];
      }
      remaining := remaining - {candidate};
    }
    assert IsTop(results, maxVotes);
    TopUnique(results, maxVotes, Top(results));
    assert (set x | x in tieCandidates) == TieSet(results);
    DistinctCardinality(tieCandidates);
    if |tieCandidates| > 1 {
      winner := "Tie";
    } else if maxVotes > 0 {
      ghost var w :| w in TieSet(results) && Winner(results) == w;
      Singleton(TieSet(results), w, tieCandidates[0]);
    }
  }

  /** With no accepted votes there is neither a winner nor a tie. */
  lemma NoVotesNoWinner(chain: seq<Block>)
    requires |chain| <= 1
    ensures Tally(chain) == map[]
    ensures TieSet(Tally(chain)) == {} && Winner(Tally(chain)) == ""
  {
    assert Ballots(chain) == [];
    TopUnique(map[], 0, Top(map[]));
  }

  /** Once a vote is recorded the top count is positive and someone holds it;
      a sole holder is the winner and beats every other candidate outright. */
  lemma WinnerOfTally(chain: seq<Block>)
    requires BallotsReadable(chain) && |chain| >= 2
    ensures Top(Tally(chain)) >= 1 && TieSet(Tally(chain)) != {}
    ensures |TieSet(Tally(chain))| == 1 ==>
      var m := Tally(chain);
      var w := Winner(m);
      && w in TieSet(m) && w in m
      && forall c :: c in m && c != w ==> m[c] < m[w]
  {
    var m := Tally(chain);
    TallyCounts(chain);
    var c0 := chain[1].votes[0].candidate;
    assert c0 in m;
    var top := Top(m);
    var k :| k in m && m[k] == top;
    assert k in TieSet(m);
    if |TieSet(m)| == 1 {
      var w := Winner(m);
      forall c | c in m && c != w
        ensures m[c] < m[w]
      {
        if m[c] == top {
          Singleton(TieSet(m), c, w);
        }
      }
    }
  }
}
