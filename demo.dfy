/** The election main() runs: ten voters, two candidates, ten vote requests. */
module Demo {
  import opened Encoding
  import opened Blocks
  import opened ElectionResults
  import opened Election

  const A: string := "Candidate A"
  const B: string := "Candidate B"

  /** A point of the run: voters 1 to 10 registered, candidates A and B with
      counters ca and cb, and voters 1 to n (who vote in that order) each
      holding one of the chain's n blocks after genesis. */
  ghost predicate Stage(s: LedgerState, digest: (Vote, string) -> string, n: nat, ca: int, cb: int)
  {
    && Inv(s, digest)
    && (forall v :: v in s.registeredVoters <==> 1 <= v <= 10)
    && s.candidates.Keys == {A, B} && s.candidates[A] == ca && s.candidates[B] == cb
    && (forall v: VoterId :: HasVoted(s.blockchain, v) <==> 1 <= v <= n)
    && |s.blockchain| == n + 1
  }

  /** Adding one to A's counter (forA) or B's. */
  lemma CountersBump(m: map<string, int>, ca: int, cb: int, forA: bool)
    requires m.Keys == {A, B} && m[A] == ca && m[B] == cb
    ensures var c := if forA then A else B;
      var m' := m[c := m[c] + 1];
      m'.Keys == {A, B} && m'[A] == (if forA then ca + 1 else ca) && m'[B] == (if forA then cb else cb + 1)
  {
    assert A[10] != B[10];
  }

  /** Voter n + 1, registered and new, choosing A (forA) or B, is recorded. */
  lemma StageRecord(s: LedgerState, digest: (Vote, string) -> string, n: nat, ca: int, cb: int, forA: bool)
    requires Stage(s, digest, n, ca, cb) && n < 10
    requires forall v, p :: digest(v, p) != "error"
    ensures var candidate := if forA then A else B;
      && Cast(s, digest, n + 1, candidate).1 == Recorded
      && Stage(Cast(s, digest, n + 1, candidate).0, digest, n + 1, if forA then ca + 1 else ca, if forA then cb else cb + 1)
  {
    var candidate := if forA then A else B;
    AcceptedVote(s, digest, n + 1, candidate);
    CastKeepsInv(s, digest, n + 1, candidate);
    var t := Cast(s, digest, n + 1, candidate).0;
    assert t.candidates == s.candidates[candidate := s.candidates[candidate] + 1];
    CountersBump(s.candidates, ca, cb, forA);
    assert forall v :: v in t.registeredVoters <==> 1 <= v <= 10;
    assert forall v: VoterId :: HasVoted(t.blockchain, v) <==> 1 <= v <= n + 1;
    assert Stage(t, digest, n + 1, if forA then ca + 1 else ca, if forA then cb else cb + 1);
  }

  /** A voter who already holds a block is a duplicate. */
  lemma StageDuplicate(s: LedgerState, digest: (Vote, string) -> string, n: nat, ca: int, cb: int, voterId: VoterId, candidate: string)
    requires Stage(s, digest, n, ca, cb) && 1 <= voterId <= n
    ensures Cast(s, digest, voterId, candidate) == (s, DuplicateVote)
  {
    OneVotePerVoter(s, digest, voterId, candidate);
  }

  /** A new registered voter naming neither candidate is turned away. */
  lemma StageUnknownCandidate(s: LedgerState, digest: (Vote, string) -> string, n: nat, ca: int, cb: int, voterId: VoterId, candidate: string)
    requires Stage(s, digest, n, ca, cb) && n < voterId <= 10
    requires candidate !in {A, B}
    ensures Cast(s, digest, voterId, candidate) == (s, UnknownCandidate)
  {
  }

  /** A voter outside 1 to 10 is not registered. */
  lemma StageUnregistered(s: LedgerState, digest: (Vote, string) -> string, n: nat, ca: int, cb: int, voterId: VoterId, candidate: string)
    requires Stage(s, digest, n, ca, cb) && !(1 <= voterId <= 10)
    ensures Cast(s, digest, voterId, candidate) == (s, UnregisteredVoter)
  {
  }

  /** main()'s seventh request names a candidate that was never declared. */
  lemma UndeclaredCandidate()
    ensures "Candidate C" !in {A, B}
  {
    assert "Candidate C"[10] != A[10] && "Candidate C"[10] != B[10];
  }

  /** Creating the ledger and registering voters 1 to 10. */
  method Setup(hash: seq<byte> -> string) returns (ledger: Ledger)
    ensures fresh(ledger) && ledger.hash == hash
    ensures Stage(ledger.Model(), BlockDigest(hash), 0, 0, 0)
  {
    ledger := new Ledger(hash, {A, B});
    for i := 1 to 11
      invariant ledger.Valid() && ledger.hash == hash
      invariant ledger.blockchain == [Genesis()]
      invariant ledger.candidates.Keys == {A, B} && ledger.candidates[A] == 0 && ledger.candidates[B] == 0
      invariant forall v :: v in ledger.registeredVoters <==> 1 <= v < i
    {
      ledger.RegisterVoter(i);
    }
  }

  /** Voter n + 1 votes for A (forA) or B and is recorded; the stage moves
      on to (n1, ca1, cb1). The next stage's numbers are parameters, not
      expressions in n, ca and cb, so that callers match them literally and
      the proof stays within the solver's resource limit. */
  method CastAccepted(ledger: Ledger, n: nat, ca: int, cb: int, forA: bool, n1: nat, ca1: int, cb1: int)
    returns (outcome: Outcome)
    requires forall v, p :: BlockDigest(ledger.hash)(v, p) != "error"
    requires Stage(ledger.Model(), BlockDigest(ledger.hash), n, ca, cb) && n < 10
    requires n1 == n + 1 && ca1 == (if forA then ca + 1 else ca) && cb1 == (if forA then cb else cb + 1)
    modifies ledger
    ensures outcome == Recorded
    ensures Stage(ledger.Model(), BlockDigest(ledger.hash), n1, ca1, cb1)
  {
    StageRecord(ledger.Model(), BlockDigest(ledger.hash), n, ca, cb, forA);
    outcome := ledger.CastVote(n + 1, if forA then A else B);
  }

  /** A request that one of CastVote's checks turns away, leaving the ledger
      as it was. */
  method CastRejected(ledger: Ledger, n: nat, ca: int, cb: int, voterId: VoterId, candidate: string) returns (outcome: Outcome)
    requires Stage(ledger.Model(), BlockDigest(ledger.hash), n, ca, cb)
    requires !(1 <= voterId <= 10) || voterId <= n || candidate !in {A, B}
    modifies ledger
    ensures outcome == if !(1 <= voterId <= 10) then UnregisteredVoter
                       else if voterId <= n then DuplicateVote
                       else UnknownCandidate
    ensures ledger.Model() == old(ledger.Model())
  {
    if !(1 <= voterId <= 10) {
      StageUnregistered(ledger.Model(), BlockDigest(ledger.hash), n, ca, cb, voterId, candidate);
    } else if voterId <= n {
      StageDuplicate(ledger.Model(), BlockDigest(ledger.hash), n, ca, cb, voterId, candidate);
    } else {
      StageUnknownCandidate(ledger.Model(), BlockDigest(ledger.hash), n, ca, cb, voterId, candidate);
    }
    outcome := ledger.CastVote(voterId, candidate);
  }

  /** The first five requests of main(): 1 for A, 2 for B, 3 for A, 3 again
      for B, 4 for B. */
  method FirstVotes(ledger: Ledger) returns (outcomes: seq<Outcome>)
    requires forall v, p :: BlockDigest(ledger.hash)(v, p) != "error"
    requires Stage(ledger.Model(), BlockDigest(ledger.hash), 0, 0, 0)
    modifies ledger
    ensures outcomes == [Recorded, Recorded, Recorded, DuplicateVote, Recorded]
    ensures Stage(ledger.Model(), BlockDigest(ledger.hash), 4, 2, 2)
  {
    var o1 := CastAccepted(ledger, 0, 0, 0, true, 1, 1, 0);
    var o2 := CastAccepted(ledger, 1, 1, 0, false, 2, 1, 1);
    var o3 := CastAccepted(ledger, 2, 1, 1, true, 3, 2, 1);
    var o4 := CastRejected(ledger, 3, 2, 1, 3, B);
    var o5 := CastAccepted(ledger, 3, 2, 1, false, 4, 2, 2);
    outcomes := [o1, o2, o3, o4, o5];
  }

  /** The last five: 5 for A, 5 again for A, 6 for B, 7 for an unknown
      candidate, and the unregistered voter 11 for B. */
  method LastVotes(ledger: Ledger) returns (outcomes: seq<Outcome>)
    requires forall v, p :: BlockDigest(ledger.hash)(v, p) != "error"
    requires Stage(ledger.Model(), BlockDigest(ledger.hash), 4, 2, 2)
    modifies ledger
    ensures outcomes == [Recorded, DuplicateVote, Recorded, UnknownCandidate, UnregisteredVoter]
    ensures Stage(ledger.Model(), BlockDigest(ledger.hash), 6, 3, 3)
  {
    var o1 := CastAccepted(ledger, 4, 2, 2, true, 5, 3, 2);
    var o2 := CastRejected(ledger, 5, 3, 2, 5, A);
    var o3 := CastAccepted(ledger, 5, 3, 2, false, 6, 3, 3);
    UndeclaredCandidate();
    var o4 := CastRejected(ledger, 6, 3, 3, 7, "Candidate C");
    var o5 := CastRejected(ledger, 6, 3, 3, 11, B);
    outcomes := [o1, o2, o3, o4, o5];
  }

  /** Three votes each make a tie between A and B. */
  lemma ThreeAllIsTie(m: map<string, int>)
    requires m.Keys == {A, B} && m[A] == 3 && m[B] == 3
    ensures m == map[A := 3, B := 3]
    ensures TieSet(m) == {A, B} && Winner(m) == "Tie"
  {
    assert A[10] != B[10];
    assert IsTop(m, 3);
    TopUnique(m, 3, Top(m));
    assert TieSet(m) == {A, B};
  }

  /** With three votes counted for each candidate, the tally read back from
      the chain is three each. */
  lemma FinalTally(s: LedgerState, digest: (Vote, string) -> string)
    requires Inv(s, digest)
    requires s.candidates.Keys == {A, B} && s.candidates[A] == 3 && s.candidates[B] == 3
    ensures Tally(s.blockchain).Keys == {A, B}
    ensures Tally(s.blockchain)[A] == 3 && Tally(s.blockchain)[B] == 3
  {
    TallyMatchesCounters(s, digest);
    CountersAreTally(Tally(s.blockchain), s.candidates);
  }

  /** A tally agreeing with counters of three each for A and B is that tally. */
  lemma CountersAreTally(m: map<string, int>, counters: map<string, int>)
    requires counters.Keys == {A, B} && counters[A] == 3 && counters[B] == 3
    requires forall c :: c in m ==> c in counters && m[c] == counters[c]
    requires forall c :: c in counters && c !in m ==> counters[c] == 0
    ensures m.Keys == {A, B} && m[A] == 3 && m[B] == 3
  {
    assert A[10] != B[10];
    assert A in m && B in m;
  }

  /** The outcomes of the two halves of the run, joined. A lemma of its own
      so that this sequence equality is proved outside Simulate's large
      context, which keeps Simulate within the solver's resource limit. */
  lemma AllOutcomes(first: seq<Outcome>, last: seq<Outcome>)
    requires first == [Recorded, Recorded, Recorded, DuplicateVote, Recorded]
    requires last == [Recorded, DuplicateVote, Recorded, UnknownCandidate, UnregisteredVoter]
    ensures first + last == [Recorded, Recorded, Recorded, DuplicateVote, Recorded,
                             Recorded, DuplicateVote, Recorded, UnknownCandidate, UnregisteredVoter]
  {
  }

  /** The end of main(): reading the results back from a chain holding six
      votes, three for each candidate. */
  method ReadResults(ledger: Ledger) returns (results: map<string, int>, winner: string, chainLength: nat)
    requires Stage(ledger.Model(), BlockDigest(ledger.hash), 6, 3, 3)
    ensures results == map["Candidate A" := 3, "Candidate B" := 3]
    ensures winner == "Tie"
    ensures chainLength == 7
  {
    FinalTally(ledger.Model(), BlockDigest(ledger.hash));
    ThreeAllIsTie(Tally(ledger.blockchain));
    var tie;
    results, winner, tie := ledger.CalculateElectionResults();
    chainLength := |ledger.blockchain|;
  }

  /** main() without its console output. Any hash function that never
      returns the "error" sentinel (hex SHA-256 never does) gives the same
      outcomes: six votes recorded, two duplicates, one unknown candidate, one
      unregistered voter, a three-all tie and a chain of seven blocks. */
  method Simulate(hash: seq<byte> -> string)
    returns (outcomes: seq<Outcome>, results: map<string, int>, winner: string, chainLength: nat)
    requires forall d :: hash(d) != "error"
    ensures outcomes == [Recorded, Recorded, Recorded, DuplicateVote, Recorded,
                         Recorded, DuplicateVote, Recorded, UnknownCandidate, UnregisteredVoter]
    ensures results == map["Candidate A" := 3, "Candidate B" := 3]
    ensures winner == "Tie"
    ensures chainLength == 7
  {
    var ledger := Setup(hash);
    NoErrorDigest(hash);
    var first := FirstVotes(ledger);
    var last := LastVotes(ledger);
    outcomes := first + last;
    AllOutcomes(first, last);
    results, winner, chainLength := ReadResults(ledger);
  }
}
