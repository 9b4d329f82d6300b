/** The vote ledger: the voter registry, the candidate counters and the
    hash-linked block sequence that main.go keeps in globals, the operations
    that change them, and the invariant those operations keep. */
module Election {
  import opened Encoding
  import opened Blocks
  import opened Serializer
  import opened ElectionResults

  /** What happened to a vote. The first four are the outcomes CastVote
      reports; HashError is its "error" digest sentinel. */
  datatype Outcome = Recorded | UnregisteredVoter | DuplicateVote | UnknownCandidate | HashError

  /** A snapshot of the three globals. */
  datatype LedgerState = LedgerState(blockchain: seq<Block>, candidates: map<string, int>, registeredVoters: seq<VoterId>)

  /** The state main() sets up before anyone registers or votes. */
  function Initial(names: set<string>): LedgerState
  {
    LedgerState([Genesis()], map n | n in names :: 0, [])
  }

  /** The chain has its genesis block and every later block a vote to read. */
  predicate Readable(s: LedgerState)
  {
    |s.blockchain| >= 1 && BallotsReadable(s.blockchain)
  }

  /** Some block after the genesis block holds a vote by voterId. */
  predicate HasVoted(chain: seq<Block>, voterId: VoterId)
    requires BallotsReadable(chain)
  {
    exists i :: 1 <= i < |chain| && chain[i].votes[0].voterId == voterId
  }

  /** RegisterVoter: append the ID unless it is already registered. */
  function Register(s: LedgerState, voterId: VoterId): LedgerState
  {
    if voterId in s.registeredVoters then s
    else s.(registeredVoters := s.registeredVoters + [voterId])
  }

  /** The digest calculateHash gives a new block holding only `vote` and
      linked to prevHash: `hash` (SHA-256, then hex) of its serialisation.
      The ledger's functions and lemmas below take the digest as a parameter,
      so they hold for this one and for any other. */
  function BlockDigest(hash: seq<byte> -> string): (Vote, string) -> string
  {
    (vote: Vote, prevHash: string) => hash(Serialized(vote, [vote], prevHash))
  }

  /** The digest of a recorded block is the hash of its vote's encoding
      written twice, then its link. */
  lemma BlockDigestInput(hash: seq<byte> -> string, vote: Vote, prevHash: string)
    ensures BlockDigest(hash)(vote, prevHash) == hash(VoteBytes(vote) + VoteBytes(vote) + Utf8(prevHash))
  {
    BlockPreimage(vote, prevHash);
  }

  /** A hash that never yields the "error" sentinel gives a digest that never does. */
  lemma NoErrorDigest(hash: seq<byte> -> string)
    requires forall d :: hash(d) != "error"
    ensures forall v, p :: BlockDigest(hash)(v, p) != "error"
  {
    forall v, p
      ensures BlockDigest(hash)(v, p) != "error"
    {
      assert BlockDigest(hash)(v, p) == hash(Serialized(v, [v], p));
    }
  }

  /** Whatever the hash, two different one-vote blocks can carry the same
      digest: the digest input does not determine the vote and the link. */
  lemma DigestCollision(hash: seq<byte> -> string)
    ensures var k := "A\0\0\0\0\0\0\0";
      && Vote(65, "") != Vote(65, k)
      && BlockDigest(hash)(Vote(65, ""), k + k) == BlockDigest(hash)(Vote(65, k), "")
  {
    SerializationIsAmbiguous();
  }

  /** CastVote's checks in the order it makes them; the first failing one decides. */
  function Admission(s: LedgerState, voterId: VoterId, candidate: string): Outcome
    requires Readable(s)
  {
    if voterId !in s.registeredVoters then UnregisteredVoter
    else if HasVoted(s.blockchain, voterId) then DuplicateVote
    else if candidate !in s.candidates then UnknownCandidate
    else Recorded
  }

  /** CastVote: after the checks, link a one-vote block to the last block,
      append it and bump the candidate's counter, unless the digest comes
      back as the "error" sentinel. */
  function Cast(s: LedgerState, digest: (Vote, string) -> string, voterId: VoterId, candidate: string): (LedgerState, Outcome)
    requires Readable(s)
  {
    var admitted := Admission(s, voterId, candidate);
    if admitted != Recorded then (s, admitted)
    else
      var vote := Vote(voterId, candidate);
      var prev := s.blockchain[|s.blockchain| - 1].currentHash;
      var h := digest(vote, prev);
      if h == "error" then (s, HashError)
      else
        var block := Block(prev, h, [vote]);
        (LedgerState(s.blockchain + [block], s.candidates[candidate := s.candidates[candidate] + 1], s.registeredVoters),
         Recorded)
  }

  /** Block i (after genesis) holds one vote, by a registered voter, for a
      declared candidate; it links to block i - 1 and carries its digest. */
  ghost predicate RecordedBlock(s: LedgerState, digest: (Vote, string) -> string, i: int)
    requires 1 <= i < |s.blockchain|
  {
    var b := s.blockchain[i];
    && |b.votes| == 1
    && b.votes[0].voterId in s.registeredVoters
    && b.votes[0].candidate in s.candidates
    && b.prevHash == s.blockchain[i - 1].currentHash
    && b.currentHash == digest(b.votes[0], b.prevHash)
  }

  /** The ledger invariant: genesis first, every later block recorded as
      CastVote records it, no voter in two blocks, no voter registered twice,
      and every candidate's counter equal to the number of blocks naming it. */
  ghost predicate Inv(s: LedgerState, digest: (Vote, string) -> string)
  {
    && Readable(s)
    && s.blockchain[0] == Genesis()
    && (forall i :: 1 <= i < |s.blockchain| ==> RecordedBlock(s, digest, i))
    && (forall i, j :: 1 <= i < j < |s.blockchain| ==> s.blockchain[i].votes[0].voterId != s.blockchain[j].votes[0].voterId)
    && NoDuplicates(s.registeredVoters)
    && (forall c :: c in s.candidates ==> s.candidates[c] == multiset(Ballots(s.blockchain))[c])
  }

  lemma InitialInv(names: set<string>, digest: (Vote, string) -> string)
    ensures Inv(Initial(names), digest)
    ensures |Initial(names).blockchain| == 1 && Initial(names).candidates.Keys == names
  {
  }

  /** Registration adds the ID exactly when it is new, at the end, and keeps
      the registry free of duplicates. */
  lemma RegisterSpec(s: LedgerState, voterId: VoterId)
    requires NoDuplicates(s.registeredVoters)
    ensures var r := Register(s, voterId).registeredVoters;
      && NoDuplicates(r)
      && voterId in r
      && (forall x :: x in r <==> x in s.registeredVoters || x == voterId)
      && (voterId !in s.registeredVoters ==> r == s.registeredVoters + [voterId])
      && (voterId in s.registeredVoters ==> r == s.registeredVoters)
    ensures Register(s, voterId).blockchain == s.blockchain && Register(s, voterId).candidates == s.candidates
  {
  }

  lemma RegisterKeepsInv(s: LedgerState, digest: (Vote, string) -> string, voterId: VoterId)
    requires Inv(s, digest)
    ensures Inv(Register(s, voterId), digest)
  {
    var r := Register(s, voterId);
    forall i | 1 <= i < |r.blockchain|
      ensures RecordedBlock(r, digest, i)
    {
      assert RecordedBlock(s, digest, i);
    }
  }

  /** The outcome is decided by the checks in order: registration, then
      duplicate, then candidate, then the digest sentinel. */
  lemma CastOutcome(s: LedgerState, digest: (Vote, string) -> string, voterId: VoterId, candidate: string)
    requires Readable(s)
    ensures var o := Cast(s, digest, voterId, candidate).1;
      && (o == UnregisteredVoter <==> voterId !in s.registeredVoters)
      && (o == DuplicateVote <==> voterId in s.registeredVoters && HasVoted(s.blockchain, voterId))
      && (o == UnknownCandidate <==> voterId in s.registeredVoters && !HasVoted(s.blockchain, voterId) && candidate !in s.candidates)
      && (o == HashError <==>
            && Admission(s, voterId, candidate) == Recorded
            && digest(Vote(voterId, candidate), s.blockchain[|s.blockchain| - 1].currentHash) == "error")
  {
  }

  /** A rejected vote, or one whose digest is the "error" sentinel, changes nothing. */
  lemma RejectionChangesNothing(s: LedgerState, digest: (Vote, string) -> string, voterId: VoterId, candidate: string)
    requires Readable(s)
    requires Cast(s, digest, voterId, candidate).1 != Recorded
    ensures Cast(s, digest, voterId, candidate).0 == s
  {
  }

  /** An accepted vote appends exactly one block, linked to the old last
      block and carrying its own digest, and adds one to its candidate's
      counter; earlier blocks, other counters and the registry are untouched. */
  lemma RecordedAppendsOneBlock(s: LedgerState, digest: (Vote, string) -> string, voterId: VoterId, candidate: string)
    requires Readable(s)
    requires Cast(s, digest, voterId, candidate).1 == Recorded
    ensures var t := Cast(s, digest, voterId, candidate).0;
      var n := |s.blockchain|;
      var b := t.blockchain[n];
      var vote := Vote(voterId, candidate);
      && |t.blockchain| == n + 1
      && t.blockchain[..n] == s.blockchain
      && b.votes == [vote]
      && b.prevHash == s.blockchain[n - 1].currentHash
      && b.currentHash == digest(vote, b.prevHash)
      && b.currentHash != "error"
      && t.candidates.Keys == s.candidates.Keys
      && t.candidates[candidate] == s.candidates[candidate] + 1
      && (forall c :: c in s.candidates && c != candidate ==> t.candidates[c] == s.candidates[c])
      && t.registeredVoters == s.registeredVoters
  {
    var t := Cast(s, digest, voterId, candidate).0;
    assert t.blockchain[..|s.blockchain|] == s.blockchain;
  }

  /** Appending a block to a chain adds a vote by its voter, and nothing else. */
  lemma HasVotedAppend(chain: seq<Block>, b: Block, voterId: VoterId)
    requires BallotsReadable(chain) && |chain| >= 1 && |b.votes| >= 1
    ensures BallotsReadable(chain + [b])
    ensures HasVoted(chain + [b], voterId) <==> HasVoted(chain, voterId) || b.votes[0].voterId == voterId
  {
    var c := chain + [b];
    assert forall i :: 0 <= i < |chain| ==> c[i] == chain[i];
    assert c[|chain|] == b;
    if HasVoted(c, voterId) {
      var i :| 1 <= i < |c| && c[i].votes[0].voterId == voterId;
      if i < |chain| {
        assert HasVoted(chain, voterId);
      }
    }
    if HasVoted(chain, voterId) {
      var i :| 1 <= i < |chain| && chain[i].votes[0].voterId == voterId;
      assert c[i].votes[0].voterId == voterId;
    }
    if b.votes[0].voterId == voterId {
      assert c[|chain|].votes[0].voterId == voterId;
    }
  }

  /** Appending a block to a chain appends its candidate to the ballots. */
  lemma BallotsAppend(chain: seq<Block>, b: Block)
    requires BallotsReadable(chain) && |chain| >= 1 && |b.votes| >= 1
    ensures BallotsReadable(chain + [b])
    ensures Ballots(chain + [b]) == Ballots(chain) + [b.votes[0].candidate]
  {
  }

  /** The step of CastKeepsInv that a Recorded vote takes: appending the new
      block and bumping its candidate's counter keeps the invariant. */
  lemma AppendKeepsInv(s: LedgerState, digest: (Vote, string) -> string, vote: Vote, t: LedgerState)
    requires Inv(s, digest)
    requires vote.voterId in s.registeredVoters && !HasVoted(s.blockchain, vote.voterId)
    requires vote.candidate in s.candidates
    requires var prev := s.blockchain[|s.blockchain| - 1].currentHash;
      t == LedgerState(s.blockchain + [Block(prev, digest(vote, prev), [vote])],
                       s.candidates[vote.candidate := s.candidates[vote.candidate] + 1],
                       s.registeredVoters)
    ensures Inv(t, digest)
  {
    var n := |s.blockchain|;
    var b := t.blockchain[n];
    assert t.blockchain == s.blockchain + [b];
    BallotsAppend(s.blockchain, b);
    assert Readable(t);
    forall i | 1 <= i < |t.blockchain|
      ensures RecordedBlock(t, digest, i)
    {
      if i < n {
        assert RecordedBlock(s, digest, i);
      }
    }
    forall i, j | 1 <= i < j < |t.blockchain|
      ensures t.blockchain[i].votes[0].voterId != t.blockchain[j].votes[0].voterId
    {
      if j == n {
        assert t.blockchain[i].votes[0].voterId == s.blockchain[i].votes[0].voterId;
      }
    }
  }

  /** CastVote keeps the ledger invariant. */
  lemma CastKeepsInv(s: LedgerState, digest: (Vote, string) -> string, voterId: VoterId, candidate: string)
    requires Inv(s, digest)
    ensures Inv(Cast(s, digest, voterId, candidate).0, digest)
  {
    var (t, o) := Cast(s, digest, voterId, candidate);
    if o == Recorded {
      AppendKeepsInv(s, digest, Vote(voterId, candidate), t);
    }
  }

  /** A registered voter who has not voted yet, choosing a declared
      candidate, is recorded whenever the digest is not the sentinel; the
      set of voters with a block grows by that voter alone. */
  lemma AcceptedVote(s: LedgerState, digest: (Vote, string) -> string, voterId: VoterId, candidate: string)
    requires Inv(s, digest)
    requires voterId in s.registeredVoters && !HasVoted(s.blockchain, voterId) && candidate in s.candidates
    requires digest(Vote(voterId, candidate), s.blockchain[|s.blockchain| - 1].currentHash) != "error"
    ensures var (t, o) := Cast(s, digest, voterId, candidate);
      && o == Recorded
      && |t.blockchain| == |s.blockchain| + 1
      && t.registeredVoters == s.registeredVoters
      && t.candidates == s.candidates[candidate := s.candidates[candidate] + 1]
      && (forall v :: HasVoted(t.blockchain, v) <==> HasVoted(s.blockchain, v) || v == voterId)
  {
    var t := Cast(s, digest, voterId, candidate).0;
    HasVotedAppend(s.blockchain, t.blockchain[|s.blockchain|], voterId);
    forall v
      ensures HasVoted(t.blockchain, v) <==> HasVoted(s.blockchain, v) || v == voterId
    {
      HasVotedAppend(s.blockchain, t.blockchain[|s.blockchain|], v);
      assert t.blockchain == s.blockchain + [t.blockchain[|s.blockchain|]];
    }
  }

  /** One vote per voter: once a voter has a block, every further attempt by
      that voter, for any candidate, is a DuplicateVote and changes nothing. */
  lemma OneVotePerVoter(s: LedgerState, digest: (Vote, string) -> string, voterId: VoterId, candidate: string)
    requires Inv(s, digest) && HasVoted(s.blockchain, voterId)
    ensures Cast(s, digest, voterId, candidate) == (s, DuplicateVote)
  {
    var i :| 1 <= i < |s.blockchain| && s.blockchain[i].votes[0].voterId == voterId;
    assert RecordedBlock(s, digest, i);
  }

  /** A voter whose vote was just recorded is thereafter a duplicate. */
  lemma RecordedVoterHasVoted(s: LedgerState, digest: (Vote, string) -> string, voterId: VoterId, candidate: string)
    requires Inv(s, digest) && Cast(s, digest, voterId, candidate).1 == Recorded
    ensures Readable(Cast(s, digest, voterId, candidate).0)
    ensures HasVoted(Cast(s, digest, voterId, candidate).0.blockchain, voterId)
  {
    CastKeepsInv(s, digest, voterId, candidate);
    var t := Cast(s, digest, voterId, candidate).0;
    assert t.blockchain[|s.blockchain|].votes[0].voterId == voterId;
  }

  /** The tally read back from the chain agrees with the running counters:
      every counted candidate is declared with that counter, every declared
      candidate missing from the tally has a zero counter, and the counts
      add up to the number of non-genesis blocks. */
  lemma TallyMatchesCounters(s: LedgerState, digest: (Vote, string) -> string)
    requires Inv(s, digest)
    ensures var m := Tally(s.blockchain);
      && (forall c :: c in m ==> c in s.candidates && m[c] == s.candidates[c])
      && (forall c :: c in s.candidates && c !in m ==> s.candidates[c] == 0)
      && Sum(m) == |s.blockchain| - 1
  {
    TallyCounts(s.blockchain);
    var m := Tally(s.blockchain);
    forall c | c in m
      ensures c in s.candidates
    {
      var i :| 1 <= i < |s.blockchain| && s.blockchain[i].votes[0].candidate == c;
      assert RecordedBlock(s, digest, i);
    }
  }

  /** A sequence of CastVote requests applied in order, with their outcomes. */
  ghost function Run(s: LedgerState, digest: (Vote, string) -> string, requests: seq<Vote>): (r: (LedgerState, seq<Outcome>))
    requires Inv(s, digest)
    ensures Inv(r.0, digest) && |r.1| == |requests|
    decreases |requests|
  {
    if requests == [] then (s, [])
    else
      var (t, o) := Cast(s, digest, requests[0].voterId, requests[0].candidate);
      CastKeepsInv(s, digest, requests[0].voterId, requests[0].candidate);
      var (u, os) := Run(t, digest, requests[1..]);
      (u, [o] + os)
  }

  function RecordedCount(outcomes: seq<Outcome>): nat
  {
    if outcomes == [] then 0 else (if outcomes[0] == Recorded then 1 else 0) + RecordedCount(outcomes[1..])
  }

  /** Over any run the chain only grows at its end, and it grows by one block
      per Recorded outcome: with genesis, its length is one more than the
      number of accepted votes. */
  lemma {:induction false} RunAppendsOnly(s: LedgerState, digest: (Vote, string) -> string, requests: seq<Vote>)
    requires Inv(s, digest)
    ensures var (t, outcomes) := Run(s, digest, requests);
      && |t.blockchain| == |s.blockchain| + RecordedCount(outcomes)
      && s.blockchain <= t.blockchain
    decreases |requests|
  {
    if requests != [] {
      var v := requests[0];
      var (t, o) := Cast(s, digest, v.voterId, v.candidate);
      CastKeepsInv(s, digest, v.voterId, v.candidate);
      RunAppendsOnly(t, digest, requests[1..]);
      if o == Recorded {
        RecordedAppendsOneBlock(s, digest, v.voterId, v.candidate);
      }
    }
  }

  /** The globals of main.go as one object. The digest function (SHA-256
      followed by hex encoding) is supplied by the creator. */
  class Ledger {
    const hash: seq<byte> -> string
    var blockchain: seq<Block>
    var candidates: map<string, int>
    var registeredVoters: seq<VoterId>

    ghost function Model(): LedgerState
      reads this
    {
      LedgerState(blockchain, candidates, registeredVoters)
    }

    ghost predicate Valid()
      reads this
    {
      Inv(Model(), BlockDigest(hash))
    }

    /** main()'s setup: the genesis block, then each named candidate at zero. */
    constructor (hash: seq<byte> -> string, names: set<string>)
      ensures this.hash == hash && Model() == Initial(names) && Valid()
    {
      this.hash := hash;
      blockchain := [Genesis()];
      candidates := map n | n in names :: 0;
      registeredVoters := [];
      new;
      InitialInv(names, BlockDigest(hash));
    }

    method IsRegisteredVoter(voterId: VoterId) returns (registered: bool)
      ensures registered <==> voterId in registeredVoters
    {
      for i := 0 to |registeredVoters|
        invariant voterId !in registeredVoters[..i]
      {
        if registeredVoters[i] == voterId {
          return true;
        }
      }
      return false;
    }

    /** Scans every block after the genesis block for a vote by voterId. */
    method IsDuplicateVote(voterId: VoterId) returns (duplicate: bool)
      requires BallotsReadable(blockchain)
      ensures duplicate <==> HasVoted(blockchain, voterId)
    {
      var i := 1;
      while i < |blockchain|
        invariant 1 <= i
        invariant forall j :: 1 <= j < i && j < |blockchain| ==> blockchain[j].votes[0].voterId != voterId
      {
        if voterId == blockchain[i].votes[0].voterId {
          return true;
        }
        i := i + 1;
      }
      return false;
    }

    predicate IsValidCandidate(candidate: string)
      reads this
    {
      candidate in candidates
    }

    method RegisterVoter(voterId: VoterId)
      modifies this
      ensures Model() == Register(old(Model()), voterId)
      ensures old(Valid()) ==> Valid()
    {
      for i := 0 to |registeredVoters|
        invariant voterId !in registeredVoters[..i]
      {
        if registeredVoters[i] == voterId {
          return;
        }
      }
      assert registeredVoters[..|registeredVoters|] == registeredVoters;
      registeredVoters := registeredVoters + [voterId];
      if old(Valid()) {
        RegisterKeepsInv(old(Model()), BlockDigest(hash), voterId);
      }
    }

    method CastVote(voterId: VoterId, candidate: string) returns (outcome: Outcome)
      requires Readable(Model())
      modifies this
      ensures (Model(), outcome) == Cast(old(Model()), BlockDigest(hash), voterId, candidate)
      ensures Readable(Model())
      ensures old(Valid()) ==> Valid()
    {
      if old(Valid()) {
        CastKeepsInv(Model(), BlockDigest(hash), voterId, candidate);
      }
      var registered := IsRegisteredVoter(voterId);
      if !registered {
        return UnregisteredVoter;
      }
      var duplicate := IsDuplicateVote(voterId);
      if duplicate {
        return DuplicateVote;
      }
      if !IsValidCandidate(candidate) {
        return UnknownCandidate;
      }
      var vote := Vote(voterId, candidate);
      var lastBlock := blockchain[|blockchain| - 1];
      var newBlock := Block(lastBlock.currentHash, "", [vote]);
      var newHash := CalculateHash(hash, newBlock, vote);
      assert newHash == BlockDigest(hash)(vote, lastBlock.currentHash);
      if newHash == "error" {
        return HashError;
      }
      newBlock := newBlock.(currentHash := newHash);
      blockchain := blockchain + [newBlock];
      candidates := candidates[candidate := candidates[candidate] + 1];
      outcome := Recorded;
    }

    /** Counts the chain's votes, then finds the winner or the tie. */
    method CalculateElectionResults() returns (results: map<string, int>, winner: string, tieCandidates: seq<string>)
      requires BallotsReadable(blockchain)
      ensures results == Tally(blockchain)
      ensures winner == Winner(results)
      ensures forall c :: c in tieCandidates <==> c in TieSet(results)
      ensures NoDuplicates(tieCandidates) && |tieCandidates| == |TieSet(results)|
    {
      results := CountBallots(blockchain);
      winner, tieCandidates := FindWinner(results);
    }
  }
}
