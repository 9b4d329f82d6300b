/** The canonical byte string a block's digest is computed over, and the
    digest computation itself. */
module Serializer {
  import opened Encoding
  import opened Blocks

  /** A vote's contribution: its voter ID as a little-endian int64, then
      the raw bytes of the candidate name, with no length or delimiter. */
  function VoteBytes(v: Vote): seq<byte>
  {
    Int64Bytes(v.voterId) + Utf8(v.candidate)
  }

  /** The encodings of the given votes, concatenated in order. */
  function VotesBytes(votes: seq<Vote>): seq<byte>
  {
    if votes == [] then [] else VotesBytes(votes[..|votes| - 1]) + VoteBytes(votes[|votes| - 1])
  }

  /** The bytes ConvertDataToBytes produces for (vote, votes, prevHash). */
  function Serialized(vote: Vote, votes: seq<Vote>, prevHash: string): seq<byte>
  {
    VoteBytes(vote) + VotesBytes(votes) + Utf8(prevHash)
  }

  /** Fills a buffer field by field, one vote of `votes` per iteration. The
      byte-buffer writes cannot fail, so the method has no error result. */
  method ConvertDataToBytes(vote: Vote, votes: seq<Vote>, prevHash: string) returns (data: seq<byte>)
    ensures data == Serialized(vote, votes, prevHash)
  {
    var buf := Int64Bytes(vote.voterId);
    buf := buf + Utf8(vote.candidate);
    for i := 0 to |votes|
      invariant buf == VoteBytes(vote) + VotesBytes(votes[..i])
    {
      assert votes[..i + 1][..i] == votes[..i];
      buf := buf + Int64Bytes(votes[i].voterId);
      buf := buf + Utf8(votes[i].candidate);
    }
    assert votes[..|votes|] == votes;
    data := buf + Utf8(prevHash);
  }

  /** The digest of a block: `hash` (SHA-256 followed by hex encoding) of the
      serialisation of the vote, the block's votes and its previous-digest link. */
  method CalculateHash(hash: seq<byte> -> string, block: Block, vote: Vote) returns (digest: string)
    ensures digest == hash(Serialized(vote, block.votes, block.prevHash))
  {
    var data := ConvertDataToBytes(vote, block.votes, block.prevHash);
    digest := hash(data);
  }

  /** Eight plus the candidate's byte length, summed over the votes. */
  function EncodedSize(votes: seq<Vote>): nat
  {
    if votes == [] then 0 else 8 + |Utf8(votes[0].candidate)| + EncodedSize(votes[1..])
  }

  lemma {:induction false} EncodedSizeAppend(votes: seq<Vote>, v: Vote)
    ensures EncodedSize(votes + [v]) == EncodedSize(votes) + 8 + |Utf8(v.candidate)|
  {
    if votes == [] {
      assert votes + [v] == [v];
    } else {
      assert (votes + [v])[1..] == votes[1..] + [v];
      EncodedSizeAppend(votes[1..], v);
    }
  }

  lemma {:induction false} VotesBytesLength(votes: seq<Vote>)
    ensures |VotesBytes(votes)| == EncodedSize(votes)
  {
    if votes != [] {
      var n := |votes| - 1;
      VotesBytesLength(votes[..n]);
      EncodedSizeAppend(votes[..n], votes[n]);
      assert votes[..n] + [votes[n]] == votes;
    }
  }

  lemma SerializedLength(vote: Vote, votes: seq<Vote>, prevHash: string)
    ensures |Serialized(vote, votes, prevHash)|
         == 8 + |Utf8(vote.candidate)| + EncodedSize(votes) + |Utf8(prevHash)|
  {
    VotesBytesLength(votes);
  }

  /** The first eight bytes of the serialisation give back the voter ID. */
  lemma SerializedStartsWithVoter(vote: Vote, votes: seq<Vote>, prevHash: string)
    ensures |Serialized(vote, votes, prevHash)| >= 8
    ensures Int64FromBytes(Serialized(vote, votes, prevHash)[..8]) == vote.voterId
  {
    var data := Serialized(vote, votes, prevHash);
    assert data[..8] == Int64Bytes(vote.voterId);
    Int64RoundTrip(vote.voterId);
  }

  /** A block's digest input repeats its single vote: once as "the new vote"
      and once as the block's vote list. */
  lemma BlockPreimage(vote: Vote, prevHash: string)
    ensures Serialized(vote, [vote], prevHash) == VoteBytes(vote) + VoteBytes(vote) + Utf8(prevHash)
  {
    assert [vote][..0] == [];
    assert VotesBytes([vote]) == VotesBytes([]) + VoteBytes(vote);
  }

  /** Fields are concatenated without delimiters. A name whose bytes equal
      the voter's ID bytes can move from the link into the vote: voter x with
      an empty name linked to k + k serialises like voter x naming k with an
      empty link. */
  lemma NameLinkShift(x: VoterId, k: string)
    requires Utf8(k) == Int64Bytes(x)
    ensures Serialized(Vote(x, ""), [Vote(x, "")], k + k) == Serialized(Vote(x, k), [Vote(x, k)], "")
  {
    var i := Int64Bytes(x);
    BlockPreimage(Vote(x, ""), k + k);
    BlockPreimage(Vote(x, k), "");
    Utf8Append(k, k);
    assert VoteBytes(Vote(x, "")) == i;
    assert VoteBytes(Vote(x, k)) == i + i;
    assert i + i + (i + i) == (i + i) + (i + i) + [];
  }

  /** Voter 65's ID bytes, read as characters. */
  lemma Voter65Text()
    ensures Utf8("A\0\0\0\0\0\0\0") == Int64Bytes(65)
  {
    assert LittleEndian(0, 7) == [0, 0, 0, 0, 0, 0, 0];
    assert Int64Bytes(65) == [65, 0, 0, 0, 0, 0, 0, 0];
    assert Utf8("\0\0\0\0\0\0\0") == [0, 0, 0, 0, 0, 0, 0];
  }

  /** So two different one-vote blocks, in the shape CastVote hashes them,
      serialise to the same bytes. */
  lemma SerializationIsAmbiguous()
    ensures var k := "A\0\0\0\0\0\0\0";
      var v1 := Vote(65, "");
      var v2 := Vote(65, k);
      && v1 != v2
      && Serialized(v1, [v1], k + k) == Serialized(v2, [v2], "")
  {
    Voter65Text();
    NameLinkShift(65, "A\0\0\0\0\0\0\0");
  }
}
