# Hash-chained vote ledger

A Dafny model of `main.go`, a single-process election ledger. The program keeps three globals:

- a registry of voter IDs;
- a map from candidate name to vote counter;
- a chain of blocks.

The chain starts with an empty genesis block. Every accepted vote appends one block. That block holds the vote and the previous block's digest. Its own digest is the hex SHA-256 of a byte serialisation of the vote, the block's votes and the link.

Modules:

- `Encoding`: Go's int64 little-endian two's-complement encoding, with its round trip, and Go's string-to-bytes conversion (UTF-8), with a per-character UTF-8 round trip.
- `Blocks`: the `Vote` and `Block` records and the genesis block.
- `Serializer`: the byte string `ConvertDataToBytes` builds, and the digest `calculateHash` takes of it.
- `ElectionResults`: the two loops of `CalculateElectionResults`.
  - `CountBallots` counts each candidate over the blocks after genesis.
  - `FindWinner` finds the candidates with the top count, in any map visiting order.
  - `Tally`, `TieSet` and `Winner` are the specifications the loops are proved against.
- `Election`: the ledger.
  - `LedgerState` is a snapshot of the three globals.
  - `Register` and `Cast` describe the effect of `RegisterVoter` and `CastVote` on a snapshot.
  - `Inv` is the invariant they keep.
  - `Ledger` is a class whose fields are the three globals. Its methods follow the Go loops and are proved to change the snapshot exactly as `Register` and `Cast` say.
- `Demo`: the sequence of calls `main()` makes, with its outcomes and final results.

The digest function is the class's `hash` field: any function from bytes to strings. The ledger lemmas take the per-block digest `(vote, link) -> string` as a parameter, so they hold for every hash function. `Election.BlockDigest` connects the two.

## Model

| member | source | states |
|---|---|---|
| Encoding.LittleEndianRoundTrip | main.go:118 | Reading back the n little-endian bytes written for any u below 256^n gives u. |
| Encoding.Int64RoundTrip | main.go:118 | The eight bytes `binary.Write` emits for an int64 decode back to the same value, negatives included. |
| Encoding.Int64BytesInjective | main.go:118 | Different voter IDs get different eight-byte encodings. |
| Encoding.Int64Bytes | main.go:118 | What `binary.Write` appends for `int64(voterID)`: eight bytes of two's complement, least significant first. Its properties are Encoding.Int64RoundTrip and Encoding.Int64BytesInjective. |
| Encoding.Utf8CharRoundTrip | main.go:121 | The UTF-8 bytes written for a character decode back to that character. |
| Encoding.Utf8 | main.go:121 | Go's `[]byte(s)`: the UTF-8 bytes of the string's characters, in order. Its properties are Encoding.Utf8CharRoundTrip, Encoding.Utf8Length and Encoding.Utf8Append. |
| Encoding.Utf8Length | main.go:121 | A string's bytes number between one and four per character, and exactly one per character for ASCII text. |
| Encoding.Utf8Append | main.go:121 | The bytes of a concatenation are the concatenation of the bytes. |
| Serializer.Serialized | main.go:114-141 | The byte string `ConvertDataToBytes` returns, as a value: the new vote's fields, each listed vote's fields in order, then the link. Serializer.ConvertDataToBytes is proved to build it. |
| Serializer.ConvertDataToBytes | main.go:114-141 | The buffer holds: the vote's voter ID as 8 bytes and its candidate bytes; then the same two fields for each listed vote, in order; then the link bytes. Writes cannot fail. |
| Serializer.CalculateHash | main.go:144-152 | The digest is the hash of exactly that serialisation of the block's link and votes plus the new vote. |
| Serializer.VotesBytesLength | main.go:126-133 | The votes' part has length 8 plus the candidate's byte length, summed over the votes. |
| Serializer.SerializedLength | main.go:114-141 | The whole serialisation has length 8 + candidate bytes + the votes' encoded size + link bytes. |
| Serializer.SerializedStartsWithVoter | main.go:118-120 | The first eight bytes of any serialisation decode to the new vote's voter ID. |
| Serializer.BlockPreimage | main.go:93-98 | A new block's digest input carries its one vote twice: once as the new vote and once as the block's vote list. |
| Serializer.NameLinkShift | main.go:114-141 | Without delimiters, for any voter x and any name k whose bytes equal x's ID bytes: voter x with an empty name linked to k + k serialises exactly like voter x naming k with an empty link. |
| Serializer.SerializationIsAmbiguous | main.go:93-136 | Fields are not delimited, so two different one-vote blocks in the shape CastVote hashes serialise identically: voter 65 with an empty name linked to k + k, and voter 65 naming k with no link. Here k is the text of the ID's eight bytes. |
| ElectionResults.Tally | main.go:161-177 | The `Results` map as a value: the counts of the first votes' candidates over the blocks after genesis. Its properties are ElectionResults.TallyCounts and ElectionResults.CountsSpec; ElectionResults.CountBallots is proved to build it. |
| ElectionResults.CountsSpec | main.go:175-177 | The counted names are exactly the ballots' names, each counted as often as it occurs. |
| ElectionResults.CountBallots | main.go:175-177 | The loop from block 1 to the end builds exactly the counts of the first votes' candidates. |
| ElectionResults.SumOfCounts | main.go:175-177 | All counts together add up to the number of ballots. |
| ElectionResults.TallyCounts | main.go:175-177 | A candidate is a key exactly when some non-genesis block names it. Its count is the number of such blocks, at least one. The counts sum to the chain length minus one. |
| ElectionResults.Top | main.go:158-190 | The final maxVotes is the largest count, or 0 when there is none: every count is at most it, and a positive one is attained. |
| ElectionResults.TieSet | main.go:184-194 | The candidates whose count equals the final maxVotes: what `tieCandidates` holds after the loop, as a set. |
| ElectionResults.Winner | main.go:184-198 | The reported winner: "Tie" when the tie set has several members, its one member when the top count is positive, and "" otherwise. |
| ElectionResults.FindWinner | main.go:184-198 | For every map visiting order: tieCandidates holds each top-count candidate exactly once. The winner is "Tie" when there are several, the sole top candidate when it has a positive count, and "" otherwise. |
| ElectionResults.NoVotesNoWinner | main.go:157-198 | With only the genesis block the results are empty, the tie set is empty and the winner is "" (no winner, and not a tie). |
| ElectionResults.WinnerOfTally | main.go:184-198 | Once any vote is recorded, the top count is positive and someone holds it. A sole holder is the winner and has strictly more votes than every other candidate. |
| Election.Register | main.go:52-61 | RegisterVoter's effect on the three globals: the registry gains the ID at its end unless it already holds it. Its properties are Election.RegisterSpec and Election.RegisterKeepsInv. |
| Election.Admission | main.go:71-86 | CastVote's three checks in their order: unregistered, then already voted, then unknown candidate, the first failing one deciding. |
| Election.Cast | main.go:69-109 | CastVote's effect and outcome. A rejection, or the "error" digest, leaves the state as it was. Otherwise one block linked to the last digest is appended and the candidate's counter goes up by one. Its properties are the Election lemmas below. |
| Blocks.Genesis | main.go:209 | The block main() places first: no link, no digest and no votes. |
| Election.Initial | main.go:209-215 | main()'s setup state, as a value: the chain holding only the genesis block, every named candidate with counter 0, and an empty registry. Its property is Election.InitialInv. |
| Election.HasVoted | main.go:42-49 | The condition IsDuplicateVote tests: some block at index 1 or later holds a vote by the ID. The genesis block is not consulted. |
| Election.BlockDigest | main.go:144-151 | The digest of a new one-vote block linked to prevHash (built at main.go:93-98): the hash of Serialized(vote, [vote], prevHash). Its properties are Election.BlockDigestInput, Election.NoErrorDigest and Election.DigestCollision. |
| Election.InitialInv | main.go:209-215 | The state main() sets up (genesis block, every candidate at zero, nobody registered) satisfies the ledger invariant. |
| Election.RegisterSpec | main.go:52-61 | Registration appends the ID at the end exactly when it is new, and otherwise changes nothing. The registry stays free of duplicates, and the chain and counters are untouched. |
| Election.RegisterKeepsInv | main.go:52-61 | Registration keeps the ledger invariant. |
| Election.BlockDigestInput | main.go:144-152 | A new block's digest is the hash of its vote's encoding written twice, then its link. |
| Election.DigestCollision | main.go:93-98 | For every hash, voter 65 with an empty name linked to k + k and voter 65 naming k with an empty link get the same block digest. Here k is the text of the eight ID bytes. |
| Election.CastOutcome | main.go:69-102 | The outcome follows the checks in order. Unregistered comes first, then duplicate (among registered voters), then unknown candidate (among registered voters who have not voted). The "error" digest sentinel counts only after all three pass. |
| Election.RejectionChangesNothing | main.go:69-102 | Every rejection, and the "error" digest path, leaves the chain, the counters and the registry unchanged. |
| Election.RecordedAppendsOneBlock | main.go:89-109 | An accepted vote appends exactly one block and leaves the earlier blocks unchanged. The new block holds only the vote, links to the old last digest and carries its own digest. Only the chosen candidate's counter rises, by one, and the registry is unchanged. |
| Election.AppendKeepsInv | main.go:89-109 | Appending the new block and bumping the counter keeps the invariant: one vote per block, registered voters, declared candidates, linkage, correct digests, no voter twice, counters equal to the chain's counts. |
| Election.CastKeepsInv | main.go:69-109 | CastVote keeps the ledger invariant, whatever its outcome. |
| Election.AcceptedVote | main.go:69-109 | A registered voter who has not voted, choosing a declared candidate, is recorded unless the digest is the sentinel. Afterwards the voters with a block are the earlier ones plus this voter. |
| Election.OneVotePerVoter | main.go:42-49 | Once a voter has a block, every later request by that voter, for any candidate, is a DuplicateVote and changes nothing. |
| Election.RecordedVoterHasVoted | main.go:42-49 | A voter whose vote was just recorded is detected as having voted. |
| Election.TallyMatchesCounters | main.go:175-177 | The tally read back from the chain agrees with the running counters. Every counted candidate is declared with that counter, a declared candidate missing from the tally has counter 0, and the counts sum to the number of non-genesis blocks. |
| Election.RunAppendsOnly | main.go:104-106 | Over any sequence of requests the chain only grows at its end. Its final length is its starting length plus the number of Recorded outcomes. |
| Election.Ledger.constructor | main.go:207-215 | The ledger starts with the genesis block, every named candidate at zero and an empty registry, and satisfies the invariant. |
| Election.Ledger.IsRegisteredVoter | main.go:33-40 | The scan answers true exactly when the ID is in the registry. |
| Election.Ledger.IsDuplicateVote | main.go:42-49 | The scan of blocks 1 onwards answers true exactly when some non-genesis block's vote is by the ID. The genesis block is never read. |
| Election.Ledger.IsValidCandidate | main.go:63-66 | A candidate is valid exactly when it is a key of the counter map, whatever its count. |
| Election.Ledger.RegisterVoter | main.go:52-61 | The new state is Register of the old, and the invariant is kept. |
| Election.Ledger.CastVote | main.go:69-112 | The new state and the outcome are Cast of the old state, and the invariant is kept. |
| Election.Ledger.CalculateElectionResults | main.go:155-205 | The results are the chain's tally, and the winner and tie candidates are those FindWinner states. |
| Demo.ThreeAllIsTie | main.go:184-198 | With three votes each, both candidates share the top count and the winner is "Tie". |
| Demo.FinalTally | main.go:175-177 | With both counters at three, the tally read from the chain is three each. |
| Demo.Setup | main.go:207-220 | After setup, voters 1 to 10 are registered and both candidates are at zero. |
| Demo.FirstVotes | main.go:223-227 | The first five requests give Recorded, Recorded, Recorded, DuplicateVote, Recorded. |
| Demo.LastVotes | main.go:228-232 | The last five give Recorded, DuplicateVote, Recorded, UnknownCandidate, UnregisteredVoter. |
| Demo.ReadResults | main.go:235 | Reading back the chain after the ten requests gives A = 3 and B = 3, winner "Tie" and a chain of 7 blocks. |
| Demo.Simulate | main.go:207-235 | For any hash that never returns "error": the ten requests give six Recorded, two DuplicateVote, one UnknownCandidate and one UnregisteredVoter. The results are A = 3 and B = 3, a tie, and the chain has 7 blocks. |

## Left out

- Console output. The only part of main() not modelled is its printing: the registration, rejection and acceptance messages, the results and winner lines, and the chain dump.
- SHA-256 and hex encoding. These are the `hash` parameter, a function from bytes to strings. Nothing is assumed about it: not collision resistance, and not the length or alphabet of its output.
- `binary.Write` failures. Writes into a byte buffer cannot fail for these types, so the serialiser is total. The `"error"` string that `calculateHash` returns is kept as the outcome `HashError`, which leaves the ledger unchanged.
- Map iteration order. Go visits map entries in an unspecified order. `FindWinner` picks any unvisited key at each step, so its contract holds for every order. The slice order of `tieCandidates` is not fixed.
- The commented-out counter-based tally (main.go:163-171). It is dead code.
- Chain re-verification. main.go has no function that re-computes digests along the chain, so none is modelled. Linkage and correct digests are instead part of `Election.Inv`, which every operation keeps. Detecting a corrupted block would need a collision-free hash, which is not assumed here.
- Election.Ledger.CastVote: counters are unbounded integers. Go's `int` would wrap only after 2^63 - 1 votes for one candidate.
- ElectionResults.CountBallots: the `Results` counts are unbounded integers too. Go's `int` would wrap only after 2^63 - 1 blocks naming one candidate.
- Election.Ledger.CastVote, Election.Ledger.IsDuplicateVote, Election.Ledger.CalculateElectionResults, ElectionResults.CountBallots and ElectionResults.Tally require every non-genesis block to hold a vote. CastVote also requires a chain with its genesis block. In Go a violation panics with an index out of range (main.go:44, main.go:91, main.go:176). The ledger invariant guarantees both.
- Voter IDs are restricted to the int64 range. The serialiser converts Go's `int` with `int64(...)`, which is the identity on 64-bit targets.
- Candidate names are Dafny strings: sequences of Unicode scalar values, encoded as UTF-8. A Go string holding invalid UTF-8 bytes has no counterpart in the model.

## Notes

- main.go's duplicate check scans the whole chain (main.go:43), and so does the model.
- A candidate literally named "Tie" who wins alone produces the same winner string as a tie. The model reproduces this; a caller can tell the two apart only through `tieCandidates`.
