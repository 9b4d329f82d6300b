/** The ledger's records: a vote, and a block linking to its predecessor's digest. */
module Blocks {
  import opened Encoding

  /** Go's int is 64 bits wide on the targets the program runs on. */
  type VoterId = Int64

  /** One ballot: who voted and for which candidate. */
  datatype Vote = Vote(voterId: VoterId, candidate: string)

  /** A chain entry. Every block after the genesis block carries one vote. */
  datatype Block = Block(prevHash: string, currentHash: string, votes: seq<Vote>)

  /** The root block main() places first: no link, no digest, no votes. */
  function Genesis(): Block
  {
    Block("", "", [])
  }
}
