/** Votes, quorum certificates and evidence of double signing. */
module Votes {
  import opened Bytes
  import opened Crypto
  import opened Transactions

  datatype VoteType = PreVote | PreCommit

  datatype Vote = Vote(
    blockHash: Hash,
    height: U64,
    round: U32,
    voteType: VoteType,
    validator: Address,
    pubkey: PublicKey,
    signature: Signature)
  {
    function Verify(crypto: Crypto): Outcome<PrimitiveError> {
      if crypto.AddressOf(pubkey) != validator then Fail(AddressMismatch)
      else if !crypto.accepts(pubkey, SigningBytes(blockHash, height, round, voteType, validator), signature)
      then Fail(InvalidSignature)
      else Pass
    }
  }

  function SigningBytes(blockHash: Hash, height: U64, round: U32, voteType: VoteType, validator: Address): Bytes {
    blockHash + BigEndian(height, 8) + BigEndian(round, 4) + [TypeByte(voteType)] + validator
  }

  /** `Vote::new_signed`. */
  function NewSigned(crypto: Crypto, key: SecretKey, blockHash: Hash, height: U64, round: U32,
                     voteType: VoteType): (vote: Vote)
    ensures crypto.SignaturesVerify() ==> vote.Verify(crypto) == Pass
    ensures vote.blockHash == blockHash && vote.height == height && vote.round == round
    ensures vote.voteType == voteType && vote.validator == crypto.AddressOf(crypto.publicKey(key))
  {
    var pubkey := crypto.publicKey(key);
    var validator := crypto.AddressOf(pubkey);
    var message := SigningBytes(blockHash, height, round, voteType, validator);
    Vote(blockHash, height, round, voteType, validator, pubkey, crypto.sign(key, message))
  }

  datatype QuorumCertificate = QuorumCertificate(
    blockHash: Hash,
    height: U64,
    round: U32,
    votes: seq<Vote>,
    totalVotingPower: nat,
    signersVotingPower: nat)
  {
    predicate IsValidQuorum() {
      totalVotingPower != 0 && signersVotingPower * 3 > totalVotingPower * 2
    }
  }

  datatype SlashingError =
    | InvalidVote(error: PrimitiveError)
    | InvalidEvidenceParams
    | IdenticalVotes
    | ValidatorMismatch

  datatype DoubleSignEvidence = DoubleSignEvidence(voteA: Vote, voteB: Vote) {
    function Verify(crypto: Crypto): Result<Address, SlashingError> {
      if voteA.validator != voteB.validator then Err(ValidatorMismatch)
      else if voteA.height != voteB.height || voteA.round != voteB.round || voteA.voteType != voteB.voteType
      then Err(InvalidEvidenceParams)
      else if voteA.blockHash == voteB.blockHash then Err(IdenticalVotes)
      else
        match (voteA.Verify(crypto), voteB.Verify(crypto))
        case (Fail(error), _) => Err(InvalidVote(error))
        case (Pass, Fail(error)) => Err(InvalidVote(error))
        case (Pass, Pass) => Ok(voteA.validator)
    }
  }

  function TypeByte(voteType: VoteType): Byte {
    if voteType.PreVote? then 0 else 1
  }

  /** What is signed for a vote determines every field but key and signature. */
  lemma VoteFromBytes(a: Vote, b: Vote)
    requires SigningBytes(a.blockHash, a.height, a.round, a.voteType, a.validator)
          == SigningBytes(b.blockHash, b.height, b.round, b.voteType, b.validator)
    ensures b == a.(pubkey := b.pubkey, signature := b.signature)
  {
    var p, q := a.blockHash + BigEndian(a.height, 8), b.blockHash + BigEndian(b.height, 8);
    var s, t := p + BigEndian(a.round, 4), q + BigEndian(b.round, 4);
    var x, y := [TypeByte(a.voteType)], [TypeByte(b.voteType)];
    ConcatInjective(s + x, a.validator, t + y, b.validator);
    ConcatInjective(s, x, t, y);
    ConcatInjective(p, BigEndian(a.round, 4), q, BigEndian(b.round, 4));
    ConcatInjective(a.blockHash, BigEndian(a.height, 8), b.blockHash, BigEndian(b.height, 8));
    U64Injective(a.height, b.height);
    U32Width();
    BigEndianInjective(a.round, b.round, 4);
    assert x[0] == y[0];
  }

  /** Accepted evidence, exactly: two verifying votes of one validator, height, round and type, for
      different blocks. The two may come in either order. */
  lemma EvidenceIff(crypto: Crypto, x: Vote, y: Vote, v: Address)
    ensures DoubleSignEvidence(x, y).Verify(crypto) == Ok(v) <==>
      && x.Verify(crypto).Pass? && y.Verify(crypto).Pass? && x.validator == v && x.blockHash != y.blockHash
      && y == x.(blockHash := y.blockHash, pubkey := y.pubkey, signature := y.signature)
    ensures DoubleSignEvidence(x, y).Verify(crypto) == Ok(v) <==> DoubleSignEvidence(y, x).Verify(crypto) == Ok(v)
  {
    hide Vote.Verify;
  }
}
