/** The cryptography and serialisation the node relies on, as values handed to the model: every
    theorem holds of any hash function, signature scheme and codec, and says which property of
    them it needs. */
module Crypto {
  import opened Bytes

  /** The domain tags of `hash_with_domain`. */
  datatype Domain =
    | TxDomain | HeaderDomain | MerkleLeafDomain | MerkleNodeDomain
    | SmtLeafDomain | SmtNodeDomain | AddressDomain | ProposerDomain | RawDomain

  /** `hash_with_domain(domain, data)`. */
  type Hasher = (Domain, Bytes) -> Hash

  datatype Preimage = Preimage(domain: Domain, data: Bytes)

  function Digest(hash: Hasher, p: Preimage): Hash {
    hash(p.domain, p.data)
  }

  /** No two of these inputs share a digest. The set always lists the inputs that were really
      hashed, so the hypothesis can hold of a 32-byte hash function. */
  ghost predicate CollisionFree(hash: Hasher, inputs: set<Preimage>) {
    forall p, q :: p in inputs && q in inputs && Digest(hash, p) == Digest(hash, q) ==> p == q
  }

  type SecretKey = k: Bytes | |k| == 32 witness Zeros(32)

  datatype Crypto = Crypto(
    hash: Hasher,
    publicKey: SecretKey -> PublicKey,
    sign: (SecretKey, Bytes) -> Signature,
    accepts: (PublicKey, Bytes, Signature) -> bool)
  {
    /** `Address::from_pubkey`: the first 20 bytes of a tagged digest. */
    function AddressOf(pubkey: PublicKey): Address {
      hash(AddressDomain, pubkey)[..20]
    }

    /** What an honest signature scheme promises. */
    ghost predicate SignaturesVerify() {
      forall key: SecretKey, msg: Bytes :: accepts(publicKey(key), msg, sign(key, msg))
    }
  }
}
