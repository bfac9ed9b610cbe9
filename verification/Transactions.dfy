/** Transactions: the encoding that is signed and hashed, its size, and the checks on a signature. */
module Transactions {
  import opened Bytes
  import opened Crypto

  datatype PrimitiveError =
    | InvalidSignature
    | AddressMismatch
    | MerkleRootMismatch(expected: Hash, calculated: Hash)

  datatype TransactionType = Transfer | Stake | Unstake | RegisterValidator

  datatype Transaction = Transaction(
    sender: Address,
    recipient: Address,
    amount: U64,
    fee: U64,
    nonce: U64,
    txType: TransactionType,
    payload: Bytes,
    pubkey: PublicKey,
    signature: Signature)
  {
    function TypeByte(): Byte {
      match txType
      case Transfer => 0
      case Stake => 1
      case Unstake => 2
      case RegisterValidator => 3
    }

    /** The fields before the payload, all of fixed width. */
    function Head(): (b: Bytes)
      ensures |b| == 65
    {
      sender + recipient + BigEndian(amount, 8) + BigEndian(fee, 8) + BigEndian(nonce, 8) + [TypeByte()]
    }

    function SigningBytes(): Bytes {
      Head() + BigEndian(|payload| % U32_END, 4) + payload + pubkey
    }

    /** What is hashed to name the transaction. */
    function HashedBytes(): Bytes {
      SigningBytes() + signature
    }

    function TxHash(hash: Hasher): Hash {
      hash(TxDomain, HashedBytes())
    }

    function SizeBytes(): (size: nat)
      ensures size > 0
    {
      165 + |payload|
    }

    function FeePerByte(): nat {
      fee / SizeBytes()
    }

    function Verify(crypto: Crypto): Outcome<PrimitiveError> {
      if crypto.AddressOf(pubkey) != sender then Fail(AddressMismatch)
      else if !crypto.accepts(pubkey, SigningBytes(), signature) then Fail(InvalidSignature)
      else Pass
    }
  }

  /** The size is that of the hashed encoding, to the byte. */
  lemma SizeIsEncodedLength(tx: Transaction)
    ensures tx.SizeBytes() == |tx.HashedBytes()|
  {
  }

  lemma HeadInjective(a: Transaction, b: Transaction)
    requires a.Head() == b.Head()
    ensures a.sender == b.sender && a.recipient == b.recipient && a.amount == b.amount
    ensures a.fee == b.fee && a.nonce == b.nonce && a.txType == b.txType
  {
    var x1, y1 := a.sender + a.recipient + BigEndian(a.amount, 8) + BigEndian(a.fee, 8), b.sender + b.recipient
      + BigEndian(b.amount, 8) + BigEndian(b.fee, 8);
    ConcatInjective(x1 + BigEndian(a.nonce, 8), [a.TypeByte()], y1 + BigEndian(b.nonce, 8), [b.TypeByte()]);
    ConcatInjective(x1, BigEndian(a.nonce, 8), y1, BigEndian(b.nonce, 8));
    var x2, y2 := a.sender + a.recipient + BigEndian(a.amount, 8), b.sender + b.recipient + BigEndian(b.amount, 8);
    ConcatInjective(x2, BigEndian(a.fee, 8), y2, BigEndian(b.fee, 8));
    ConcatInjective(a.sender + a.recipient, BigEndian(a.amount, 8), b.sender + b.recipient, BigEndian(b.amount, 8));
    ConcatInjective(a.sender, a.recipient, b.sender, b.recipient);
    U64Injective(a.amount, b.amount);
    U64Injective(a.fee, b.fee);
    U64Injective(a.nonce, b.nonce);
    assert [a.TypeByte()][0] == [b.TypeByte()][0];
  }

  /** The hashed encoding determines the whole transaction. The payload's length prefix is cut to
      32 bits, but every other field has a fixed width, so the total length fixes the payload's. */
  lemma TransactionFromBytes(a: Transaction, b: Transaction)
    requires a.HashedBytes() == b.HashedBytes()
    ensures a == b
  {
    SizeIsEncodedLength(a);
    SizeIsEncodedLength(b);
    ConcatInjective(a.SigningBytes(), a.signature, b.SigningBytes(), b.signature);
    var x, y := a.Head() + BigEndian(|a.payload| % U32_END, 4), b.Head() + BigEndian(|b.payload| % U32_END, 4);
    ConcatInjective(x + a.payload, a.pubkey, y + b.payload, b.pubkey);
    ConcatInjective(x, a.payload, y, b.payload);
    ConcatInjective(a.Head(), BigEndian(|a.payload| % U32_END, 4), b.Head(), BigEndian(|b.payload| % U32_END, 4));
    HeadInjective(a, b);
  }

  /** What is signed for a transaction determines every field but the signature. */
  lemma TransactionFromSigning(a: Transaction, b: Transaction)
    requires a.SigningBytes() == b.SigningBytes()
    ensures b == a.(signature := b.signature)
  {
    var c := a.(signature := b.signature);
    SigningIgnoresSignature(a, b.signature);
    hide Transaction.SigningBytes;
    TransactionFromBytes(c, b);
  }

  lemma SigningIgnoresSignature(tx: Transaction, signature: Signature)
    ensures tx.(signature := signature).SigningBytes() == tx.SigningBytes()
  {
    hide BigEndian;
  }
}
