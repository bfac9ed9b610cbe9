/** The execution loop that the engine and the syncer share, over an overlay on the stored accounts. */
module Execution {
  import opened Bytes
  import opened Crypto
  import opened Transactions
  import opened Blocks
  import opened Kv
  import opened Ledger
  import opened ChainStore
  import opened State

  lemma OverlayReads(codec: Codec, data: Store, overlay: Accounts, a: Address)
    ensures Get(AccountsOf(codec, data) + overlay, a) == if a in overlay then overlay[a] else GetAccount(codec, data, a)
  {
    assert a in AccountsOf(codec, data) <==> AccountKey(a) in data;
  }

  /** One transaction, as the loop body runs it: the recipient is read before the sender is
      written, and the sender is written last. */
  method ExecuteOne(db: StateDB, tx: Transaction, overlay: StateOverlay)
    modifies overlay
    ensures overlay.accounts
         == old(overlay.accounts) + Written(AccountsOf(db.codec, db.kv.data) + old(overlay.accounts), tx)
  {
    ghost var before := AccountsOf(db.codec, db.kv.data) + overlay.accounts;
    OverlayReads(db.codec, db.kv.data, overlay.accounts, tx.sender);
    OverlayReads(db.codec, db.kv.data, overlay.accounts, tx.recipient);
    hide AccountsOf, WrapAdd, SatAdd, SatSub, GetAccount, Written;
    WrittenIs(overlay.accounts, before, tx);
    var sender := overlay.GetAccount(tx.sender, db);
    var totalDeduct := WrapAdd(tx.amount, tx.fee);
    sender := sender.(balance := SatSub(sender.balance, totalDeduct), nonce := WrapAdd(sender.nonce, 1));
    match tx.txType {
      case Transfer =>
        var recipient := overlay.GetAccount(tx.recipient, db);
        recipient := recipient.(balance := SatAdd(recipient.balance, tx.amount));
        overlay.SetAccount(tx.recipient, recipient);
      case RegisterValidator =>
        sender := sender.(isValidator := true, validatorPubkey := Some(tx.pubkey));
        sender := sender.(stakedAmount := SatAdd(sender.stakedAmount, tx.amount));
      case Stake =>
        sender := sender.(stakedAmount := SatAdd(sender.stakedAmount, tx.amount));
      case Unstake =>
        sender := sender.(stakedAmount := SatSub(sender.stakedAmount, tx.amount));
        sender := sender.(balance := SatAdd(sender.balance, tx.amount));
    }
    overlay.SetAccount(tx.sender, sender);
  }

  lemma WrittenIs(overlay: Accounts, accounts: Accounts, tx: Transaction)
    ensures overlay + Written(accounts, tx)
         == (if tx.txType.Transfer? then overlay[tx.recipient := Credited(Get(accounts, tx.recipient), tx)]
             else overlay)
              [tx.sender := Sent(Get(accounts, tx.sender), tx)]
  {
  }

  method ExecuteTransactions(db: StateDB, txs: seq<Transaction>, overlay: StateOverlay)
    modifies overlay
    ensures overlay.accounts == OverlayAll(AccountsOf(db.codec, db.kv.data), old(overlay.accounts), txs)
  {
    ghost var base := AccountsOf(db.codec, db.kv.data);
    hide AccountsOf, Written;
    for i := 0 to |txs|
      invariant overlay.accounts == OverlayAll(base, old(overlay.accounts), txs[..i])
    {
      assert txs[..i + 1][..i] == txs[..i];
      ExecuteOne(db, txs[i], overlay);
    }
    assert txs[..|txs|] == txs;
  }

  /** The store after a block is executed through a fresh overlay and committed. */
  function CommitNext(crypto: Crypto, codec: Codec, data: Store, block: Block): Store {
    Committed(codec, crypto.hash, data, block, OverlayAll(AccountsOf(codec, data), map[], block.transactions))
  }

  method ExecuteAndCommit(db: StateDB, block: Block)
    requires db.Valid()
    modifies db.kv, db.smt
    ensures db.Valid() && db.kv.data == CommitNext(db.crypto, db.codec, old(db.kv.data), block)
    ensures AddressesApart(db.crypto.hash) && old(db.Mirrored()) ==> db.Mirrored()
  {
    hide AddressesApart, StateDB.Valid, StateDB.Mirrored, Committed, AccountsOf;
    var overlay := new StateOverlay();
    ExecuteTransactions(db, block.transactions, overlay);
    var _ := db.CommitBlock(block, overlay);
  }

  /** Executing through a fresh overlay and committing is the direct fold over the accounts. */
  lemma ExecuteThenCommit(codec: Codec, hash: Hasher, data: Store, block: Block)
    requires codec.RoundTrips()
    ensures var overlay := OverlayAll(AccountsOf(codec, data), map[], block.transactions);
      AccountsOf(codec, Committed(codec, hash, data, block, overlay))
        == ExecuteAll(AccountsOf(codec, data), block.transactions)
  {
    hide AccountsOf, Committed, Written;
    var accounts := AccountsOf(codec, data);
    CommittedAccounts(codec, hash, data, block, OverlayAll(accounts, map[], block.transactions));
    OverlayIsFold(accounts, map[], block.transactions);
    assert accounts + map[] == accounts;
  }
}
