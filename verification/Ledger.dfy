/** What executing transactions does to accounts: the direct fold, the overlay that buffers it, and
    the equation the total supply obeys. */
module Ledger {
  import opened Bytes
  import opened Transactions
  import opened Sums

  datatype Account = Account(
    balance: U64,
    nonce: U64,
    stakedAmount: U64,
    isValidator: bool,
    validatorPubkey: Option<PublicKey>)

  const DEFAULT_ACCOUNT: Account := Account(0, 0, 0, false, None)

  type Accounts = map<Address, Account>

  function Get(accounts: Accounts, address: Address): Account {
    if address in accounts then accounts[address] else DEFAULT_ACCOUNT
  }

  // ---------------------------------------------------------------------------------------------
  // One transaction.

  /** The sender after its own transaction. */
  function Sent(sender: Account, tx: Transaction): Account {
    var charged := sender.(
      balance := SatSub(sender.balance, WrapAdd(tx.amount, tx.fee)),
      nonce := WrapAdd(sender.nonce, 1));
    match tx.txType
    case Transfer => charged
    case RegisterValidator =>
      charged.(isValidator := true, validatorPubkey := Some(tx.pubkey),
        stakedAmount := SatAdd(charged.stakedAmount, tx.amount))
    case Stake => charged.(stakedAmount := SatAdd(charged.stakedAmount, tx.amount))
    case Unstake =>
      charged.(stakedAmount := SatSub(charged.stakedAmount, tx.amount), balance := SatAdd(charged.balance, tx.amount))
  }

  /** The recipient of a transfer after it. */
  function Credited(recipient: Account, tx: Transaction): Account {
    recipient.(balance := SatAdd(recipient.balance, tx.amount))
  }

  /** The accounts a transaction writes: the recipient of a transfer first, the sender over it. */
  function Written(accounts: Accounts, tx: Transaction): Accounts {
    var credited :=
      if tx.txType.Transfer? then map[tx.recipient := Credited(Get(accounts, tx.recipient), tx)] else map[];
    credited[tx.sender := Sent(Get(accounts, tx.sender), tx)]
  }

  function Execute(accounts: Accounts, tx: Transaction): Accounts {
    accounts + Written(accounts, tx)
  }

  /** The direct fold over a list of transactions. */
  function ExecuteAll(accounts: Accounts, txs: seq<Transaction>): Accounts {
    if txs == [] then accounts
    else Execute(ExecuteAll(accounts, txs[..|txs| - 1]), txs[|txs| - 1])
  }

  /** The overlay after a list of transactions: reads fall through to the base, writes stay above. */
  function OverlayAll(base: Accounts, overlay: Accounts, txs: seq<Transaction>): Accounts {
    if txs == [] then overlay
    else
      var before := OverlayAll(base, overlay, txs[..|txs| - 1]);
      before + Written(base + before, txs[|txs| - 1])
  }

  lemma MergeAssociative<K, V>(a: map<K, V>, b: map<K, V>, c: map<K, V>)
    ensures a + (b + c) == (a + b) + c
  {
  }

  /** Buffering changes nothing: the base with the overlay on top is the direct fold. */
  lemma {:induction false} OverlayIsFold(base: Accounts, overlay: Accounts, txs: seq<Transaction>)
    ensures base + OverlayAll(base, overlay, txs) == ExecuteAll(base + overlay, txs)
  {
    hide Written;
    if txs != [] {
      var before := txs[..|txs| - 1];
      OverlayIsFold(base, overlay, before);
      var buffered := OverlayAll(base, overlay, before);
      MergeAssociative(base, buffered, Written(base + buffered, txs[|txs| - 1]));
    }
  }

  lemma {:induction false} ExecuteConcat(accounts: Accounts, first: seq<Transaction>, second: seq<Transaction>)
    ensures ExecuteAll(accounts, first + second) == ExecuteAll(ExecuteAll(accounts, first), second)
  {
    hide Execute;
    if second == [] {
      assert first + [] == first;
    } else {
      ExecuteConcat(accounts, first, second[..|second| - 1]);
      assert (first + second)[..|first + second| - 1] == first + second[..|second| - 1];
    }
  }

  // ---------------------------------------------------------------------------------------------
  // Nonces.

  function SentBy(address: Address, txs: seq<Transaction>): nat {
    if txs == [] then 0
    else SentBy(address, txs[..|txs| - 1]) + (if txs[|txs| - 1].sender == address then 1 else 0)
  }

  lemma NonceOfOne(accounts: Accounts, tx: Transaction, address: Address)
    ensures Get(Execute(accounts, tx), address).nonce
         == if tx.sender == address then WrapAdd(Get(accounts, address).nonce, 1) else Get(accounts, address).nonce
  {
    hide WrapAdd, SatAdd, SatSub;
  }

  lemma WrapAddWraps(n: nat)
    ensures WrapAdd(n % U64_END, 1) == (n + 1) % U64_END
  {
  }

  /** Each nonce rises by the number of transactions its owner sent, modulo 2^64. */
  lemma {:induction false} NonceCountsTransactions(accounts: Accounts, txs: seq<Transaction>, address: Address)
    ensures Get(ExecuteAll(accounts, txs), address).nonce
         == (Get(accounts, address).nonce + SentBy(address, txs)) % U64_END
  {
    hide Get, Execute, WrapAdd;
    if txs != [] {
      var before := txs[..|txs| - 1];
      NonceCountsTransactions(accounts, before, address);
      NonceOfOne(ExecuteAll(accounts, before), txs[|txs| - 1], address);
      WrapAddWraps(Get(accounts, address).nonce + SentBy(address, before));
    }
  }

  // ---------------------------------------------------------------------------------------------
  // Supply.

  function Wealth(account: Account): nat {
    account.balance + account.stakedAmount
  }

  function WealthIn(accounts: Accounts): Address -> int {
    (a: Address) => if a in accounts then Wealth(accounts[a]) else 0
  }

  /** All balances and stakes. */
  ghost function Supply(accounts: Accounts): int {
    Sum(accounts.Keys, WealthIn(accounts))
  }

  lemma SupplyWithout(accounts: Accounts, address: Address)
    ensures Supply(accounts) == Wealth(Get(accounts, address)) + Sum(accounts.Keys - {address}, WealthIn(accounts))
  {
    if address in accounts {
      SumRemove(accounts.Keys, WealthIn(accounts), address);
    } else {
      assert accounts.Keys - {address} == accounts.Keys;
    }
  }

  lemma SupplyAfterWrite(accounts: Accounts, address: Address, account: Account)
    ensures Supply(accounts[address := account]) == Supply(accounts) - Wealth(Get(accounts, address)) + Wealth(account)
  {
    var after := accounts[address := account];
    SupplyWithout(accounts, address);
    SupplyWithout(after, address);
    assert after.Keys - {address} == accounts.Keys - {address};
    SumCongruent(accounts.Keys - {address}, WealthIn(accounts), WealthIn(after));
  }

  lemma WealthWithinSupply(accounts: Accounts, a: Address)
    ensures Wealth(Get(accounts, a)) <= Supply(accounts)
  {
    SupplyWithout(accounts, a);
    SumNonNegative(accounts.Keys - {a}, WealthIn(accounts));
  }

  lemma TwoWithinSupply(accounts: Accounts, a: Address, b: Address)
    requires a != b
    ensures Wealth(Get(accounts, a)) + Wealth(Get(accounts, b)) <= Supply(accounts)
  {
    var rest := accounts.Keys - {a};
    if b in accounts {
      SupplyWithout(accounts, a);
      SumRemove(rest, WealthIn(accounts), b);
      SumNonNegative(rest - {b}, WealthIn(accounts));
    } else {
      WealthWithinSupply(accounts, a);
    }
  }

  /** What is really charged: the sum of amount and fee wraps, and the debit saturates. */
  function Taken(sender: Account, tx: Transaction): nat {
    if WrapAdd(tx.amount, tx.fee) <= sender.balance then WrapAdd(tx.amount, tx.fee) else sender.balance
  }

  /** What an Unstake really takes out of the stake. */
  function Unstaked(sender: Account, tx: Transaction): nat {
    if tx.amount <= sender.stakedAmount then tx.amount else sender.stakedAmount
  }

  /** What a saturating credit to a field of this value loses. */
  function Over(value: U64, credit: U64): nat {
    if value + credit < U64_END then 0 else value + credit - (U64_END - 1)
  }

  /** What a transaction destroys besides its fee: an Unstake charges the amount and pays it back
      once while the stake falls too; a transfer to oneself loses the credit under the debit. */
  function Lost(tx: Transaction): nat {
    if tx.txType.Unstake? || (tx.txType.Transfer? && tx.sender == tx.recipient) then tx.amount else 0
  }

  /** What a transaction pays out or writes off without taking it from its sender. */
  function Shortfall(accounts: Accounts, tx: Transaction): nat {
    var sender := Get(accounts, tx.sender);
    tx.amount + tx.fee - Taken(sender, tx) + (if tx.txType.Unstake? then tx.amount - Unstaked(sender, tx) else 0)
  }

  /** What a transaction credits beyond the largest u64. */
  function Clipped(accounts: Accounts, tx: Transaction): nat {
    var sender := Get(accounts, tx.sender);
    match tx.txType
    case Transfer => if tx.sender == tx.recipient then 0 else Over(Get(accounts, tx.recipient).balance, tx.amount)
    case RegisterValidator => Over(sender.stakedAmount, tx.amount)
    case Stake => Over(sender.stakedAmount, tx.amount)
    case Unstake => Over(sender.balance - Taken(sender, tx), tx.amount)
  }

  lemma SentExactly(sender: Account, tx: Transaction)
    ensures Sent(sender, tx).balance == sender.balance - Taken(sender, tx)
      + (if tx.txType.Unstake? then tx.amount - Over(sender.balance - Taken(sender, tx), tx.amount) else 0)
    ensures Sent(sender, tx).stakedAmount == sender.stakedAmount
      + (match tx.txType
         case Transfer => 0
         case RegisterValidator => tx.amount - Over(sender.stakedAmount, tx.amount)
         case Stake => tx.amount - Over(sender.stakedAmount, tx.amount)
         case Unstake => 0 - Unstaked(sender, tx))
  {
    hide WrapAdd;
  }

  lemma CreditedExactly(recipient: Account, tx: Transaction)
    ensures Credited(recipient, tx).balance == recipient.balance + tx.amount - Over(recipient.balance, tx.amount)
    ensures Credited(recipient, tx).stakedAmount == recipient.stakedAmount
  {
  }

  lemma TransferIsTwoWrites(accounts: Accounts, tx: Transaction)
    requires tx.txType.Transfer?
    ensures Execute(accounts, tx)
         == accounts[tx.recipient := Credited(Get(accounts, tx.recipient), tx)]
                    [tx.sender := Sent(Get(accounts, tx.sender), tx)]
  {
  }

  lemma OtherIsOneWrite(accounts: Accounts, tx: Transaction)
    requires !tx.txType.Transfer?
    ensures Execute(accounts, tx) == accounts[tx.sender := Sent(Get(accounts, tx.sender), tx)]
  {
  }

  lemma GetOther(accounts: Accounts, a: Address, account: Account, b: Address)
    ensures Get(accounts[a := account], b) == if a == b then account else Get(accounts, b)
  {
  }

  /** One transaction, whatever the accounts: nothing is assumed of what the sender can pay. */
  lemma SupplyOfOne(accounts: Accounts, tx: Transaction)
    ensures Supply(Execute(accounts, tx))
         == Supply(accounts) - tx.fee - Lost(tx) + Shortfall(accounts, tx) - Clipped(accounts, tx)
  {
    hide Sent, Credited, Supply, Execute, Get, Over, Taken;
    var sender := Get(accounts, tx.sender);
    var sent := Sent(sender, tx);
    SentExactly(sender, tx);
    if tx.txType.Transfer? {
      var credited := Credited(Get(accounts, tx.recipient), tx);
      CreditedExactly(Get(accounts, tx.recipient), tx);
      TransferIsTwoWrites(accounts, tx);
      GetOther(accounts, tx.recipient, credited, tx.sender);
      SupplyAfterWrite(accounts, tx.recipient, credited);
      SupplyAfterWrite(accounts[tx.recipient := credited], tx.sender, sent);
    } else {
      OtherIsOneWrite(accounts, tx);
      SupplyAfterWrite(accounts, tx.sender, sent);
    }
  }

  function FeesAndLosses(txs: seq<Transaction>): nat {
    if txs == [] then 0
    else FeesAndLosses(txs[..|txs| - 1]) + txs[|txs| - 1].fee + Lost(txs[|txs| - 1])
  }

  function Shortfalls(accounts: Accounts, txs: seq<Transaction>): nat {
    if txs == [] then 0
    else Shortfalls(accounts, txs[..|txs| - 1]) + Shortfall(ExecuteAll(accounts, txs[..|txs| - 1]), txs[|txs| - 1])
  }

  function Clippings(accounts: Accounts, txs: seq<Transaction>): nat {
    if txs == [] then 0
    else Clippings(accounts, txs[..|txs| - 1]) + Clipped(ExecuteAll(accounts, txs[..|txs| - 1]), txs[|txs| - 1])
  }

  /** The ledger equation, over any accounts and any list of transactions: the supply falls by the
      fees and by the amounts of Unstake and self-Transfer transactions, rises by what senders were
      not charged for, and falls by what saturating credits cut off. */
  lemma {:induction false} LedgerEquation(accounts: Accounts, txs: seq<Transaction>)
    ensures Supply(ExecuteAll(accounts, txs))
         == Supply(accounts) - FeesAndLosses(txs) + Shortfalls(accounts, txs) - Clippings(accounts, txs)
  {
    hide Supply, Execute, Lost, Shortfall, Clipped;
    if txs != [] {
      LedgerEquation(accounts, txs[..|txs| - 1]);
      SupplyOfOne(ExecuteAll(accounts, txs[..|txs| - 1]), txs[|txs| - 1]);
    }
  }

  // ---------------------------------------------------------------------------------------------
  // When nothing is minted.

  /** The sender can pay the amount and the fee, and an Unstake is covered by stake. */
  predicate Covered(accounts: Accounts, tx: Transaction) {
    && tx.amount + tx.fee <= Get(accounts, tx.sender).balance
    && (tx.txType.Unstake? ==> tx.amount <= Get(accounts, tx.sender).stakedAmount)
  }

  predicate CoveredAll(accounts: Accounts, txs: seq<Transaction>) {
    txs == [] ||
    (CoveredAll(accounts, txs[..|txs| - 1]) && Covered(ExecuteAll(accounts, txs[..|txs| - 1]), txs[|txs| - 1]))
  }

  /** A transaction mints exactly when its sender does not cover it. */
  lemma ShortIffUncovered(accounts: Accounts, tx: Transaction)
    ensures Shortfall(accounts, tx) == 0 <==> Covered(accounts, tx)
  {
    hide Get;
  }

  /** No credit is cut off while the supply leaves room for it, or while everything is paid for. */
  lemma NothingClipped(accounts: Accounts, tx: Transaction)
    requires Supply(accounts) + tx.amount < U64_END || (Supply(accounts) < U64_END && Covered(accounts, tx))
    ensures Clipped(accounts, tx) == 0
  {
    hide *;
    WealthWithinSupply(accounts, tx.sender);
    WealthWithinSupply(accounts, tx.recipient);
    if tx.sender != tx.recipient {
      TwoWithinSupply(accounts, tx.sender, tx.recipient);
    }
    CoveredIs(accounts, tx);
    CreditFits(Get(accounts, tx.sender), Get(accounts, tx.recipient), tx, Supply(accounts));
    ClippedIs(accounts, tx);
  }

  lemma CoveredIs(accounts: Accounts, tx: Transaction)
    ensures var sender := Get(accounts, tx.sender);
      Covered(accounts, tx) <==>
        && tx.amount + tx.fee <= sender.balance
        && (tx.txType.Unstake? ==> tx.amount <= sender.stakedAmount)
  {
    hide Get;
  }

  lemma ClippedIs(accounts: Accounts, tx: Transaction)
    ensures var sender := Get(accounts, tx.sender);
      Clipped(accounts, tx)
        == match tx.txType
           case Transfer =>
             if tx.sender == tx.recipient then 0 else Over(Get(accounts, tx.recipient).balance, tx.amount)
           case RegisterValidator => Over(sender.stakedAmount, tx.amount)
           case Stake => Over(sender.stakedAmount, tx.amount)
           case Unstake => Over(sender.balance - Taken(sender, tx), tx.amount)
  {
    hide Get, Over, Taken;
  }

  /** Every credit a transaction makes fits in 64 bits, by the wealth the supply leaves room for. */
  lemma CreditFits(sender: Account, recipient: Account, tx: Transaction, supply: int)
    requires Wealth(sender) <= supply && Wealth(recipient) <= supply
    requires tx.sender != tx.recipient ==> Wealth(sender) + Wealth(recipient) <= supply
    requires supply + tx.amount < U64_END
      || (supply < U64_END && tx.amount + tx.fee <= sender.balance
          && (tx.txType.Unstake? ==> tx.amount <= sender.stakedAmount))
    ensures tx.txType.Transfer? && tx.sender != tx.recipient ==> Over(recipient.balance, tx.amount) == 0
    ensures tx.txType.RegisterValidator? || tx.txType.Stake? ==> Over(sender.stakedAmount, tx.amount) == 0
    ensures tx.txType.Unstake? ==> Over(sender.balance - Taken(sender, tx), tx.amount) == 0
  {
  }

  lemma SupplyRise(accounts: Accounts, tx: Transaction)
    ensures Supply(Execute(accounts, tx)) <= Supply(accounts) + tx.amount
  {
    SupplyOfOne(accounts, tx);
    hide Supply, Execute, Get, WrapAdd, Over;
  }

  function Amounts(txs: seq<Transaction>): nat {
    if txs == [] then 0 else Amounts(txs[..|txs| - 1]) + txs[|txs| - 1].amount
  }

  lemma {:induction false} NoneClipped(accounts: Accounts, txs: seq<Transaction>)
    requires Supply(accounts) + Amounts(txs) < U64_END || (Supply(accounts) < U64_END && CoveredAll(accounts, txs))
    ensures Clippings(accounts, txs) == 0
    ensures Supply(ExecuteAll(accounts, txs)) <= Supply(accounts) + Amounts(txs)
  {
    hide Supply, Execute, Covered, Clipped, Lost, Shortfall;
    if txs != [] {
      var before, tx := txs[..|txs| - 1], txs[|txs| - 1];
      NoneClipped(accounts, before);
      if CoveredAll(accounts, before) {
        LedgerEquation(accounts, before);
        NoneShort(accounts, before);
      }
      NothingClipped(ExecuteAll(accounts, before), tx);
      SupplyRise(ExecuteAll(accounts, before), tx);
    }
  }

  lemma {:induction false} NoneShort(accounts: Accounts, txs: seq<Transaction>)
    ensures Shortfalls(accounts, txs) == 0 <==> CoveredAll(accounts, txs)
  {
    hide Covered, Shortfall, Execute;
    if txs != [] {
      NoneShort(accounts, txs[..|txs| - 1]);
      ShortIffUncovered(ExecuteAll(accounts, txs[..|txs| - 1]), txs[|txs| - 1]);
    }
  }

  /** Over covered transactions the supply falls by exactly fees and losses, so it never grows. */
  lemma CoveredSupply(accounts: Accounts, txs: seq<Transaction>)
    requires CoveredAll(accounts, txs) && Supply(accounts) < U64_END
    ensures Supply(ExecuteAll(accounts, txs)) == Supply(accounts) - FeesAndLosses(txs)
  {
    hide *;
    LedgerEquation(accounts, txs);
    NoneShort(accounts, txs);
    NoneClipped(accounts, txs);
  }

  /** And only over those: while the amounts fit beside the supply in 64 bits, no list destroys more
      than its fees and losses, and it destroys exactly them if and only if every transaction is
      covered when it executes. */
  lemma SupplyBalancesIff(accounts: Accounts, txs: seq<Transaction>)
    requires Supply(accounts) + Amounts(txs) < U64_END
    ensures Supply(ExecuteAll(accounts, txs)) >= Supply(accounts) - FeesAndLosses(txs)
    ensures Supply(ExecuteAll(accounts, txs)) == Supply(accounts) - FeesAndLosses(txs) <==> CoveredAll(accounts, txs)
  {
    hide *;
    LedgerEquation(accounts, txs);
    NoneShort(accounts, txs);
    NoneClipped(accounts, txs);
  }

  /** Execution itself refuses nothing: a transfer from an account that does not exist mints its
      whole amount. */
  lemma TransferFromNothingMints(tx: Transaction)
    requires tx.txType.Transfer? && tx.sender != tx.recipient
    ensures Supply(map[]) == 0 && Supply(Execute(map[], tx)) == tx.amount
  {
    SupplyOfOne(map[], tx);
    hide Execute;
  }

  // ---------------------------------------------------------------------------------------------
  // Each account.

  /** What a transaction should do to an address's balance, and to its stake. */
  function BalanceChange(a: Address, tx: Transaction): int {
    (if tx.sender != a then 0 else if tx.txType.Unstake? then 0 - tx.fee as int
      else 0 - tx.amount as int - tx.fee as int)
      + (if tx.txType.Transfer? && tx.recipient == a && tx.sender != a then tx.amount else 0)
  }

  function StakeChange(a: Address, tx: Transaction): int {
    if tx.sender != a then 0
    else match tx.txType
      case Transfer => 0
      case RegisterValidator => tx.amount
      case Stake => tx.amount
      case Unstake => 0 - tx.amount as int
  }

  /** What it does beyond that: the part not charged, less the part cut off. */
  function BalanceGap(accounts: Accounts, a: Address, tx: Transaction): int {
    var account := Get(accounts, a);
    if tx.sender == a then
      tx.amount + tx.fee - Taken(account, tx)
      - (if tx.txType.Unstake? then Over(account.balance - Taken(account, tx), tx.amount) else 0)
    else if tx.txType.Transfer? && tx.recipient == a then 0 - Over(account.balance, tx.amount)
    else 0
  }

  function StakeGap(accounts: Accounts, a: Address, tx: Transaction): int {
    var account := Get(accounts, a);
    if tx.sender != a || tx.txType.Transfer? then 0
    else if tx.txType.Unstake? then tx.amount - Unstaked(account, tx)
    else 0 - Over(account.stakedAmount, tx.amount)
  }

  function BalanceChanges(a: Address, txs: seq<Transaction>): int {
    if txs == [] then 0 else BalanceChanges(a, txs[..|txs| - 1]) + BalanceChange(a, txs[|txs| - 1])
  }

  function StakeChanges(a: Address, txs: seq<Transaction>): int {
    if txs == [] then 0 else StakeChanges(a, txs[..|txs| - 1]) + StakeChange(a, txs[|txs| - 1])
  }

  function BalanceGaps(accounts: Accounts, a: Address, txs: seq<Transaction>): int {
    if txs == [] then 0
    else
      BalanceGaps(accounts, a, txs[..|txs| - 1])
      + BalanceGap(ExecuteAll(accounts, txs[..|txs| - 1]), a, txs[|txs| - 1])
  }

  function StakeGaps(accounts: Accounts, a: Address, txs: seq<Transaction>): int {
    if txs == [] then 0
    else StakeGaps(accounts, a, txs[..|txs| - 1]) + StakeGap(ExecuteAll(accounts, txs[..|txs| - 1]), a, txs[|txs| - 1])
  }

  lemma ReadAfter(accounts: Accounts, tx: Transaction, a: Address)
    ensures Get(Execute(accounts, tx), a)
         == if a == tx.sender then Sent(Get(accounts, a), tx)
            else if tx.txType.Transfer? && a == tx.recipient then Credited(Get(accounts, a), tx)
            else Get(accounts, a)
  {
    hide Sent, Credited;
  }

  lemma ChangeOfOne(accounts: Accounts, tx: Transaction, a: Address)
    ensures Get(Execute(accounts, tx), a).balance
         == Get(accounts, a).balance + BalanceChange(a, tx) + BalanceGap(accounts, a, tx)
    ensures Get(Execute(accounts, tx), a).stakedAmount
         == Get(accounts, a).stakedAmount + StakeChange(a, tx) + StakeGap(accounts, a, tx)
  {
    ReadAfter(accounts, tx, a);
    SentExactly(Get(accounts, a), tx);
    CreditedExactly(Get(accounts, a), tx);
    hide Execute, Sent, Credited, Get, Over, Taken;
  }

  /** The account equation, over any accounts and any list: every balance and every stake moves by
      what its owner should pay, stake, take back and receive, plus the gaps. */
  lemma {:induction false} AccountEquation(accounts: Accounts, txs: seq<Transaction>, a: Address)
    ensures Get(ExecuteAll(accounts, txs), a).balance
         == Get(accounts, a).balance + BalanceChanges(a, txs) + BalanceGaps(accounts, a, txs)
    ensures Get(ExecuteAll(accounts, txs), a).stakedAmount
         == Get(accounts, a).stakedAmount + StakeChanges(a, txs) + StakeGaps(accounts, a, txs)
  {
    hide Get, Execute, BalanceChange, StakeChange, BalanceGap, StakeGap;
    if txs != [] {
      var before := txs[..|txs| - 1];
      AccountEquation(accounts, before, a);
      ChangeOfOne(ExecuteAll(accounts, before), txs[|txs| - 1], a);
    }
  }

  /** The account is what its owner's books say. */
  predicate Booked(accounts: Accounts, txs: seq<Transaction>, a: Address) {
    && Get(ExecuteAll(accounts, txs), a).balance == Get(accounts, a).balance + BalanceChanges(a, txs)
    && Get(ExecuteAll(accounts, txs), a).stakedAmount == Get(accounts, a).stakedAmount + StakeChanges(a, txs)
  }

  lemma GapsOfOne(accounts: Accounts, tx: Transaction, a: Address)
    requires Clipped(accounts, tx) == 0
    ensures BalanceGap(accounts, a, tx) >= 0 && StakeGap(accounts, a, tx) >= 0
    ensures BalanceGap(accounts, tx.sender, tx) + StakeGap(accounts, tx.sender, tx) == Shortfall(accounts, tx)
    ensures a != tx.sender ==> BalanceGap(accounts, a, tx) == 0 && StakeGap(accounts, a, tx) == 0
  {
    hide Get;
  }

  lemma {:induction false} GapsNonNegative(accounts: Accounts, txs: seq<Transaction>, a: Address)
    requires Clippings(accounts, txs) == 0
    ensures BalanceGaps(accounts, a, txs) >= 0 && StakeGaps(accounts, a, txs) >= 0
    ensures CoveredAll(accounts, txs) ==> BalanceGaps(accounts, a, txs) == 0 && StakeGaps(accounts, a, txs) == 0
  {
    hide Get, Execute, Covered, Clipped, Shortfall, BalanceGap, StakeGap;
    if txs != [] {
      var before, tx := txs[..|txs| - 1], txs[|txs| - 1];
      GapsNonNegative(accounts, before, a);
      GapsOfOne(ExecuteAll(accounts, before), tx, a);
      ShortIffUncovered(ExecuteAll(accounts, before), tx);
    }
  }

  lemma {:induction false} NoGapsCovered(accounts: Accounts, txs: seq<Transaction>)
    requires Clippings(accounts, txs) == 0
    requires forall a :: BalanceGaps(accounts, a, txs) == 0 && StakeGaps(accounts, a, txs) == 0
    ensures CoveredAll(accounts, txs)
  {
    hide Get, Execute, Covered, Clipped, Shortfall, BalanceGap, StakeGap;
    if txs != [] {
      var before, tx := txs[..|txs| - 1], txs[|txs| - 1];
      forall a ensures BalanceGaps(accounts, a, before) == 0 && StakeGaps(accounts, a, before) == 0 {
        assert BalanceGaps(accounts, a, txs) == 0 && StakeGaps(accounts, a, txs) == 0;
        GapsNonNegative(accounts, before, a);
        GapsOfOne(ExecuteAll(accounts, before), tx, a);
      }
      assert BalanceGaps(accounts, tx.sender, txs) == 0 && StakeGaps(accounts, tx.sender, txs) == 0;
      assert BalanceGaps(accounts, tx.sender, before) == 0 && StakeGaps(accounts, tx.sender, before) == 0;
      NoGapsCovered(accounts, before);
      GapsOfOne(ExecuteAll(accounts, before), tx, tx.sender);
      ShortIffUncovered(ExecuteAll(accounts, before), tx);
    }
  }

  /** Every account matches its owner's books if and only if every transaction is covered when it
      executes, while the amounts fit beside the supply in 64 bits. */
  lemma AccountsBookedIff(accounts: Accounts, txs: seq<Transaction>)
    requires Supply(accounts) + Amounts(txs) < U64_END
    ensures (forall a :: Booked(accounts, txs, a)) <==> CoveredAll(accounts, txs)
  {
    NoneClipped(accounts, txs);
    hide Get, ExecuteAll, CoveredAll, Clippings, BalanceGaps, StakeGaps, BalanceChanges, StakeChanges, Supply;
    forall a ensures Booked(accounts, txs, a)
      <==> BalanceGaps(accounts, a, txs) == 0 && StakeGaps(accounts, a, txs) == 0 {
      AccountEquation(accounts, txs, a);
    }
    if CoveredAll(accounts, txs) {
      forall a ensures Booked(accounts, txs, a) {
        GapsNonNegative(accounts, txs, a);
      }
    }
    if forall a :: Booked(accounts, txs, a) {
      NoGapsCovered(accounts, txs);
    }
  }

  /** In particular over covered transactions, however large the amounts. */
  lemma CoveredBooked(accounts: Accounts, txs: seq<Transaction>, a: Address)
    requires CoveredAll(accounts, txs) && Supply(accounts) < U64_END
    ensures Booked(accounts, txs, a)
  {
    NoneClipped(accounts, txs);
    hide Get, ExecuteAll, CoveredAll, Clippings, BalanceGaps, StakeGaps, BalanceChanges, StakeChanges, Supply;
    GapsNonNegative(accounts, txs, a);
    AccountEquation(accounts, txs, a);
  }

  /** The last registration an address sent. */
  function LastRegistration(a: Address, txs: seq<Transaction>): Option<PublicKey> {
    if txs == [] then None
    else if txs[|txs| - 1].sender == a && txs[|txs| - 1].txType.RegisterValidator? then Some(txs[|txs| - 1].pubkey)
    else LastRegistration(a, txs[..|txs| - 1])
  }

  /** An address is a validator afterwards exactly if it was one or registered, under the key of its
      last registration; covered or not. */
  lemma {:induction false} RegistryFollows(accounts: Accounts, txs: seq<Transaction>, a: Address)
    ensures var after, last := Get(ExecuteAll(accounts, txs), a), LastRegistration(a, txs);
      && (after.isValidator <==> Get(accounts, a).isValidator || last.Some?)
      && after.validatorPubkey == if last.Some? then last else Get(accounts, a).validatorPubkey
  {
    if txs != [] {
      var before := txs[..|txs| - 1];
      RegistryFollows(accounts, before, a);
      ReadAfter(ExecuteAll(accounts, before), txs[|txs| - 1], a);
      hide Get, Execute, WrapAdd, SatAdd, SatSub;
    }
  }
}
