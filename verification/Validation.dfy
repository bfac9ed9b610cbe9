/** The two stages of transaction validation in front of the pool. */
module Validation {
  import opened Bytes
  import opened Crypto
  import opened Transactions
  import opened Ledger

  const MIN_TRANSACTION_FEE: U64 := 100
  const MAX_TRANSACTION_SIZE: nat := 128 * 1024
  const MIN_VALIDATOR_STAKE: U64 := 1_000_000
  const MAX_NONCE_GAP: U64 := 64

  datatype ValidationError =
    | Primitive(error: PrimitiveError)
    | ExceedsMaxSize(size: nat)
    | InsufficientFee(fee: U64)
    | InvalidAmount
    | InsufficientBalance(balance: U64, required: U64)
    | NonceTooLow(expected: U64, got: U64)
    | NonceGapTooLarge(expected: U64, got: U64)
    | AlreadyValidator
    | InsufficientStake

  function ValidateStateless(crypto: Crypto, tx: Transaction): Outcome<ValidationError> {
    if tx.SizeBytes() > MAX_TRANSACTION_SIZE then Fail(ExceedsMaxSize(tx.SizeBytes()))
    else if tx.fee < MIN_TRANSACTION_FEE then Fail(InsufficientFee(tx.fee))
    else if tx.amount == 0 && tx.txType.Transfer? then Fail(InvalidAmount)
    else match tx.Verify(crypto)
      case Fail(error) => Fail(Primitive(error))
      case Pass => Pass
  }

  function ValidateStateful(tx: Transaction, account: Account): Outcome<ValidationError> {
    var required := SatAdd(tx.amount, tx.fee);
    if tx.nonce <= account.nonce then Fail(NonceTooLow(WrapAdd(account.nonce, 1), tx.nonce))
    else if tx.nonce > WrapAdd(account.nonce, MAX_NONCE_GAP)
      then Fail(NonceGapTooLarge(WrapAdd(account.nonce, 1), tx.nonce))
    else if account.balance < required then Fail(InsufficientBalance(account.balance, required))
    else match tx.txType
      case RegisterValidator =>
        if account.isValidator then Fail(AlreadyValidator)
        else if tx.amount < MIN_VALIDATOR_STAKE then Fail(InsufficientStake)
        else Pass
      case Unstake =>
        if !account.isValidator || account.stakedAmount < tx.amount then Fail(InsufficientStake) else Pass
      case _ => Pass
  }

  /** The first stage, case by case: 128 KiB at most, a fee of 100 at least, no empty transfer, and a
      signature that verifies, checked in that order. */
  lemma StatelessCases(crypto: Crypto, tx: Transaction)
    ensures var r := ValidateStateless(crypto, tx);
      var small, paid, filled := 165 + |tx.payload| <= 131072, tx.fee >= 100, tx.txType.Transfer? ==> tx.amount > 0;
      && (r.Pass? <==> small && paid && filled && tx.Verify(crypto).Pass?)
      && (r == Fail(ExceedsMaxSize(165 + |tx.payload|)) <==> !small)
      && (r == Fail(InsufficientFee(tx.fee)) <==> small && !paid)
      && (r == Fail(InvalidAmount) <==> small && paid && !filled)
      && (small && paid && filled && tx.Verify(crypto).Fail? ==> r == Fail(Primitive(tx.Verify(crypto).error)))
  {
    hide Transaction.Verify;
  }

  /** The second stage, case by case: the nonce at most 64 ahead, the balance at least amount and fee
      together or, where those pass 2^64, full; a new validator with a stake of a million; an Unstake
      out of a validator's stake. */
  lemma StatefulCases(tx: Transaction, account: Account)
    ensures var r := ValidateStateful(tx, account);
      var next := account.nonce < tx.nonce && account.nonce + 64 < U64_END && tx.nonce <= account.nonce + 64;
      var funded :=
        tx.amount + tx.fee <= account.balance || (account.balance == U64_END - 1 && tx.amount + tx.fee >= U64_END);
      var staked :=
        && (tx.txType.RegisterValidator? ==> tx.amount >= 1_000_000)
        && (tx.txType.Unstake? ==> account.isValidator && tx.amount <= account.stakedAmount);
      var unregistered := tx.txType.RegisterValidator? ==> !account.isValidator;
      var required := if tx.amount + tx.fee < U64_END then tx.amount + tx.fee else U64_END - 1;
      && (r.Pass? <==> next && funded && unregistered && staked)
      && (r == Fail(NonceTooLow((account.nonce + 1) % U64_END, tx.nonce)) <==> tx.nonce <= account.nonce)
      && (r == Fail(NonceGapTooLarge((account.nonce + 1) % U64_END, tx.nonce)) <==> account.nonce < tx.nonce && !next)
      && (r == Fail(InsufficientBalance(account.balance, required)) <==> next && !funded)
      && (r == Fail(AlreadyValidator) <==> next && funded && !unregistered)
      && (r == Fail(InsufficientStake) <==> next && funded && unregistered && !staked)
  {
  }

  /** An admitted transaction is one the ledger equation covers, exactly when amount plus fee fits
      in 64 bits: the balance check saturates, so an account holding the largest balance passes it
      with a sum it cannot pay. */
  lemma AdmittedIsCovered(tx: Transaction, accounts: Accounts)
    requires ValidateStateful(tx, Get(accounts, tx.sender)).Pass?
    ensures Covered(accounts, tx) <==> tx.amount + tx.fee < U64_END
  {
  }

  /** The nonce window is (nonce, nonce + 64], empty where its upper end wraps past 2^64. */
  lemma AdmittedNonce(tx: Transaction, account: Account)
    requires ValidateStateful(tx, account).Pass?
    ensures account.nonce < tx.nonce <= account.nonce + MAX_NONCE_GAP
    ensures account.nonce + MAX_NONCE_GAP < U64_END
  {
  }

  // ---------------------------------------------------------------------------------------------
  // What admission does not promise.

  /** The balance passes the check before the transaction is executed, and again after. */
  predicate PaysTwice(tx: Transaction, account: Account) {
    if tx.amount + tx.fee >= U64_END then tx.txType.Unstake? || tx.amount + tx.fee == U64_END
    else if tx.txType.Unstake? then tx.amount + 2 * tx.fee <= account.balance
    else 2 * (tx.amount + tx.fee) <= account.balance
  }

  /** A transaction that can be admitted once more after it was executed. */
  predicate Replayable(tx: Transaction, account: Account) {
    && account.nonce + 1 < tx.nonce && account.nonce + 1 + MAX_NONCE_GAP < U64_END
    && PaysTwice(tx, account)
    && !tx.txType.RegisterValidator?
    && (tx.txType.Unstake? ==> 2 * tx.amount <= account.stakedAmount)
  }

  lemma FundsAfter(sender: Account, tx: Transaction)
    requires SatAdd(tx.amount, tx.fee) <= sender.balance
    ensures SatAdd(tx.amount, tx.fee) <= Sent(sender, tx).balance <==> PaysTwice(tx, sender)
  {
    SentExactly(sender, tx);
    hide Sent;
  }

  lemma StakeAfter(sender: Account, tx: Transaction)
    requires tx.txType.Unstake? && tx.amount <= sender.stakedAmount
    ensures tx.amount <= Sent(sender, tx).stakedAmount <==> 2 * tx.amount <= sender.stakedAmount
  {
  }

  /** Execution raises the stored nonce by one and never looks at the transaction's, so an executed
      transaction can be admitted again: exactly if its nonce had skipped ahead, it does not register
      a validator, and the account it was admitted against could pay it twice. */
  lemma AdmittedAgainIff(tx: Transaction, accounts: Accounts)
    requires ValidateStateful(tx, Get(accounts, tx.sender)).Pass?
    ensures ValidateStateful(tx, Get(Execute(accounts, tx), tx.sender)).Pass?
       <==> Replayable(tx, Get(accounts, tx.sender))
  {
    var account := Get(accounts, tx.sender);
    ReadAfter(accounts, tx, tx.sender);
    AdmittedNonce(tx, account);
    SentKeepsRole(account, tx);
    hide Get, Execute, Sent, SatAdd, PaysTwice;
    FundsAfter(account, tx);
    if tx.txType.Unstake? {
      StakeAfter(account, tx);
    }
  }

  lemma SentKeepsRole(sender: Account, tx: Transaction)
    ensures Sent(sender, tx).nonce == WrapAdd(sender.nonce, 1)
    ensures Sent(sender, tx).isValidator <==> sender.isValidator || tx.txType.RegisterValidator?
  {
  }

  /** Such a transaction: a transfer numbered two from an account that has sent nothing and holds its
      cost twice. */
  lemma SkippedNonceReplays(tx: Transaction, accounts: Accounts)
    requires tx.txType.Transfer? && tx.nonce == 2 && 2 * (tx.amount + tx.fee) < U64_END
    requires accounts == map[tx.sender := Account(2 * (tx.amount + tx.fee), 0, 0, false, None)]
    ensures ValidateStateful(tx, Get(accounts, tx.sender)).Pass?
    ensures ValidateStateful(tx, Get(Execute(accounts, tx), tx.sender)).Pass?
  {
    AdmittedAgainIff(tx, accounts);
    hide Execute;
  }

  function Copies(tx: Transaction, k: nat): seq<Transaction> {
    if k == 0 then [] else Copies(tx, k - 1) + [tx]
  }

  /** The sender's account after k executions of the transaction. */
  function AfterCopies(accounts: Accounts, tx: Transaction, k: nat): Account {
    Get(ExecuteAll(accounts, Copies(tx, k)), tx.sender)
  }

  /** The transaction is admitted and executed k times in a row. */
  predicate AdmittedTimes(tx: Transaction, accounts: Accounts, k: nat) {
    k == 0 || (AdmittedTimes(tx, accounts, k - 1) && ValidateStateful(tx, AfterCopies(accounts, tx, k - 1)).Pass?)
  }

  /** The account can pay for it k times. */
  predicate PaysTimes(tx: Transaction, account: Account, k: nat) {
    match tx.txType
    case RegisterValidator => k == 1 && tx.amount + tx.fee <= account.balance && !account.isValidator
      && tx.amount >= MIN_VALIDATOR_STAKE
    case Unstake => tx.amount + k * tx.fee <= account.balance && account.isValidator
      && k * tx.amount <= account.stakedAmount
    case _ => k * (tx.amount + tx.fee) <= account.balance
  }

  /** Nonce, window and funds allow k executions. */
  predicate Allows(tx: Transaction, account: Account, k: nat) {
    && account.nonce + k <= tx.nonce <= account.nonce + MAX_NONCE_GAP && account.nonce + k - 1 + MAX_NONCE_GAP < U64_END
    && PaysTimes(tx, account, k)
  }

  /** How often one transaction can be executed: while its nonce stays ahead of the stored one. It is
      admitted k times in a row exactly if its nonce is at least k ahead, in the window, and the
      account can pay k times; so one that skipped ahead by g is executed up to g times. */
  lemma {:induction false} RepeatsAdmitted(tx: Transaction, accounts: Accounts, k: nat)
    requires tx.amount + tx.fee < U64_END && k > 0
    ensures AdmittedTimes(tx, accounts, k) <==> Allows(tx, Get(accounts, tx.sender), k)
    decreases k
  {
    hide *;
    var account := Get(accounts, tx.sender);
    NothingCopied(tx, accounts);
    AdmittedStep(tx, accounts, k);
    if k == 1 {
      PassesOnce(tx, account);
    } else {
      RepeatsAdmitted(tx, accounts, k - 1);
      if AdmittedTimes(tx, accounts, k - 1) {
        var later := AfterCopies(accounts, tx, k - 1);
        CopiesLeave(tx, accounts, k - 1);
        PassesOnce(tx, later);
        AllowsOneMore(tx, account, later, k);
      } else if Allows(tx, account, k) {
        AllowsFewer(tx, account, k);
      }
    }
  }

  /** A sender that can pay each time has a transaction numbered g ahead executed g times, no more. */
  lemma ExecutedByGap(tx: Transaction, accounts: Accounts)
    requires tx.amount + tx.fee < U64_END
    requires var account := Get(accounts, tx.sender);
      && account.nonce < tx.nonce <= account.nonce + MAX_NONCE_GAP && tx.nonce - 1 + MAX_NONCE_GAP < U64_END
      && PaysTimes(tx, account, tx.nonce - account.nonce)
    ensures var gap := tx.nonce - Get(accounts, tx.sender).nonce;
      AdmittedTimes(tx, accounts, gap) && !AdmittedTimes(tx, accounts, gap + 1)
  {
    hide *;
    var account := Get(accounts, tx.sender);
    var gap := tx.nonce - account.nonce;
    RepeatsAdmitted(tx, accounts, gap);
    RepeatsAdmitted(tx, accounts, gap + 1);
    AllowsGap(tx, account);
  }

  lemma AllowsGap(tx: Transaction, account: Account)
    requires account.nonce < tx.nonce <= account.nonce + MAX_NONCE_GAP && tx.nonce - 1 + MAX_NONCE_GAP < U64_END
    requires PaysTimes(tx, account, tx.nonce - account.nonce)
    ensures Allows(tx, account, tx.nonce - account.nonce) && !Allows(tx, account, tx.nonce - account.nonce + 1)
  {
    hide PaysTimes;
  }

  lemma NothingCopied(tx: Transaction, accounts: Accounts)
    ensures AfterCopies(accounts, tx, 0) == Get(accounts, tx.sender)
  {
    hide Get;
  }

  lemma AdmittedStep(tx: Transaction, accounts: Accounts, k: nat)
    requires k > 0
    ensures AdmittedTimes(tx, accounts, k)
       <==> AdmittedTimes(tx, accounts, k - 1) && ValidateStateful(tx, AfterCopies(accounts, tx, k - 1)).Pass?
    ensures AdmittedTimes(tx, accounts, 0)
  {
    hide ValidateStateful, AfterCopies;
  }

  lemma PassesOnce(tx: Transaction, account: Account)
    requires tx.amount + tx.fee < U64_END
    ensures ValidateStateful(tx, account).Pass? <==> Allows(tx, account, 1)
  {
  }

  lemma AllowsFewer(tx: Transaction, account: Account, k: nat)
    requires k > 1 && Allows(tx, account, k)
    ensures Allows(tx, account, k - 1)
  {
    TimesStep(k, tx.amount + tx.fee);
    TimesStep(k, tx.amount);
    TimesStep(k, tx.fee);
  }

  lemma TimesStep(k: nat, x: nat)
    requires k > 0
    ensures k * x == (k - 1) * x + x
  {
  }

  /** What one execution takes out of the balance. */
  function Cost(tx: Transaction): nat {
    if tx.txType.Unstake? then tx.fee else tx.amount + tx.fee
  }

  /** What k paid executions leave of the sender. */
  predicate LeftBy(tx: Transaction, account: Account, later: Account, k: nat) {
    && later.nonce == account.nonce + k && later.balance == account.balance - k * Cost(tx)
    && (tx.txType.Unstake? ==>
          && later.stakedAmount == account.stakedAmount - k * tx.amount
          && later.isValidator == account.isValidator)
    && (tx.txType.RegisterValidator? && k > 0 ==> later.isValidator)
  }

  lemma {:induction false} CopiesLeave(tx: Transaction, accounts: Accounts, k: nat)
    requires tx.amount + tx.fee < U64_END && AdmittedTimes(tx, accounts, k)
    ensures LeftBy(tx, Get(accounts, tx.sender), AfterCopies(accounts, tx, k), k)
    decreases k
  {
    hide *;
    NothingCopied(tx, accounts);
    if k == 0 {
      NothingLeft(tx, Get(accounts, tx.sender));
    } else {
      AdmittedStep(tx, accounts, k);
      CopiesLeave(tx, accounts, k - 1);
      CopiedOnce(tx, accounts, k);
      PassesOnce(tx, AfterCopies(accounts, tx, k - 1));
      LeftByOne(tx, Get(accounts, tx.sender), AfterCopies(accounts, tx, k - 1), k);
    }
  }

  lemma NothingLeft(tx: Transaction, account: Account)
    ensures LeftBy(tx, account, account, 0)
  {
  }

  lemma CopiedOnce(tx: Transaction, accounts: Accounts, k: nat)
    requires k > 0
    ensures AfterCopies(accounts, tx, k) == Sent(AfterCopies(accounts, tx, k - 1), tx)
  {
    var copies := Copies(tx, k);
    assert copies[..|copies| - 1] == Copies(tx, k - 1);
    ReadAfter(ExecuteAll(accounts, Copies(tx, k - 1)), tx, tx.sender);
    hide Execute, Sent, Credited, Get;
  }

  lemma LeftByOne(tx: Transaction, account: Account, later: Account, k: nat)
    requires k > 0 && LeftBy(tx, account, later, k - 1) && tx.amount + tx.fee < U64_END && Allows(tx, later, 1)
    ensures LeftBy(tx, account, Sent(later, tx), k)
  {
    TimesStep(k, Cost(tx));
    TimesStep(k, tx.amount);
    AllowedParts(tx, later);
    SentPaid(tx, later);
    hide Sent, Cost, Allows;
  }

  lemma AllowedParts(tx: Transaction, account: Account)
    requires Allows(tx, account, 1)
    ensures account.nonce + 1 < U64_END && tx.amount + tx.fee <= account.balance
    ensures tx.txType.Unstake? ==> tx.amount <= account.stakedAmount
  {
  }

  lemma SentPaid(tx: Transaction, account: Account)
    requires account.nonce + 1 < U64_END && tx.amount + tx.fee <= account.balance
    requires tx.txType.Unstake? ==> tx.amount <= account.stakedAmount
    ensures Sent(account, tx).nonce == account.nonce + 1 && Sent(account, tx).balance == account.balance - Cost(tx)
    ensures tx.txType.Unstake? ==>
      Sent(account, tx).stakedAmount == account.stakedAmount - tx.amount
        && Sent(account, tx).isValidator == account.isValidator
    ensures tx.txType.RegisterValidator? ==> Sent(account, tx).isValidator
  {
  }

  lemma AllowsOneMore(tx: Transaction, account: Account, later: Account, k: nat)
    requires k > 1 && LeftBy(tx, account, later, k - 1) && Allows(tx, account, k - 1)
    ensures Allows(tx, later, 1) <==> Allows(tx, account, k)
  {
    TimesStep(k, Cost(tx));
    TimesStep(k, tx.amount);
  }

  /** Each transaction is checked alone against the stored account, so admitted ones need not be
      covered together: two transfers each within the balance, executed one after the other, pay the
      second out of nothing. */
  lemma AdmittedPairMints(first: Transaction, accounts: Accounts)
    requires first.txType.Transfer? && first.sender != first.recipient && first.amount > 0
    requires first.nonce == 1 && 2 * first.amount + first.fee < U64_END
    requires accounts == map[first.sender := Account(first.amount + first.fee, 0, 0, false, None)]
    ensures var second := first.(nonce := 2);
      && ValidateStateful(first, Get(accounts, first.sender)).Pass?
      && ValidateStateful(second, Get(accounts, first.sender)).Pass?
      && Supply(ExecuteAll(accounts, [first, second]))
          == Supply(accounts) - FeesAndLosses([first, second]) + first.amount + first.fee
  {
    var second := first.(nonce := 2);
    PairExecutes(accounts, first, second);
    LedgerEquation(accounts, [first, second]);
    hide Supply, ExecuteAll;
  }

  lemma PairExecutes(accounts: Accounts, first: Transaction, second: Transaction)
    requires first.txType.Transfer? && first.sender != first.recipient && second == first.(nonce := 2)
    requires 2 * first.amount + first.fee < U64_END
    requires accounts == map[first.sender := Account(first.amount + first.fee, 0, 0, false, None)]
    ensures Shortfalls(accounts, [first, second]) == first.amount + first.fee
    ensures Clippings(accounts, [first, second]) == 0
  {
    var between := Execute(accounts, first);
    ReadAfter(accounts, first, first.sender);
    ReadAfter(accounts, first, first.recipient);
    assert Shortfall(accounts, first) == 0 && Clipped(accounts, first) == 0;
    assert Get(between, first.sender).balance == 0 && Get(between, first.recipient).balance == first.amount;
    assert Shortfall(between, second) == first.amount + first.fee && Clipped(between, second) == 0;
    TwoSteps(accounts, first, second);
  }

  lemma TwoSteps(accounts: Accounts, first: Transaction, second: Transaction)
    ensures Shortfalls(accounts, [first, second])
         == Shortfall(accounts, first) + Shortfall(Execute(accounts, first), second)
    ensures Clippings(accounts, [first, second]) == Clipped(accounts, first) + Clipped(Execute(accounts, first), second)
  {
    hide Shortfall, Clipped, Execute;
    var txs := [first, second];
    assert txs[..1] == [first] && [first][..0] == [];
    assert ExecuteAll(accounts, [first]) == Execute(accounts, first);
    assert Shortfalls(accounts, [first]) == Shortfall(accounts, first);
    assert Clippings(accounts, [first]) == Clipped(accounts, first);
  }
}
