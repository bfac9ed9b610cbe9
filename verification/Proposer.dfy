/** Choosing a proposer by stake. */
module Proposer {
  import opened Bytes
  import opened Crypto

  datatype ValidatorInfo = ValidatorInfo(address: Address, pubkey: PublicKey, votingPower: U64)

  /** All voting power, as a number. */
  function TotalPower(validators: seq<ValidatorInfo>): nat {
    if validators == [] then 0
    else TotalPower(validators[..|validators| - 1]) + validators[|validators| - 1].votingPower
  }

  /** The same as `sum()` computes it on u64. */
  function PowerSum(validators: seq<ValidatorInfo>): U64 {
    if validators == [] then 0
    else WrapAdd(PowerSum(validators[..|validators| - 1]), validators[|validators| - 1].votingPower)
  }

  lemma {:induction false} PowerSumIsModular(validators: seq<ValidatorInfo>)
    ensures PowerSum(validators) == TotalPower(validators) % U64_END
  {
    if validators != [] {
      PowerSumIsModular(validators[..|validators| - 1]);
      ModularStep(TotalPower(validators[..|validators| - 1]), validators[|validators| - 1].votingPower);
    }
  }

  lemma ModularStep(a: nat, b: U64)
    ensures WrapAdd(a % U64_END, b) == (a + b) % U64_END
  {
  }

  lemma {:induction false} PrefixPower(validators: seq<ValidatorInfo>, i: nat, j: nat)
    requires i <= j <= |validators|
    ensures TotalPower(validators[..i]) <= TotalPower(validators[..j])
    decreases j
  {
    if i < j {
      PrefixPower(validators, i, j - 1);
      PrefixStep(validators, j - 1);
    }
  }

  lemma PrefixStep(validators: seq<ValidatorInfo>, i: nat)
    requires i < |validators|
    ensures TotalPower(validators[..i + 1]) == TotalPower(validators[..i]) + validators[i].votingPower
    ensures PowerSum(validators[..i + 1]) == WrapAdd(PowerSum(validators[..i]), validators[i].votingPower)
  {
    assert validators[..i + 1][..i] == validators[..i];
  }

  /** The stretch of [0, total) that belongs to the validator at index i. */
  predicate Owns(validators: seq<ValidatorInfo>, i: nat, target: nat)
    requires i < |validators|
  {
    TotalPower(validators[..i]) <= target < TotalPower(validators[..i + 1])
  }

  /** Where the loop stops, from index i on, with u64 sums; the length if it runs out. */
  function PickIndex(validators: seq<ValidatorInfo>, target: nat, i: nat): (k: nat)
    requires i <= |validators|
    ensures k <= |validators|
    decreases |validators| - i
  {
    if i == |validators| || PowerSum(validators[..i + 1]) > target then i
    else PickIndex(validators, target, i + 1)
  }

  function Pick(validators: seq<ValidatorInfo>, target: nat): ValidatorInfo
    requires validators != []
  {
    var k := PickIndex(validators, target, 0);
    if k < |validators| then validators[k] else validators[0]
  }

  function Target(hash: Hasher, height: U64, round: U32, total: U64): nat
    requires total > 0
  {
    FromU64Bytes(hash(ProposerDomain, BigEndian(height, 8) + BigEndian(round, 4))[..8]) % total
  }

  function Selected(hash: Hasher, height: U64, round: U32, validators: seq<ValidatorInfo>): Option<ValidatorInfo> {
    if validators == [] || PowerSum(validators) == 0 then None
    else Some(Pick(validators, Target(hash, height, round, PowerSum(validators))))
  }

  method SumPower(validators: seq<ValidatorInfo>) returns (total: U64)
    ensures total == PowerSum(validators)
  {
    total := 0;
    for i := 0 to |validators|
      invariant total == PowerSum(validators[..i])
    {
      PrefixStep(validators, i);
      total := WrapAdd(total, validators[i].votingPower);
    }
    assert validators[..|validators|] == validators;
  }

  method SelectProposer(hash: Hasher, height: U64, round: U32, validators: seq<ValidatorInfo>)
    returns (proposer: Option<ValidatorInfo>)
    ensures proposer == Selected(hash, height, round, validators)
  {
    if |validators| == 0 {
      return None;
    }
    var totalPower := SumPower(validators);
    if totalPower == 0 {
      return None;
    }
    var seedData := BigEndian(height, 8) + BigEndian(round, 4);
    var seedHash := hash(ProposerDomain, seedData);
    var randomVal := FromU64Bytes(seedHash[..8]);
    var targetPower := randomVal % totalPower;
    var accumulated: U64 := 0;
    hide WrapAdd;
    for i := 0 to |validators|
      invariant accumulated == PowerSum(validators[..i])
      invariant PickIndex(validators, targetPower, 0) == PickIndex(validators, targetPower, i)
    {
      PrefixStep(validators, i);
      accumulated := WrapAdd(accumulated, validators[i].votingPower);
      if accumulated > targetPower {
        return Some(validators[i]);
      }
    }
    proposer := Some(validators[0]);
  }

  /** The pick is the owner of the target, so the fallback to the first validator is unreachable. */
  lemma {:induction false} PickIsOwner(validators: seq<ValidatorInfo>, target: nat, i: nat)
    requires i <= |validators| && TotalPower(validators[..i]) <= target < TotalPower(validators) < U64_END
    ensures PickIndex(validators, target, i) < |validators|
    ensures Owns(validators, PickIndex(validators, target, i), target)
    decreases |validators| - i
  {
    hide *;
    assert validators[..|validators|] == validators;
    PickStep(validators, target, i);
    if i < |validators| {
      PrefixPower(validators, i + 1, |validators|);
      PrefixFits(validators, i + 1);
      if TotalPower(validators[..i + 1]) <= target {
        PickIsOwner(validators, target, i + 1);
      }
    }
  }

  lemma PickStep(validators: seq<ValidatorInfo>, target: nat, i: nat)
    requires i <= |validators|
    ensures PickIndex(validators, target, i)
         == if i == |validators| || PowerSum(validators[..i + 1]) > target then i
             else PickIndex(validators, target, i + 1)
    ensures i < |validators| ==>
      (Owns(validators, i, target) <==> TotalPower(validators[..i]) <= target < TotalPower(validators[..i + 1]))
  {
    hide PowerSum, TotalPower;
  }

  lemma PrefixFits(validators: seq<ValidatorInfo>, i: nat)
    requires i <= |validators| && TotalPower(validators) < U64_END
    ensures PowerSum(validators[..i]) == TotalPower(validators[..i])
  {
    hide *;
    assert validators[..|validators|] == validators;
    PrefixPower(validators, i, |validators|);
    PowerSumIsModular(validators[..i]);
    Modular(TotalPower(validators[..i]), TotalPower(validators));
  }

  lemma Modular(part: nat, whole: nat)
    requires part <= whole < U64_END
    ensures part % U64_END == part
  {
  }

  lemma OwnersDisjoint(validators: seq<ValidatorInfo>, i: nat, j: nat, target: nat)
    requires i < |validators| && j < |validators| && Owns(validators, i, target) && Owns(validators, j, target)
    ensures i == j
  {
    if i < j {
      PrefixPower(validators, i + 1, j);
    } else if j < i {
      PrefixPower(validators, j + 1, i);
    }
  }

  /** The targets for which the loop stops at index i. */
  ghost function TargetsOf(validators: seq<ValidatorInfo>, i: nat): set<nat> {
    set t: nat | t < TotalPower(validators) && PickIndex(validators, t, 0) == i
  }

  lemma {:induction false} IntervalSize(s: set<nat>, low: nat, high: nat)
    requires low <= high && forall t: nat :: t in s <==> low <= t < high
    ensures |s| == high - low
    decreases high
  {
    if low < high {
      IntervalSize(s - {high - 1}, low, high - 1);
    } else {
      assert s == {};
    }
  }

  lemma StopsAtOwner(validators: seq<ValidatorInfo>, target: nat, i: nat)
    requires i < |validators| && target < TotalPower(validators) < U64_END
    ensures PickIndex(validators, target, 0) == i <==> Owns(validators, i, target)
  {
    assert validators[..0] == [];
    PickIsOwner(validators, target, 0);
    hide Owns, PickIndex, TotalPower;
    if Owns(validators, i, target) {
      OwnersDisjoint(validators, i, PickIndex(validators, target, 0), target);
    }
  }

  /** Choice in proportion to stake: over all targets below the total, the loop stops at index i for
      exactly as many as that validator's power, so never at one without power, and it never falls
      through to the first validator. */
  lemma ChoiceIsProportional(validators: seq<ValidatorInfo>, i: nat)
    requires i <= |validators| && TotalPower(validators) < U64_END
    ensures |TargetsOf(validators, i)| == if i < |validators| then validators[i].votingPower else 0
  {
    assert validators[..|validators|] == validators;
    assert validators[..0] == [];
    if i < |validators| {
      var low := TotalPower(validators[..i]);
      PrefixStep(validators, i);
      PrefixPower(validators, i + 1, |validators|);
      hide TotalPower, PowerSum, PickIndex;
      forall t: nat ensures t in TargetsOf(validators, i) <==> low <= t < low + validators[i].votingPower {
        if t < TotalPower(validators) {
          StopsAtOwner(validators, t, i);
        }
      }
      IntervalSize(TargetsOf(validators, i), low, low + validators[i].votingPower);
    } else {
      forall t: nat ensures t !in TargetsOf(validators, i) {
        if t < TotalPower(validators) {
          PickIsOwner(validators, t, 0);
        }
      }
      assert TargetsOf(validators, i) == {};
    }
  }

  // ---------------------------------------------------------------------------------------------
  // From the seed to the choice.

  /** Every target below the total has an owner. */
  lemma OwnerExists(validators: seq<ValidatorInfo>, target: nat) returns (i: nat)
    requires target < TotalPower(validators) < U64_END
    ensures i < |validators| && Owns(validators, i, target)
  {
    hide *;
    NoPowerBefore(validators);
    PickIsOwner(validators, target, 0);
    i := PickIndex(validators, target, 0);
  }

  lemma NoPowerBefore(validators: seq<ValidatorInfo>)
    ensures TotalPower(validators[..0]) == 0
  {
  }

  /** The proposer of a height and round: with stakes that sum to a positive number below 2^64, it is
      the one validator whose stretch holds the number in the first eight bytes of the digest of
      height and round, taken modulo all power. */
  lemma SelectedOwnsSeed(hash: Hasher, height: U64, round: U32, validators: seq<ValidatorInfo>, i: nat)
    requires 0 < TotalPower(validators) < U64_END && i < |validators|
    requires var digest := hash(ProposerDomain, BigEndian(height, 8) + BigEndian(round, 4));
      Owns(validators, i, FromBigEndian(digest[..8]) % TotalPower(validators))
    ensures Selected(hash, height, round, validators) == Some(validators[i])
    ensures forall j :: 0 <= j < |validators| && j != i ==>
      !Owns(validators, j,
        FromBigEndian(hash(ProposerDomain, BigEndian(height, 8) + BigEndian(round, 4))[..8]) % TotalPower(validators))
  {
    hide *;
    var seed := FromBigEndian(hash(ProposerDomain, BigEndian(height, 8) + BigEndian(round, 4))[..8]);
    var target := seed % TotalPower(validators);
    PrefixFits(validators, |validators|);
    assert validators[..|validators|] == validators;
    SelectedIs(hash, height, round, validators);
    StopsAtOwner(validators, target, i);
    forall j | 0 <= j < |validators| && j != i ensures !Owns(validators, j, target) {
      if Owns(validators, j, target) {
        OwnersDisjoint(validators, i, j, target);
      }
    }
  }

  lemma SelectedIs(hash: Hasher, height: U64, round: U32, validators: seq<ValidatorInfo>)
    requires PowerSum(validators) > 0
    ensures var seed := FromBigEndian(hash(ProposerDomain, BigEndian(height, 8) + BigEndian(round, 4))[..8]);
      var k := PickIndex(validators, seed % PowerSum(validators), 0);
      && validators != []
      && Selected(hash, height, round, validators) == Some(if k < |validators| then validators[k] else validators[0])
  {
    hide PickIndex, BigEndian, FromBigEndian;
  }

  /** Nobody is chosen exactly when there is no power to choose by. */
  lemma NobodySelectedIff(hash: Hasher, height: U64, round: U32, validators: seq<ValidatorInfo>)
    requires TotalPower(validators) < U64_END
    ensures Selected(hash, height, round, validators).None? <==> TotalPower(validators) == 0
  {
    PowerSumIsModular(validators);
    hide Pick, Target;
  }

  /** The seeds that fall to the validator at index i. */
  ghost function SeedsOf(validators: seq<ValidatorInfo>, i: nat): set<nat>
    requires i < |validators| && TotalPower(validators) > 0
  {
    set s: nat | s < U64_END && Owns(validators, i, s % TotalPower(validators))
  }

  /** The numbers below a bound that leave a remainder in [low, low + size). */
  ghost function Hits(bound: nat, total: nat, low: nat, size: nat): set<nat>
    requires total > 0
  {
    set s: nat | s < bound && low <= s % total < low + size
  }

  /** Each full turn of the modulus hits the stretch once at each of its places. */
  lemma {:induction false} HitsOfTurns(turns: nat, total: nat, low: nat, size: nat)
    requires total > 0 && low + size <= total
    ensures |Hits(turns * total, total, low, size)| == turns * size
    decreases turns
  {
    if turns == 0 {
      assert Hits(0, total, low, size) == {};
    } else {
      var before := (turns - 1) * total;
      var earlier, now := Hits(before, total, low, size), Turn(before, low, size);
      HitsOfTurns(turns - 1, total, low, size);
      TurnOnce(turns, total);
      TurnSize(before, low, size);
      TurnOnce(turns, size);
      OneMoreTurn(turns, total, low, size);
      CountDisjoint(earlier, now);
    }
  }

  predicate Within(s: nat, low: nat, high: nat) {
    low <= s < high
  }

  ghost function Interval(low: nat, high: nat): set<nat> {
    set s: nat | s < high && Within(s, low, high)
  }

  ghost function Turn(before: nat, low: nat, size: nat): set<nat> {
    Interval(before + low, before + low + size)
  }

  lemma TurnSize(before: nat, low: nat, size: nat)
    ensures |Turn(before, low, size)| == size
  {
    IntervalSize(Turn(before, low, size), before + low, before + low + size);
  }

  lemma TurnOnce(turns: nat, x: nat)
    requires turns > 0
    ensures turns * x == (turns - 1) * x + x
  {
  }

  lemma OneMoreTurn(turns: nat, total: nat, low: nat, size: nat)
    requires turns > 0 && total > 0 && low + size <= total
    ensures Hits(turns * total, total, low, size)
         == Hits((turns - 1) * total, total, low, size) + Turn((turns - 1) * total, low, size)
    ensures Hits((turns - 1) * total, total, low, size) !! Turn((turns - 1) * total, low, size)
  {
    TurnOnce(turns, total);
    var before := (turns - 1) * total;
    forall s: nat | before <= s < before + total ensures s % total == s - before {
      Remainder(turns - 1, total, s);
    }
  }

  lemma Remainder(turns: nat, total: nat, s: nat)
    requires total > 0 && turns * total <= s < turns * total + total
    ensures s % total == s - turns * total
  {
    var q, r := s / total, s % total;
    assert s == q * total + r;
    if q < turns {
      Scaled(q + 1, turns, total);
    } else if turns < q {
      Scaled(turns + 1, q, total);
    }
  }

  lemma Scaled(a: nat, b: nat, x: nat)
    requires a <= b
    ensures a * x <= b * x
    ensures (a + 1) * x == a * x + x
  {
  }

  lemma CountDisjoint(a: set<nat>, b: set<nat>)
    requires a !! b
    ensures |a + b| == |a| + |b|
  {
  }

  lemma CountIncluded(a: set<nat>, b: set<nat>)
    requires a <= b
    ensures |a| <= |b|
  {
    CountDisjoint(a, b - a);
    assert b == a + (b - a);
  }

  /** Fairness over seeds: of the 2^64 values of the eight seed bytes, the number that choose the
      validator at index i is its power times 2^64 / total, up to one more per unit of power. */
  lemma SeedsAreProportional(validators: seq<ValidatorInfo>, i: nat)
    requires i < |validators| && 0 < TotalPower(validators) < U64_END
    ensures var power, turns := validators[i].votingPower, U64_END / TotalPower(validators);
      turns * power <= |SeedsOf(validators, i)| <= (turns + 1) * power
  {
    hide *;
    var total, low, power := TotalPower(validators), TotalPower(validators[..i]), validators[i].votingPower;
    var turns := U64_END / total;
    PrefixStep(validators, i);
    PrefixPower(validators, i + 1, |validators|);
    assert validators[..|validators|] == validators;
    HitsOfTurns(turns, total, low, power);
    HitsOfTurns(turns + 1, total, low, power);
    TurnsAround(total);
    SeedsAreHits(validators, i);
    FewerHits(turns * total, U64_END, total, low, power);
    FewerHits(U64_END, (turns + 1) * total, total, low, power);
  }

  lemma TurnsAround(total: nat)
    requires 0 < total
    ensures U64_END / total * total <= U64_END <= (U64_END / total + 1) * total
  {
    Scaled(U64_END / total, U64_END / total, total);
  }

  lemma SeedsAreHits(validators: seq<ValidatorInfo>, i: nat)
    requires i < |validators| && TotalPower(validators) > 0
    ensures SeedsOf(validators, i)
         == Hits(U64_END, TotalPower(validators), TotalPower(validators[..i]), validators[i].votingPower)
  {
    PrefixStep(validators, i);
    hide TotalPower, PowerSum;
  }

  lemma FewerHits(fewer: nat, more: nat, total: nat, low: nat, size: nat)
    requires total > 0 && fewer <= more
    ensures |Hits(fewer, total, low, size)| <= |Hits(more, total, low, size)|
  {
    CountIncluded(Hits(fewer, total, low, size), Hits(more, total, low, size));
  }
}
