/** Counting votes by stake, and what two quorums share. */
module Quorums {
  import opened Bytes
  import opened Sums
  import opened Votes
  import opened Proposer

  /** The power of the first validator with this address. */
  function PowerOf(validators: seq<ValidatorInfo>, a: Address): U64 {
    if validators == [] then 0
    else if validators[0].address == a then validators[0].votingPower
    else PowerOf(validators[1..], a)
  }

  function PowerIn(validators: seq<ValidatorInfo>): Address -> int {
    (a: Address) => PowerOf(validators, a)
  }

  /** The power behind a list of votes, as a number and as summed on u64. */
  function CountedPower(votes: seq<Vote>, validators: seq<ValidatorInfo>): nat {
    if votes == [] then 0
    else CountedPower(votes[..|votes| - 1], validators) + PowerOf(validators, votes[|votes| - 1].validator)
  }

  function VotePower(votes: seq<Vote>, validators: seq<ValidatorInfo>): U64 {
    if votes == [] then 0
    else WrapAdd(VotePower(votes[..|votes| - 1], validators), PowerOf(validators, votes[|votes| - 1].validator))
  }

  lemma {:induction false} VotePowerIsModular(votes: seq<Vote>, validators: seq<ValidatorInfo>)
    ensures VotePower(votes, validators) == CountedPower(votes, validators) % U64_END
  {
    if votes != [] {
      VotePowerIsModular(votes[..|votes| - 1], validators);
      ModularStep(CountedPower(votes[..|votes| - 1], validators), PowerOf(validators, votes[|votes| - 1].validator));
    }
  }

  ghost predicate DistinctVoters(votes: seq<Vote>) {
    forall i, j :: 0 <= i < j < |votes| ==> votes[i].validator != votes[j].validator
  }

  ghost predicate DistinctValidators(validators: seq<ValidatorInfo>) {
    forall i, j :: 0 <= i < j < |validators| ==> validators[i].address != validators[j].address
  }

  function Voters(votes: seq<Vote>): (voters: set<Address>)
    ensures forall i :: 0 <= i < |votes| ==> votes[i].validator in voters
    ensures forall a :: a in voters ==> exists i :: 0 <= i < |votes| && votes[i].validator == a
  {
    if votes == [] then {} else Voters(votes[..|votes| - 1]) + {votes[|votes| - 1].validator}
  }

  function Addresses(validators: seq<ValidatorInfo>): (addresses: set<Address>)
    ensures forall i :: 0 <= i < |validators| ==> validators[i].address in addresses
    ensures forall a :: a in addresses ==> exists i :: 0 <= i < |validators| && validators[i].address == a
  {
    if validators == [] then {} else Addresses(validators[..|validators| - 1]) + {validators[|validators| - 1].address}
  }

  /** The power behind votes of distinct validators is the sum over who voted. */
  lemma {:induction false} CountedIsSum(votes: seq<Vote>, validators: seq<ValidatorInfo>)
    requires DistinctVoters(votes)
    ensures CountedPower(votes, validators) == Sum(Voters(votes), PowerIn(validators))
  {
    hide PowerOf;
    if votes != [] {
      var before, last := votes[..|votes| - 1], votes[|votes| - 1].validator;
      CountedIsSum(before, validators);
      assert last !in Voters(before);
      SumAdd(Voters(before), PowerIn(validators), last);
    }
  }

  lemma {:induction false} PowerOutside(validators: seq<ValidatorInfo>, a: Address)
    requires a !in Addresses(validators)
    ensures PowerOf(validators, a) == 0
  {
    if validators != [] {
      forall b | b in Addresses(validators[1..]) ensures b in Addresses(validators) {
        var i :| 0 <= i < |validators[1..]| && validators[1..][i].address == b;
        assert validators[i + 1].address == b;
      }
      PowerOutside(validators[1..], a);
    }
  }

  lemma {:induction false} PowerAt(validators: seq<ValidatorInfo>, i: nat)
    requires DistinctValidators(validators) && i < |validators|
    ensures PowerOf(validators, validators[i].address) == validators[i].votingPower
  {
    if i > 0 {
      PowerAt(validators[1..], i - 1);
      assert validators[1..][i - 1] == validators[i];
    }
  }

  lemma {:induction false} PrefixPowerIsSum(validators: seq<ValidatorInfo>, n: nat)
    requires DistinctValidators(validators) && n <= |validators|
    ensures TotalPower(validators[..n]) == Sum(Addresses(validators[..n]), PowerIn(validators))
  {
    hide PowerOf, PowerIn, TotalPower, Addresses, DistinctValidators;
    if n == 0 {
      NoPower(validators);
    } else {
      var last := validators[n - 1].address;
      PrefixPowerIsSum(validators, n - 1);
      PrefixStep(validators, n - 1);
      PowerAt(validators, n - 1);
      PowerInIs(validators, last);
      AddressesSnoc(validators, n - 1);
      SumAdd(Addresses(validators[..n - 1]), PowerIn(validators), last);
    }
  }

  lemma NoPower(validators: seq<ValidatorInfo>)
    ensures TotalPower(validators[..0]) == 0 && Addresses(validators[..0]) == {}
  {
  }

  lemma PowerInIs(validators: seq<ValidatorInfo>, a: Address)
    ensures PowerIn(validators)(a) == PowerOf(validators, a)
  {
    hide PowerOf;
  }

  lemma AddressesSnoc(validators: seq<ValidatorInfo>, n: nat)
    requires n < |validators|
    ensures Addresses(validators[..n + 1]) == Addresses(validators[..n]) + {validators[n].address}
    ensures DistinctValidators(validators) ==> validators[n].address !in Addresses(validators[..n])
  {
    assert validators[..n + 1][..n] == validators[..n];
  }

  lemma {:induction false} PowerOfStrangers(validators: seq<ValidatorInfo>, s: set<Address>)
    requires s !! Addresses(validators)
    ensures Sum(s, PowerIn(validators)) == 0
  {
    if s != {} {
      var a :| a in s;
      PowerOutside(validators, a);
      PowerOfStrangers(validators, s - {a});
      SumRemove(s, PowerIn(validators), a);
    }
  }

  /** No set of addresses has more power than all validators together. */
  lemma PowerBounded(validators: seq<ValidatorInfo>, s: set<Address>)
    requires DistinctValidators(validators)
    ensures 0 <= Sum(s, PowerIn(validators)) <= TotalPower(validators)
  {
    var all := Addresses(validators);
    PrefixPowerIsSum(validators, |validators|);
    assert validators[..|validators|] == validators;
    hide PowerOf, TotalPower, Addresses;
    SumDifference(s, s * all, PowerIn(validators));
    assert s - s * all == s - all;
    PowerOfStrangers(validators, s - all);
    SumMonotone(all, s * all, PowerIn(validators));
  }

  /** Counted power never exceeds the total. */
  lemma CountedBounded(votes: seq<Vote>, validators: seq<ValidatorInfo>)
    requires DistinctVoters(votes) && DistinctValidators(validators)
    ensures CountedPower(votes, validators) <= TotalPower(validators)
  {
    CountedIsSum(votes, validators);
    PowerBounded(validators, Voters(votes));
  }

  /** The test of the handlers, in u128. */
  predicate IsQuorum(total: U64, power: U64) {
    total > 0 && power * 3 > total * 2
  }

  /** When the stakes fit in 64 bits, nothing wraps and the test is the threshold meant: strictly
      more than two thirds of all power. */
  lemma QuorumMeansTwoThirds(votes: seq<Vote>, validators: seq<ValidatorInfo>)
    requires DistinctVoters(votes) && DistinctValidators(validators) && TotalPower(validators) < U64_END
    ensures PowerSum(validators) == TotalPower(validators)
    ensures VotePower(votes, validators) == CountedPower(votes, validators)
    ensures IsQuorum(PowerSum(validators), VotePower(votes, validators))
       <==> CountedPower(votes, validators) * 3 > TotalPower(validators) * 2
  {
    PowerSumIsModular(validators);
    VotePowerIsModular(votes, validators);
    CountedBounded(votes, validators);
  }

  /** A certificate that records the total and the tally of its distinct voters is valid exactly when those
      voters hold more than two thirds of all power. */
  lemma ValidQuorumIff(qc: QuorumCertificate, validators: seq<ValidatorInfo>)
    requires DistinctVoters(qc.votes) && DistinctValidators(validators) && TotalPower(validators) < U64_END
    requires qc.totalVotingPower == PowerSum(validators) && qc.signersVotingPower == VotePower(qc.votes, validators)
    ensures qc.IsValidQuorum() <==> Sum(Voters(qc.votes), PowerIn(validators)) * 3 > TotalPower(validators) * 2
  {
    hide *;
    QuorumMeansTwoThirds(qc.votes, validators);
    CountedIsSum(qc.votes, validators);
    ValidQuorumIs(qc);
  }

  lemma ValidQuorumIs(qc: QuorumCertificate)
    requires qc.totalVotingPower < U64_END && qc.signersVotingPower < U64_END
    ensures qc.IsValidQuorum() <==> IsQuorum(qc.totalVotingPower, qc.signersVotingPower)
  {
  }

  /** Any two quorums share more than a third of the power. */
  lemma QuorumsIntersect(a: seq<Vote>, b: seq<Vote>, validators: seq<ValidatorInfo>)
    requires DistinctVoters(a) && DistinctVoters(b) && DistinctValidators(validators)
    requires CountedPower(a, validators) * 3 > TotalPower(validators) * 2
    requires CountedPower(b, validators) * 3 > TotalPower(validators) * 2
    ensures Sum(Voters(a) * Voters(b), PowerIn(validators)) * 3 > TotalPower(validators)
  {
    var s, t, w := Voters(a), Voters(b), PowerIn(validators);
    CountedIsSum(a, validators);
    CountedIsSum(b, validators);
    hide Voters, CountedPower, TotalPower, PowerIn;
    SumDifference(t, s * t, w);
    assert t - s * t == t - s;
    SumUnion(s, t - s, w);
    PowerBounded(validators, s + (t - s));
  }

  /** A set with more power than another is not inside it. */
  lemma MoreThanFaulty(validators: seq<ValidatorInfo>, shared: set<Address>, faulty: set<Address>)
    requires Sum(shared, PowerIn(validators)) * 3 > TotalPower(validators)
    requires Sum(faulty, PowerIn(validators)) * 3 <= TotalPower(validators)
    ensures exists v :: v in shared && v !in faulty
  {
    if shared <= faulty {
      SumMonotone(faulty, shared, PowerIn(validators));
      assert false;
    }
    var v :| v in shared && v !in faulty;
  }
}
