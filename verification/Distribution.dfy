/** Rewards waiting to be claimed: soulon-deep-chain/x/distribution/module.go. */
module Distribution {
  import opened Int64
  import opened MapTotals

  datatype State = State(rewards: map<string, int>)

  const EMPTY := State(map[])

  datatype Error = DelegatorEmpty | NotPositive

  datatype Result = Done | Refused(error: Error)

  function QueryReward(s: State, delegator: string): int {
    AmountOf(s.rewards, delegator)
  }

  function AddReward(s: State, delegator: string, amount: int64): (State, Result) {
    if delegator == "" then (s, Refused(DelegatorEmpty))
    else if amount <= 0 then (s, Refused(NotPositive))
    else (State(s.rewards[delegator := ToInt64(QueryReward(s, delegator) + amount)]), Done)
  }

  function ClaimReward(s: State, delegator: string): (State, int) {
    (State(s.rewards - {delegator}), QueryReward(s, delegator))
  }

  datatype Tx = Add(delegator: string, amount: int64) | Claim(delegator: string)

  function Execute(s: State, tx: Tx): State {
    match tx
    case Add(d, amount) => AddReward(s, d, amount).0
    case Claim(d) => ClaimReward(s, d).0
  }

  function Run(txs: seq<Tx>): State {
    if txs == [] then EMPTY else Execute(Run(txs[..|txs| - 1]), txs[|txs| - 1])
  }

  /** The rewards added for d: refused additions do not count. */
  function Added(txs: seq<Tx>, d: string): nat {
    if txs == [] then 0
    else
      var tx := txs[|txs| - 1];
      Added(txs[..|txs| - 1], d) + if tx.Add? && tx.delegator == d && d != "" && tx.amount > 0 then tx.amount else 0
  }

  /** The amounts handed out to d. */
  function Claimed(txs: seq<Tx>, d: string): int {
    if txs == [] then 0
    else
      var tx, before := txs[|txs| - 1], txs[..|txs| - 1];
      Claimed(before, d) + if tx.Claim? && tx.delegator == d then ClaimReward(Run(before), d).1 else 0
  }

  /** An addition goes through exactly when the delegator is named and the amount
      positive, and concerns that delegator only. */
  lemma AddAnswers(s: State, delegator: string, amount: int64)
    ensures var (t, result) := AddReward(s, delegator, amount);
            && (result == Done <==> delegator != "" && amount > 0)
            && (result == Refused(DelegatorEmpty) <==> delegator == "")
            && (result != Done ==> t == s)
            && forall d | d != delegator :: QueryReward(t, d) == QueryReward(s, d)
  {
    hide ToInt64;
  }

  /** For every run, what was added is what was claimed plus what is outstanding, up
      to the int64 wrap-around. */
  lemma {:induction false} RewardsBalance(txs: seq<Tx>, d: string)
    ensures SameInt64(Added(txs, d), Claimed(txs, d) + QueryReward(Run(txs), d))
  {
    hide SameInt64, ToInt64, QueryReward, Execute;
    if txs == [] {
      NothingOwed(d);
    } else {
      var before, tx := txs[..|txs| - 1], txs[|txs| - 1];
      var owed := QueryReward(Run(before), d);
      RewardsBalance(before, d);
      RewardStep(Run(before), tx, d);
      if tx.Add? && tx.delegator == d && d != "" && tx.amount > 0 {
        StoredIsSame(owed + tx.amount);
        BooksStay(Added(before, d), Claimed(before, d), owed, tx.amount, ToInt64(owed + tx.amount));
      }
    }
  }

  lemma NothingOwed(d: string)
    ensures QueryReward(EMPTY, d) == 0 && SameInt64(0, 0)
  {
  }

  lemma BooksStay(added: int, claimed: int, owed: int, amount: int, stored: int)
    requires SameInt64(added, claimed + owed) && SameInt64(stored, owed + amount)
    ensures SameInt64(added + amount, claimed + stored)
  {
  }

  lemma RewardStep(s: State, tx: Tx, d: string)
    ensures tx.delegator != d ==> QueryReward(Execute(s, tx), d) == QueryReward(s, d)
    ensures tx.Claim? && tx.delegator == d ==> QueryReward(Execute(s, tx), d) == 0
    ensures tx.Add? && tx.delegator == d ==>
              if d != "" && tx.amount > 0 then QueryReward(Execute(s, tx), d) == ToInt64(QueryReward(s, d) + tx.amount)
              else QueryReward(Execute(s, tx), d) == QueryReward(s, d)
  {
    hide ToInt64;
  }

  /** While everything added for d fits in an int64 the books are exact, and nothing
      negative is ever owed. */
  lemma {:induction false} RewardsAreExact(txs: seq<Tx>, d: string)
    requires Added(txs, d) <= MAX
    ensures Added(txs, d) == Claimed(txs, d) + QueryReward(Run(txs), d)
    ensures 0 <= QueryReward(Run(txs), d) && 0 <= Claimed(txs, d)
  {
    if txs != [] {
      var before, tx := txs[..|txs| - 1], txs[|txs| - 1];
      RewardsAreExact(before, d);
      RewardStep(Run(before), tx, d);
    }
  }
}

/** The keeper object. */
module DistributionKeepers {
  import opened Int64
  import opened Distribution
  import Spec = Distribution

  class Keeper {
    var rewards: map<string, int>

    ghost function Value(): State
      reads this
    {
      State(rewards)
    }

    constructor ()
      ensures Value() == EMPTY
    {
      rewards := map[];
    }

    method QueryReward(delegator: string) returns (value: int)
      ensures value == Spec.QueryReward(Value(), delegator)
    {
      value := if delegator in rewards then rewards[delegator] else 0;
    }

    method AddReward(delegator: string, amount: int64) returns (result: Result)
      modifies this
      ensures (Value(), result) == Spec.AddReward(old(Value()), delegator, amount)
    {
      if delegator == "" {
        return Refused(DelegatorEmpty);
      }
      if amount <= 0 {
        return Refused(NotPositive);
      }
      var held := QueryReward(delegator);
      rewards := rewards[delegator := ToInt64(held + amount)];
      result := Done;
    }

    method ClaimReward(delegator: string) returns (value: int)
      modifies this
      ensures (Value(), value) == Spec.ClaimReward(old(Value()), delegator)
    {
      value := QueryReward(delegator);
      rewards := rewards - {delegator};
    }
  }
}
