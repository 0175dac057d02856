/** Delegations to validators: soulon-deep-chain/x/staking/module.go. */
module Staking {
  import opened Int64
  import opened MapTotals

  datatype State = State(
    maxValidators: int,
    validators: set<string>,
    delegations: map<string, map<string, int>>)

  const EMPTY := State(0, {}, map[])

  datatype Error = PartyEmpty | NotPositive | CapacityReached | InsufficientDelegation

  datatype Result = Done | Refused(error: Error)

  function DelegationsOf(s: State, delegator: string): map<string, int> {
    if delegator in s.delegations then s.delegations[delegator] else map[]
  }

  function Entry(s: State, delegator: string, validator: string): int {
    AmountOf(DelegationsOf(s, delegator), validator)
  }

  function WithEntry(s: State, delegator: string, validator: string, amount: int): State {
    s.(delegations := s.delegations[delegator := DelegationsOf(s, delegator)[validator := amount]])
  }

  /** A validator is registered on first use while there is room. */
  function Registered(s: State, validator: string): State {
    if |s.validators| < s.maxValidators then s.(validators := s.validators + {validator}) else s
  }

  function Delegate(s: State, delegator: string, validator: string, amount: int64): (State, Result) {
    if delegator == "" || validator == "" then (s, Refused(PartyEmpty))
    else if amount <= 0 then (s, Refused(NotPositive))
    else
      var t := Registered(s, validator);
      if validator !in t.validators then (t, Refused(CapacityReached))
      else (WithEntry(t, delegator, validator, ToInt64(Entry(t, delegator, validator) + amount)), Done)
  }

  /** The source validator is debited before the target is looked at. */
  function Redelegate(s: State, delegator: string, from: string, to: string, amount: int64): (State, Result) {
    if amount <= 0 then (s, Refused(NotPositive))
    else if from == "" || to == "" then (s, Refused(PartyEmpty))
    else if delegator !in s.delegations || Entry(s, delegator, from) < amount then (s, Refused(InsufficientDelegation))
    else Delegate(Debited(s, delegator, from, amount), delegator, to, amount)
  }

  function Debited(s: State, delegator: string, from: string, amount: int64): State {
    WithEntry(s, delegator, from, Entry(s, delegator, from) - amount)
  }

  /** What TotalDelegation returns: an int64 sum over one delegator's entries. */
  ghost function TotalDelegation(s: State, delegator: string): int {
    ToInt64(Total(DelegationsOf(s, delegator)))
  }

  // ---- The invariant ------------------------------------------------------------------------------

  /** Every entry belongs to a named delegator and a registered validator, and no
      more validators are registered than allowed. */
  ghost predicate Inv(s: State) {
    && "" !in s.delegations && "" !in s.validators
    && (|s.validators| > 0 ==> |s.validators| <= s.maxValidators)
    && forall d, v | d in s.delegations && v in s.delegations[d] :: v in s.validators
  }

  lemma RegisteredKeepsInv(s: State, validator: string)
    requires Inv(s) && validator != ""
    ensures Inv(Registered(s, validator))
    ensures validator !in Registered(s, validator).validators ==> Registered(s, validator) == s
  {
    if validator in s.validators {
      assert s.validators + {validator} == s.validators;
    }
  }

  lemma DelegateKeepsInv(s: State, delegator: string, validator: string, amount: int64)
    requires Inv(s)
    ensures Inv(Delegate(s, delegator, validator, amount).0)
    ensures Delegate(s, delegator, validator, amount).1 != Done ==> Delegate(s, delegator, validator, amount).0 == s
  {
    hide ToInt64;
    if delegator != "" && validator != "" && amount > 0 {
      RegisteredKeepsInv(s, validator);
    }
  }

  lemma DebitKeepsInv(s: State, delegator: string, from: string, amount: int64)
    requires Inv(s) && delegator in s.delegations && from in s.delegations[delegator]
    ensures Inv(Debited(s, delegator, from, amount))
  {
  }

  /** Enough is delegated to the source, but the target is neither registered nor
      is there room to register it. */
  predicate RefusedForCapacity(s: State, delegator: string, from: string, to: string, amount: int64) {
    && amount > 0 && from != "" && to != ""
    && delegator in s.delegations && Entry(s, delegator, from) >= amount
    && to !in s.validators && |s.validators| >= s.maxValidators
  }

  /** A refused redelegation changes the state exactly when it was refused for
      capacity, and then the amount is gone from the source validator. */
  lemma RedelegateFailure(s: State, delegator: string, from: string, to: string, amount: int64)
    requires Inv(s)
    ensures Inv(Redelegate(s, delegator, from, to, amount).0)
    ensures var (t, result) := Redelegate(s, delegator, from, to, amount);
            && (RefusedForCapacity(s, delegator, from, to, amount) <==> result == Refused(CapacityReached))
            && (result != Done ==> (t != s <==> RefusedForCapacity(s, delegator, from, to, amount)))
            && (RefusedForCapacity(s, delegator, from, to, amount) ==> t == Debited(s, delegator, from, amount))
  {
    if amount > 0 && from != "" && to != "" && delegator in s.delegations && Entry(s, delegator, from) >= amount {
      DebitKeepsInv(s, delegator, from, amount);
      var debited := Debited(s, delegator, from, amount);
      DelegateKeepsInv(debited, delegator, to, amount);
      RegisteredKeepsInv(debited, to);
      assert Entry(debited, delegator, from) != Entry(s, delegator, from);
    }
  }

  predicate HasPlace(s: State, validator: string) {
    validator in s.validators || |s.validators| < s.maxValidators
  }

  /** Every entry as before but one, which has gained the amount. */
  ghost predicate OneEntryChanged(s: State, t: State, delegator: string, validator: string, amount: int) {
    forall d: string, v: string ::
      Entry(t, d, v) == if d == delegator && v == validator then amount else Entry(s, d, v)
  }

  lemma EntryWritten(s: State, delegator: string, validator: string, amount: int)
    ensures OneEntryChanged(s, WithEntry(s, delegator, validator, amount), delegator, validator, amount)
  {
  }

  /** A delegation goes through exactly when both parties are named, the amount is
      positive and the validator is registered or still has a place; then its one entry
      gains the amount, and the validator is registered. */
  lemma {:induction false} DelegateAnswers(s: State, delegator: string, validator: string, amount: int64)
    ensures var (t, result) := Delegate(s, delegator, validator, amount);
            && (result == Done <==> delegator != "" && validator != "" && amount > 0 && HasPlace(s, validator))
            && (result == Refused(PartyEmpty) <==> delegator == "" || validator == "")
            && (result == Refused(NotPositive) <==> delegator != "" && validator != "" && amount <= 0)
            && (result == Refused(CapacityReached) <==> delegator != "" && validator != "" && amount > 0 && !HasPlace(s, validator))
            && (result != Done ==> t == s)
            && (result == Done ==>
                  && t.validators == s.validators + {validator} && t.maxValidators == s.maxValidators
                  && OneEntryChanged(s, t, delegator, validator, ToInt64(Entry(s, delegator, validator) + amount)))
  {
    hide ToInt64, OneEntryChanged;
    var r := Registered(s, validator);
    var stored := ToInt64(Entry(s, delegator, validator) + amount);
    EntryWritten(r, delegator, validator, stored);
    RegisteredEntries(s, validator, delegator, stored);
    if validator in s.validators {
      assert s.validators + {validator} == s.validators;
    }
  }

  lemma RegisteredEntries(s: State, validator: string, delegator: string, stored: int)
    ensures var t := WithEntry(Registered(s, validator), delegator, validator, stored);
            OneEntryChanged(Registered(s, validator), t, delegator, validator, stored) ==>
              OneEntryChanged(s, t, delegator, validator, stored)
    ensures Entry(Registered(s, validator), delegator, validator) == Entry(s, delegator, validator)
  {
  }

  /** A redelegation goes through exactly when the amount is positive, both validators
      are named, the source entry covers it and the target has a place; then the source
      entry loses the amount and the target entry gains it (the same one may do both). */
  lemma {:induction false} RedelegateAnswers(s: State, delegator: string, from: string, to: string, amount: int64)
    requires Inv(s)
    ensures var (t, result) := Redelegate(s, delegator, from, to, amount);
            var covered := delegator in s.delegations && Entry(s, delegator, from) >= amount;
            && (result == Done <==> amount > 0 && from != "" && to != "" && covered && HasPlace(s, to))
            && (result == Refused(NotPositive) <==> amount <= 0)
            && (result == Refused(PartyEmpty) <==> amount > 0 && (from == "" || to == ""))
            && (result == Refused(InsufficientDelegation) <==> amount > 0 && from != "" && to != "" && !covered)
            && (result == Refused(CapacityReached) <==> amount > 0 && from != "" && to != "" && covered && !HasPlace(s, to))
            && (result == Done && from != to ==>
                  forall d: string, v: string ::
                    Entry(t, d, v) ==
                      if d == delegator && v == from then Entry(s, d, v) - amount
                      else if d == delegator && v == to then ToInt64(Entry(s, d, v) + amount)
                      else Entry(s, d, v))
            && (result == Done && from == to ==>
                  OneEntryChanged(s, t, delegator, from, ToInt64(Entry(s, delegator, from) - amount + amount)))
  {
    hide ToInt64, Delegate, Entry;
    var debited := Debited(s, delegator, from, amount);
    EntryWritten(s, delegator, from, Entry(s, delegator, from) - amount);
    DelegateAnswers(debited, delegator, to, amount);
  }

  // ---- The ledger -----------------------------------------------------------------------------------

  datatype Tx =
    | DelegateTx(delegator: string, validator: string, amount: int64)
    | RedelegateTx(delegator: string, from: string, to: string, amount: int64)

  function Execute(s: State, tx: Tx): (State, Result) {
    match tx
    case DelegateTx(d, v, amount) => Delegate(s, d, v, amount)
    case RedelegateTx(d, from, to, amount) => Redelegate(s, d, from, to, amount)
  }

  function Genesis(maxValidators: int): State {
    State(maxValidators, {}, map[])
  }

  function Run(maxValidators: int, txs: seq<Tx>): State {
    if txs == [] then Genesis(maxValidators)
    else Execute(Run(maxValidators, txs[..|txs| - 1]), txs[|txs| - 1]).0
  }

  /** The amounts of d's successful Delegate calls. */
  function Delegated(maxValidators: int, txs: seq<Tx>, d: string): nat {
    if txs == [] then 0
    else
      var tx, before := txs[|txs| - 1], txs[..|txs| - 1];
      Delegated(maxValidators, before, d) +
      if tx.DelegateTx? && tx.delegator == d && Execute(Run(maxValidators, before), tx).1 == Done then DelegatedBy(tx) else 0
  }

  function DelegatedBy(tx: Tx): nat {
    if tx.amount > 0 then tx.amount else 0
  }

  /** The amounts of d's redelegations that were debited and then refused. */
  function Lost(maxValidators: int, txs: seq<Tx>, d: string): nat {
    if txs == [] then 0
    else
      var tx, before := txs[|txs| - 1], txs[..|txs| - 1];
      Lost(maxValidators, before, d) +
      if tx.RedelegateTx? && tx.delegator == d
         && Execute(Run(maxValidators, before), tx).1 == Refused(CapacityReached) then DelegatedBy(tx) else 0
  }

  /** How one transaction changes the sum of d's entries, up to wrap-around. */
  function Change(s: State, tx: Tx, d: string): int {
    if tx.delegator != d then 0
    else if tx.DelegateTx? then (if Execute(s, tx).1 == Done then tx.amount else 0)
    else if Execute(s, tx).1 == Refused(CapacityReached) then -tx.amount
    else 0
  }

  lemma EntryTotal(s: State, delegator: string, validator: string, amount: int, d: string)
    ensures Total(DelegationsOf(WithEntry(s, delegator, validator, amount), d)) ==
              Total(DelegationsOf(s, d)) + if d == delegator then amount - Entry(s, delegator, validator) else 0
  {
    TotalPut(DelegationsOf(s, delegator), validator, amount);
  }

  lemma DelegateTotal(s: State, delegator: string, validator: string, amount: int64, d: string)
    ensures SameInt64(
              Total(DelegationsOf(Delegate(s, delegator, validator, amount).0, d)),
              Total(DelegationsOf(s, d)) + if d == delegator && Delegate(s, delegator, validator, amount).1 == Done then amount else 0)
  {
    hide Total;
    if Delegate(s, delegator, validator, amount).1 == Done {
      var t := Registered(s, validator);
      assert DelegationsOf(t, d) == DelegationsOf(s, d);
      var entry := Entry(t, delegator, validator);
      EntryTotal(t, delegator, validator, ToInt64(entry + amount), d);
      StoredIsSame(entry + amount);
    } else {
      assert DelegationsOf(Delegate(s, delegator, validator, amount).0, d) == DelegationsOf(s, d);
    }
  }

  lemma ExecuteTotal(s: State, tx: Tx, d: string)
    requires Inv(s)
    ensures SameInt64(Total(DelegationsOf(Execute(s, tx).0, d)), Total(DelegationsOf(s, d)) + Change(s, tx, d))
  {
    hide Total, Delegate;
    match tx
    case DelegateTx(delegator, v, amount) =>
      DelegateTotal(s, delegator, v, amount, d);
    case RedelegateTx(delegator, from, to, amount) =>
      RedelegateFailure(s, delegator, from, to, amount);
      var result := Redelegate(s, delegator, from, to, amount).1;
      if result == Done || result == Refused(CapacityReached) {
        EntryTotal(s, delegator, from, Entry(s, delegator, from) - amount, d);
        DelegateTotal(Debited(s, delegator, from, amount), delegator, to, amount, d);
        RedelegateReached(s, delegator, from, to, amount);
      }
  }

  lemma RedelegateReached(s: State, delegator: string, from: string, to: string, amount: int64)
    ensures var (t, result) := Redelegate(s, delegator, from, to, amount);
            result == Done || result == Refused(CapacityReached) ==>
              Redelegate(s, delegator, from, to, amount) == Delegate(Debited(s, delegator, from, amount), delegator, to, amount)
  {
  }

  lemma {:induction false} RunInv(maxValidators: int, txs: seq<Tx>)
    ensures Inv(Run(maxValidators, txs))
  {
    if txs != [] {
      var before, tx := txs[..|txs| - 1], txs[|txs| - 1];
      RunInv(maxValidators, before);
      match tx
      case DelegateTx(d, v, amount) => DelegateKeepsInv(Run(maxValidators, before), d, v, amount);
      case RedelegateTx(d, from, to, amount) => RedelegateFailure(Run(maxValidators, before), d, from, to, amount);
    }
  }

  /** For every run, TotalDelegation(d) is d's delegated amounts minus the amounts
      lost in refused redelegations, up to the int64 wrap-around. */
  lemma {:induction false} LedgerBalances(maxValidators: int, txs: seq<Tx>, d: string)
    ensures SameInt64(Total(DelegationsOf(Run(maxValidators, txs), d)),
                      Delegated(maxValidators, txs, d) - Lost(maxValidators, txs, d))
    ensures TotalDelegation(Run(maxValidators, txs), d) ==
              ToInt64(Delegated(maxValidators, txs, d) - Lost(maxValidators, txs, d))
  {
    hide Total, Execute;
    var ledger := Delegated(maxValidators, txs, d) - Lost(maxValidators, txs, d);
    if txs == [] {
      EmptyTotal();
    } else {
      var before, tx := txs[..|txs| - 1], txs[|txs| - 1];
      var s := Run(maxValidators, before);
      LedgerBalances(maxValidators, before, d);
      RunInv(maxValidators, before);
      ExecuteTotal(s, tx, d);
      ChangeIsLedger(maxValidators, txs, d);
      SameSums(Total(DelegationsOf(s, d)), Delegated(maxValidators, before, d) - Lost(maxValidators, before, d),
               Change(s, tx, d), Change(s, tx, d));
      SameChain(Total(DelegationsOf(Run(maxValidators, txs), d)), Total(DelegationsOf(s, d)) + Change(s, tx, d), ledger);
    }
    SameStores(Total(DelegationsOf(Run(maxValidators, txs), d)), ledger);
  }

  lemma SameChain(x: int, y: int, z: int)
    requires SameInt64(x, y) && SameInt64(y, z)
    ensures SameInt64(x, z)
  {
  }

  lemma SuccessIsPositive(s: State, tx: Tx)
    ensures Execute(s, tx).1 == Done || Execute(s, tx).1 == Refused(CapacityReached) ==> tx.amount > 0
  {
  }

  lemma ChangeIsLedger(maxValidators: int, txs: seq<Tx>, d: string)
    requires txs != []
    ensures var before, tx := txs[..|txs| - 1], txs[|txs| - 1];
            Delegated(maxValidators, txs, d) - Lost(maxValidators, txs, d) ==
            Delegated(maxValidators, before, d) - Lost(maxValidators, before, d) + Change(Run(maxValidators, before), tx, d)
  {
    hide Execute;
    SuccessIsPositive(Run(maxValidators, txs[..|txs| - 1]), txs[|txs| - 1]);
  }

  /** A successful redelegation leaves the delegator's total as it was. */
  lemma RedelegatePreservesTotal(s: State, delegator: string, from: string, to: string, amount: int64, d: string)
    requires Inv(s) && Redelegate(s, delegator, from, to, amount).1 == Done
    ensures TotalDelegation(Redelegate(s, delegator, from, to, amount).0, d) == TotalDelegation(s, d)
  {
    hide Total, ToInt64, Redelegate;
    var tx := RedelegateTx(delegator, from, to, amount);
    ExecuteTotal(s, tx, d);
    SameStores(Total(DelegationsOf(Execute(s, tx).0, d)), Total(DelegationsOf(s, d)));
  }

  // ---- Without overflow -----------------------------------------------------------------------------

  ghost predicate EntriesSound(s: State) {
    forall d | d in s.delegations :: NonNegative(s.delegations[d])
  }

  /** A delegation keeps its entry non-negative exactly when the sum fits. */
  lemma DelegateOverflow(s: State, delegator: string, validator: string, amount: int64)
    requires Delegate(s, delegator, validator, amount).1 == Done && 0 <= Entry(s, delegator, validator) <= MAX
    ensures Entry(Delegate(s, delegator, validator, amount).0, delegator, validator) >= 0 <==>
              Entry(s, delegator, validator) + amount <= MAX
  {
    assert Entry(Registered(s, validator), delegator, validator) == Entry(s, delegator, validator);
  }

  lemma SoundWhenRegistered(s: State, validator: string)
    requires EntriesSound(s)
    ensures EntriesSound(Registered(s, validator))
  {
  }

  lemma SoundWithEntry(s: State, delegator: string, validator: string, amount: int)
    requires EntriesSound(s) && amount >= 0
    ensures EntriesSound(WithEntry(s, delegator, validator, amount))
  {
  }

  lemma EntryInRange(s: State, delegator: string, validator: string)
    requires EntriesSound(s)
    ensures 0 <= Entry(s, delegator, validator) <= Total(DelegationsOf(s, delegator))
  {
    EmptyTotal();
    EntriesBelowTotal(DelegationsOf(s, delegator), validator);
  }

  lemma DelegateExact(s: State, delegator: string, validator: string, amount: int64, d: string)
    requires EntriesSound(s) && Total(DelegationsOf(s, delegator)) + amount <= MAX
    ensures var (t, result) := Delegate(s, delegator, validator, amount);
            && EntriesSound(t)
            && Total(DelegationsOf(t, d)) ==
                 Total(DelegationsOf(s, d)) + if d == delegator && result == Done then amount else 0
  {
    hide Total, ToInt64, EntriesSound, Delegate, Registered, Entry;
    DelegateWrites(s, delegator, validator, amount);
    if Delegate(s, delegator, validator, amount).1 == Done {
      var t := Registered(s, validator);
      var entry := Entry(s, delegator, validator);
      SoundWhenRegistered(s, validator);
      EntryInRange(s, delegator, validator);
      FitsUnchanged(entry + amount);
      EntryTotal(t, delegator, validator, entry + amount, d);
      SoundWithEntry(t, delegator, validator, entry + amount);
    } else {
      SoundWhenSame(s, Delegate(s, delegator, validator, amount).0);
    }
  }

  lemma SoundWhenSame(s: State, t: State)
    requires EntriesSound(s) && t.delegations == s.delegations
    ensures EntriesSound(t)
  {
  }

  /** A delegation writes one entry; registering a validator touches none. */
  lemma DelegateWrites(s: State, delegator: string, validator: string, amount: int64)
    ensures var t := Registered(s, validator);
            && t.delegations == s.delegations
            && Entry(t, delegator, validator) == Entry(s, delegator, validator)
    ensures var (t, result) := Delegate(s, delegator, validator, amount);
            if result == Done then
              amount > 0 && t == WithEntry(Registered(s, validator), delegator, validator, ToInt64(Entry(s, delegator, validator) + amount))
            else t.delegations == s.delegations
  {
    hide ToInt64;
  }

  lemma ExecuteExact(s: State, tx: Tx, d: string)
    requires Inv(s) && EntriesSound(s) && Total(DelegationsOf(s, tx.delegator)) <= MAX
    requires tx.DelegateTx? ==> Total(DelegationsOf(s, tx.delegator)) + Change(s, tx, tx.delegator) <= MAX
    ensures var t := Execute(s, tx).0;
            EntriesSound(t) && Total(DelegationsOf(t, d)) == Total(DelegationsOf(s, d)) + Change(s, tx, d)
  {
    hide Total;
    match tx
    case DelegateTx(delegator, v, amount) =>
      if Delegate(s, delegator, v, amount).1 == Done {
        DelegateExact(s, delegator, v, amount, d);
      } else {
        DelegateKeepsInv(s, delegator, v, amount);
      }
    case RedelegateTx(delegator, from, to, amount) =>
      RedelegateFailure(s, delegator, from, to, amount);
      RedelegateReached(s, delegator, from, to, amount);
      var result := Redelegate(s, delegator, from, to, amount).1;
      if result == Done || result == Refused(CapacityReached) {
        var debited := Debited(s, delegator, from, amount);
        EntryTotal(s, delegator, from, Entry(s, delegator, from) - amount, d);
        EntryTotal(s, delegator, from, Entry(s, delegator, from) - amount, delegator);
        DelegateExact(debited, delegator, to, amount, d);
      }
  }

  /** At every point of a run, what each delegator has delegated and not lost fits. */
  ghost predicate LedgerFits(maxValidators: int, txs: seq<Tx>) {
    forall n: nat, d: string | n <= |txs| ::
      Delegated(maxValidators, txs[..n], d) - Lost(maxValidators, txs[..n], d) <= MAX
  }

  /** Entries are non-negative and every reported total is the exact ledger. */
  ghost predicate LedgerHolds(maxValidators: int, txs: seq<Tx>) {
    && EntriesSound(Run(maxValidators, txs))
    && forall d: string :: TotalDelegation(Run(maxValidators, txs), d) ==
                             Delegated(maxValidators, txs, d) - Lost(maxValidators, txs, d)
  }

  lemma FitsBefore(maxValidators: int, txs: seq<Tx>, k: nat)
    requires LedgerFits(maxValidators, txs) && k <= |txs|
    ensures LedgerFits(maxValidators, txs[..k])
    ensures forall d: string :: Delegated(maxValidators, txs[..k], d) - Lost(maxValidators, txs[..k], d) <= MAX
  {
    hide Delegated, Lost;
    assert forall n: nat | n <= k :: txs[..k][..n] == txs[..n];
  }

  /** While the ledger fits, every entry stays non-negative and the ledger is exact. */
  lemma {:induction false} LedgerIsExact(maxValidators: int, txs: seq<Tx>)
    requires LedgerFits(maxValidators, txs)
    ensures EntriesSound(Run(maxValidators, txs))
    ensures forall d :: Total(DelegationsOf(Run(maxValidators, txs), d)) ==
                        Delegated(maxValidators, txs, d) - Lost(maxValidators, txs, d)
  {
    hide Total, Execute, DelegationsOf, LedgerFits;
    if txs == [] {
      NothingDelegated(maxValidators);
    } else {
      var before, tx := txs[..|txs| - 1], txs[|txs| - 1];
      var s := Run(maxValidators, before);
      FitsBefore(maxValidators, txs, |txs| - 1);
      FitsBefore(maxValidators, txs, |txs|);
      assert txs[..|txs|] == txs;
      LedgerIsExact(maxValidators, before);
      RunInv(maxValidators, before);
      ChangeIsLedger(maxValidators, txs, tx.delegator);
      forall d
        ensures EntriesSound(Run(maxValidators, txs))
        ensures Total(DelegationsOf(Run(maxValidators, txs), d)) == Delegated(maxValidators, txs, d) - Lost(maxValidators, txs, d)
      {
        ChangeIsLedger(maxValidators, txs, d);
        ExecuteExact(s, tx, d);
      }
    }
  }

  lemma NothingDelegated(maxValidators: int)
    ensures EntriesSound(Run(maxValidators, []))
    ensures forall d :: Total(DelegationsOf(Run(maxValidators, []), d)) == 0
  {
    EmptyTotal();
  }

  /** Over any run whose ledger fits: entries are non-negative and name a registered
      validator, no more validators are registered than allowed, and TotalDelegation
      is exactly what was delegated minus what was lost. */
  lemma StakingLedger(maxValidators: int, txs: seq<Tx>, d: string)
    requires LedgerFits(maxValidators, txs)
    ensures var s := Run(maxValidators, txs);
            && (forall e, v | e in s.delegations && v in s.delegations[e] :: s.delegations[e][v] >= 0 && v in s.validators)
            && (|s.validators| > 0 ==> |s.validators| <= s.maxValidators)
            && TotalDelegation(s, d) == Delegated(maxValidators, txs, d) - Lost(maxValidators, txs, d)
  {
    hide Run, Delegated, Lost, DelegationsOf, Total, LedgerFits;
    FitsBefore(maxValidators, txs, |txs|);
    assert txs[..|txs|] == txs;
    LedgerIsExact(maxValidators, txs);
    RunInv(maxValidators, txs);
    TotalInRange(Run(maxValidators, txs), d);
    FitsUnchanged(Total(DelegationsOf(Run(maxValidators, txs), d)));
  }

  /** The ledger is exact, with no negative entry, at every point of a run exactly
      when it fits at every point. */
  lemma {:induction false} LedgerHoldsIffFits(maxValidators: int, txs: seq<Tx>)
    ensures (forall n: nat | n <= |txs| :: LedgerHolds(maxValidators, txs[..n])) <==> LedgerFits(maxValidators, txs)
  {
    hide Run, Delegated, Lost, TotalDelegation, LedgerFits, LedgerHolds;
    if LedgerFits(maxValidators, txs) {
      forall n: nat | n <= |txs| ensures LedgerHolds(maxValidators, txs[..n]) {
        FitsBefore(maxValidators, txs, n);
        HoldsWhenFits(maxValidators, txs[..n]);
      }
    } else {
      var n, d := Misfit(maxValidators, txs);
      if LedgerHolds(maxValidators, txs[..n]) {
        HeldTotalFits(maxValidators, txs[..n], d);
      }
    }
  }

  lemma HoldsWhenFits(maxValidators: int, txs: seq<Tx>)
    requires LedgerFits(maxValidators, txs)
    ensures LedgerHolds(maxValidators, txs)
  {
    hide Run, Delegated, Lost, TotalDelegation, LedgerFits;
    LedgerIsExact(maxValidators, txs);
    forall d: string
      ensures TotalDelegation(Run(maxValidators, txs), d) == Delegated(maxValidators, txs, d) - Lost(maxValidators, txs, d)
    {
      StakingLedger(maxValidators, txs, d);
    }
  }

  lemma Misfit(maxValidators: int, txs: seq<Tx>) returns (n: nat, d: string)
    requires !LedgerFits(maxValidators, txs)
    ensures n <= |txs| && Delegated(maxValidators, txs[..n], d) - Lost(maxValidators, txs[..n], d) > MAX
  {
    hide Delegated, Lost;
    n, d :| n <= |txs| && Delegated(maxValidators, txs[..n], d) - Lost(maxValidators, txs[..n], d) > MAX;
  }

  lemma HeldTotalFits(maxValidators: int, txs: seq<Tx>, d: string)
    requires LedgerHolds(maxValidators, txs)
    ensures Delegated(maxValidators, txs, d) - Lost(maxValidators, txs, d) <= MAX
  {
    hide Run, Delegated, Lost, Total, EntriesSound;
    assert TotalDelegation(Run(maxValidators, txs), d) <= MAX;
  }

  lemma TotalInRange(s: State, d: string)
    requires EntriesSound(s)
    ensures Total(DelegationsOf(s, d)) >= 0
  {
    EmptyTotal();
    TotalNonNegative(DelegationsOf(s, d));
  }
}

/** The keeper object: nested maps updated in place, and the summing loop. */
module StakingKeepers {
  import opened Collections
  import opened Int64
  import opened MapTotals
  import opened Staking
  import Spec = Staking

  class Keeper {
    var maxValidators: int
    var validators: set<string>
    var delegations: map<string, map<string, int>>

    ghost function Value(): State
      reads this
    {
      State(maxValidators, validators, delegations)
    }

    constructor ()
      ensures Value() == EMPTY
    {
      maxValidators, validators, delegations := 0, {}, map[];
    }

    /** False for a bond denomination that is empty, a limit that is not positive, or
        an unbonding time that does not parse. */
    method InitGenesis(bondDenom: string, maxValidators: int, unbondingParses: bool) returns (ok: bool)
      modifies this
      ensures ok <==> bondDenom != "" && maxValidators > 0 && unbondingParses
      ensures Value() == if ok then Genesis(maxValidators) else old(Value())
    {
      if bondDenom == "" || maxValidators <= 0 || !unbondingParses {
        return false;
      }
      this.maxValidators := maxValidators;
      validators, delegations := {}, map[];
      ok := true;
    }

    method Delegate(delegator: string, validator: string, amount: int64) returns (result: Result)
      modifies this
      ensures (Value(), result) == Spec.Delegate(old(Value()), delegator, validator, amount)
    {
      if delegator == "" || validator == "" {
        return Refused(PartyEmpty);
      }
      if amount <= 0 {
        return Refused(NotPositive);
      }
      if |validators| < maxValidators {
        validators := validators + {validator};
      }
      if validator !in validators {
        return Refused(CapacityReached);
      }
      var entries: map<string, int> := map[];
      if delegator in delegations {
        entries := delegations[delegator];
      }
      var held := if validator in entries then entries[validator] else 0;
      entries := entries[validator := ToInt64(held + amount)];
      delegations := delegations[delegator := entries];
      result := Done;
    }

    method Redelegate(delegator: string, from: string, to: string, amount: int64) returns (result: Result)
      modifies this
      ensures (Value(), result) == Spec.Redelegate(old(Value()), delegator, from, to, amount)
    {
      if amount <= 0 {
        return Refused(NotPositive);
      }
      if from == "" || to == "" {
        return Refused(PartyEmpty);
      }
      if delegator !in delegations {
        return Refused(InsufficientDelegation);
      }
      var entries := delegations[delegator];
      var held := if from in entries then entries[from] else 0;
      if held < amount {
        return Refused(InsufficientDelegation);
      }
      entries := entries[from := held - amount];
      delegations := delegations[delegator := entries];
      result := Delegate(delegator, to, amount);
    }

    /** The running int64 sum, whatever order the map is walked in. */
    method TotalDelegation(delegator: string) returns (total: int)
      ensures total == Spec.TotalDelegation(Value(), delegator)
    {
      hide ToInt64, Total, Rest;
      EmptyTotal();
      FitsUnchanged(0);
      if delegator !in delegations {
        return 0;
      }
      var entries := delegations[delegator];
      total := 0;
      var todo := entries.Keys;
      ghost var added := 0;
      RestEnds(entries);
      while todo != {}
        invariant todo <= entries.Keys
        invariant total == ToInt64(added)
        invariant added + Total(Rest(entries, todo)) == Total(entries)
        decreases |todo|
      {
        ghost var any := Pick(todo);
        var validator :| validator in todo;
        RestShrinks(entries, todo, validator);
        todo := todo - {validator};
        StoredSum(added, entries[validator]);
        total := ToInt64(total + entries[validator]);
        added := added + entries[validator];
      }
    }
  }

  function Rest(entries: map<string, int>, todo: set<string>): map<string, int> {
    map k | k in entries && k in todo :: entries[k]
  }

  lemma RestEnds(entries: map<string, int>)
    ensures Rest(entries, entries.Keys) == entries && Rest(entries, {}) == map[]
  {
  }

  lemma RestShrinks(entries: map<string, int>, todo: set<string>, validator: string)
    requires validator in todo && validator in entries
    ensures Total(Rest(entries, todo)) == entries[validator] + Total(Rest(entries, todo - {validator}))
  {
    TotalWithout(Rest(entries, todo), validator);
    assert Rest(entries, todo) - {validator} == Rest(entries, todo - {validator});
  }
}
