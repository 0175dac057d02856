/** The transaction router over the four keepers: soulon-deep-chain/app/tx.go. */
module ChainApp {
  import opened Collections
  import opened Int64
  import Bank
  import MapTotals
  import Staking
  import Gov
  import Distribution

  datatype Kind =
    | BankSend | StakingDelegate | StakingRedelegate | GovSubmit | GovVote | GovTally | RewardsAdd | RewardsClaim
    | Other(name: string)

  datatype Tx = Tx(
    kind: Kind,
    from: string,
    to: string,
    amount: int64,
    delegator: string,
    validator: string,
    fromValidator: string,
    toValidator: string,
    title: string,
    proposalId: nat,
    option: string,
    votingPower: int64)

  datatype TxResult = TxResult(message: string, proposalId: nat, accepted: bool, quorumMet: bool, claimedReward: int)

  datatype ErrorCode = InvalidField | InvalidTx | ExecutionFailed

  datatype Result = Ok(value: TxResult) | Err(code: ErrorCode)

  datatype App = App(bank: Bank.State, staking: Staking.State, gov: Gov.State, distribution: Distribution.State)

  // ---- Validation ---------------------------------------------------------------------------------

  /** White space as strings.TrimSpace takes it. */
  predicate IsSpace(c: char) {
    || '\U{0009}' <= c <= '\U{000D}' || c == ' ' || c == '\U{0085}' || c == '\U{00A0}' || c == '\U{1680}'
    || '\U{2000}' <= c <= '\U{200A}' || c == '\U{2028}' || c == '\U{2029}' || c == '\U{202F}'
    || c == '\U{205F}' || c == '\U{3000}'
  }

  predicate Blank(s: string) {
    forall i | 0 <= i < |s| :: IsSpace(s[i])
  }

  /** By code point, as Unicode lists it. */
  lemma WhiteSpaceIs(c: char)
    ensures IsSpace(c) <==>
              c as int in {9, 10, 11, 12, 13, 32, 133, 160, 5760, 8192, 8193, 8194, 8195, 8196, 8197, 8198, 8199, 8200, 8201,
                           8202, 8232, 8233, 8239, 8287, 12288}
  {
  }

  function ValidateTx(tx: Tx): Option<ErrorCode> {
    match tx.kind
    case BankSend => if Blank(tx.from) || Blank(tx.to) || tx.amount <= 0 then Some(InvalidField) else None
    case StakingDelegate =>
      if Blank(tx.delegator) || Blank(tx.validator) || tx.amount <= 0 then Some(InvalidField) else None
    case StakingRedelegate =>
      if Blank(tx.delegator) || Blank(tx.fromValidator) || Blank(tx.toValidator) || tx.amount <= 0 then Some(InvalidField) else None
    case GovSubmit => if Blank(tx.from) || Blank(tx.title) then Some(InvalidField) else None
    case GovVote =>
      if tx.proposalId == 0 || tx.amount <= 0 || !Gov.IsOption(tx.option) then Some(InvalidField) else None
    case GovTally => if tx.proposalId == 0 || tx.votingPower <= 0 then Some(InvalidField) else None
    case RewardsAdd => if Blank(tx.delegator) || tx.amount <= 0 then Some(InvalidField) else None
    case RewardsClaim => if Blank(tx.delegator) then Some(InvalidField) else None
    case Other(name) => if Blank(name) then Some(InvalidField) else Some(InvalidTx)
  }

  // ---- Execution ------------------------------------------------------------------------------------

  function Said(message: string): Result {
    Ok(TxResult(message, 0, false, false, 0))
  }

  function ExecuteTx(a: App, tx: Tx): (App, Result) {
    match ValidateTx(tx)
    case Some(code) => (a, Err(code))
    case None =>
      match tx.kind
      case BankSend =>
        var (bank, result) := Bank.Send(a.bank, tx.from, tx.to, tx.amount);
        (a.(bank := bank), if result == Bank.Done then Said("bank send ok") else Err(ExecutionFailed))
      case StakingDelegate =>
        var (staking, result) := Staking.Delegate(a.staking, tx.delegator, tx.validator, tx.amount);
        (a.(staking := staking), if result == Staking.Done then Said("staking delegate ok") else Err(ExecutionFailed))
      case StakingRedelegate =>
        var (staking, result) := Staking.Redelegate(a.staking, tx.delegator, tx.fromValidator, tx.toValidator, tx.amount);
        (a.(staking := staking), if result == Staking.Done then Said("staking redelegate ok") else Err(ExecutionFailed))
      case GovSubmit =>
        var (gov, result, id) := Gov.SubmitProposal(a.gov, tx.from, tx.title);
        (a.(gov := gov), if result == Gov.Done then Ok(TxResult("gov submit ok", id, false, false, 0)) else Err(ExecutionFailed))
      case GovVote =>
        var (gov, result) := Gov.Vote(a.gov, tx.proposalId, tx.option, tx.amount);
        (a.(gov := gov), if result == Gov.Done then Said("gov vote ok") else Err(ExecutionFailed))
      case GovTally =>
        (match Gov.Tally(a.gov, tx.proposalId, tx.votingPower)
         case NotCounted(_) => (a, Err(ExecutionFailed))
         case Counted(tally) => (a, Ok(TxResult("gov tally ok", 0, tally.accepted, tally.quorumMet, 0))))
      case RewardsAdd =>
        var (distribution, result) := Distribution.AddReward(a.distribution, tx.delegator, tx.amount);
        (a.(distribution := distribution),
         if result == Distribution.Done then Said("reward add ok") else Err(ExecutionFailed))
      case RewardsClaim =>
        var (distribution, claimed) := Distribution.ClaimReward(a.distribution, tx.delegator);
        (a.(distribution := distribution), Ok(TxResult("reward claim ok", 0, false, false, claimed)))
      case Other(name) => (a, Err(InvalidTx))
  }

  // ---- What one transaction changes -------------------------------------------------------------------

  predicate RefusedForCapacity(a: App, tx: Tx) {
    tx.kind == StakingRedelegate && ValidateTx(tx).None?
    && Staking.RefusedForCapacity(a.staking, tx.delegator, tx.fromValidator, tx.toValidator, tx.amount)
  }

  /** A failed transaction changes something exactly when it is a redelegation
      refused for capacity, and then only the debited stake. */
  lemma FailureChangesNothing(a: App, tx: Tx)
    requires Staking.Inv(a.staking) && ExecuteTx(a, tx).1.Err?
    ensures ExecuteTx(a, tx).0 != a <==> RefusedForCapacity(a, tx)
    ensures RefusedForCapacity(a, tx) ==>
              ExecuteTx(a, tx).0 == a.(staking := Staking.Debited(a.staking, tx.delegator, tx.fromValidator, tx.amount))
  {
    hide Blank, Staking.Delegate, Staking.Redelegate, Staking.Debited, Bank.Credit;
    Staking.DelegateKeepsInv(a.staking, tx.delegator, tx.validator, tx.amount);
    Staking.RedelegateFailure(a.staking, tx.delegator, tx.fromValidator, tx.toValidator, tx.amount);
  }

  /** Every transaction leaves at least three of the four keepers untouched. */
  lemma TouchesOneKeeper(a: App, tx: Tx)
    ensures var b := ExecuteTx(a, tx).0;
            && (b.bank == a.bank || tx.kind == BankSend)
            && (b.staking == a.staking || tx.kind == StakingDelegate || tx.kind == StakingRedelegate)
            && (b.gov == a.gov || tx.kind == GovSubmit || tx.kind == GovVote)
            && (b.distribution == a.distribution || tx.kind == RewardsAdd || tx.kind == RewardsClaim)
  {
    hide ValidateTx, Staking.Delegate, Staking.Redelegate, Bank.Send, Gov.Vote;
  }

  // ---- What one transaction is answered -----------------------------------------------------------------

  /** A transaction lacking a field, one its keeper refuses, and one that goes through. */
  ghost predicate Answer(result: Result, valid: bool, done: bool, value: TxResult) {
    result == if !valid then Err(InvalidField) else if done then Ok(value) else Err(ExecutionFailed)
  }

  lemma SendIsAnswered(a: App, tx: Tx)
    requires tx.kind == BankSend
    ensures var held := if tx.from in a.bank.balances then a.bank.balances[tx.from] else 0;
            Answer(ExecuteTx(a, tx).1, !Blank(tx.from) && !Blank(tx.to) && tx.amount > 0,
                   a.bank.sendEnabled && (tx.from == tx.to || held >= tx.amount), TxResult("bank send ok", 0, false, false, 0))
  {
    hide Bank.Send;
    Bank.SendAnswers(a.bank, tx.from, tx.to, tx.amount);
  }

  lemma DelegateIsAnswered(a: App, tx: Tx)
    requires tx.kind == StakingDelegate
    ensures Answer(ExecuteTx(a, tx).1, !Blank(tx.delegator) && !Blank(tx.validator) && tx.amount > 0,
                   Staking.HasPlace(a.staking, tx.validator), TxResult("staking delegate ok", 0, false, false, 0))
  {
    hide Staking.Delegate, Staking.OneEntryChanged;
    Staking.DelegateAnswers(a.staking, tx.delegator, tx.validator, tx.amount);
  }

  lemma RedelegateIsAnswered(a: App, tx: Tx)
    requires tx.kind == StakingRedelegate && Staking.Inv(a.staking)
    ensures Answer(ExecuteTx(a, tx).1,
                   !Blank(tx.delegator) && !Blank(tx.fromValidator) && !Blank(tx.toValidator) && tx.amount > 0,
                   tx.delegator in a.staking.delegations
                   && Staking.Entry(a.staking, tx.delegator, tx.fromValidator) >= tx.amount
                   && Staking.HasPlace(a.staking, tx.toValidator),
                   TxResult("staking redelegate ok", 0, false, false, 0))
  {
    hide Staking.Redelegate, Staking.OneEntryChanged, Staking.Inv;
    Staking.RedelegateAnswers(a.staking, tx.delegator, tx.fromValidator, tx.toValidator, tx.amount);
  }

  /** The ID answered is the one the proposal is filed under. */
  lemma SubmitIsAnswered(a: App, tx: Tx)
    requires tx.kind == GovSubmit
    ensures var (b, result) := ExecuteTx(a, tx);
            && Answer(result, !Blank(tx.from) && !Blank(tx.title), true, TxResult("gov submit ok", a.gov.nextId, false, false, 0))
            && (result.Ok? ==>
                  && result.value.proposalId in b.gov.proposals
                  && b.gov.proposals[result.value.proposalId].title == tx.title
                  && b.gov.proposals[result.value.proposalId].proposer == tx.from)
  {
    Gov.SubmitAnswers(a.gov, tx.from, tx.title);
  }

  lemma VoteIsAnswered(a: App, tx: Tx)
    requires tx.kind == GovVote
    ensures Answer(ExecuteTx(a, tx).1,
                   tx.proposalId != 0 && tx.amount > 0 && tx.option in ["yes", "no", "abstain", "veto"],
                   tx.proposalId in a.gov.proposals, TxResult("gov vote ok", 0, false, false, 0))
  {
    hide Gov.Vote;
    Gov.VoteAnswers(a.gov, tx.proposalId, tx.option, tx.amount);
    var options := ["yes", "no", "abstain", "veto"];
    assert options[0] == Gov.YES && options[1] == Gov.NO && options[2] == Gov.ABSTAIN && options[3] == Gov.VETO;
  }

  /** In every run, while the weight accepted for a proposal fits, a tally is answered
      by what was voted: the quorum is met when that weight reaches its part of the
      voting power, and the proposal is accepted when besides yes outweighs no. */
  lemma {:induction false} TallyIsAnswered(a: App, quorum: Gov.Quorum, txs: seq<Tx>, tx: Tx)
    requires a.gov == Gov.Genesis(quorum) && tx.kind == GovTally
    requires Gov.AcceptedTotal(quorum, GovTxs(txs), tx.proposalId) <= MAX
    ensures var app := Run(a, txs);
            var total := Gov.AcceptedTotal(quorum, GovTxs(txs), tx.proposalId);
            var yes := Gov.Accepted(quorum, GovTxs(txs), tx.proposalId, "yes");
            var no := Gov.Accepted(quorum, GovTxs(txs), tx.proposalId, "no");
            var met := total * quorum.whole >= quorum.part * tx.votingPower;
            Answer(ExecuteTx(app, tx).1, tx.proposalId != 0 && tx.votingPower > 0, tx.proposalId in app.gov.proposals,
                   TxResult("gov tally ok", 0, met && yes > no, met, 0))
  {
    hide Run, GovTxs, Gov.Run, Gov.Tally, Gov.Accepted, Gov.AcceptedTotal;
    GovSeesItsPart(a, quorum, txs);
    Gov.TallyRefuses(Run(a, txs).gov, tx.proposalId, tx.votingPower);
    if tx.proposalId in Run(a, txs).gov.proposals && tx.votingPower > 0 {
      Gov.TallySaysWhatWasVoted(quorum, GovTxs(txs), tx.proposalId, tx.votingPower);
    }
  }

  lemma RewardIsAnswered(a: App, tx: Tx)
    requires tx.kind == RewardsAdd
    ensures Answer(ExecuteTx(a, tx).1, !Blank(tx.delegator) && tx.amount > 0, true, TxResult("reward add ok", 0, false, false, 0))
  {
    hide Distribution.AddReward;
    Distribution.AddAnswers(a.distribution, tx.delegator, tx.amount);
  }

  /** In every run, while what was added fits, a claim is answered with everything added
      and not yet claimed, and leaves nothing to claim. */
  lemma {:induction false} ClaimIsAnswered(a: App, txs: seq<Tx>, tx: Tx)
    requires a.distribution == Distribution.EMPTY && tx.kind == RewardsClaim
    requires Distribution.Added(RewardTxs(txs), tx.delegator) <= MAX
    ensures var app := Run(a, txs);
            var owed := Distribution.Added(RewardTxs(txs), tx.delegator) - Distribution.Claimed(RewardTxs(txs), tx.delegator);
            && Answer(ExecuteTx(app, tx).1, !Blank(tx.delegator), true, TxResult("reward claim ok", 0, false, false, owed))
            && (!Blank(tx.delegator) ==> Distribution.QueryReward(ExecuteTx(app, tx).0.distribution, tx.delegator) == 0)
  {
    hide Run, RewardTxs, Distribution.Run, Distribution.Added, Distribution.Claimed;
    DistributionSeesItsPart(a, txs);
    Distribution.RewardsAreExact(RewardTxs(txs), tx.delegator);
  }

  lemma OtherIsAnswered(a: App, tx: Tx)
    requires tx.kind.Other?
    ensures ExecuteTx(a, tx) == (a, Err(if Blank(tx.kind.name) then InvalidField else InvalidTx))
  {
  }

  /** In every run from a genesis that fits, a transfer between named parties that is
      enabled and covered goes through, and moves exactly its amount. */
  lemma {:induction false} CoveredTransferGoesThrough(
    sendEnabled: bool, entries: seq<Bank.Balance>, maxValidators: int, quorum: Gov.Quorum, txs: seq<Tx>, tx: Tx)
    requires Bank.InitGenesis(sendEnabled, entries).1 == Bank.Done && Bank.EntriesTotal(entries) <= MAX
    requires tx.kind == BankSend && !Blank(tx.from) && !Blank(tx.to) && tx.amount > 0 && tx.from != tx.to && sendEnabled
    requires var before := Run(Started(sendEnabled, entries, maxValidators, quorum), txs).bank.balances;
             MapTotals.AmountOf(before, tx.from) >= tx.amount
    ensures var app := Run(Started(sendEnabled, entries, maxValidators, quorum), txs);
            var (after, result) := ExecuteTx(app, tx);
            result == Said("bank send ok") && Bank.Moved(app.bank.balances, after.bank.balances, tx.from, tx.to, tx.amount)
  {
    hide Run, Bank.Run, Bank.Load, Bank.Send, Bank.Moved, Bank.Sound;
    var start := Started(sendEnabled, entries, maxValidators, quorum);
    BankSeesTransfers(start, txs);
    Bank.GenesisIsSound(sendEnabled, entries);
    Bank.RunConserves(start.bank, Transfers(txs));
    var app := Run(start, txs);
    Bank.RunKeepsEnabled(start.bank, Transfers(txs));
    Bank.SendAnswers(app.bank, tx.from, tx.to, tx.amount);
    Bank.SendConserves(app.bank, tx.from, tx.to, tx.amount);
  }

  // ---- Whole runs, keeper by keeper -------------------------------------------------------------------

  function Started(sendEnabled: bool, entries: seq<Bank.Balance>, maxValidators: int, quorum: Gov.Quorum): App {
    App(Bank.InitGenesis(sendEnabled, entries).0, Staking.Genesis(maxValidators), Gov.Genesis(quorum), Distribution.EMPTY)
  }

  function Run(a: App, txs: seq<Tx>): App {
    if txs == [] then a else ExecuteTx(Run(a, txs[..|txs| - 1]), txs[|txs| - 1]).0
  }

  /** The part of a run each keeper gets to see: validated transactions of its kinds. */
  function Transfers(txs: seq<Tx>): seq<Bank.Transfer> {
    if txs == [] then [] else Transfers(txs[..|txs| - 1]) + TransferPart(txs[|txs| - 1])
  }

  function TransferPart(tx: Tx): seq<Bank.Transfer> {
    if ValidateTx(tx).None? && tx.kind == BankSend then [Bank.Transfer(tx.from, tx.to, tx.amount)] else []
  }

  function StakingTxs(txs: seq<Tx>): seq<Staking.Tx> {
    if txs == [] then []
    else StakingTxs(txs[..|txs| - 1]) + StakingPart(txs[|txs| - 1])
  }

  function StakingPart(tx: Tx): seq<Staking.Tx> {
    if ValidateTx(tx).Some? then []
    else if tx.kind == StakingDelegate then [Staking.DelegateTx(tx.delegator, tx.validator, tx.amount)]
    else if tx.kind == StakingRedelegate then
      [Staking.RedelegateTx(tx.delegator, tx.fromValidator, tx.toValidator, tx.amount)]
    else []
  }

  function GovTxs(txs: seq<Tx>): seq<Gov.Tx> {
    if txs == [] then [] else GovTxs(txs[..|txs| - 1]) + GovPart(txs[|txs| - 1])
  }

  function GovPart(tx: Tx): seq<Gov.Tx> {
    if ValidateTx(tx).Some? then []
    else if tx.kind == GovSubmit then [Gov.Submit(tx.from, tx.title)]
    else if tx.kind == GovVote then [Gov.Cast(tx.proposalId, tx.option, tx.amount)]
    else []
  }

  function RewardTxs(txs: seq<Tx>): seq<Distribution.Tx> {
    if txs == [] then [] else RewardTxs(txs[..|txs| - 1]) + RewardPart(txs[|txs| - 1])
  }

  function RewardPart(tx: Tx): seq<Distribution.Tx> {
    if ValidateTx(tx).Some? then []
    else if tx.kind == RewardsAdd then [Distribution.Add(tx.delegator, tx.amount)]
    else if tx.kind == RewardsClaim then [Distribution.Claim(tx.delegator)]
    else []
  }

  /** One transaction, as each keeper sees it. */
  lemma PartsOfOne(a: App, tx: Tx)
    ensures var b := ExecuteTx(a, tx).0;
            && b.bank == (if TransferPart(tx) == [] then a.bank else Bank.Send(a.bank, tx.from, tx.to, tx.amount).0)
            && b.staking == (if StakingPart(tx) == [] then a.staking else Staking.Execute(a.staking, StakingPart(tx)[0]).0)
            && b.gov == (if GovPart(tx) == [] then a.gov else Gov.Execute(a.gov, GovPart(tx)[0]).0)
            && b.distribution ==
                 (if RewardPart(tx) == [] then a.distribution else Distribution.Execute(a.distribution, RewardPart(tx)[0]))
    ensures |TransferPart(tx)| <= 1 && |StakingPart(tx)| <= 1 && |GovPart(tx)| <= 1 && |RewardPart(tx)| <= 1
  {
    hide ValidateTx, Bank.Send, Staking.Delegate, Staking.Redelegate, Gov.Vote, Distribution.AddReward, Distribution.ClaimReward;
  }

  lemma {:induction false} BankSeesTransfers(a: App, txs: seq<Tx>)
    ensures Run(a, txs).bank == Bank.Run(a.bank, Transfers(txs))
  {
    hide Bank.Send, TransferPart, ExecuteTx;
    if txs != [] {
      var seen, part := Transfers(txs[..|txs| - 1]), TransferPart(txs[|txs| - 1]);
      BankSeesTransfers(a, txs[..|txs| - 1]);
      PartsOfOne(Run(a, txs[..|txs| - 1]), txs[|txs| - 1]);
      TransferIs(txs[|txs| - 1]);
      if part != [] {
        assert seen + part == seen + [part[0]] && (seen + [part[0]])[..|seen|] == seen;
      } else {
        assert seen + part == seen;
      }
    }
  }

  lemma TransferIs(tx: Tx)
    ensures TransferPart(tx) != [] ==> TransferPart(tx) == [Bank.Transfer(tx.from, tx.to, tx.amount)]
  {
  }

  lemma {:induction false} StakingSeesItsPart(a: App, maxValidators: int, txs: seq<Tx>)
    requires a.staking == Staking.Genesis(maxValidators)
    ensures Run(a, txs).staking == Staking.Run(maxValidators, StakingTxs(txs))
  {
    hide Staking.Execute, StakingPart, ExecuteTx;
    if txs != [] {
      var seen, part := StakingTxs(txs[..|txs| - 1]), StakingPart(txs[|txs| - 1]);
      StakingSeesItsPart(a, maxValidators, txs[..|txs| - 1]);
      PartsOfOne(Run(a, txs[..|txs| - 1]), txs[|txs| - 1]);
      if part != [] {
        assert seen + part == seen + [part[0]] && (seen + [part[0]])[..|seen|] == seen;
      } else {
        assert seen + part == seen;
      }
    }
  }

  lemma {:induction false} GovSeesItsPart(a: App, quorum: Gov.Quorum, txs: seq<Tx>)
    requires a.gov == Gov.Genesis(quorum)
    ensures Run(a, txs).gov == Gov.Run(quorum, GovTxs(txs))
  {
    hide Gov.Execute, GovPart, ExecuteTx;
    if txs != [] {
      var seen, part := GovTxs(txs[..|txs| - 1]), GovPart(txs[|txs| - 1]);
      GovSeesItsPart(a, quorum, txs[..|txs| - 1]);
      PartsOfOne(Run(a, txs[..|txs| - 1]), txs[|txs| - 1]);
      if part != [] {
        assert seen + part == seen + [part[0]] && (seen + [part[0]])[..|seen|] == seen;
      } else {
        assert seen + part == seen;
      }
    }
  }

  lemma {:induction false} DistributionSeesItsPart(a: App, txs: seq<Tx>)
    requires a.distribution == Distribution.EMPTY
    ensures Run(a, txs).distribution == Distribution.Run(RewardTxs(txs))
  {
    hide Distribution.Execute, RewardPart, ExecuteTx;
    if txs != [] {
      var seen, part := RewardTxs(txs[..|txs| - 1]), RewardPart(txs[|txs| - 1]);
      DistributionSeesItsPart(a, txs[..|txs| - 1]);
      PartsOfOne(Run(a, txs[..|txs| - 1]), txs[|txs| - 1]);
      if part != [] {
        assert seen + part == seen + [part[0]] && (seen + [part[0]])[..|seen|] == seen;
      } else {
        assert seen + part == seen;
      }
    }
  }

  /** Over whole-application runs money is conserved and no balance is negative. */
  lemma AppConservesMoney(sendEnabled: bool, entries: seq<Bank.Balance>, maxValidators: int, quorum: Gov.Quorum, txs: seq<Tx>)
    requires Bank.InitGenesis(sendEnabled, entries).1 == Bank.Done && Bank.EntriesTotal(entries) <= MAX
    ensures var balances := Run(Started(sendEnabled, entries, maxValidators, quorum), txs).bank.balances;
            && MapTotals.Total(balances) == Bank.EntriesTotal(entries)
            && forall x | x in balances :: 0 <= balances[x] <= MAX
  {
    hide Run, Bank.Run;
    BankSeesTransfers(Started(sendEnabled, entries, maxValidators, quorum), txs);
    Bank.BankConservation(sendEnabled, entries, Transfers(txs));
  }

  /** Over whole-application runs the staking ledger balances, proposals are
      numbered in sequence, every option's total is the accepted weight, and rewards
      added are claimed or outstanding. */
  lemma {:induction false} AppRunLaws(a: App, maxValidators: int, quorum: Gov.Quorum, txs: seq<Tx>, d: string)
    requires a.staking == Staking.Genesis(maxValidators) && a.gov == Gov.Genesis(quorum) && a.distribution == Distribution.EMPTY
    ensures var app := Run(a, txs);
            && Staking.TotalDelegation(app.staking, d) ==
                 ToInt64(Staking.Delegated(maxValidators, StakingTxs(txs), d) - Staking.Lost(maxValidators, StakingTxs(txs), d))
            && Gov.IdsInSequence(app.gov)
            && (forall id, option | id in app.gov.proposals && Gov.IsOption(option) ::
                  Gov.CountOf(app.gov.proposals[id].votes, option) == ToInt64(Gov.Accepted(quorum, GovTxs(txs), id, option)))
            && SameInt64(Distribution.Added(RewardTxs(txs), d),
                         Distribution.Claimed(RewardTxs(txs), d) + Distribution.QueryReward(app.distribution, d))
  {
    hide *;
    StakingSeesItsPart(a, maxValidators, txs);
    Staking.LedgerBalances(maxValidators, StakingTxs(txs), d);
    GovSeesItsPart(a, quorum, txs);
    Gov.ProposalIds(quorum, GovTxs(txs));
    forall id, option | id in Run(a, txs).gov.proposals && Gov.IsOption(option)
      ensures Gov.CountOf(Run(a, txs).gov.proposals[id].votes, option) == ToInt64(Gov.Accepted(quorum, GovTxs(txs), id, option))
    {
      Gov.OptionTotals(quorum, GovTxs(txs), id, option);
    }
    DistributionSeesItsPart(a, txs);
    Distribution.RewardsBalance(RewardTxs(txs), d);
  }

  /** Over whole-application runs whose staking ledger fits, entries are non-negative
      and name registered validators, the validator limit holds, and every reported
      total is exact. */
  lemma AppStakingLedger(a: App, maxValidators: int, txs: seq<Tx>, d: string)
    requires a.staking == Staking.Genesis(maxValidators) && Staking.LedgerFits(maxValidators, StakingTxs(txs))
    ensures var s := Run(a, txs).staking;
            && Staking.EntriesSound(s) && Staking.Inv(s)
            && Staking.TotalDelegation(s, d) ==
                 Staking.Delegated(maxValidators, StakingTxs(txs), d) - Staking.Lost(maxValidators, StakingTxs(txs), d)
  {
    hide *;
    StakingSeesItsPart(a, maxValidators, txs);
    Staking.RunInv(maxValidators, StakingTxs(txs));
    Staking.LedgerIsExact(maxValidators, StakingTxs(txs));
    Staking.StakingLedger(maxValidators, StakingTxs(txs), d);
  }

  /** Over whole-application runs the reward books are exact while what was added fits. */
  lemma AppRewardsAreExact(a: App, txs: seq<Tx>, d: string)
    requires a.distribution == Distribution.EMPTY && Distribution.Added(RewardTxs(txs), d) <= MAX
    ensures Distribution.Added(RewardTxs(txs), d) ==
              Distribution.Claimed(RewardTxs(txs), d) + Distribution.QueryReward(Run(a, txs).distribution, d)
    ensures 0 <= Distribution.QueryReward(Run(a, txs).distribution, d) && 0 <= Distribution.Claimed(RewardTxs(txs), d)
  {
    hide *;
    DistributionSeesItsPart(a, txs);
    Distribution.RewardsAreExact(RewardTxs(txs), d);
  }

  lemma {:induction false} GovPrefix(txs: seq<Tx>, n: nat)
    requires n <= |txs|
    ensures GovTxs(txs[..n]) <= GovTxs(txs)
    decreases |txs|
  {
    hide GovPart;
    if n < |txs| {
      var before := txs[..|txs| - 1];
      assert before[..n] == txs[..n];
      GovPrefix(before, n);
    } else {
      assert txs[..n] == txs;
    }
  }

  lemma AtMostOneGovTx(tx: Tx)
    ensures |GovPart(tx)| <= 1
  {
    hide ValidateTx;
  }

  /** Every point of the governance part is reached at some point of the whole run. */
  lemma {:induction false} GovPointReached(txs: seq<Tx>, n: nat, j: nat) returns (m: nat)
    requires n <= |txs| && |GovTxs(txs[..n])| <= j <= |GovTxs(txs)|
    ensures n <= m <= |txs| && GovTxs(txs[..m]) == GovTxs(txs)[..j]
    decreases |txs|
  {
    hide GovPart;
    if j == |GovTxs(txs)| {
      m := |txs|;
      assert txs[..m] == txs;
    } else {
      assert n < |txs| by {
        assert txs[..|txs|] == txs;
      }
      var before := txs[..|txs| - 1];
      assert before[..n] == txs[..n];
      AtMostOneGovTx(txs[|txs| - 1]);
      m := GovPointReached(before, n, j);
      assert before[..m] == txs[..m];
    }
  }

  /** Over whole-application runs: from a state where a quorum is met, it is met at
      every later point exactly when the total voted then and all weight accepted for
      the proposal since fit in an int64 together. */
  lemma {:induction false} AppQuorumStaysMet(a: App, quorum: Gov.Quorum, txs: seq<Tx>, n: nat, id: nat, votingPower: int64)
    requires a.gov == Gov.Genesis(quorum) && quorum.part > 0 && quorum.whole > 0 && n <= |txs|
    requires Gov.Met(Run(a, txs[..n]).gov, id, votingPower)
    ensures id in Run(a, txs[..n]).gov.proposals
    ensures (forall m | n <= m <= |txs| :: Gov.Met(Run(a, txs[..m]).gov, id, votingPower)) <==>
              Gov.TotalVoted(Run(a, txs[..n]).gov, id) + Gov.AcceptedTotal(quorum, GovTxs(txs), id)
              - Gov.AcceptedTotal(quorum, GovTxs(txs[..n]), id) <= MAX
  {
    hide *;
    var votes, k := GovTxs(txs), |GovTxs(txs[..n])|;
    GovPrefix(txs, n);
    GovSeesItsPart(a, quorum, txs[..n]);
    assert votes[..k] == GovTxs(txs[..n]);
    Gov.QuorumStays(quorum, votes[..k]);
    Gov.MetIsFiled(Gov.Run(quorum, votes[..k]), id, votingPower);
    Gov.QuorumStaysMet(quorum, votes, k, id, votingPower);
    if forall j | k <= j <= |votes| :: Gov.Met(Gov.Run(quorum, votes[..j]), id, votingPower) {
      forall m | n <= m <= |txs| ensures Gov.Met(Run(a, txs[..m]).gov, id, votingPower) {
        var j := VotesBy(a, quorum, txs, n, m);
        assert Gov.Met(Gov.Run(quorum, votes[..j]), id, votingPower);
      }
    } else {
      var j :| k <= j <= |votes| && !Gov.Met(Gov.Run(quorum, votes[..j]), id, votingPower);
      var m := GovPointReached(txs, n, j);
      GovSeesItsPart(a, quorum, txs[..m]);
      assert !Gov.Met(Run(a, txs[..m]).gov, id, votingPower);
    }
  }

  /** How far the governance part has come at a point of the whole run. */
  lemma VotesBy(a: App, quorum: Gov.Quorum, txs: seq<Tx>, n: nat, m: nat) returns (j: nat)
    requires a.gov == Gov.Genesis(quorum) && n <= m <= |txs|
    ensures |GovTxs(txs[..n])| <= j <= |GovTxs(txs)|
    ensures Run(a, txs[..m]).gov == Gov.Run(quorum, GovTxs(txs)[..j])
  {
    hide *;
    j := |GovTxs(txs[..m])|;
    GovPrefix(txs, m);
    GovPrefix(txs[..m], n);
    assert txs[..m][..n] == txs[..n];
    GovSeesItsPart(a, quorum, txs[..m]);
    assert GovTxs(txs)[..j] == GovTxs(txs[..m]);
  }

  /** In every reachable application state a failure is harmless except for a
      redelegation refused for capacity. */
  lemma FailuresInRuns(sendEnabled: bool, entries: seq<Bank.Balance>, maxValidators: int, quorum: Gov.Quorum, txs: seq<Tx>, tx: Tx)
    requires ExecuteTx(Run(Started(sendEnabled, entries, maxValidators, quorum), txs), tx).1.Err?
    ensures var app := Run(Started(sendEnabled, entries, maxValidators, quorum), txs);
            ExecuteTx(app, tx).0 != app <==> RefusedForCapacity(app, tx)
  {
    hide Run, ExecuteTx, Staking.Inv, RefusedForCapacity;
    var start := Started(sendEnabled, entries, maxValidators, quorum);
    StakingSeesItsPart(start, maxValidators, txs);
    Staking.RunInv(maxValidators, StakingTxs(txs));
    FailureChangesNothing(Run(start, txs), tx);
  }
}

/** The application object and its keepers. */
module ChainApps {
  import opened ChainApp
  import Spec = ChainApp
  import Bank
  import Staking
  import Gov
  import Distribution
  import BankKeepers
  import StakingKeepers
  import GovKeepers
  import DistributionKeepers

  class ChainApplication {
    const bank: BankKeepers.Keeper
    const staking: StakingKeepers.Keeper
    const gov: GovKeepers.Keeper
    const distribution: DistributionKeepers.Keeper

    ghost function Value(): App
      reads bank, staking, gov, distribution
    {
      App(bank.Value(), staking.Value(), gov.Value(), distribution.Value())
    }

    constructor ()
      ensures fresh(bank) && fresh(staking) && fresh(gov) && fresh(distribution)
      ensures Value() == App(Bank.EMPTY, Staking.EMPTY, Gov.Genesis(Gov.Quorum(0, 1)), Distribution.EMPTY)
    {
      bank := new BankKeepers.Keeper();
      staking := new StakingKeepers.Keeper();
      gov := new GovKeepers.Keeper();
      distribution := new DistributionKeepers.Keeper();
    }

    method ExecuteTx(tx: Tx) returns (result: Result)
      modifies bank, staking, gov, distribution
      ensures (Value(), result) == Spec.ExecuteTx(old(Value()), tx)
    {
      var invalid := ValidateTx(tx);
      if invalid.Some? {
        return Err(invalid.value);
      }
      match tx.kind {
        case BankSend =>
          var done := bank.Send(tx.from, tx.to, tx.amount);
          result := if done == Bank.Done then Said("bank send ok") else Err(ExecutionFailed);
        case StakingDelegate =>
          var done := staking.Delegate(tx.delegator, tx.validator, tx.amount);
          result := if done == Staking.Done then Said("staking delegate ok") else Err(ExecutionFailed);
        case StakingRedelegate =>
          var done := staking.Redelegate(tx.delegator, tx.fromValidator, tx.toValidator, tx.amount);
          result := if done == Staking.Done then Said("staking redelegate ok") else Err(ExecutionFailed);
        case GovSubmit =>
          var done, id := gov.SubmitProposal(tx.from, tx.title);
          result := if done == Gov.Done then Ok(TxResult("gov submit ok", id, false, false, 0)) else Err(ExecutionFailed);
        case GovVote =>
          var done := gov.Vote(tx.proposalId, tx.option, tx.amount);
          result := if done == Gov.Done then Said("gov vote ok") else Err(ExecutionFailed);
        case GovTally =>
          var tallied := gov.Tally(tx.proposalId, tx.votingPower);
          result := if tallied.Counted?
                    then Ok(TxResult("gov tally ok", 0, tallied.tally.accepted, tallied.tally.quorumMet, 0))
                    else Err(ExecutionFailed);
        case RewardsAdd =>
          var done := distribution.AddReward(tx.delegator, tx.amount);
          result := if done == Distribution.Done then Said("reward add ok") else Err(ExecutionFailed);
        case RewardsClaim =>
          var claimed := distribution.ClaimReward(tx.delegator);
          result := Ok(TxResult("reward claim ok", 0, false, false, claimed));
        case Other(name) =>
          result := Err(InvalidTx);
      }
    }
  }
}
