/** Proposals and votes: soulon-deep-chain/x/gov/module.go. The quorum is an exact
    fraction here, and pass rates are exact. */
module Gov {
  import opened Int64

  const YES := "yes"
  const NO := "no"
  const ABSTAIN := "abstain"
  const VETO := "veto"

  /** The four totals of a proposal. */
  datatype Votes = Votes(yes: int, no: int, abstain: int, veto: int)

  const NO_VOTES := Votes(0, 0, 0, 0)

  datatype Proposal = Proposal(id: nat, title: string, proposer: string, votes: Votes)

  datatype Quorum = Quorum(part: nat, whole: nat)

  datatype State = State(quorum: Quorum, proposals: map<nat, Proposal>, nextId: nat)

  datatype Error = PartyEmpty | NotPositive | NotFound | InvalidOption | PowerNotPositive

  datatype Result = Done | Refused(error: Error)

  datatype Tallied = Tallied(passRate: real, quorumMet: bool, accepted: bool, totalVoted: int, votingPower: int)

  predicate IsOption(option: string) {
    option == YES || option == NO || option == ABSTAIN || option == VETO
  }

  function CountOf(v: Votes, option: string): int {
    if option == YES then v.yes else if option == NO then v.no
    else if option == ABSTAIN then v.abstain else if option == VETO then v.veto else 0
  }

  function WithCount(v: Votes, option: string, count: int): Votes {
    if option == YES then v.(yes := count) else if option == NO then v.(no := count)
    else if option == ABSTAIN then v.(abstain := count) else if option == VETO then v.(veto := count) else v
  }

  function Genesis(quorum: Quorum): State {
    State(quorum, map[], 1)
  }

  /** The new proposal's ID, or 0 when it is refused. */
  function SubmitProposal(s: State, proposer: string, title: string): (State, Result, nat) {
    if proposer == "" || title == "" then (s, Refused(PartyEmpty), 0)
    else
      var proposal := Proposal(s.nextId, title, proposer, NO_VOTES);
      (s.(proposals := s.proposals[s.nextId := proposal], nextId := s.nextId + 1), Done, s.nextId)
  }

  function Vote(s: State, id: nat, option: string, weight: int64): (State, Result) {
    if weight <= 0 then (s, Refused(NotPositive))
    else if id !in s.proposals then (s, Refused(NotFound))
    else if !IsOption(option) then (s, Refused(InvalidOption))
    else
      var p := s.proposals[id];
      var count := ToInt64(CountOf(p.votes, option) + weight);
      (s.(proposals := s.proposals[id := p.(votes := WithCount(p.votes, option, count))]), Done)
  }

  function Sum(v: Votes): int {
    v.yes + v.no + v.abstain + v.veto
  }

  function QuorumMet(q: Quorum, totalVoted: int, votingPower: int): bool {
    totalVoted * q.whole >= q.part * votingPower
  }

  function TallyOf(s: State, p: Proposal, votingPower: int64): Tallied {
    var total := ToInt64(Sum(p.votes));
    var met := QuorumMet(s.quorum, total, votingPower);
    Tallied(if total > 0 then p.votes.yes as real / total as real else 0.0,
            met, met && p.votes.yes > p.votes.no, total, votingPower)
  }

  datatype TallyResult = Counted(tally: Tallied) | NotCounted(error: Error)

  function Tally(s: State, id: nat, votingPower: int64): TallyResult {
    if id !in s.proposals then NotCounted(NotFound)
    else if votingPower <= 0 then NotCounted(PowerNotPositive)
    else Counted(TallyOf(s, s.proposals[id], votingPower))
  }

  // ---- Runs -------------------------------------------------------------------------------------

  datatype Tx =
    | Submit(proposer: string, title: string)
    | Cast(id: nat, option: string, weight: int64)

  function Execute(s: State, tx: Tx): (State, Result) {
    match tx
    case Submit(proposer, title) => var (t, result, id) := SubmitProposal(s, proposer, title); (t, result)
    case Cast(id, option, weight) => Vote(s, id, option, weight)
  }

  function Run(quorum: Quorum, txs: seq<Tx>): State {
    if txs == [] then Genesis(quorum)
    else Execute(Run(quorum, txs[..|txs| - 1]), txs[|txs| - 1]).0
  }

  /** Proposal IDs are exactly 1 to nextID - 1, each filed under itself. */
  ghost predicate IdsInSequence(s: State) {
    && s.nextId >= 1
    && (forall id :: id in s.proposals <==> 1 <= id < s.nextId)
    && forall id | id in s.proposals :: s.proposals[id].id == id
  }

  lemma {:induction false} ProposalIds(quorum: Quorum, txs: seq<Tx>)
    ensures IdsInSequence(Run(quorum, txs))
  {
    hide ToInt64, WithCount;
    if txs != [] {
      ProposalIds(quorum, txs[..|txs| - 1]);
    }
  }

  /** The accepted weights cast for one option of a proposal. */
  function Accepted(quorum: Quorum, txs: seq<Tx>, id: nat, option: string): nat {
    if txs == [] then 0
    else
      var tx, before := txs[|txs| - 1], txs[..|txs| - 1];
      Accepted(quorum, before, id, option) +
      if tx.Cast? && tx.id == id && tx.option == option && Execute(Run(quorum, before), tx).1 == Done then WeightOf(tx) else 0
  }

  function WeightOf(tx: Tx): nat {
    if tx.Cast? && tx.weight > 0 then tx.weight else 0
  }

  lemma {:induction false} NothingAccepted(quorum: Quorum, txs: seq<Tx>, id: nat, option: string)
    requires id !in Run(quorum, txs).proposals
    ensures Accepted(quorum, txs, id, option) == 0
  {
    if txs != [] {
      NothingAccepted(quorum, txs[..|txs| - 1], id, option);
    }
  }

  lemma VoteCounts(s: State, id: nat, option: string, weight: int64, p: nat, o: string)
    requires IsOption(o) && p in s.proposals
    ensures var t := Vote(s, id, option, weight).0;
            && p in t.proposals
            && CountOf(t.proposals[p].votes, o) ==
                 if Vote(s, id, option, weight).1 == Done && id == p && option == o
                 then ToInt64(CountOf(s.proposals[p].votes, o) + weight) else CountOf(s.proposals[p].votes, o)
  {
    hide ToInt64;
    assert YES != NO && YES != ABSTAIN && YES != VETO && NO != ABSTAIN && NO != VETO && ABSTAIN != VETO by {
      assert |YES| == 3 && |NO| == 2 && |ABSTAIN| == 7 && |VETO| == 4;
    }
  }

  /** For every run, an option's total is the int64 sum of the weights accepted for it. */
  lemma {:induction false} OptionTotals(quorum: Quorum, txs: seq<Tx>, id: nat, option: string)
    requires IsOption(option) && id in Run(quorum, txs).proposals
    ensures CountOf(Run(quorum, txs).proposals[id].votes, option) == ToInt64(Accepted(quorum, txs, id, option))
  {
    hide ToInt64, WithCount, CountOf;
    var before, tx := txs[..|txs| - 1], txs[|txs| - 1];
    var s := Run(quorum, before);
    if id in s.proposals {
      OptionTotals(quorum, before, id, option);
      ProposalIds(quorum, before);
      if tx.Cast? {
        VoteCounts(s, tx.id, tx.option, tx.weight, id, option);
        StoredSum(Accepted(quorum, before, id, option), WeightOf(tx));
      }
    } else {
      NothingAccepted(quorum, before, id, option);
      CountsStartAtZero(option);
    }
  }

  lemma CountsStartAtZero(option: string)
    ensures CountOf(NO_VOTES, option) == 0 == ToInt64(0)
  {
  }

  /** All weight accepted for a proposal. */
  function AcceptedTotal(quorum: Quorum, txs: seq<Tx>, id: nat): nat {
    Accepted(quorum, txs, id, YES) + Accepted(quorum, txs, id, NO)
    + Accepted(quorum, txs, id, ABSTAIN) + Accepted(quorum, txs, id, VETO)
  }

  /** While the accepted weight fits in an int64, totals are exact. */
  lemma TotalsAreExact(quorum: Quorum, txs: seq<Tx>, id: nat)
    requires id in Run(quorum, txs).proposals && AcceptedTotal(quorum, txs, id) <= MAX
    ensures var v := Run(quorum, txs).proposals[id].votes;
            && v.yes == Accepted(quorum, txs, id, YES) && v.no == Accepted(quorum, txs, id, NO)
            && v.abstain == Accepted(quorum, txs, id, ABSTAIN) && v.veto == Accepted(quorum, txs, id, VETO)
            && ToInt64(Sum(v)) == AcceptedTotal(quorum, txs, id)
  {
    hide Run, Accepted;
    OptionNames();
    OptionTotals(quorum, txs, id, YES);
    OptionTotals(quorum, txs, id, NO);
    OptionTotals(quorum, txs, id, ABSTAIN);
    OptionTotals(quorum, txs, id, VETO);
  }

  lemma OptionNames()
    ensures YES != NO && YES != ABSTAIN && YES != VETO && NO != ABSTAIN && NO != VETO && ABSTAIN != VETO
  {
    assert |YES| == 3 && |NO| == 2 && |ABSTAIN| == 7 && |VETO| == 4;
  }

  lemma {:induction false} AcceptedGrows(quorum: Quorum, txs: seq<Tx>, n: nat, id: nat, option: string)
    requires n <= |txs|
    ensures Accepted(quorum, txs[..n], id, option) <= Accepted(quorum, txs, id, option)
    decreases |txs|
  {
    if n < |txs| {
      var before := txs[..|txs| - 1];
      AcceptedGrows(quorum, before, n, id, option);
      assert before[..n] == txs[..n];
    } else {
      assert txs[..n] == txs;
    }
  }

  lemma {:induction false} ProposalsStay(quorum: Quorum, txs: seq<Tx>, n: nat, id: nat)
    requires n <= |txs| && id in Run(quorum, txs[..n]).proposals
    ensures id in Run(quorum, txs).proposals && Run(quorum, txs).quorum == quorum
    decreases |txs|
  {
    hide ToInt64, WithCount, CountOf;
    var before := txs[..|txs| - 1];
    QuorumStays(quorum, txs);
    if n < |txs| {
      assert before[..n] == txs[..n];
      ProposalsStay(quorum, before, n, id);
    } else {
      assert txs[..n] == txs;
    }
  }

  lemma {:induction false} QuorumStays(quorum: Quorum, txs: seq<Tx>)
    ensures Run(quorum, txs).quorum == quorum
  {
    hide ToInt64, WithCount, CountOf;
    if txs != [] {
      QuorumStays(quorum, txs[..|txs| - 1]);
    }
  }

  /** Once the quorum is met for a voting power it stays met, whatever is submitted
      and voted later, as long as the weight accepted for the proposal fits. */
  lemma {:induction false} QuorumNeverReverts(quorum: Quorum, txs: seq<Tx>, n: nat, id: nat, votingPower: int64)
    requires n <= |txs| && AcceptedTotal(quorum, txs, id) <= MAX
    requires Tally(Run(quorum, txs[..n]), id, votingPower).Counted?
    requires Tally(Run(quorum, txs[..n]), id, votingPower).tally.quorumMet
    ensures Tally(Run(quorum, txs), id, votingPower).Counted?
    ensures Tally(Run(quorum, txs), id, votingPower).tally.quorumMet
  {
    hide Run, Accepted, ToInt64, QuorumMet;
    ProposalsStay(quorum, txs, n, id);
    QuorumStays(quorum, txs[..n]);
    AcceptedGrows(quorum, txs, n, id, YES);
    AcceptedGrows(quorum, txs, n, id, NO);
    AcceptedGrows(quorum, txs, n, id, ABSTAIN);
    AcceptedGrows(quorum, txs, n, id, VETO);
    TotalsAreExact(quorum, txs[..n], id);
    TotalsAreExact(quorum, txs, id);
    MoreVotesMeet(quorum, AcceptedTotal(quorum, txs[..n], id), AcceptedTotal(quorum, txs, id), votingPower);
  }

  lemma MoreVotesMeet(q: Quorum, fewer: int, more: int, votingPower: int)
    requires fewer <= more && QuorumMet(q, fewer, votingPower)
    ensures QuorumMet(q, more, votingPower)
  {
    assert more * q.whole == fewer * q.whole + (more - fewer) * q.whole;
  }

  // ---- Exactly when a met quorum stays met --------------------------------------------------------

  /** TotalVoted: the int64 sum of the four counts. */
  function TotalVoted(s: State, id: nat): int
    requires id in s.proposals
  {
    ToInt64(Sum(s.proposals[id].votes))
  }

  predicate Met(s: State, id: nat, votingPower: int64) {
    var result := Tally(s, id, votingPower);
    result.Counted? && result.tally.quorumMet
  }

  /** The weight a transaction adds to a proposal. */
  function WeightFor(s: State, tx: Tx, id: nat): nat {
    if tx.Cast? && tx.id == id && Execute(s, tx).1 == Done then WeightOf(tx) else 0
  }

  lemma VoteAddsWeight(v: Votes, option: string, weight: int64)
    requires IsOption(option)
    ensures ToInt64(Sum(WithCount(v, option, ToInt64(CountOf(v, option) + weight)))) == ToInt64(ToInt64(Sum(v)) + weight)
  {
    hide ToInt64;
    OptionNames();
    var others := Sum(v) - CountOf(v, option);
    assert Sum(WithCount(v, option, ToInt64(CountOf(v, option) + weight))) == ToInt64(CountOf(v, option) + weight) + others;
    StoredSum(CountOf(v, option) + weight, others);
    StoredSum(Sum(v), weight);
  }

  lemma StepTotal(s: State, tx: Tx, id: nat)
    requires IdsInSequence(s) && id in s.proposals
    ensures var t := Execute(s, tx).0;
            id in t.proposals && t.quorum == s.quorum
            && TotalVoted(t, id) == ToInt64(TotalVoted(s, id) + WeightFor(s, tx, id))
  {
    hide ToInt64, Sum, WithCount, CountOf;
    StoredSum(Sum(s.proposals[id].votes), 0);
    if tx.Cast? && tx.id == id && IsOption(tx.option) {
      VoteAddsWeight(s.proposals[id].votes, tx.option, tx.weight);
    }
  }

  /** A met quorum after the total voted moves on by some weight. */
  lemma MetAfterWeight(s: State, t: State, id: nat, votingPower: int64, weight: nat)
    requires s.quorum == t.quorum && s.quorum.part > 0 && s.quorum.whole > 0
    requires id in t.proposals && weight <= MAX && Met(s, id, votingPower)
    requires TotalVoted(t, id) == ToInt64(TotalVoted(s, id) + weight)
    ensures TotalVoted(s, id) > 0
    ensures Met(t, id, votingPower) <==> TotalVoted(s, id) + weight <= MAX
  {
    hide QuorumMet, Sum;
    var total := TotalVoted(s, id);
    if total < 0 {
      NegativeMisses(s.quorum, total, votingPower);
    }
    NothingMisses(s.quorum, votingPower);
    if total + weight <= MAX {
      MoreVotesMeet(s.quorum, total, total + weight, votingPower);
    } else {
      NegativeMisses(s.quorum, TotalVoted(t, id), votingPower);
    }
  }

  lemma NothingMisses(q: Quorum, votingPower: int)
    requires q.part > 0 && votingPower > 0
    ensures !QuorumMet(q, 0, votingPower)
  {
    assert q.part * votingPower > 0;
  }

  /** An accepted vote keeps a met quorum met exactly when the total voted and the
      new weight still fit in an int64 together. */
  lemma VoteKeepsQuorum(s: State, id: nat, option: string, weight: int64, votingPower: int64)
    requires IsOption(option) && weight > 0 && s.quorum.part > 0 && s.quorum.whole > 0
    requires Met(s, id, votingPower)
    ensures Met(Vote(s, id, option, weight).0, id, votingPower) <==>
              Tally(s, id, votingPower).tally.totalVoted + weight <= MAX
  {
    hide ToInt64, Sum, WithCount, CountOf, QuorumMet;
    VoteAddsWeight(s.proposals[id].votes, option, weight);
    MetAfterWeight(s, Vote(s, id, option, weight).0, id, votingPower, weight);
  }

  lemma AcceptedStep(quorum: Quorum, txs: seq<Tx>, id: nat)
    requires txs != []
    ensures var before := txs[..|txs| - 1];
            AcceptedTotal(quorum, txs, id) ==
              AcceptedTotal(quorum, before, id) + WeightFor(Run(quorum, before), txs[|txs| - 1], id)
  {
    hide Run, ToInt64, WithCount, CountOf;
    OptionNames();
  }

  lemma MetIsFiled(s: State, id: nat, votingPower: int64)
    requires Met(s, id, votingPower) && s.quorum.part > 0 && s.quorum.whole > 0
    ensures id in s.proposals && 0 < TotalVoted(s, id) <= MAX
  {
    hide QuorumMet;
    if TotalVoted(s, id) < 0 {
      NegativeMisses(s.quorum, TotalVoted(s, id), votingPower);
    }
    NothingMisses(s.quorum, votingPower);
  }

  lemma RunStep(quorum: Quorum, txs: seq<Tx>, id: nat)
    requires txs != []
    ensures Run(quorum, txs) == Execute(Run(quorum, txs[..|txs| - 1]), txs[|txs| - 1]).0
    ensures WeightFor(Run(quorum, txs[..|txs| - 1]), txs[|txs| - 1], id) <= MAX
  {
    hide Execute;
  }

  lemma AcceptedSince(quorum: Quorum, txs: seq<Tx>, n: nat, id: nat)
    requires n <= |txs|
    ensures AcceptedTotal(quorum, txs[..n], id) <= AcceptedTotal(quorum, txs, id)
  {
    hide Accepted;
    AcceptedGrows(quorum, txs, n, id, YES);
    AcceptedGrows(quorum, txs, n, id, NO);
    AcceptedGrows(quorum, txs, n, id, ABSTAIN);
    AcceptedGrows(quorum, txs, n, id, VETO);
  }

  /** From a state where a quorum is met, it is met at every later point of a run
      exactly when the total voted then, and all weight accepted for the proposal
      since, fit in an int64 together. */
  lemma {:induction false} QuorumStaysMet(quorum: Quorum, txs: seq<Tx>, n: nat, id: nat, votingPower: int64)
    requires quorum.part > 0 && quorum.whole > 0 && n <= |txs|
    requires Met(Run(quorum, txs[..n]), id, votingPower)
    ensures id in Run(quorum, txs).proposals
    ensures var sum := TotalVoted(Run(quorum, txs[..n]), id) + AcceptedTotal(quorum, txs, id) - AcceptedTotal(quorum, txs[..n], id);
            && TotalVoted(Run(quorum, txs), id) == ToInt64(sum)
            && ((forall m | n <= m <= |txs| :: Met(Run(quorum, txs[..m]), id, votingPower)) <==> sum <= MAX)
    decreases |txs|
  {
    hide Run, AcceptedTotal, ToInt64, Execute, Met, TotalVoted, WeightFor, IdsInSequence;
    QuorumStays(quorum, txs[..n]);
    MetIsFiled(Run(quorum, txs[..n]), id, votingPower);
    FitsUnchanged(TotalVoted(Run(quorum, txs[..n]), id));
    if n == |txs| {
      assert txs[..n] == txs;
    } else {
      var before, tx := txs[..|txs| - 1], txs[|txs| - 1];
      var s := Run(quorum, before);
      assert forall m | n <= m <= |before| :: before[..m] == txs[..m];
      assert before[..|before|] == before && txs[..|txs|] == txs;
      QuorumStaysMet(quorum, before, n, id, votingPower);
      ProposalIds(quorum, before);
      QuorumStays(quorum, before);
      StepTotal(s, tx, id);
      AcceptedStep(quorum, txs, id);
      RunStep(quorum, txs, id);
      AcceptedSince(quorum, before, n, id);
      var sum := TotalVoted(Run(quorum, txs[..n]), id) + AcceptedTotal(quorum, before, id) - AcceptedTotal(quorum, txs[..n], id);
      StoredSum(sum, WeightFor(s, tx, id));
      if sum <= MAX {
        assert Met(Run(quorum, txs[..|before|]), id, votingPower);
        FitsUnchanged(sum);
        MetAfterWeight(s, Run(quorum, txs), id, votingPower, WeightFor(s, tx, id));
      }
    }
  }

  // ---- What is answered ---------------------------------------------------------------------------

  /** A tally says what was voted: while the accepted weight fits, TotalVoted is all of
      it, the quorum is met when it reaches the quorum's part of the voting power, the
      proposal is accepted when besides more weight was cast for yes than for no, and
      the pass rate is the share of yes. */
  lemma {:induction false} TallySaysWhatWasVoted(quorum: Quorum, txs: seq<Tx>, id: nat, votingPower: int64)
    requires id in Run(quorum, txs).proposals && votingPower > 0 && AcceptedTotal(quorum, txs, id) <= MAX
    ensures var result := Tally(Run(quorum, txs), id, votingPower);
            var total := AcceptedTotal(quorum, txs, id);
            var yes, no := Accepted(quorum, txs, id, "yes"), Accepted(quorum, txs, id, "no");
            && result.Counted? && result.tally.totalVoted == total && result.tally.votingPower == votingPower
            && (result.tally.quorumMet <==> total * quorum.whole >= quorum.part * votingPower)
            && (result.tally.accepted <==> total * quorum.whole >= quorum.part * votingPower && yes > no)
            && result.tally.passRate == (if total == 0 then 0.0 else yes as real / total as real)
  {
    hide Run, Accepted, AcceptedTotal, ToInt64;
    TotalsAreExact(quorum, txs, id);
    QuorumStays(quorum, txs);
  }

  lemma TallyRefuses(s: State, id: nat, votingPower: int64)
    ensures Tally(s, id, votingPower) == NotCounted(NotFound) <==> id !in s.proposals
    ensures Tally(s, id, votingPower) == NotCounted(PowerNotPositive) <==> id in s.proposals && votingPower <= 0
    ensures Tally(s, id, votingPower).Counted? <==> id in s.proposals && votingPower > 0
  {
  }

  /** A vote is accepted exactly when it has weight, names a filed proposal and one of
      the four options; otherwise nothing changes and the first lack is reported. */
  lemma VoteAnswers(s: State, id: nat, option: string, weight: int64)
    ensures var (t, result) := Vote(s, id, option, weight);
            && (result == Done <==> weight > 0 && id in s.proposals && option in ["yes", "no", "abstain", "veto"])
            && (result == Refused(NotPositive) <==> weight <= 0)
            && (result == Refused(NotFound) <==> weight > 0 && id !in s.proposals)
            && (result != Done ==> t == s)
            && t.nextId == s.nextId && t.quorum == s.quorum && t.proposals.Keys == s.proposals.Keys
            && (forall p | p in s.proposals && p != id :: t.proposals[p] == s.proposals[p])
  {
    hide ToInt64;
    var options := ["yes", "no", "abstain", "veto"];
    assert options[0] == YES && options[1] == NO && options[2] == ABSTAIN && options[3] == VETO;
  }

  /** A proposal with a proposer and a title is filed under the next ID, with no votes
      yet; any other is refused and nothing changes. */
  lemma SubmitAnswers(s: State, proposer: string, title: string)
    ensures var (t, result, id) := SubmitProposal(s, proposer, title);
            if proposer == "" || title == "" then t == s && result == Refused(PartyEmpty) && id == 0
            else
              && result == Done && id == s.nextId && t.nextId == id + 1 && t.quorum == s.quorum
              && t.proposals.Keys == s.proposals.Keys + {id}
              && t.proposals[id] == Proposal(id, title, proposer, Votes(0, 0, 0, 0))
              && (forall p | p in s.proposals && p != id :: t.proposals[p] == s.proposals[p])
  {
  }

  /** One vote too many: after an overflow a quorum that was met is met no more. */
  lemma OverflowReverts(quorum: Quorum, s: State, id: nat, votingPower: int64)
    requires quorum.whole > 0 && quorum.part > 0 && votingPower > 0 && s.quorum == quorum
    requires id in s.proposals && s.proposals[id].votes == NO_VOTES
    ensures var full := Vote(s, id, YES, MAX).0;
            var over := Vote(full, id, YES, 1).0;
            && Tally(full, id, votingPower).Counted? && Tally(over, id, votingPower).Counted?
            && Tally(full, id, votingPower).tally.totalVoted == MAX
            && !Tally(over, id, votingPower).tally.quorumMet
  {
    OptionNames();
    var full := Vote(s, id, YES, MAX).0;
    assert full.proposals[id].votes == Votes(MAX, 0, 0, 0);
    var over := Vote(full, id, YES, 1).0;
    assert over.proposals[id].votes == Votes(-MAX - 1, 0, 0, 0);
    NegativeMisses(quorum, -MAX - 1, votingPower);
  }

  lemma NegativeMisses(q: Quorum, total: int, votingPower: int)
    requires q.whole > 0 && total < 0 && votingPower > 0
    ensures !QuorumMet(q, total, votingPower)
  {
    assert total * q.whole < 0;
    assert q.part * votingPower >= 0;
  }
}

/** The keeper object. */
module GovKeepers {
  import opened Collections
  import opened Int64
  import opened Gov
  import Spec = Gov

  class Keeper {
    var quorum: Quorum
    var proposals: map<nat, Proposal>
    var nextId: nat

    ghost function Value(): State
      reads this
    {
      State(quorum, proposals, nextId)
    }

    constructor ()
      ensures Value() == Genesis(Quorum(0, 1))
    {
      quorum, proposals, nextId := Quorum(0, 1), map[], 1;
    }

    /** `quorum` is what parsing the parameter gives. False for a voting period or a
        quorum that does not parse, and for a quorum outside (0, 1]. */
    method InitGenesis(votingPeriodParses: bool, quorum: Option<Quorum>) returns (ok: bool)
      modifies this
      ensures ok <==> votingPeriodParses && quorum.Some?
                      && quorum.value.whole > 0 && 0 < quorum.value.part <= quorum.value.whole
      ensures Value() == if ok then Genesis(quorum.value) else old(Value())
    {
      if !votingPeriodParses || quorum.None? {
        return false;
      }
      var q := quorum.value;
      if q.whole == 0 || q.part == 0 || q.part > q.whole {
        return false;
      }
      this.quorum := q;
      proposals, nextId := map[], 1;
      ok := true;
    }

    method SubmitProposal(proposer: string, title: string) returns (result: Result, id: nat)
      modifies this
      ensures (Value(), result, id) == Spec.SubmitProposal(old(Value()), proposer, title)
    {
      if proposer == "" || title == "" {
        return Refused(PartyEmpty), 0;
      }
      var proposal := Proposal(nextId, title, proposer, NO_VOTES);
      nextId := nextId + 1;
      proposals := proposals[proposal.id := proposal];
      return Done, proposal.id;
    }

    method Vote(id: nat, option: string, weight: int64) returns (result: Result)
      modifies this
      ensures (Value(), result) == Spec.Vote(old(Value()), id, option, weight)
    {
      if weight <= 0 {
        return Refused(NotPositive);
      }
      if id !in proposals {
        return Refused(NotFound);
      }
      if !IsOption(option) {
        return Refused(InvalidOption);
      }
      var proposal := proposals[id];
      var count := ToInt64(CountOf(proposal.votes, option) + weight);
      proposals := proposals[id := proposal.(votes := WithCount(proposal.votes, option, count))];
      result := Done;
    }

    /** The running int64 sum, whatever order the map of votes is walked in. */
    method Tally(id: nat, votingPower: int64) returns (result: TallyResult)
      ensures result == Spec.Tally(Value(), id, votingPower)
    {
      if id !in proposals {
        return NotCounted(NotFound);
      }
      if votingPower <= 0 {
        return NotCounted(PowerNotPositive);
      }
      hide ToInt64, Uncounted;
      OptionNames();
      FitsUnchanged(0);
      var votes := proposals[id].votes;
      NothingCounted(votes);
      var totalVoted := 0;
      var todo := {YES, NO, ABSTAIN, VETO};
      while todo != {}
        invariant todo <= {YES, NO, ABSTAIN, VETO}
        invariant totalVoted == ToInt64(Sum(votes) - Uncounted(votes, todo))
        decreases |todo|
      {
        ghost var any := Pick(todo);
        var option :| option in todo;
        CountsOne(votes, todo, option);
        StoredSum(Sum(votes) - Uncounted(votes, todo), CountOf(votes, option));
        todo := todo - {option};
        totalVoted := ToInt64(totalVoted + CountOf(votes, option));
      }
      var passRate := 0.0;
      if totalVoted > 0 {
        passRate := votes.yes as real / totalVoted as real;
      }
      var quorumMet := QuorumMet(quorum, totalVoted, votingPower);
      result := Counted(Tallied(passRate, quorumMet, quorumMet && votes.yes > votes.no, totalVoted, votingPower));
    }
  }

  /** What the options still to be added up count. */
  ghost function Uncounted(v: Votes, todo: set<string>): int {
    (if YES in todo then v.yes else 0) + (if NO in todo then v.no else 0)
    + (if ABSTAIN in todo then v.abstain else 0) + (if VETO in todo then v.veto else 0)
  }

  lemma NothingCounted(v: Votes)
    ensures Uncounted(v, {YES, NO, ABSTAIN, VETO}) == Sum(v) && Uncounted(v, {}) == 0
  {
  }

  lemma CountsOne(v: Votes, todo: set<string>, option: string)
    requires option in todo && IsOption(option)
    ensures Uncounted(v, todo - {option}) == Uncounted(v, todo) - CountOf(v, option)
  {
    OptionNames();
  }
}
