/** Account balances: soulon-deep-chain/x/bank/module.go. */
module Bank {
  import opened Int64
  import opened MapTotals

  datatype Balance = Balance(address: string, amount: int64)

  datatype State = State(sendEnabled: bool, balances: map<string, int>)

  const EMPTY := State(false, map[])

  datatype Error = SendDisabled | NotPositive | PartyEmpty | Insufficient | AddressEmpty | AmountNegative

  datatype Result = Done | Refused(error: Error)

  // ---- Genesis and transfers ------------------------------------------------------------------

  function Credit(balances: map<string, int>, address: string, amount: int): map<string, int> {
    balances[address := ToInt64(AmountOf(balances, address) + amount)]
  }

  /** Entries are added one by one; a bad one stops the loading where it stands. */
  function Load(balances: map<string, int>, entries: seq<Balance>): (map<string, int>, Result)
    decreases |entries|
  {
    if entries == [] then (balances, Done)
    else if entries[0].address == "" then (balances, Refused(AddressEmpty))
    else if entries[0].amount < 0 then (balances, Refused(AmountNegative))
    else Load(Credit(balances, entries[0].address, entries[0].amount), entries[1..])
  }

  function InitGenesis(sendEnabled: bool, entries: seq<Balance>): (State, Result) {
    var (balances, result) := Load(map[], entries);
    (State(sendEnabled, balances), result)
  }

  function Send(s: State, from: string, to: string, amount: int64): (State, Result) {
    if !s.sendEnabled then (s, Refused(SendDisabled))
    else if amount <= 0 then (s, Refused(NotPositive))
    else if from == "" || to == "" then (s, Refused(PartyEmpty))
    else if from == to then (s, Done)
    else if AmountOf(s.balances, from) < amount then (s, Refused(Insufficient))
    else
      var debited := s.balances[from := AmountOf(s.balances, from) - amount];
      (s.(balances := Credit(debited, to, amount)), Done)
  }

  // ---- Order of addresses -----------------------------------------------------------------------

  /** Code-point order, which is also the byte order of the UTF-8 forms. */
  predicate Before(a: string, b: string) {
    if a == "" then b != ""
    else if b == "" then false
    else a[0] < b[0] || (a[0] == b[0] && Before(a[1..], b[1..]))
  }

  lemma {:induction false} BeforeIsTotal(a: string, b: string)
    ensures a != b ==> Before(a, b) || Before(b, a)
    ensures !(Before(a, b) && Before(b, a))
  {
    if a != "" && b != "" {
      BeforeIsTotal(a[1..], b[1..]);
      if a[1..] == b[1..] && a[0] == b[0] {
        assert a == [a[0]] + a[1..] && b == [b[0]] + b[1..];
      }
    }
  }

  predicate InOrder(xs: seq<string>) {
    forall i | 0 <= i < |xs| - 1 :: Before(xs[i], xs[i + 1])
  }

  ghost predicate Distinct(xs: seq<string>) {
    forall i, j | 0 <= i < j < |xs| :: xs[i] != xs[j]
  }

  function Addresses(out: seq<(string, int)>): seq<string> {
    seq(|out|, i requires 0 <= i < |out| => out[i].0)
  }

  lemma InsertKeeps(xs: seq<string>, x: string, i: nat, ys: seq<string>)
    requires InOrder(xs) && Distinct(xs) && x !in xs && i <= |xs| && ys == xs[..i] + [x] + xs[i..]
    requires (i > 0 ==> Before(xs[i - 1], x)) && (i < |xs| ==> Before(x, xs[i]))
    ensures InOrder(ys) && Distinct(ys)
    ensures forall a :: a in ys <==> a in xs || a == x
  {
    hide Before;
    assert (forall k | 0 <= k < i :: ys[k] == xs[k]) && ys[i] == x && (forall k | i < k < |ys| :: ys[k] == xs[k - 1]);
    InsertedMembers(xs, x, i, ys);
    forall j, k | 0 <= j < k < |ys| ensures ys[j] != ys[k] {
      assert j != i ==> ys[j] == xs[if j < i then j else j - 1];
      assert k != i ==> ys[k] == xs[if k < i then k else k - 1];
    }
  }

  lemma InsertedMembers(xs: seq<string>, x: string, i: nat, ys: seq<string>)
    requires i <= |xs| && ys == xs[..i] + [x] + xs[i..]
    ensures forall a :: a in ys <==> a in xs || a == x
  {
    forall a | a in xs || a == x ensures a in ys {
      if a == x {
        assert ys[i] == a;
      } else {
        var k :| 0 <= k < |xs| && xs[k] == a;
        assert ys[if k < i then k else k + 1] == a;
      }
    }
  }

  /** All balances, each once, in address order. */
  ghost predicate IsExport(out: seq<(string, int)>, balances: map<string, int>) {
    && InOrder(Addresses(out)) && Distinct(Addresses(out))
    && (forall a :: a in Addresses(out) <==> a in balances)
    && forall i | 0 <= i < |out| :: out[i].0 in balances && out[i].1 == balances[out[i].0]
  }

  // ---- Conservation over runs ---------------------------------------------------------------------

  datatype Transfer = Transfer(from: string, to: string, amount: int64)

  function Run(s: State, transfers: seq<Transfer>): State {
    if transfers == [] then s
    else
      var t := transfers[|transfers| - 1];
      Send(Run(s, transfers[..|transfers| - 1]), t.from, t.to, t.amount).0
  }

  ghost predicate Sound(s: State) {
    NonNegative(s.balances) && Total(s.balances) <= MAX && "" !in s.balances
  }

  /** The balances after a transfer, in unbounded arithmetic. */
  ghost predicate Moved(before: map<string, int>, after: map<string, int>, from: string, to: string, amount: int) {
    && AmountOf(after, from) == AmountOf(before, from) - amount
    && AmountOf(after, to) == AmountOf(before, to) + amount
    && forall a | a != from && a != to :: AmountOf(after, a) == AmountOf(before, a)
  }

  lemma MoveConserves(before: map<string, int>, from: string, to: string, amount: int)
    requires NonNegative(before) && Total(before) <= MAX && from != to && 0 < amount <= AmountOf(before, from)
    ensures var after := Credit(before[from := AmountOf(before, from) - amount], to, amount);
            Moved(before, after, from, to, amount) && NonNegative(after) && Total(after) == Total(before)
  {
    hide ToInt64;
    var debited := before[from := AmountOf(before, from) - amount];
    TwoEntriesBelowTotal(before, from, to);
    EntriesBelowTotal(before, to);
    FitsUnchanged(AmountOf(before, to) + amount);
    TotalPut(before, from, AmountOf(before, from) - amount);
    TotalPut(debited, to, AmountOf(before, to) + amount);
  }

  /** A transfer between sound states moves exactly the amount, without wrapping;
      a refused one changes nothing. */
  lemma SendConserves(s: State, from: string, to: string, amount: int64)
    requires Sound(s)
    ensures var (next, result) := Send(s, from, to, amount);
            && Sound(next) && Total(next.balances) == Total(s.balances) && next.sendEnabled == s.sendEnabled
            && (result != Done || from == to ==> next == s)
            && (result == Done && from != to ==> Moved(s.balances, next.balances, from, to, amount))
  {
    hide Credit, Moved;
    if Send(s, from, to, amount).1 == Done && from != to {
      MoveConserves(s.balances, from, to, amount);
      CreditNames(s.balances[from := AmountOf(s.balances, from) - amount], to, amount);
    }
  }

  /** A transfer goes through exactly when sending is enabled, the amount is positive,
      both parties are named, and the sender holds the amount (or pays itself);
      otherwise the first of these that fails is reported. */
  lemma SendAnswers(s: State, from: string, to: string, amount: int64)
    ensures var result := Send(s, from, to, amount).1;
            var held := if from in s.balances then s.balances[from] else 0;
            && (result == Done <==>
                  s.sendEnabled && amount > 0 && from != "" && to != "" && (from == to || held >= amount))
            && (result == Refused(SendDisabled) <==> !s.sendEnabled)
            && (result == Refused(NotPositive) <==> s.sendEnabled && amount <= 0)
            && (result == Refused(PartyEmpty) <==> s.sendEnabled && amount > 0 && (from == "" || to == ""))
            && (result == Refused(Insufficient) <==>
                  s.sendEnabled && amount > 0 && from != "" && to != "" && from != to && held < amount)
    ensures var (next, result) := Send(s, from, to, amount);
            && (result != Done || from == to ==> next == s)
            && (result == Done && from != to ==>
                  && AmountOf(next.balances, from) == AmountOf(s.balances, from) - amount
                  && AmountOf(next.balances, to) == ToInt64(AmountOf(s.balances, to) + amount)
                  && forall a | a != from && a != to :: AmountOf(next.balances, a) == AmountOf(s.balances, a))
  {
    hide ToInt64;
  }

  lemma CreditNames(balances: map<string, int>, address: string, amount: int)
    ensures Credit(balances, address, amount).Keys == balances.Keys + {address}
  {
  }

  ghost function EntriesTotal(entries: seq<Balance>): int {
    if entries == [] then 0 else entries[0].amount + EntriesTotal(entries[1..])
  }

  /** Loading entries whose sum fits never wraps, and adds up to that sum. */
  lemma {:induction false} LoadAddsUp(balances: map<string, int>, entries: seq<Balance>)
    requires NonNegative(balances) && "" !in balances && Load(balances, entries).1 == Done
    requires Total(balances) + EntriesTotal(entries) <= MAX
    ensures NonNegative(Load(balances, entries).0) && "" !in Load(balances, entries).0
    ensures Total(Load(balances, entries).0) == Total(balances) + EntriesTotal(entries)
    ensures EntriesTotal(entries) >= 0
    decreases |entries|
  {
    if entries != [] {
      var e := entries[0];
      RestNonNegative(Credit(balances, e.address, e.amount), entries[1..]);
      EntriesBelowTotal(balances, e.address);
      FitsUnchanged(AmountOf(balances, e.address) + e.amount);
      TotalPut(balances, e.address, AmountOf(balances, e.address) + e.amount);
      LoadAddsUp(Credit(balances, e.address, e.amount), entries[1..]);
    }
  }

  lemma {:induction false} RestNonNegative(balances: map<string, int>, entries: seq<Balance>)
    requires Load(balances, entries).1 == Done
    ensures EntriesTotal(entries) >= 0
    decreases |entries|
  {
    if entries != [] {
      RestNonNegative(Credit(balances, entries[0].address, entries[0].amount), entries[1..]);
    }
  }

  predicate BadEntry(b: Balance) {
    b.address == "" || b.amount < 0
  }

  /** What the entries give one address. */
  ghost function EntriesOf(entries: seq<Balance>, address: string): int {
    if entries == [] then 0
    else (if entries[0].address == address then entries[0].amount else 0) + EntriesOf(entries[1..], address)
  }

  /** Loading succeeds exactly when no entry is bad; otherwise it reports the first bad
      one. */
  lemma {:induction false} GenesisAnswers(balances: map<string, int>, entries: seq<Balance>)
    ensures Load(balances, entries).1 == Done <==> forall i | 0 <= i < |entries| :: !BadEntry(entries[i])
    ensures forall i | 0 <= i < |entries| && BadEntry(entries[i]) && (forall j | 0 <= j < i :: !BadEntry(entries[j])) ::
              Load(balances, entries).1 == Refused(if entries[i].address == "" then AddressEmpty else AmountNegative)
    decreases |entries|
  {
    hide ToInt64;
    if entries != [] && !BadEntry(entries[0]) {
      var rest := entries[1..];
      GenesisAnswers(Credit(balances, entries[0].address, entries[0].amount), rest);
      assert forall i | 0 <= i < |rest| :: rest[i] == entries[i + 1];
      forall i | 0 <= i < |entries| && BadEntry(entries[i]) && (forall j | 0 <= j < i :: !BadEntry(entries[j]))
        ensures Load(balances, entries).1 == Refused(if entries[i].address == "" then AddressEmpty else AmountNegative)
      {
        assert BadEntry(rest[i - 1]) && forall j | 0 <= j < i - 1 :: !BadEntry(rest[j]);
      }
    }
  }

  /** Every address gets exactly its own entries added up, as an int64 holds the sum. */
  lemma {:induction false} GenesisGives(balances: map<string, int>, entries: seq<Balance>, address: string)
    requires Load(balances, entries).1 == Done && -TWO_63 <= AmountOf(balances, address) <= MAX
    ensures AmountOf(Load(balances, entries).0, address) == ToInt64(AmountOf(balances, address) + EntriesOf(entries, address))
    decreases |entries|
  {
    hide ToInt64;
    var held := AmountOf(balances, address);
    if entries == [] {
      FitsUnchanged(held);
    } else {
      var e := entries[0];
      GenesisGives(Credit(balances, e.address, e.amount), entries[1..], address);
      if e.address == address {
        StoredSum(held + e.amount, EntriesOf(entries[1..], address));
      }
    }
  }

  lemma {:induction false} RunConserves(s: State, transfers: seq<Transfer>)
    requires Sound(s)
    ensures Sound(Run(s, transfers)) && Total(Run(s, transfers).balances) == Total(s.balances)
  {
    if transfers != [] {
      var n := |transfers| - 1;
      RunConserves(s, transfers[..n]);
      SendConserves(Run(s, transfers[..n]), transfers[n].from, transfers[n].to, transfers[n].amount);
    }
  }

  lemma GenesisIsSound(sendEnabled: bool, entries: seq<Balance>)
    requires InitGenesis(sendEnabled, entries).1 == Done && EntriesTotal(entries) <= MAX
    ensures Sound(InitGenesis(sendEnabled, entries).0) && InitGenesis(sendEnabled, entries).0.sendEnabled == sendEnabled
  {
    EmptyTotal();
    LoadAddsUp(map[], entries);
  }

  lemma {:induction false} RunKeepsEnabled(s: State, transfers: seq<Transfer>)
    ensures Run(s, transfers).sendEnabled == s.sendEnabled
  {
    hide ToInt64;
    if transfers != [] {
      RunKeepsEnabled(s, transfers[..|transfers| - 1]);
    }
  }

  /** If the genesis sum fits in an int64, then after any run of transfers every
      balance is non-negative and the balances still add up to the genesis sum. */
  lemma BankConservation(sendEnabled: bool, entries: seq<Balance>, transfers: seq<Transfer>)
    requires InitGenesis(sendEnabled, entries).1 == Done && EntriesTotal(entries) <= MAX
    ensures var balances := Run(InitGenesis(sendEnabled, entries).0, transfers).balances;
            && (forall a | a in balances :: 0 <= balances[a] <= MAX)
            && Total(balances) == EntriesTotal(entries)
  {
    EmptyTotal();
    LoadAddsUp(map[], entries);
    var s := InitGenesis(sendEnabled, entries).0;
    RunConserves(s, transfers);
    var balances := Run(s, transfers).balances;
    forall a | a in balances ensures 0 <= balances[a] <= MAX {
      EntriesBelowTotal(balances, a);
    }
  }

  // ---- Export and re-import --------------------------------------------------------------------------

  predicate Importable(balances: map<string, int>) {
    "" !in balances && forall a | a in balances :: 0 <= balances[a] <= MAX
  }

  function AsEntries(out: seq<(string, int)>): seq<Balance>
    requires forall i | 0 <= i < |out| :: 0 <= out[i].1 <= MAX
  {
    seq(|out|, i requires 0 <= i < |out| => Balance(out[i].0, out[i].1))
  }

  lemma {:induction false} LoadsDistinct(loaded: map<string, int>, entries: seq<Balance>)
    requires forall i | 0 <= i < |entries| :: entries[i].address != "" && 0 <= entries[i].amount
    requires forall i, j | 0 <= i < j < |entries| :: entries[i].address != entries[j].address
    requires forall i | 0 <= i < |entries| :: entries[i].address !in loaded
    ensures Load(loaded, entries).1 == Done
    ensures var done := Load(loaded, entries).0;
            && (forall a | a in loaded :: a in done && done[a] == loaded[a])
            && (forall i | 0 <= i < |entries| :: entries[i].address in done && done[entries[i].address] == entries[i].amount)
            && (forall a | a in done :: a in loaded || exists i :: 0 <= i < |entries| && entries[i].address == a)
    decreases |entries|
  {
    if entries != [] {
      var e := entries[0];
      var next := Credit(loaded, e.address, e.amount);
      FitsUnchanged(e.amount);
      assert next == loaded[e.address := e.amount];
      LoadsDistinct(next, entries[1..]);
      var done := Load(loaded, entries).0;
      assert done == Load(next, entries[1..]).0;
      forall i | 0 <= i < |entries| ensures entries[i].address in done && done[entries[i].address] == entries[i].amount {
        if i > 0 { assert entries[1..][i - 1] == entries[i]; }
      }
      forall a | a in done && a !in loaded ensures exists i :: 0 <= i < |entries| && entries[i].address == a {
        if a != e.address {
          var i :| 0 <= i < |entries[1..]| && entries[1..][i].address == a;
          assert entries[i + 1].address == a;
        } else {
          assert entries[0].address == a;
        }
      }
    }
  }

  /** Initialising from an export restores exactly the exported balances. */
  lemma ExportRestores(sendEnabled: bool, balances: map<string, int>, out: seq<(string, int)>)
    requires Importable(balances) && IsExport(out, balances)
    ensures InitGenesis(sendEnabled, AsEntries(out)) == (State(sendEnabled, balances), Done)
  {
    hide Load, Before;
    var entries := AsEntries(out);
    assert forall i | 0 <= i < |out| :: Addresses(out)[i] == entries[i].address;
    LoadsDistinct(map[], entries);
    var done := Load(map[], entries).0;
    forall a | a in balances ensures a in done && done[a] == balances[a] {
      assert a in Addresses(out);
      var i :| 0 <= i < |out| && Addresses(out)[i] == a;
    }
    assert done == balances;
  }
}

/** The keeper object, whose methods update the balances in place. */
module BankKeepers {
  import opened Collections
  import opened Int64
  import opened MapTotals
  import opened Bank
  import Spec = Bank

  class Keeper {
    var sendEnabled: bool
    var balances: map<string, int>

    ghost function Value(): State
      reads this
    {
      State(sendEnabled, balances)
    }

    constructor ()
      ensures Value() == EMPTY
    {
      sendEnabled, balances := false, map[];
    }

    method InitGenesis(sendEnabled: bool, entries: seq<Balance>) returns (result: Result)
      modifies this
      ensures (Value(), result) == Spec.InitGenesis(sendEnabled, entries)
    {
      this.sendEnabled := sendEnabled;
      balances := map[];
      var i := 0;
      while i < |entries|
        invariant 0 <= i <= |entries|
        invariant this.sendEnabled == sendEnabled
        invariant Load(balances, entries[i..]) == Load(map[], entries)
      {
        var balance := entries[i];
        if balance.address == "" {
          return Refused(AddressEmpty);
        }
        if balance.amount < 0 {
          return Refused(AmountNegative);
        }
        var held := BalanceOf(balance.address);
        balances := balances[balance.address := ToInt64(held + balance.amount)];
        i := i + 1;
      }
      result := Done;
    }

    method Send(from: string, to: string, amount: int64) returns (result: Result)
      modifies this
      ensures (Value(), result) == Spec.Send(old(Value()), from, to, amount)
    {
      if !sendEnabled {
        return Refused(SendDisabled);
      }
      if amount <= 0 {
        return Refused(NotPositive);
      }
      if from == "" || to == "" {
        return Refused(PartyEmpty);
      }
      if from == to {
        return Done;
      }
      var held := BalanceOf(from);
      if held < amount {
        return Refused(Insufficient);
      }
      balances := balances[from := held - amount];
      var receiver := BalanceOf(to);
      balances := balances[to := ToInt64(receiver + amount)];
      result := Done;
    }

    method BalanceOf(address: string) returns (amount: int)
      ensures amount == AmountOf(balances, address)
    {
      amount := if address in balances then balances[address] else 0;
    }

    /** The balances in address order, whatever order the map is walked in. */
    method ExportBalances() returns (out: seq<(string, int)>)
      ensures IsExport(out, balances)
    {
      var addresses: seq<string> := [];
      var todo := balances.Keys;
      while todo != {}
        invariant todo <= balances.Keys
        invariant InOrder(addresses) && Distinct(addresses)
        invariant forall a :: a in addresses <==> a in balances && a !in todo
        decreases |todo|
      {
        ghost var any := Pick(todo);
        var address :| address in todo;
        todo := todo - {address};
        addresses := Insert(addresses, address);
      }
      out := [];
      var i := 0;
      while i < |addresses|
        invariant 0 <= i <= |addresses| && |out| == i
        invariant forall k | 0 <= k < i :: out[k] == (addresses[k], balances[addresses[k]])
      {
        assert addresses[i] in addresses;
        out := out + [(addresses[i], balances[addresses[i]])];
        i := i + 1;
      }
      assert Addresses(out) == addresses;
    }
  }

  /** One step of sorting the collected addresses. */
  method Insert(xs: seq<string>, x: string) returns (ys: seq<string>)
    requires InOrder(xs) && Distinct(xs) && x !in xs
    ensures InOrder(ys) && Distinct(ys)
    ensures forall a :: a in ys <==> a in xs || a == x
  {
    var i := 0;
    while i < |xs| && Before(xs[i], x)
      invariant 0 <= i <= |xs|
      invariant i > 0 ==> Before(xs[i - 1], x)
    {
      i := i + 1;
    }
    ys := xs[..i] + [x] + xs[i..];
    if i < |xs| {
      BeforeIsTotal(xs[i], x);
      assert xs[i] in xs;
    }
    InsertKeeps(xs, x, i, ys);
  }
}
