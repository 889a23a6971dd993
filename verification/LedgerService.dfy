/** The ledger service over its database tables (internal/ledger/service.go, ledger.go), in place,
    against the functions of Ledger.dfy. One method call is one committed or rolled-back transaction. */
module LedgerServices {
  import opened Types
  import opened Rounding
  import opened Ledger

  function Amounts(es: seq<Entry>): int {
    if es == [] then 0 else es[0].amount + Amounts(es[1..])
  }

  lemma {:induction false} AmountsSnoc(es: seq<Entry>, i: int)
    requires 0 <= i < |es|
    ensures Amounts(es[..i + 1]) == Amounts(es[..i]) + es[i].amount
  {
    if i == 0 {
      assert es[..1][1..] == [];
    } else {
      AmountsSnoc(es[1..], i - 1);
      assert es[..i + 1][1..] == es[1..][..i] && es[..i][1..] == es[1..][..i - 1];
    }
  }

  /** The amounts of a journal add up entry by entry, from nothing. */
  lemma {:induction false} AmountsAdd(a: seq<Entry>, e: Entry, b: seq<Entry>)
    ensures Amounts([]) == 0 && Amounts(a + [e] + b) == Amounts(a) + e.amount + Amounts(b)
  {
    if a == [] {
      assert (a + [e] + b)[1..] == b;
    } else {
      AmountsAdd(a[1..], e, b);
      assert (a + [e] + b)[1..] == a[1..] + [e] + b;
    }
  }

  lemma {:induction false} StoredSnoc(es: seq<Entry>, i: int, d: int)
    requires 0 <= i < |es| && d > 0
    ensures Stored(es[..i + 1], d) == Stored(es[..i], d) + [es[i].(amount := Round(es[i].amount, d))]
  {
    if i == 0 {
      assert es[..1][1..] == [];
    } else {
      StoredSnoc(es[1..], i - 1, d);
      assert es[..i + 1][1..] == es[1..][..i] && es[..i][1..] == es[1..][..i - 1];
    }
  }

  class LedgerService {
    const d: int
    var accounts: map<Key, Account>
    var entries: seq<Entry>
    var journals: nat

    ghost predicate Valid() { d > 0 }

    ghost function Now(): State
      reads this
    {
      State(accounts, entries, journals)
    }

    constructor (d: int, s: State)
      requires d > 0
      ensures Valid() && this.d == d && Now() == s
    {
      this.d := d;
      accounts, entries, journals := s.accounts, s.entries, s.journals;
    }

    /** The balanced-journal gate: checked on the requested amounts, stored rounded. */
    method CreateJournal(es: seq<Entry>) returns (ok: bool)
      requires Valid()
      modifies this`entries
      ensures ok <==> es != [] && Amounts(es) == 0
      ensures entries == if ok then old(entries) + Stored(es, d) else old(entries)
    {
      if |es| == 0 { return false; }
      var total := 0;
      for i := 0 to |es|
        invariant total == Amounts(es[..i]) && entries == old(entries)
      {
        AmountsSnoc(es, i);
        total := total + es[i].amount;
      }
      assert es[..|es|] == es;
      if total != 0 { return false; }
      for i := 0 to |es|
        invariant entries == old(entries) + Stored(es[..i], d)
      {
        StoredSnoc(es, i, d);
        entries := entries + [es[i].(amount := Round(es[i].amount, d))];
      }
      ok := true;
    }

    /** The same check on what is stored. */
    method ValidateJournalBalance(j: nat) returns (balanced: bool)
      ensures balanced <==> SumOf(entries, OfJournal(j)) == 0
    {
      var total := 0;
      for i := 0 to |entries|
        invariant total == SumOf(entries[..i], OfJournal(j))
      {
        SumConcat(entries[..i], [entries[i]], OfJournal(j));
        assert entries[..i + 1] == entries[..i] + [entries[i]];
        if entries[i].journal == j { total := total + entries[i].amount; }
      }
      assert entries[..|entries|] == entries;
      balanced := total == 0;
    }

    method TopUpUser(user: Id, x: int) returns (r: Result)
      requires Valid()
      modifies this
      ensures r == TopUp(old(Now()), d, user, x)
      ensures Now() == if r.Ok? then r.state else old(Now())
    {
      var k := Of(user, USD);
      if x <= 0 { return Err(NotPositive); }
      if k !in accounts { return Err(NoAccount); }
      var account := accounts[k];
      var _ := PostMove(k, Equity, -x, USD);
      accounts := accounts[k := Credited(account, x, d)];
      r := Ok(State(accounts, entries, journals));
    }

    method HoldFunds(user: Id, c: Currency, x: int) returns (r: Result)
      requires Valid()
      modifies this`accounts
      ensures r == Hold(old(Now()), d, user, c, x)
      ensures Now() == if r.Ok? then r.state else old(Now())
    {
      var k := Of(user, c);
      if x <= 0 { return Err(NotPositive); }
      if k !in accounts { return Err(NoAccount); }
      var account := accounts[k];
      if account.available * d < x { return Err(Insufficient); }
      accounts := accounts[k := Held(account, x, d)];
      r := Ok(State(accounts, entries, journals));
    }

    method ReleaseHold(user: Id, c: Currency, x: int) returns (r: Result)
      requires Valid()
      modifies this`accounts
      ensures r == Release(old(Now()), d, user, c, x)
      ensures Now() == if r.Ok? then r.state else old(Now())
    {
      var k := Of(user, c);
      if x <= 0 { return Err(NotPositive); }
      if k !in accounts { return Err(NoAccount); }
      var account := accounts[k];
      if account.hold * d < x { return Err(Insufficient); }
      accounts := accounts[k := Released(account, x, d)];
      r := Ok(State(accounts, entries, journals));
    }

    method TransferFunds(from: Key, to: Key, x: int, c: Currency) returns (r: Result)
      requires Valid()
      modifies this
      ensures r == Transfer(old(Now()), d, from, to, x, c)
      ensures Now() == if r.Ok? then r.state else old(Now())
    {
      if x <= 0 { return Err(NotPositive); }
      if from !in accounts || to !in accounts { return Err(NoAccount); }
      var fromAccount, toAccount := accounts[from], accounts[to];
      if fromAccount.available * d < x { return Err(Insufficient); }
      var _ := PostMove(from, to, x, c);
      accounts := accounts[from := Debited(fromAccount, x, d)];
      accounts := accounts[to := Credited(toAccount, x, d)];
      r := Ok(State(accounts, entries, journals));
    }

    /** Post a two-entry journal under a fresh id; the gate always lets it through. */
    method PostMove(from: Key, to: Key, x: int, c: Currency) returns (ok: bool)
      requires Valid()
      modifies this`entries, this`journals
      ensures ok && entries == old(entries) + Stored(Move(old(journals), from, to, x, c), d)
      ensures journals == old(journals) + 1
    {
      var es := Move(journals, from, to, x, c);
      assert es[1..] == [es[1]] && Amounts([es[1]]) == es[1].amount;
      ok := CreateJournal(es);
      journals := journals + 1;
    }
  }
}
