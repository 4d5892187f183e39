/**
 * The ordered account collection: first-match lookup, add, remove, and the loops that
 * load and save the two record files.
 */
module Banking {
  import opened Wrappers
  import opened Text
  import opened Transactions
  import opened Accounts
  import opened BankRecords

  /** `findAccountByNumber`: the first account in list order with number `accNo`, or null. */
  method FindAccountByNumber(accounts: seq<Account>, accNo: Int32) returns (r: Account?)
    ensures r == Owner(accounts, accNo)
    ensures r == null <==> forall j :: 0 <= j < |accounts| ==> accounts[j].accNo != accNo
    ensures r != null ==> r in accounts && r.accNo == accNo
    ensures r != null ==> forall j :: 0 <= j < Position(accounts, r) ==> accounts[j].accNo != accNo
  {
    var i := 0;
    while i < |accounts|
      invariant 0 <= i <= |accounts|
      invariant forall j :: 0 <= j < i ==> accounts[j].accNo != accNo
    {
      if accounts[i].accNo == accNo {
        assert FirstIndex(Numbers(accounts), accNo) == Some(i);
        return accounts[i];
      }
      i := i + 1;
    }
    return null;
  }

  /** `accounts.remove(account)`: drops the first occurrence of that object, if any. */
  function RemoveFirst(accounts: seq<Account>, a: Account): (r: seq<Account>)
    ensures forall k :: 0 <= k < |r| ==> r[k] in accounts
  {
    if |accounts| == 0 then []
    else if accounts[0] == a then accounts[1..]
    else [accounts[0]] + RemoveFirst(accounts[1..], a)
  }

  /** Removing an account that is not in the list changes nothing. */
  lemma {:induction false} RemoveFirstAbsent(accounts: seq<Account>, a: Account)
    requires a !in accounts
    ensures RemoveFirst(accounts, a) == accounts
  {
    if |accounts| > 0 {
      assert accounts[0] in accounts;
      RemoveFirstAbsent(accounts[1..], a);
      assert [accounts[0]] + accounts[1..] == accounts;
    }
  }

  /** Removal keeps everything before and after the first occurrence, in order. */
  lemma {:induction false} RemoveFirstSplices(accounts: seq<Account>, a: Account)
    requires a in accounts
    ensures var i := Position(accounts, a);
      RemoveFirst(accounts, a) == accounts[..i] + accounts[i + 1..]
  {
    if accounts[0] != a {
      var rest := accounts[1..];
      assert a in rest;
      RemoveFirstSplices(rest, a);
      var i := Position(rest, a);
      assert Position(accounts, a) == i + 1;
      assert [accounts[0]] + rest[..i] == accounts[..i + 1];
      assert rest[i + 1..] == accounts[i + 2..];
    }
  }

  /** Removal takes out one copy of `a` and nothing else. */
  lemma RemoveFirstMultiset(accounts: seq<Account>, a: Account)
    requires a in accounts
    ensures multiset(RemoveFirst(accounts, a)) + multiset{a} == multiset(accounts)
    ensures |RemoveFirst(accounts, a)| == |accounts| - 1
  {
    RemoveFirstSplices(accounts, a);
    var i := Position(accounts, a);
    var front, back := accounts[..i], accounts[i + 1..];
    assert accounts == front + [a] + back;
    assert multiset(accounts) == multiset(front) + multiset{a} + multiset(back);
  }

  datatype LoadFailure =
    | AccountLineRejected(error: AccountError)
    | TransactionLineFailed(failure: TransactionFailure)

  class Bank {
    var accounts: seq<Account>

    ghost predicate Valid()
      reads this, set a | a in accounts
    {
      forall a :: a in accounts ==> a.Valid()
    }

    /** The empty list the Java constructor starts from, before it reads the files. */
    constructor Empty()
      ensures accounts == [] && Valid()
    {
      accounts := [];
    }

    /**
     * `new Bank()`: load the account lines, then the transaction lines. An exception that
     * leaves either loader leaves the constructor too; a number-format error among the
     * account lines is caught and the accounts read so far are kept.
     */
    static method Open(accountLines: seq<string>, transactionLines: seq<string>) returns (r: Result<Bank, LoadFailure>)
      ensures var load := LoadAccountLines(accountLines);
        var replay := ReplayLines(RecordNumbers(load.records), transactionLines);
        (r.Failure? <==> load.stop.Threw? || replay.failure.Some?) &&
        (load.stop.Threw? ==> r == Failure(AccountLineRejected(load.stop.error))) &&
        (!load.stop.Threw? && replay.failure.Some? ==> r == Failure(TransactionLineFailed(replay.failure.value)))
      ensures r.Success? ==> fresh(r.value) && r.value.Valid()
      ensures r.Success? ==> Records(r.value.accounts) == LoadAccountLines(accountLines).records
      ensures r.Success? ==> forall a :: a in r.value.accounts ==>
        a.transactions == DeliveredTo(ReplayLines(Numbers(r.value.accounts), transactionLines).delivered, Position(r.value.accounts, a))
    {
      var bank := new Bank.Empty();
      var stop := bank.LoadAllAccounts(accountLines);
      if stop.Threw? {
        return Failure(AccountLineRejected(stop.error));
      }
      assert Records(bank.accounts) == LoadAccountLines(accountLines).records;
      assert Numbers(bank.accounts) == RecordNumbers(LoadAccountLines(accountLines).records);
      var failure := bank.LoadTransactions(transactionLines);
      if failure.Some? {
        return Failure(TransactionLineFailed(failure.value));
      }
      return Success(bank);
    }

    /** `findAccountByNumber` on this bank's list. */
    method Find(accNo: Int32) returns (r: Account?)
      ensures r == Owner(accounts, accNo)
    {
      r := FindAccountByNumber(accounts, accNo);
    }

    /**
     * `loadAllAccounts`: read the lines in order, appending one new account per line that
     * loads; a number-format error ends the loop, an exception from the constructor
     * leaves the method. The accounts appended before either stay in the list.
     */
    method LoadAllAccounts(lines: seq<string>) returns (stop: AccountsStop)
      requires Valid()
      modifies this
      ensures Valid()
      ensures stop == LoadAccountLines(lines).stop
      ensures Records(accounts) == old(Records(accounts)) + LoadAccountLines(lines).records
      ensures |old(accounts)| <= |accounts| && accounts[..|old(accounts)|] == old(accounts)
      ensures forall k :: |old(accounts)| <= k < |accounts| ==> fresh(accounts[k]) && accounts[k].transactions == []
    {
      ghost var n := |accounts|;
      ghost var pre := Records(accounts);
      ghost var outcomes: seq<AccountLine> := [];
      stop := Completed;
      var i := 0;
      while i < |lines|
        invariant 0 <= i <= |lines| && |outcomes| == i && ReadAs(lines, outcomes)
        invariant LoadParsed(outcomes).stop == stop == Completed
        invariant Valid()
        invariant n <= |accounts| && accounts[..n] == old(accounts)
        invariant Records(accounts) == pre + LoadParsed(outcomes).records
        invariant forall k :: n <= k < |accounts| ==> fresh(accounts[k]) && accounts[k].transactions == []
      {
        ghost var before := accounts;
        var outcome, added := LoadAccountLine(lines[i], lines, outcomes);
        if added != null {
          RecordsSnoc(before, added);
        }
        LoadParsedSnoc(outcomes, outcome);
        outcomes := outcomes + [outcome];
        if outcome.MalformedNumber? || outcome.RejectedAccount? {
          stop := if outcome.MalformedNumber? then StoppedOnNumberFormat else Threw(outcome.error);
          break;
        }
        i := i + 1;
      }
      LoadAccountLinesFrom(lines, outcomes);
    }

    /** The body of the `loadAllAccounts` loop for one line. */
    method LoadAccountLine(line: string, ghost lines: seq<string>, ghost outcomes: seq<AccountLine>)
        returns (outcome: AccountLine, added: Account?)
      requires Valid()
      requires ReadAs(lines, outcomes) && |outcomes| < |lines| && line == lines[|outcomes|]
      modifies this
      ensures Valid()
      ensures ReadAs(lines, outcomes + [outcome])
      ensures outcome.LoadedAccount? <==> added != null
      ensures added != null ==> accounts == old(accounts) + [added] && fresh(added)
      ensures added != null ==> added.transactions == [] && added.Record() == outcome.record
      ensures added == null ==> accounts == old(accounts)
    {
      outcome, added := ReadAccountLine(line);
      ReadAsSnoc(lines, outcomes, outcome);
    }

    /** Split the line, parse the number and the balance, and construct the account. */
    method ReadAccountLine(line: string) returns (outcome: AccountLine, added: Account?)
      requires Valid()
      modifies this
      ensures Valid()
      ensures outcome == ParseAccountLine(line)
      ensures outcome.LoadedAccount? <==> added != null
      ensures added != null ==> accounts == old(accounts) + [added] && fresh(added)
      ensures added != null ==> added.transactions == [] && added.Record() == outcome.record
      ensures added == null ==> accounts == old(accounts)
    {
      var parts := Fields(line, ',');
      if |parts| != 4 {
        return SkippedLine, null;
      }
      var accNo := ParseInt32(parts[1]);
      if accNo.None? {
        return MalformedNumber, null;
      }
      var balance := ParseCents(parts[2]);
      if balance.None? {
        return MalformedNumber, null;
      }
      var created := Account.Open(parts[0], accNo.value, balance.value, parts[3]);
      if created.Failure? {
        return RejectedAccount(created.error), null;
      }
      accounts := accounts + [created.value];
      return LoadedAccount(created.value.Record()), created.value;
    }

    /**
     * `loadTransactions`: read the lines in order and append each to the first account
     * with its number; number-format errors and blank descriptions leave the method.
     * Every account gets, in file order, the transactions addressed to its position.
     */
    method LoadTransactions(lines: seq<string>) returns (failure: Option<TransactionFailure>)
      modifies set a | a in accounts
      ensures old(Valid()) ==> Valid()
      ensures failure == ReplayLines(Numbers(accounts), lines).failure
      ensures forall a :: a in accounts ==> a.balance == old(a.balance) && a.password == old(a.password)
      ensures forall a :: a in accounts ==>
        a.transactions == old(a.transactions) + DeliveredTo(ReplayLines(Numbers(accounts), lines).delivered, Position(accounts, a))
    {
      ghost var nums := Numbers(accounts);
      ghost var effects: seq<LineEffect> := [];
      var i := 0;
      while i < |lines|
        invariant 0 <= i <= |lines| && |effects| == i && EffectsAs(nums, lines, effects)
        invariant Fold(effects).failure.None?
        invariant forall a :: a in accounts ==> a.balance == old(a.balance) && a.password == old(a.password)
        invariant forall a :: a in accounts ==>
          a.transactions == old(a.transactions) + DeliveredTo(Fold(effects).delivered, Position(accounts, a))
      {
        ghost var before := Fold(effects).delivered;
        var effect := LoadTransactionLine(lines[i], lines, effects);
        FoldSnoc(effects, effect);
        effects := effects + [effect];
        if effect.Throws? {
          ReplayLinesFrom(nums, lines, effects);
          return Some(effect.failure);
        }
        if effect.Delivers? {
          forall a | a in accounts
            ensures DeliveredTo(before + [effect.delivery], Position(accounts, a))
                 == DeliveredTo(before, Position(accounts, a)) + DeliveredTo([effect.delivery], Position(accounts, a))
          {
            DeliveredToAppend(before, [effect.delivery], Position(accounts, a));
          }
        }
        i := i + 1;
      }
      ReplayLinesFrom(nums, lines, effects);
      return None;
    }

    /** One step of the `loadTransactions` loop: the next line after the ones `effects` covers. */
    method LoadTransactionLine(line: string, ghost lines: seq<string>, ghost effects: seq<LineEffect>)
        returns (effect: LineEffect)
      requires EffectsAs(Numbers(accounts), lines, effects) && |effects| < |lines| && line == lines[|effects|]
      modifies set a | a in accounts
      ensures EffectsAs(Numbers(accounts), lines, effects + [effect])
      ensures forall a :: a in accounts ==> a.balance == old(a.balance) && a.password == old(a.password)
      ensures forall a :: a in accounts ==>
        a.transactions == old(a.transactions) + (if effect.Delivers? then DeliveredTo([effect.delivery], Position(accounts, a)) else [])
    {
      effect := ReadTransactionLine(line);
      EffectsAsSnoc(Numbers(accounts), lines, effects, effect);
    }

    /** Parse the line, find the first account with its number and append the transaction to it. */
    method ReadTransactionLine(line: string) returns (effect: LineEffect)
      modifies set a | a in accounts
      ensures effect == LineEffectOf(Numbers(accounts), line)
      ensures forall a :: a in accounts ==> a.balance == old(a.balance) && a.password == old(a.password)
      ensures forall a :: a in accounts ==>
        a.transactions == old(a.transactions) + (if effect.Delivers? then DeliveredTo([effect.delivery], Position(accounts, a)) else [])
    {
      var fields := ParseTransactionLine(line);
      assert LineEffectOf(Numbers(accounts), line) == FieldsEffect(Numbers(accounts), fields);
      if fields.SkippedTransaction? {
        return Ignored;
      } else if fields.MalformedTransactionNumber? {
        return Throws(TransactionNumberFormat);
      }
      var acc := FindAccountByNumber(accounts, fields.accNo);
      if acc == null {
        return Ignored;
      }
      var t := NewTransaction(fields.kind, fields.amount, fields.description);
      if t.Failure? {
        return Throws(TransactionBlankDescription);
      }
      var k := FirstIndex(Numbers(accounts), fields.accNo).value;
      effect := Delivers(Delivery(k, t.value));
      acc.AddTransaction(t.value);
      forall a | a in accounts
        ensures a == acc <==> Position(accounts, a) == k
      {
        OwnerPosition(accounts, k, a);
      }
    }

    /** `saveAllAccounts`: one `toCSV` line per account, in list order. */
    method SaveAllAccounts() returns (lines: seq<string>)
      ensures lines == AccountFile(Records(accounts))
    {
      ghost var records := Records(accounts);
      lines := [];
      for i := 0 to |accounts|
        invariant |lines| == i && forall k :: 0 <= k < i ==> lines[k] == CsvLine(records[k])
      {
        var line := accounts[i].ToCSV();
        assert line == CsvLine(records[i]);
        lines := lines + [line];
      }
    }

    /** `saveAllTransactions`: each account in list order, each of its transactions in order. */
    method SaveAllTransactions() returns (lines: seq<string>)
      ensures lines == TransactionFile(States(accounts))
    {
      ghost var states := States(accounts);
      lines := [];
      for i := 0 to |accounts|
        invariant lines == TransactionFileUpTo(states, i)
      {
        var own := AccountLines(accounts[i]);
        assert own == AccountTransactionLines(states[i]);
        assert TransactionFileUpTo(states, i + 1) == TransactionFileUpTo(states, i) + own;
        lines := lines + own;
      }
    }

    /** The inner loop of `saveAllTransactions`: one line per transaction of `acc`, in order. */
    method AccountLines(acc: Account) returns (own: seq<string>)
      ensures own == AccountTransactionLines(acc.State())
    {
      own := [];
      for j := 0 to |acc.transactions|
        invariant |own| == j
        invariant forall q :: 0 <= q < j ==> own[q] == TransactionLineOf(acc.accNo, acc.transactions[q])
      {
        own := own + [TransactionLineOf(acc.accNo, acc.transactions[j])];
      }
    }

    /** `addAccount`: append at the end, no duplicate check. */
    method AddAccount(a: Account)
      modifies this
      ensures accounts == old(accounts) + [a]
      ensures Valid() <== old(Valid()) && a.Valid()
    {
      accounts := accounts + [a];
    }

    /** `removeAccount`: drop the first occurrence of that object; the others keep their order. */
    method RemoveAccount(a: Account)
      modifies this
      ensures accounts == RemoveFirst(old(accounts), a)
      ensures old(Valid()) ==> Valid()
    {
      accounts := RemoveFirst(accounts, a);
    }
  }
}
