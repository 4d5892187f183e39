/**
 * One customer account: holder name, account number, balance in cents, password
 * and the ordered list of transactions recorded against it.
 */
module Accounts {
  import opened Wrappers
  import opened Text
  import opened Transactions

  /** The `IllegalArgumentException`s the constructor and `setPassword` throw. */
  datatype AccountError = EmptyName | NegativeBalance | EmptyPassword | ShortPassword

  const MinPasswordLength: nat := 6

  /**
   * The check on a password: not blank, then at least six characters as `length()`
   * counts them, in UTF-16 code units.
   */
  function PasswordError(p: string): (r: Option<AccountError>)
    ensures r.None? <==> !Blank(p) && Utf16Length(p) >= MinPasswordLength
    ensures r == Some(EmptyPassword) <==> Blank(p)
    ensures r == Some(ShortPassword) <==> !Blank(p) && Utf16Length(p) < MinPasswordLength
  {
    if Blank(p) then Some(EmptyPassword)
    else if Utf16Length(p) < MinPasswordLength then Some(ShortPassword)
    else None
  }

  /**
   * `length()` counts a character outside the Basic Multilingual Plane twice: three emoji
   * pass the password check, two are still too short.
   */
  lemma SurrogatePairsCountTwice()
    ensures PasswordError("\U{1F600}\U{1F600}\U{1F600}").None?
    ensures PasswordError("\U{1F600}\U{1F600}") == Some(ShortPassword)
  {
  }

  /**
   * The constructor's checks, in the order it makes them: the name, the balance, then
   * the password. The first one that fails is the exception thrown; `None` means none fails.
   */
  function CreationError(name: string, balance: int, password: string): (r: Option<AccountError>)
    ensures r.None? <==> !Blank(name) && balance >= 0 && !Blank(password) && Utf16Length(password) >= MinPasswordLength
    ensures Blank(name) ==> r == Some(EmptyName)
    ensures !Blank(name) && balance < 0 ==> r == Some(NegativeBalance)
    ensures !Blank(name) && balance >= 0 ==> r == PasswordError(password)
  {
    if Blank(name) then Some(EmptyName)
    else if balance < 0 then Some(NegativeBalance)
    else PasswordError(password)
  }

  /** The four persisted fields of an account. */
  datatype AccountRecord = AccountRecord(name: string, accNo: Int32, balance: int, password: string)

  /** A record the constructor accepts. */
  predicate ValidRecord(r: AccountRecord) {
    CreationError(r.name, r.balance, r.password).None?
  }

  /** `toCSV`: name, number, balance and password joined by commas, with no escaping. */
  function CsvLine(r: AccountRecord): string {
    r.name + "," + IntStr(r.accNo) + "," + CentsText(r.balance) + "," + r.password
  }

  /** An account's whole value: its record and its transactions. */
  datatype AccountState = AccountState(record: AccountRecord, transactions: seq<Transaction>)

  class Account {
    const name: string
    const accNo: Int32
    var balance: int
    var password: string
    var transactions: seq<Transaction>

    /** What the constructor established and every mutator keeps. */
    ghost predicate Valid()
      reads this
    {
      CreationError(name, balance, password).None?
    }

    function Record(): AccountRecord
      reads this
    {
      AccountRecord(name, accNo, balance, password)
    }

    function State(): AccountState
      reads this
    {
      AccountState(Record(), transactions)
    }

    constructor (name: string, accNo: Int32, balance: int, password: string)
      requires CreationError(name, balance, password).None?
      ensures Valid()
      ensures this.name == name && this.accNo == accNo && this.balance == balance && this.password == password
      ensures transactions == []
    {
      this.name := name;
      this.accNo := accNo;
      this.balance := balance;
      this.password := password;
      this.transactions := [];
    }

    /**
     * `new Account(name, accNo, balance, password)`: throws the first failing check,
     * otherwise stores the fields with an empty transaction list.
     */
    static method Open(name: string, accNo: Int32, balance: int, password: string) returns (r: Result<Account, AccountError>)
      ensures r.Failure? <==> CreationError(name, balance, password).Some?
      ensures r.Failure? ==> r.error == CreationError(name, balance, password).value
      ensures r.Success? ==> fresh(r.value) && r.value.Valid() && r.value.transactions == []
      ensures r.Success? ==> r.value.Record() == AccountRecord(name, accNo, balance, password)
    {
      var err := CreationError(name, balance, password);
      if err.Some? {
        return Failure(err.value);
      }
      var a := new Account(name, accNo, balance, password);
      return Success(a);
    }

    /** `addTransaction`: append only. */
    method AddTransaction(t: Transaction)
      modifies this
      ensures transactions == old(transactions) + [t]
      ensures balance == old(balance) && password == old(password)
    {
      transactions := transactions + [t];
    }

    /**
     * `deposit`: a non-positive amount is refused and nothing changes; otherwise the
     * balance grows by the amount and one "Deposit" entry is recorded.
     */
    method Deposit(amount: int) returns (ok: bool)
      requires Valid()
      modifies this
      ensures Valid()
      ensures ok <==> amount > 0
      ensures ok ==> balance == old(balance) + amount
      ensures ok ==> transactions == old(transactions) + [Entry("Deposit", amount, "Deposit to account")]
      ensures !ok ==> balance == old(balance) && transactions == old(transactions)
      ensures password == old(password)
    {
      if amount <= 0 {
        return false;
      }
      balance := balance + amount;
      AddTransaction(Entry("Deposit", amount, "Deposit to account"));
      return true;
    }

    /**
     * `withdraw`: a non-positive amount or one above the balance is refused and nothing
     * changes; otherwise the balance shrinks by the amount and one "Withdrawal" entry with
     * the unsigned amount is recorded.
     */
    method Withdraw(amount: int) returns (ok: bool)
      requires Valid()
      modifies this
      ensures Valid()
      ensures ok <==> 0 < amount <= old(balance)
      ensures ok ==> balance == old(balance) - amount
      ensures ok ==> transactions == old(transactions) + [Entry("Withdrawal", amount, "Withdrawal from account")]
      ensures !ok ==> balance == old(balance) && transactions == old(transactions)
      ensures password == old(password)
    {
      if amount <= 0 {
        return false;
      }
      if balance >= amount {
        balance := balance - amount;
        AddTransaction(Entry("Withdrawal", amount, "Withdrawal from account"));
        return true;
      } else {
        return false;
      }
    }

    /** `checkPassword`: exact equality with the stored password. */
    function CheckPassword(input: string): (r: bool)
      reads this
      ensures r <==> input == password
    {
      password == input
    }

    /**
     * `setPassword`: a blank or short password is refused and the old one stays valid;
     * otherwise the new one checks true and, if it differs, the old one checks false.
     */
    method SetPassword(newPassword: string) returns (err: Option<AccountError>)
      requires Valid()
      modifies this
      ensures Valid()
      ensures err == PasswordError(newPassword)
      ensures err.None? ==> password == newPassword && CheckPassword(newPassword)
      ensures err.None? && newPassword != old(password) ==> !CheckPassword(old(password))
      ensures err.Some? ==> password == old(password) && CheckPassword(old(password))
      ensures balance == old(balance) && transactions == old(transactions)
    {
      err := PasswordError(newPassword);
      if err.None? {
        password := newPassword;
      }
    }

    /** `toCSV`. */
    function ToCSV(): string
      reads this
    {
      CsvLine(Record())
    }
  }

  /** The account numbers of a list of accounts, in list order. */
  function Numbers(accounts: seq<Account>): (r: seq<Int32>)
    ensures |r| == |accounts| && forall i :: 0 <= i < |accounts| ==> r[i] == accounts[i].accNo
  {
    seq(|accounts|, i requires 0 <= i < |accounts| => accounts[i].accNo)
  }

  function Records(accounts: seq<Account>): (r: seq<AccountRecord>)
    reads set a | a in accounts
    ensures |r| == |accounts| && forall i :: 0 <= i < |accounts| ==> r[i] == accounts[i].Record()
  {
    seq(|accounts|, i requires 0 <= i < |accounts| reads set a | a in accounts => accounts[i].Record())
  }

  function States(accounts: seq<Account>): (r: seq<AccountState>)
    reads set a | a in accounts
    ensures |r| == |accounts| && forall i :: 0 <= i < |accounts| ==> r[i] == accounts[i].State()
  {
    seq(|accounts|, i requires 0 <= i < |accounts| reads set a | a in accounts => accounts[i].State())
  }

  /** Appending an account appends its record. */
  lemma RecordsSnoc(accounts: seq<Account>, a: Account)
    ensures Records(accounts + [a]) == Records(accounts) + [a.Record()]
  {
  }

}
