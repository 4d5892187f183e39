/**
 * The earlier account class kept at the top of the repository: name, number and balance
 * with no validation and no transaction history, and a three-field CSV line.
 */
module LegacyAccounts {
  import opened Wrappers
  import opened Text
  import opened BankRecords

  class Account {
    var name: string
    var accNo: Int32
    var balance: int

    /** Stores the three fields as given; nothing is checked. */
    constructor (name: string, accNo: Int32, balance: int)
      ensures this.name == name && this.accNo == accNo && this.balance == balance
    {
      this.name := name;
      this.accNo := accNo;
      this.balance := balance;
    }

    /** `deposit`: adds the amount whatever its sign. */
    method Deposit(amount: int)
      modifies this
      ensures balance == old(balance) + amount
      ensures name == old(name) && accNo == old(accNo)
    {
      balance := balance + amount;
    }

    /**
     * `withdraw`: subtracts when the balance covers the amount, otherwise nothing changes.
     * A non-negative balance stays non-negative.
     */
    method Withdraw(amount: int)
      modifies this
      ensures old(balance) >= amount ==> balance == old(balance) - amount
      ensures old(balance) < amount ==> balance == old(balance)
      ensures old(balance) >= 0 ==> balance >= 0
      ensures name == old(name) && accNo == old(accNo)
    {
      if balance >= amount {
        balance := balance - amount;
      }
    }

    /** `toCSV`: name, number and balance joined by commas. */
    function ToCSV(): string
      reads this
    {
      LegacyCsvLine(name, accNo, balance)
    }
  }

  function LegacyCsvLine(name: string, accNo: Int32, balance: int): string {
    name + "," + IntStr(accNo) + "," + CentsText(balance)
  }

  /** With no comma in the name the line has exactly the three fields name, number, balance. */
  lemma LegacyCsvFields(name: string, accNo: Int32, balance: int)
    requires ',' !in name
    ensures Fields(LegacyCsvLine(name, accNo, balance), ',') == [name, IntStr(accNo), CentsText(balance)]
    ensures ParseInt32(IntStr(accNo)) == Some(accNo) && ParseCents(CentsText(balance)) == Some(balance)
  {
    var n, b := IntStr(accNo), CentsText(balance);
    IntStrHasNo(accNo, ',');
    CentsTextHasNo(balance, ',');
    FieldsSingle(name, ',');
    FieldsSnoc(name, n, ',');
    FieldsSnoc(name + "," + n, b, ',');
    IntStrRoundTrip(accNo);
    CentsTextRoundTrip(balance);
  }

  /** A line the early class writes has three fields, so the later loader skips it either way it splits. */
  lemma LegacyLineIsSkipped(name: string, accNo: Int32, balance: int)
    requires ',' !in name
    ensures ParseAccountLine(LegacyCsvLine(name, accNo, balance)) == SkippedLine
    ensures ParseAccountLineAsWritten(LegacyCsvLine(name, accNo, balance)) == SkippedLine
  {
    var line := LegacyCsvLine(name, accNo, balance);
    LegacyCsvFields(name, accNo, balance);
    var b := CentsText(balance);
    assert line[|line| - 1] == b[|b| - 1];
    assert b[|b| - 1] in b;
    AsWrittenAgreesOffTrailingComma(line);
  }

  /** Nothing keeps the balance non-negative: a deposit of a negative amount takes it below zero. */
  method NegativeDepositBreaksNonNegative() returns (balance: int)
    ensures balance < 0
  {
    var a := new Account("Ann", 123456, 0);
    a.Deposit(-1);
    balance := a.balance;
  }
}
