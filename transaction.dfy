/** An immutable ledger entry: a kind, a signed amount in cents and a description. */
module Transactions {
  import opened Wrappers
  import opened Text

  datatype Entry = Entry(kind: string, amount: int, description: string)

  /**
   * Every transaction object passed its constructor's check: the description is not blank.
   * There are no mutators, so a value of this type never changes.
   */
  type Transaction = t: Entry | !Blank(t.description) witness Entry("", 0, "-")

  datatype TransactionError = EmptyDescription

  /**
   * `new Transaction(type, amount, description)`: throws exactly when the description
   * is blank; any sign of amount is accepted and the getters give back the arguments.
   */
  function NewTransaction(kind: string, amount: int, description: string): (r: Result<Transaction, TransactionError>)
    ensures r.Failure? <==> Blank(description)
    ensures r.Success? ==> r.value.kind == kind && r.value.amount == amount && r.value.description == description
  {
    if Blank(description) then Failure(EmptyDescription) else Success(Entry(kind, amount, description))
  }

  /** `toString`: "Withdrawal: $25.50 - ATM withdrawal", the amount shown without its sign. */
  function ToString(t: Transaction): (s: string)
    ensures |s| > |t.kind| + 3 + |t.description| + 3
    ensures s[..|t.kind| + 3] == t.kind + ": $" && s[|s| - |t.description| - 3..] == " - " + t.description
  {
    t.kind + ": $" + TwoDecimals(Abs(t.amount)) + " - " + t.description
  }

  /** Two transactions that differ only in the sign of the amount render identically. */
  lemma ToStringIgnoresSign(kind: string, amount: int, description: string)
    requires !Blank(description)
    ensures ToString(Entry(kind, amount, description)) == ToString(Entry(kind, -amount, description))
  {
  }

  /** The rendering keeps the magnitude: same kind and description, same text, same |amount|. */
  lemma ToStringDeterminesMagnitude(t: Transaction, u: Transaction)
    requires t.kind == u.kind && t.description == u.description
    requires ToString(t) == ToString(u)
    ensures Abs(t.amount) == Abs(u.amount)
  {
    var p := t.kind + ": $";
    var ft, fu := TwoDecimals(Abs(t.amount)), TwoDecimals(Abs(u.amount));
    var q := " - " + t.description;
    assert ToString(t) == p + ft + q && ToString(u) == p + fu + q;
    assert |ft| == |fu|;
    assert ft == ToString(t)[|p|..|p| + |ft|];
    assert fu == ToString(u)[|p|..|p| + |fu|];
    TwoDecimalsInjective(Abs(t.amount), Abs(u.amount));
  }
}
