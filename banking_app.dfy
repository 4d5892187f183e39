/**
 * The console application's rules: the password-format and account-number checks,
 * password verification with three attempts, and the session state of the menu loop
 * (the account list and the logged-in account) that login, logout, create, deposit,
 * withdraw, transfer, change-password and delete act on. Console input is a sequence
 * of lines read front to back; running out of lines is Scanner's
 * `NoSuchElementException`, which nothing catches.
 */
module App {
  import opened Wrappers
  import opened Text
  import opened Transactions
  import opened Accounts
  import opened BankRecords
  import opened Banking

  // ---------------------------------------------------------------------------
  // Input checks
  // ---------------------------------------------------------------------------

  /** `isValidPasswordFormat`: not blank and at least six UTF-16 code units long. */
  predicate IsValidPasswordFormat(p: string) {
    !Blank(p) && Utf16Length(p) >= MinPasswordLength
  }

  /**
   * The app's format check accepts exactly the passwords the account's own check
   * accepts, so neither the constructor nor `setPassword` throws on a password that
   * got past the prompt.
   */
  lemma FormatMatchesAccountCheck(p: string)
    ensures IsValidPasswordFormat(p) <==> PasswordError(p).None?
  {
  }

  /** `String.valueOf(accNo).length() == 6`, the test behind every "6 digits" prompt. */
  predicate HasSixCharacters(accNo: Int32) {
    |IntStr(accNo)| == 6
  }

  /** The minus sign counts as a character: 100000..999999 and also -99999..-10000 pass. */
  lemma SixCharactersRange(accNo: Int32)
    ensures HasSixCharacters(accNo) <==> 100000 <= accNo <= 999999 || -99999 <= accNo <= -10000
  {
    assert Pow10(1) == 10 && Pow10(2) == 100 && Pow10(3) == 1000;
    assert Pow10(4) == 10000 && Pow10(5) == 100000 && Pow10(6) == 1000000;
    if accNo >= 0 {
      NatStrLength(accNo, 5);
      NatStrLength(accNo, 6);
    } else {
      var m: nat := 0 - accNo as int;
      assert |IntStr(accNo)| == 1 + |NatStr(m)|;
      NatStrLength(m, 4);
      NatStrLength(m, 5);
    }
  }

  /** `createAccount`'s number prompt: six characters and no account with that number yet. */
  predicate AcceptsNewNumber(accounts: seq<Account>, accNo: Int32) {
    HasSixCharacters(accNo) && Owner(accounts, accNo) == null
  }

  /** The number prompt accepts a six-character number that no account in the list has. */
  lemma AcceptsNewNumberMeans(accounts: seq<Account>, accNo: Int32)
    ensures AcceptsNewNumber(accounts, accNo) <==>
      HasSixCharacters(accNo) && forall i :: 0 <= i < |accounts| ==> accounts[i].accNo != accNo
  {
    OwnerIsFirstWithNumber(accounts, accNo);
  }

  /**
   * `confirm.equalsIgnoreCase("yes")`: Java compares character by character up to case,
   * so besides the eight spellings of y/e/s the long s (U+017F), whose upper case is 'S',
   * is accepted in third place.
   */
  predicate ConfirmsYes(s: string) {
    |s| == 3 && s[0] in "yY" && s[1] in "eE" && s[2] in "sS\U{017F}"
  }

  // ---------------------------------------------------------------------------
  // Password prompts
  // ---------------------------------------------------------------------------

  const MaxPasswordAttempts: nat := 3

  /**
   * How `verifyPassword` ends: granted after reading `consumed` lines, the last of them
   * the password; denied after three wrong lines; or the input ran out first.
   */
  datatype Verdict = Granted(consumed: nat) | Denied | InputExhausted

  /** The verdict once `i` wrong attempts have been made. */
  function VerdictFrom(password: string, input: seq<string>, i: nat): (v: Verdict)
    requires i <= MaxPasswordAttempts && i <= |input|
    ensures v.Granted? ==> i < v.consumed <= MaxPasswordAttempts && v.consumed <= |input|
    ensures v.Granted? ==> input[v.consumed - 1] == password && forall j :: i <= j < v.consumed - 1 ==> input[j] != password
    ensures v.Denied? <==> MaxPasswordAttempts <= |input| && forall j :: i <= j < MaxPasswordAttempts ==> input[j] != password
    ensures v.InputExhausted? <==> |input| < MaxPasswordAttempts && forall j :: i <= j < |input| ==> input[j] != password
    decreases MaxPasswordAttempts - i
  {
    if i == MaxPasswordAttempts then Denied
    else if i == |input| then InputExhausted
    else if input[i] == password then Granted(i + 1)
    else VerdictFrom(password, input, i + 1)
  }

  /**
   * `verifyPassword`: up to three lines, stopping at the first that equals the
   * password. The account is only read.
   */
  method VerifyPassword(acc: Account, input: seq<string>) returns (v: Verdict)
    ensures v == VerdictFrom(acc.password, input, 0)
  {
    var attempts := 0;
    while attempts < MaxPasswordAttempts
      invariant attempts <= MaxPasswordAttempts && attempts <= |input|
      invariant VerdictFrom(acc.password, input, attempts) == VerdictFrom(acc.password, input, 0)
    {
      if attempts == |input| {
        return InputExhausted;
      }
      var inputPass := input[attempts];
      if acc.CheckPassword(inputPass) {
        return Granted(attempts + 1);
      }
      attempts := attempts + 1;
    }
    return Denied;
  }

  /** `getValidatedPasswordInput` from line `i`: the first line of valid format, if any. */
  function ValidPasswordLine(input: seq<string>, i: nat): (r: Option<nat>)
    requires i <= |input|
    ensures r.Some? ==> i <= r.value < |input| && IsValidPasswordFormat(input[r.value])
    ensures r.Some? ==> forall j :: i <= j < r.value ==> !IsValidPasswordFormat(input[j])
    ensures r.None? <==> forall j :: i <= j < |input| ==> !IsValidPasswordFormat(input[j])
    decreases |input| - i
  {
    if i == |input| then None
    else if IsValidPasswordFormat(input[i]) then Some(i)
    else ValidPasswordLine(input, i + 1)
  }

  /** `getValidatedPasswordInput`: re-prompt until a line has the valid format. */
  method GetValidatedPasswordInput(input: seq<string>, i: nat) returns (r: Option<nat>)
    requires i <= |input|
    ensures r == ValidPasswordLine(input, i)
  {
    var k := i;
    while k < |input|
      invariant i <= k <= |input|
      invariant ValidPasswordLine(input, k) == ValidPasswordLine(input, i)
    {
      if IsValidPasswordFormat(input[k]) {
        return Some(k);
      }
      k := k + 1;
    }
    return None;
  }

  /**
   * The new password `changePassword`'s loop settles on, reading from line `i`: a line
   * of valid format that differs from the current password, directly followed by an
   * equal confirmation line. A candidate equal to the current password is dropped
   * alone; a candidate with a mismatched confirmation is dropped with it.
   */
  function NewPasswordFrom(current: string, input: seq<string>, i: nat): (r: Option<string>)
    requires i <= |input|
    ensures r.Some? ==> IsValidPasswordFormat(r.value) && r.value != current
    ensures r.Some? ==> exists j :: i <= j < |input| - 1 && input[j] == r.value && input[j + 1] == r.value
    decreases |input| - i
  {
    match ValidPasswordLine(input, i)
    case None => None
    case Some(j) =>
      if input[j] == current then NewPasswordFrom(current, input, j + 1)
      else if j + 1 == |input| then None
      else if input[j + 1] == input[j] then Some(input[j])
      else NewPasswordFrom(current, input, j + 2)
  }

  /** Line `k` cannot become the new password: its format is invalid or it is the current one. */
  predicate Stale(current: string, input: seq<string>, k: nat)
    requires k < |input|
  {
    !IsValidPasswordFormat(input[k]) || input[k] == current
  }

  /** Line `j` is the first line from `i` of valid format that differs from `current`. */
  predicate FirstFresh(current: string, input: seq<string>, i: nat, j: nat) {
    i <= j < |input| && !Stale(current, input, j) && forall k :: i <= k < j ==> Stale(current, input, k)
  }

  /** A line of invalid format, or equal to the current password, is passed over alone. */
  lemma {:induction false} StaleLineSkipped(current: string, input: seq<string>, i: nat)
    requires i < |input| && Stale(current, input, i)
    ensures NewPasswordFrom(current, input, i) == NewPasswordFrom(current, input, i + 1)
  {
    if !IsValidPasswordFormat(input[i]) {
      assert ValidPasswordLine(input, i) == ValidPasswordLine(input, i + 1);
    } else {
      assert ValidPasswordLine(input, i) == Some(i);
    }
  }

  /** The loop passes over every line before the first fresh one. */
  lemma {:induction false} SkipToFirstFresh(current: string, input: seq<string>, i: nat, j: nat)
    requires FirstFresh(current, input, i, j)
    ensures NewPasswordFrom(current, input, i) == NewPasswordFrom(current, input, j)
    decreases j - i
  {
    if i < j {
      StaleLineSkipped(current, input, i);
      SkipToFirstFresh(current, input, i + 1, j);
    }
  }

  /**
   * The first fresh line is the first candidate `changePassword`'s loop weighs: confirmed
   * by the next line, it is chosen; as the last line, the input runs out and nothing is
   * chosen; otherwise it and its mismatched confirmation are dropped together.
   */
  lemma {:induction false} FirstFreshCandidate(current: string, input: seq<string>, i: nat, j: nat)
    requires FirstFresh(current, input, i, j)
    ensures j + 1 < |input| && input[j + 1] == input[j] ==> NewPasswordFrom(current, input, i) == Some(input[j])
    ensures j + 1 == |input| ==> NewPasswordFrom(current, input, i) == None
    ensures j + 1 < |input| && input[j + 1] != input[j] ==>
      NewPasswordFrom(current, input, i) == NewPasswordFrom(current, input, j + 2)
  {
    SkipToFirstFresh(current, input, i, j);
    assert ValidPasswordLine(input, j) == Some(j);
  }

  /** Below any fresh line there is a first one, and there is only one first one. */
  lemma {:induction false} LeastFresh(current: string, input: seq<string>, i: nat, j0: nat) returns (j: nat)
    requires i <= j0 < |input| && !Stale(current, input, j0)
    ensures j <= j0 && FirstFresh(current, input, i, j)
    ensures forall j': nat :: FirstFresh(current, input, i, j') ==> j' == j
    decreases j0 - i
  {
    if !Stale(current, input, i) {
      j := i;
    } else {
      j := LeastFresh(current, input, i + 1, j0);
    }
    forall j': nat | FirstFresh(current, input, i, j')
      ensures j' == j
    {
    }
  }

  /**
   * No new password is chosen exactly when the input runs out first: no line from `i` is
   * fresh, or the first fresh line is the last line, or its confirmation does not match
   * and nothing is chosen from the line after that confirmation.
   */
  lemma {:induction false} NothingChosen(current: string, input: seq<string>, i: nat)
    requires i <= |input|
    ensures NewPasswordFrom(current, input, i).None? <==>
      (forall k :: i <= k < |input| ==> Stale(current, input, k)) ||
      exists j: nat :: FirstFresh(current, input, i, j) && Unconfirmed(current, input, j)
  {
    var r := NewPasswordFrom(current, input, i);
    if r.Some? {
      var j :| i <= j < |input| - 1 && input[j] == r.value && input[j + 1] == r.value;
      assert !Stale(current, input, j);
    }
    if j0 :| i <= j0 < |input| && !Stale(current, input, j0) {
      var j := LeastFresh(current, input, i, j0);
      FirstFreshCandidate(current, input, i, j);
      assert r.None? <==> Unconfirmed(current, input, j);
      assert (exists j': nat :: FirstFresh(current, input, i, j') && Unconfirmed(current, input, j')) <==>
        Unconfirmed(current, input, j);
    }
  }

  /**
   * Nothing is chosen once candidate `j` is weighed: it is the last line, or its
   * confirmation does not match and nothing is chosen from the line after that.
   */
  predicate Unconfirmed(current: string, input: seq<string>, j: nat)
    requires j < |input|
  {
    j + 1 == |input| || (input[j + 1] != input[j] && NewPasswordFrom(current, input, j + 2).None?)
  }

  /**
   * The loop of `changePassword` from line `i`: a validated candidate, rejected when it
   * equals the current password, then a confirmation line that must match it.
   */
  method ReadNewPassword(acc: Account, input: seq<string>, i: nat) returns (r: Option<string>)
    requires i <= |input|
    ensures r == NewPasswordFrom(acc.password, input, i)
  {
    var k := i;
    while true
      invariant k <= |input|
      invariant NewPasswordFrom(acc.password, input, k) == NewPasswordFrom(acc.password, input, i)
      decreases |input| - k
    {
      var j := GetValidatedPasswordInput(input, k);
      if j.None? {
        return None;
      }
      var newPassword := input[j.value];
      if acc.CheckPassword(newPassword) {
        k := j.value + 1;
        continue;
      }
      if j.value + 1 == |input| {
        return None;
      }
      var confirmNewPassword := input[j.value + 1];
      if newPassword == confirmNewPassword {
        return Some(newPassword);
      }
      k := j.value + 2;
    }
  }

  datatype ChangeOutcome = PasswordChanged(newPassword: string) | ChangeNotVerified | ChangeInputEnded

  /** `changePassword`: verify the current password, then run the new-password loop. */
  function ChangeOutcomeOf(current: string, input: seq<string>): ChangeOutcome {
    match VerdictFrom(current, input, 0)
    case Denied => ChangeNotVerified
    case InputExhausted => ChangeInputEnded
    case Granted(k) =>
      match NewPasswordFrom(current, input, k)
      case None => ChangeInputEnded
      case Some(p) => PasswordChanged(p)
  }

  /**
   * A password is changed only after the current one was verified, and only to a value
   * of valid format, different from the current one, that was typed twice in a row
   * after the verification; the account accepts it.
   */
  lemma ChangedOnlyWhenChecked(current: string, input: seq<string>)
    requires ChangeOutcomeOf(current, input).PasswordChanged?
    ensures VerdictFrom(current, input, 0).Granted?
    ensures var p := ChangeOutcomeOf(current, input).newPassword;
      IsValidPasswordFormat(p) && p != current && PasswordError(p).None? &&
      exists j :: VerdictFrom(current, input, 0).consumed <= j < |input| - 1 && input[j] == p && input[j + 1] == p
  {
    var k := VerdictFrom(current, input, 0).consumed;
    var p := NewPasswordFrom(current, input, k).value;
    FormatMatchesAccountCheck(p);
  }

  /** A failed verification never changes the password, whatever follows it. */
  lemma NotVerifiedNotChanged(current: string, input: seq<string>)
    requires !VerdictFrom(current, input, 0).Granted?
    ensures !ChangeOutcomeOf(current, input).PasswordChanged?
  {
  }

  // ---------------------------------------------------------------------------
  // The session
  // ---------------------------------------------------------------------------

  datatype TransferOutcome = BadRecipientNumber | RecipientNotFound | NonPositiveAmount | InsufficientFunds | Transferred

  datatype DeleteOutcome = Deleted | DeletionCancelled | DeletionNotVerified | DeletionInputEnded

  /** The menu line's description of a deposit, withdrawal or transfer; never blank. */
  function Described(prefix: string, accNo: Int32): (d: string)
    requires |prefix| > 0 && prefix[0] > ' '
    ensures !Blank(d)
  {
    prefix + IntStr(accNo)
  }

  /**
   * Steps 5 and 6 of `transferFunds`, once every check has passed: withdraw from the
   * sender, deposit to the recipient, then one "Transfer" entry on each, the sender's
   * with the negated amount. Neither "failed" branch of the source can be taken.
   */
  method MoveFunds(sender: Account, recipient: Account, amount: int)
    requires sender.Valid() && recipient.Valid() && 0 < amount <= sender.balance
    modifies sender, recipient
    ensures sender.Valid() && recipient.Valid()
    ensures sender.password == old(sender.password) && recipient.password == old(recipient.password)
    ensures sender != recipient ==>
      sender.balance == old(sender.balance) - amount && recipient.balance == old(recipient.balance) + amount &&
      sender.transactions == old(sender.transactions) + [Entry("Withdrawal", amount, "Withdrawal from account"),
        Entry("Transfer", -amount, "Transfer to account " + IntStr(recipient.accNo))] &&
      recipient.transactions == old(recipient.transactions) + [Entry("Deposit", amount, "Deposit to account"),
        Entry("Transfer", amount, "Transfer from account " + IntStr(sender.accNo))]
    ensures sender == recipient ==>
      sender.balance == old(sender.balance) &&
      sender.transactions == old(sender.transactions) + [Entry("Withdrawal", amount, "Withdrawal from account"),
        Entry("Deposit", amount, "Deposit to account"), Entry("Transfer", -amount, "Transfer to account " + IntStr(recipient.accNo)),
        Entry("Transfer", amount, "Transfer from account " + IntStr(sender.accNo))]
  {
    var withdrawn := sender.Withdraw(amount);
    assert withdrawn;
    var deposited := recipient.Deposit(amount);
    assert deposited;
    sender.AddTransaction(Entry("Transfer", -amount, Described("Transfer to account ", recipient.accNo)));
    recipient.AddTransaction(Entry("Transfer", amount, Described("Transfer from account ", sender.accNo)));
  }

  /** `main`'s state: the loaded account list and the static `loggedInAccount`. */
  class BankingApp {
    var accounts: seq<Account>
    var loggedIn: Account?

    /** Every account passed its constructor's checks; a logged-in account is in the list. */
    ghost predicate Valid()
      reads this, set a | a in accounts
    {
      (forall a :: a in accounts ==> a.Valid()) && (loggedIn != null ==> loggedIn in accounts)
    }

    /** The menu loop starts with the loaded accounts and nobody logged in. */
    constructor (accounts: seq<Account>)
      requires forall a :: a in accounts ==> a.Valid()
      ensures this.accounts == accounts && loggedIn == null && Valid()
    {
      this.accounts := accounts;
      loggedIn := null;
    }

    /**
     * `login` with a number its prompt accepted: the first account with that number,
     * then `verifyPassword` on it. Only a granted verdict logs that account in.
     */
    method Login(accNo: Int32, input: seq<string>) returns (v: Option<Verdict>)
      requires Valid() && loggedIn == null
      requires HasSixCharacters(accNo)
      modifies this
      ensures Valid() && accounts == old(accounts)
      ensures v.None? <==> Owner(accounts, accNo) == null
      ensures v.Some? ==> v.value == VerdictFrom(Owner(accounts, accNo).password, input, 0)
      ensures loggedIn == (if v.Some? && v.value.Granted? then Owner(accounts, accNo) else null)
    {
      var acc := FindAccountByNumber(accounts, accNo);
      if acc == null {
        return None;
      }
      var verdict := VerifyPassword(acc, input);
      if verdict.Granted? {
        loggedIn := acc;
      }
      return Some(verdict);
    }

    /** Menu option 8: nobody is logged in afterwards, and the accounts are untouched. */
    method Logout()
      requires Valid()
      modifies this
      ensures Valid() && loggedIn == null && accounts == old(accounts)
    {
      loggedIn := null;
    }

    /**
     * `createAccount` with fields its prompts accepted: a non-blank name, an unused
     * six-character number, a non-negative balance and a well-formed password. The
     * constructor then cannot throw, and the new account goes to the end of the list.
     */
    method CreateAccount(name: string, accNo: Int32, balance: int, password: string) returns (a: Account)
      requires Valid()
      requires !Blank(name) && AcceptsNewNumber(accounts, accNo) && balance >= 0 && IsValidPasswordFormat(password)
      modifies this
      ensures Valid() && loggedIn == old(loggedIn)
      ensures fresh(a) && accounts == old(accounts) + [a]
      ensures a.Record() == AccountRecord(name, accNo, balance, password) && a.transactions == []
      ensures Owner(accounts, accNo) == a
    {
      var r := Account.Open(name, accNo, balance, password);
      assert r.Success?;
      a := r.value;
      ghost var before := Numbers(accounts);
      assert forall j :: 0 <= j < |before| ==> before[j] != accNo;
      accounts := accounts + [a];
      assert Numbers(accounts) == before + [accNo];
      assert Numbers(accounts)[|before|] == accNo;
      assert FirstIndex(Numbers(accounts), accNo) == Some(|accounts| - 1);
    }

    /**
     * Menu option 2 with a numeric amount: a positive amount is deposited, which records
     * one "Deposit" entry, and the menu then records a second one of its own.
     */
    method MenuDeposit(amount: int) returns (ok: bool)
      requires Valid() && loggedIn != null
      modifies loggedIn
      ensures Valid()
      ensures ok <==> amount > 0
      ensures ok ==> loggedIn.balance == old(loggedIn.balance) + amount
      ensures ok ==> loggedIn.transactions == old(loggedIn.transactions) + [Entry("Deposit", amount, "Deposit to account"),
                       Entry("Deposit", amount, "Deposited to account " + IntStr(loggedIn.accNo))]
      ensures !ok ==> loggedIn.balance == old(loggedIn.balance) && loggedIn.transactions == old(loggedIn.transactions)
      ensures loggedIn.password == old(loggedIn.password)
    {
      if amount <= 0 {
        return false;
      }
      ok := loggedIn.Deposit(amount);
      if ok {
        loggedIn.AddTransaction(Entry("Deposit", amount, Described("Deposited to account ", loggedIn.accNo)));
      }
    }

    /**
     * Menu option 3 with a numeric amount: a positive amount within the balance is
     * withdrawn, which records one "Withdrawal" entry, and the menu then records a second.
     */
    method MenuWithdraw(amount: int) returns (ok: bool)
      requires Valid() && loggedIn != null
      modifies loggedIn
      ensures Valid()
      ensures ok <==> 0 < amount <= old(loggedIn.balance)
      ensures ok ==> loggedIn.balance == old(loggedIn.balance) - amount
      ensures ok ==> loggedIn.transactions == old(loggedIn.transactions) + [Entry("Withdrawal", amount, "Withdrawal from account"),
                       Entry("Withdrawal", amount, "Withdrew from account " + IntStr(loggedIn.accNo))]
      ensures !ok ==> loggedIn.balance == old(loggedIn.balance) && loggedIn.transactions == old(loggedIn.transactions)
      ensures loggedIn.password == old(loggedIn.password)
    {
      if amount <= 0 {
        return false;
      }
      ok := loggedIn.Withdraw(amount);
      if ok {
        loggedIn.AddTransaction(Entry("Withdrawal", amount, Described("Withdrew from account ", loggedIn.accNo)));
      }
    }

    /**
     * `transferFunds`: the checks in their order (six-character number, recipient found,
     * positive amount, enough balance), then withdraw from the sender, deposit to the
     * recipient and record a "Transfer" entry on each. The recipient may be the sender.
     */
    method TransferFunds(recipientNo: Int32, amount: int) returns (outcome: TransferOutcome)
      requires Valid() && loggedIn != null
      modifies loggedIn, Owner(accounts, recipientNo)
      ensures Valid() && accounts == old(accounts) && loggedIn == old(loggedIn)
      ensures outcome ==
        if !HasSixCharacters(recipientNo) then BadRecipientNumber
        else if Owner(accounts, recipientNo) == null then RecipientNotFound
        else if amount <= 0 then NonPositiveAmount
        else if old(loggedIn.balance) < amount then InsufficientFunds
        else Transferred
      ensures outcome != Transferred ==>
        unchanged(loggedIn) && (Owner(accounts, recipientNo) != null ==> unchanged(Owner(accounts, recipientNo)))
      ensures outcome == Transferred ==> var s, r := loggedIn, Owner(accounts, recipientNo);
        s != r ==>
          s.balance == old(s.balance) - amount && r.balance == old(r.balance) + amount &&
          s.transactions == old(s.transactions) + [Entry("Withdrawal", amount, "Withdrawal from account"),
            Entry("Transfer", -amount, "Transfer to account " + IntStr(recipientNo))] &&
          r.transactions == old(r.transactions) + [Entry("Deposit", amount, "Deposit to account"),
            Entry("Transfer", amount, "Transfer from account " + IntStr(s.accNo))]
      ensures outcome == Transferred ==> var s := loggedIn;
        s == Owner(accounts, recipientNo) ==>
          s.balance == old(s.balance) &&
          s.transactions == old(s.transactions) + [Entry("Withdrawal", amount, "Withdrawal from account"),
            Entry("Deposit", amount, "Deposit to account"), Entry("Transfer", -amount, "Transfer to account " + IntStr(recipientNo)),
            Entry("Transfer", amount, "Transfer from account " + IntStr(s.accNo))]
      ensures loggedIn.password == old(loggedIn.password)
      ensures Owner(accounts, recipientNo) != null ==> Owner(accounts, recipientNo).password == old(Owner(accounts, recipientNo).password)
    {
      if !HasSixCharacters(recipientNo) {
        return BadRecipientNumber;
      }
      var recipient := FindAccountByNumber(accounts, recipientNo);
      if recipient == null {
        return RecipientNotFound;
      }
      if amount <= 0 {
        return NonPositiveAmount;
      }
      var sender := loggedIn;
      if sender.balance < amount {
        return InsufficientFunds;
      }
      MoveFunds(sender, recipient, amount);
      return Transferred;
    }

    /**
     * Menu option 6: `changePassword` on the logged-in account. The password changes
     * exactly when the outcome says so, to the value the outcome carries.
     */
    method ChangePassword(input: seq<string>) returns (outcome: ChangeOutcome)
      requires Valid() && loggedIn != null
      modifies loggedIn
      ensures Valid()
      ensures outcome == ChangeOutcomeOf(old(loggedIn.password), input)
      ensures outcome.PasswordChanged? ==> loggedIn.password == outcome.newPassword
      ensures !outcome.PasswordChanged? ==> loggedIn.password == old(loggedIn.password)
      ensures loggedIn.balance == old(loggedIn.balance) && loggedIn.transactions == old(loggedIn.transactions)
    {
      var acc := loggedIn;
      var v := VerifyPassword(acc, input);
      if v.Denied? {
        return ChangeNotVerified;
      } else if v.InputExhausted? {
        return ChangeInputEnded;
      }
      var chosen := ReadNewPassword(acc, input, v.consumed);
      if chosen.None? {
        return ChangeInputEnded;
      }
      var newPassword := chosen.value;
      var err := acc.SetPassword(newPassword);
      assert err.None?;  // the IllegalArgumentException handler cannot be reached
      return PasswordChanged(newPassword);
    }

    /**
     * Menu option 7: verify the password, read a confirmation line, and only on a
     * case-insensitive "yes" remove the account from the list and log out.
     */
    method DeleteAccount(input: seq<string>) returns (outcome: DeleteOutcome)
      requires Valid() && loggedIn != null
      modifies this
      ensures Valid()
      ensures var v := VerdictFrom(old(loggedIn.password), input, 0);
        (outcome == Deleted <==> v.Granted? && v.consumed < |input| && ConfirmsYes(input[v.consumed])) &&
        (outcome == DeletionNotVerified <==> v.Denied?) &&
        (outcome == DeletionInputEnded <==> v.InputExhausted? || (v.Granted? && v.consumed == |input|))
      ensures outcome == Deleted ==> accounts == RemoveFirst(old(accounts), old(loggedIn)) && loggedIn == null
      ensures outcome == Deleted ==> |accounts| == |old(accounts)| - 1
      ensures outcome != Deleted ==> accounts == old(accounts) && loggedIn == old(loggedIn)
    {
      var acc := loggedIn;
      var v := VerifyPassword(acc, input);
      if v.Denied? {
        return DeletionNotVerified;
      } else if v.InputExhausted? {
        return DeletionInputEnded;
      }
      if v.consumed == |input| {
        return DeletionInputEnded;
      }
      var confirm := input[v.consumed];
      if !ConfirmsYes(confirm) {
        return DeletionCancelled;
      }
      RemoveFirstMultiset(accounts, acc);
      accounts := RemoveFirst(accounts, acc);
      loggedIn := null;
      return Deleted;
    }
  }
}
