/**
 * The two persisted record formats of the ledger and how they are read back:
 * one `name,accNo,balance,password` line per account, and one
 * `accNo,type,amount,description` line per transaction, accounts in list order
 * and each account's transactions in their order.
 */
module BankRecords {
  import opened Wrappers
  import opened Text
  import opened Transactions
  import opened Accounts

  // ---------------------------------------------------------------------------
  // Looking an account number up

  /** The position of the first account whose number is `n`, if any. */
  function FirstIndex(nums: seq<Int32>, n: Int32): (r: Option<nat>)
    ensures r.Some? ==> r.value < |nums| && nums[r.value] == n && forall j :: 0 <= j < r.value ==> nums[j] != n
    ensures r.None? ==> forall j :: 0 <= j < |nums| ==> nums[j] != n
  {
    if |nums| == 0 then None
    else if nums[0] == n then Some(0)
    else match FirstIndex(nums[1..], n)
      case None => None
      case Some(i) => Some(i + 1)
  }

  /** The account `findAccountByNumber` returns: the first with number `n`, or null. */
  function Owner(accounts: seq<Account>, n: Int32): (r: Account?)
  {
    match FirstIndex(Numbers(accounts), n)
    case None => null
    case Some(i) => accounts[i]
  }

  /**
   * `findAccountByNumber` returns null exactly when no account has number `n`, and
   * otherwise the first account in list order that has it.
   */
  lemma OwnerIsFirstWithNumber(accounts: seq<Account>, n: Int32)
    ensures Owner(accounts, n) == null <==> forall i :: 0 <= i < |accounts| ==> accounts[i].accNo != n
    ensures Owner(accounts, n) != null ==>
      exists i :: 0 <= i < |accounts| && accounts[i] == Owner(accounts, n) && accounts[i].accNo == n &&
        forall j :: 0 <= j < i ==> accounts[j].accNo != n
  {
    var nums := Numbers(accounts);
    match FirstIndex(nums, n)
    case None =>
    case Some(i) =>
      assert nums[i] == n;
  }

  /** The first position at which an object occurs in the list. */
  function Position(accounts: seq<Account>, a: Account): (r: nat)
    requires a in accounts
    ensures r < |accounts| && accounts[r] == a && forall j :: 0 <= j < r ==> accounts[j] != a
  {
    if accounts[0] == a then 0 else Position(accounts[1..], a) + 1
  }

  /**
   * The account that owns number `accounts[i].accNo` sits at `i` exactly when `a`, wherever
   * it occurs, occurs first at `i`.
   */
  lemma OwnerPosition(accounts: seq<Account>, i: nat, a: Account)
    requires i < |accounts|
    requires FirstIndex(Numbers(accounts), accounts[i].accNo) == Some(i)
    requires a in accounts
    ensures a == accounts[i] <==> Position(accounts, a) == i
  {
    if a == accounts[i] {
      var p := Position(accounts, a);
      assert Numbers(accounts)[p] == accounts[i].accNo;
    }
  }

  // ---------------------------------------------------------------------------
  // Account lines

  datatype AccountLine =
    | SkippedLine                           // not exactly four fields
    | MalformedNumber                       // Integer.parseInt or Double.parseDouble threw
    | RejectedAccount(error: AccountError)  // the Account constructor threw
    | LoadedAccount(record: AccountRecord)

  /** What the loader does with the fields of one account line. */
  function AccountFromFields(parts: seq<string>): (r: AccountLine)
    ensures r.LoadedAccount? ==> |parts| == 4 && ValidRecord(r.record)
    ensures r.LoadedAccount? ==> r.record.name == parts[0] && r.record.password == parts[3]
    ensures |parts| != 4 <==> r.SkippedLine?
  {
    if |parts| != 4 then SkippedLine
    else
      match ParseInt32(parts[1])
      case None => MalformedNumber
      case Some(n) =>
        match ParseCents(parts[2])
        case None => MalformedNumber
        case Some(b) =>
          match CreationError(parts[0], b, parts[3])
          case Some(e) => RejectedAccount(e)
          case None => LoadedAccount(AccountRecord(parts[0], n, b, parts[3]))
  }

  /**
   * The account line as the Java loader reads it: `line.split(",")`, trailing empty fields
   * dropped. A loaded account is valid and has no comma in its name or its password.
   */
  function ParseAccountLineAsWritten(line: string): (r: AccountLine)
    ensures r.LoadedAccount? ==> ValidRecord(r.record) && ',' !in r.record.name && ',' !in r.record.password
  {
    JavaSplitHasNoSeparator(line, ',');
    AccountFromFields(JavaSplit(line, ','))
  }

  /**
   * The account line read keeping every field, empty ones included (`line.split(",", -1)`).
   * A loaded account is valid and has no comma in its name or its password.
   */
  function ParseAccountLine(line: string): (r: AccountLine)
    ensures r.LoadedAccount? ==> ValidRecord(r.record) && ',' !in r.record.name && ',' !in r.record.password
  {
    FieldsHaveNoSeparator(line, ',');
    AccountFromFields(Fields(line, ','))
  }

  /** The two readings differ only on lines that end with a comma. */
  lemma AsWrittenAgreesOffTrailingComma(line: string)
    requires |line| == 0 || line[|line| - 1] != ','
    ensures ParseAccountLineAsWritten(line) == ParseAccountLine(line)
  {
    JavaSplitIsFields(line, ',');
  }

  /** The text of a number holds only digits and a sign. */
  lemma IntStrHasNo(n: int, c: char)
    requires !IsDigit(c) && c != '-'
    ensures c !in IntStr(n)
  {
    if n < 0 {
      NatStrHasNo(-n, c);
    } else {
      NatStrHasNo(n, c);
    }
  }

  /** The text of an amount holds only digits, a sign and the point. */
  lemma CentsTextHasNo(amount: int, c: char)
    requires !IsDigit(c) && c != '-' && c != '.'
    ensures c !in CentsText(amount)
  {
    NatStrHasNo(Abs(amount) / 100, c);
    var f := FractionText(Abs(amount) % 100);
    assert forall i :: 0 <= i < |f| ==> IsDigit(f[i]);
  }

  /** `toCSV` read back: a valid record whose name and password have no comma comes back whole. */
  lemma CsvLineRoundTrip(r: AccountRecord)
    requires ValidRecord(r) && ',' !in r.name && ',' !in r.password
    ensures ParseAccountLine(CsvLine(r)) == LoadedAccount(r)
  {
    IntStrHasNo(r.accNo, ',');
    CentsTextHasNo(r.balance, ',');
    FieldsOfFour(r.name, IntStr(r.accNo), CentsText(r.balance), r.password, ',');
    IntStrRoundTrip(r.accNo);
    CentsTextRoundTrip(r.balance);
  }

  /** A comma in the name or the password gives more than four fields: the line is skipped. */
  lemma {:induction false} CommaFieldIsSkipped(r: AccountRecord)
    requires ',' in r.name || ',' in r.password
    ensures ParseAccountLine(CsvLine(r)) == SkippedLine
  {
    IntStrHasNo(r.accNo, ',');
    CentsTextHasNo(r.balance, ',');
    var n, b := IntStr(r.accNo), CentsText(r.balance);
    var mid := n + "," + b + ",";
    assert CsvLine(r) == r.name + ("," + mid + r.password);
    CommasNone(n);
    CommasNone(b);
    CommaOne();
    CommasAppend(n, ",");
    CommasAppend(n + ",", b);
    CommasAppend(n + "," + b, ",");
    FieldCount(r.name, mid, r.password);
  }

  /** The number of fields: one more than the number of separators. */
  function Commas(s: string): nat {
    if |s| == 0 then 0 else (if s[0] == ',' then 1 else 0) + Commas(s[1..])
  }

  lemma {:induction false} FieldsCount(s: string)
    ensures |Fields(s, ',')| == Commas(s) + 1
    decreases |s|
  {
    var (head, tail) := Cut(s, ',');
    CutSplits(s, ',');
    if tail.Some? {
      FieldsCount(tail.value);
      assert s == (head + [',']) + tail.value;
      CommasAppend(head + [','], tail.value);
      CommasAppend(head, [',']);
      CommasNone(head);
      CommaOne();
    } else {
      CommasNone(s);
    }
  }

  lemma {:induction false} CommasAppend(a: string, b: string)
    ensures Commas(a + b) == Commas(a) + Commas(b)
    decreases |a|
  {
    if |a| > 0 {
      assert (a + b)[1..] == a[1..] + b;
      CommasAppend(a[1..], b);
    } else {
      assert a + b == b;
    }
  }

  lemma CommaOne()
    ensures Commas(",") == 1
  {
    assert ","[1..] == "";
  }

  lemma {:induction false} CommasNone(a: string)
    requires ',' !in a
    ensures Commas(a) == 0
    decreases |a|
  {
    if |a| > 0 {
      CommasNone(a[1..]);
    }
  }

  lemma {:induction false} CommasSome(a: string)
    requires ',' in a
    ensures Commas(a) >= 1
    decreases |a|
  {
    if a[0] != ',' {
      CommasSome(a[1..]);
    }
  }

  /** `name` + "," + `mid` + `password` where `mid` holds exactly two commas. */
  lemma FieldCount(name: string, mid: string, password: string)
    requires ',' in name || ',' in password
    requires Commas(mid) == 2
    ensures |Fields(name + ("," + mid + password), ',')| > 4
  {
    var s := name + ("," + mid + password);
    FieldsCount(s);
    CommasAppend(name, "," + mid + password);
    CommasAppend("," + mid, password);
    CommasAppend(",", mid);
    CommaOne();
    assert s == name + ((("," + mid)) + password);
    if ',' in name { CommasSome(name); } else { CommasSome(password); }
  }

  /**
   * The corrected reader never loads a saved account as a different one: a valid record
   * either comes back whole or its line is skipped.
   */
  lemma CsvLineExactOrSkipped(r: AccountRecord)
    requires ValidRecord(r)
    ensures ParseAccountLine(CsvLine(r)) == LoadedAccount(r) || ParseAccountLine(CsvLine(r)) == SkippedLine
  {
    if ',' in r.name || ',' in r.password {
      CommaFieldIsSkipped(r);
    } else {
      CsvLineRoundTrip(r);
    }
  }

  /** The `toCSV` line of a valid record ends with the last character of its non-blank password. */
  lemma CsvLineEndsInPassword(r: AccountRecord)
    requires ValidRecord(r)
    ensures |r.password| > 0 && CsvLine(r)[|CsvLine(r)| - 1] == r.password[|r.password| - 1]
  {
  }

  /**
   * An account loaded from a line, saved with `toCSV` and loaded again comes back as the
   * same account, under either split: on every line that loads, saving is undone by loading.
   */
  lemma ReloadIsStable(line: string)
    requires ParseAccountLine(line).LoadedAccount? || ParseAccountLineAsWritten(line).LoadedAccount?
    ensures ParseAccountLine(line).LoadedAccount? ==>
      ParseAccountLine(CsvLine(ParseAccountLine(line).record)) == ParseAccountLine(line)
    ensures ParseAccountLineAsWritten(line).LoadedAccount? ==>
      ParseAccountLineAsWritten(CsvLine(ParseAccountLineAsWritten(line).record)) == ParseAccountLineAsWritten(line)
  {
    if ParseAccountLine(line).LoadedAccount? {
      CsvLineRoundTrip(ParseAccountLine(line).record);
    }
    if ParseAccountLineAsWritten(line).LoadedAccount? {
      AsWrittenCsvLineRoundTrip(ParseAccountLineAsWritten(line).record);
    }
  }

  /**
   * The source's own reading, `split(",")`, also gives back a valid, comma-free saved
   * account: its line ends in the last character of the password, never in a comma.
   */
  lemma AsWrittenCsvLineRoundTrip(r: AccountRecord)
    requires ValidRecord(r) && ',' !in r.name && ',' !in r.password
    ensures ParseAccountLineAsWritten(CsvLine(r)) == LoadedAccount(r)
  {
    CsvLineRoundTrip(r);
    CsvLineEndsInPassword(r);
    assert r.password[|r.password| - 1] in r.password;
    AsWrittenAgreesOffTrailingComma(CsvLine(r));
  }

  /** A separator at the end adds one empty field. */
  lemma {:induction false} FieldsTrailingSeparator(x: string, sep: char)
    ensures Fields(x + [sep], sep) == Fields(x, sep) + [""]
    decreases |x|
  {
    var (h, t) := Cut(x, sep);
    CutSplits(x, sep);
    CutNone("", sep);
    if t.Some? {
      assert x + [sep] == h + [sep] + (t.value + [sep]);
      CutAt(h, t.value + [sep], sep);
      FieldsTrailingSeparator(t.value, sep);
    } else {
      assert x + [sep] == x + [sep] + "";
      CutAt(x, "", sep);
    }
  }

  /**
   * As written: a password that ends with a comma loses that comma on reload, because
   * `split(",")` drops the empty field after it, and the rest is checked as the password.
   */
  lemma AsWrittenDropsTrailingComma(name: string, accNo: Int32, balance: int, p: string)
    requires ',' !in name && ',' !in p && p != ""
    ensures ParseAccountLineAsWritten(CsvLine(AccountRecord(name, accNo, balance, p + ",")))
         == AccountFromFields([name, IntStr(accNo), CentsText(balance), p])
  {
    var n, b := IntStr(accNo), CentsText(balance);
    IntStrHasNo(accNo, ',');
    CentsTextHasNo(balance, ',');
    var front := name + "," + n + "," + b + "," + p;
    assert CsvLine(AccountRecord(name, accNo, balance, p + ",")) == front + [','];
    FieldsOfFour(name, n, b, p, ',');
    FieldsTrailingSeparator(front, ',');
    assert Fields(front + [','], ',') == [name, n, b, p, ""];
    assert DropTrailingEmpty([name, n, b, p, ""]) == DropTrailingEmpty([name, n, b, p]);
    assert ',' in front + [','];
  }

  /** A valid six-character password "abcdef," reloads as the different password "abcdef". */
  lemma AsWrittenTruncatesPassword(accNo: Int32, balance: int)
    requires balance >= 0
    ensures ValidRecord(AccountRecord("Ann", accNo, balance, "abcdef,"))
    ensures ParseAccountLineAsWritten(CsvLine(AccountRecord("Ann", accNo, balance, "abcdef,")))
         == LoadedAccount(AccountRecord("Ann", accNo, balance, "abcdef"))
  {
    assert "abcdef" + "," == "abcdef,";
    AsWrittenDropsTrailingComma("Ann", accNo, balance, "abcdef");
    IntStrRoundTrip(accNo);
    CentsTextRoundTrip(balance);
  }

  /** A valid password "abcde," reloads as the five-character "abcde": the constructor throws and loading fails. */
  lemma AsWrittenRejectsSavedAccount(accNo: Int32, balance: int)
    requires balance >= 0
    ensures ValidRecord(AccountRecord("Ann", accNo, balance, "abcde,"))
    ensures ParseAccountLineAsWritten(CsvLine(AccountRecord("Ann", accNo, balance, "abcde,")))
         == RejectedAccount(ShortPassword)
    ensures ParseAccountLine(CsvLine(AccountRecord("Ann", accNo, balance, "abcde,"))) == SkippedLine
  {
    assert "abcde" + "," == "abcde,";
    AsWrittenDropsTrailingComma("Ann", accNo, balance, "abcde");
    IntStrRoundTrip(accNo);
    CentsTextRoundTrip(balance);
    assert ',' in "abcde,";
    CommaFieldIsSkipped(AccountRecord("Ann", accNo, balance, "abcde,"));
  }

  // ---------------------------------------------------------------------------
  // Loading account lines

  datatype AccountsStop =
    | Completed              // every line was read
    | StoppedOnNumberFormat  // caught: the lines after it are not read, the accounts before it are kept
    | Threw(error: AccountError)  // not caught: the exception leaves the loader

  datatype AccountsLoad = AccountsLoad(records: seq<AccountRecord>, stop: AccountsStop)

  /** How every line reads, in file order. */
  function ParsedLines(lines: seq<string>): (r: seq<AccountLine>)
    ensures |r| == |lines| && forall j :: 0 <= j < |lines| ==> r[j] == ParseAccountLine(lines[j])
  {
    seq(|lines|, j requires 0 <= j < |lines| => ParseAccountLine(lines[j]))
  }

  /** One more line read by the loader: nothing once it has stopped, else what the line says. */
  function NextLoad(before: AccountsLoad, line: AccountLine): AccountsLoad {
    if !before.stop.Completed? then before
    else
      match line
      case SkippedLine => before
      case MalformedNumber => AccountsLoad(before.records, StoppedOnNumberFormat)
      case RejectedAccount(e) => AccountsLoad(before.records, Threw(e))
      case LoadedAccount(rec) => AccountsLoad(before.records + [rec], Completed)
  }

  /** Adding the accounts line by line until a number fails to parse or a constructor throws. */
  function LoadParsed(parsed: seq<AccountLine>): (r: AccountsLoad)
    decreases |parsed|
  {
    if |parsed| == 0 then AccountsLoad([], Completed)
    else NextLoad(LoadParsed(parsed[..|parsed| - 1]), parsed[|parsed| - 1])
  }

  /** `loadAllAccounts` on a list of lines: the records it adds and how it ends. */
  function LoadAccountLines(lines: seq<string>): (r: AccountsLoad)
    decreases |lines|
  {
    if |lines| == 0 then AccountsLoad([], Completed)
    else NextLoad(LoadAccountLines(lines[..|lines| - 1]), ParseAccountLine(lines[|lines| - 1]))
  }

  /** Loading the lines is loading how they read. */
  lemma {:induction false} LoadAccountLinesIsLoadParsed(lines: seq<string>)
    ensures LoadAccountLines(lines) == LoadParsed(ParsedLines(lines))
    decreases |lines|
  {
    if |lines| > 0 {
      var n := |lines| - 1;
      LoadAccountLinesIsLoadParsed(lines[..n]);
      assert ParsedLines(lines)[..n] == ParsedLines(lines[..n]);
    }
  }

  lemma {:induction false} LoadParsedFrom(parsed: seq<AccountLine>)
    ensures forall i :: 0 <= i < |LoadParsed(parsed).records| ==> LoadedAccount(LoadParsed(parsed).records[i]) in parsed
    decreases |parsed|
  {
    if |parsed| > 0 {
      var front := parsed[..|parsed| - 1];
      LoadParsedFrom(front);
      assert forall x :: x in front ==> x in parsed;
    }
  }

  /** Every account the loader adds passed the constructor's checks. */
  lemma LoadedRecordsValid(lines: seq<string>)
    ensures forall i :: 0 <= i < |LoadAccountLines(lines).records| ==> ValidRecord(LoadAccountLines(lines).records[i])
  {
    LoadAccountLinesIsLoadParsed(lines);
    LoadParsedFrom(ParsedLines(lines));
  }

  /** Reading more lines never loses an account already added. */
  lemma {:induction false} LoadAccountLinesPrefix(lines: seq<string>, k: nat)
    requires k <= |lines|
    ensures LoadAccountLines(lines[..k]).records <= LoadAccountLines(lines).records
    decreases |lines| - k
  {
    if k < |lines| {
      var front := lines[..|lines| - 1];
      assert front[..k] == lines[..k];
      LoadAccountLinesPrefix(front, k);
    } else {
      assert lines[..k] == lines;
    }
  }
  /** Once loading has stopped, later lines change nothing: accounts already added are kept. */
  lemma {:induction false} LoadAccountLinesSettled(lines: seq<string>, k: nat)
    requires k <= |lines| && !LoadAccountLines(lines[..k]).stop.Completed?
    ensures LoadAccountLines(lines) == LoadAccountLines(lines[..k])
    decreases |lines| - k
  {
    if k < |lines| {
      var front := lines[..|lines| - 1];
      assert front[..k] == lines[..k];
      LoadAccountLinesSettled(front, k);
    } else {
      assert lines[..k] == lines;
    }
  }

  /** `outcomes` is how the first `|outcomes|` lines read. */
  ghost predicate ReadAs(lines: seq<string>, outcomes: seq<AccountLine>) {
    |outcomes| <= |lines| &&
    forall j {:trigger ParseAccountLine(lines[j])} :: 0 <= j < |outcomes| ==> outcomes[j] == ParseAccountLine(lines[j])
  }

  lemma ReadAsSnoc(lines: seq<string>, outcomes: seq<AccountLine>, outcome: AccountLine)
    requires ReadAs(lines, outcomes) && |outcomes| < |lines| && outcome == ParseAccountLine(lines[|outcomes|])
    ensures ReadAs(lines, outcomes + [outcome])
  {
  }

  /**
   * The outcomes of the first lines, when they are every line or loading stopped at the
   * last of them, determine the whole load.
   */
  lemma LoadAccountLinesFrom(lines: seq<string>, outcomes: seq<AccountLine>)
    requires ReadAs(lines, outcomes)
    requires |outcomes| == |lines| || !LoadParsed(outcomes).stop.Completed?
    ensures LoadAccountLines(lines) == LoadParsed(outcomes)
  {
    var k := |outcomes|;
    assert ParsedLines(lines[..k]) == outcomes;
    LoadAccountLinesIsLoadParsed(lines[..k]);
    if k < |lines| {
      LoadAccountLinesSettled(lines, k);
    } else {
      assert lines[..k] == lines;
    }
  }

  /** Loading one more outcome. */
  lemma LoadParsedSnoc(outcomes: seq<AccountLine>, outcome: AccountLine)
    ensures LoadParsed(outcomes + [outcome]) == NextLoad(LoadParsed(outcomes), outcome)
  {
    assert (outcomes + [outcome])[..|outcomes|] == outcomes;
  }



  /** `saveAllAccounts`: one `toCSV` line per account, in list order. */
  function AccountFile(records: seq<AccountRecord>): (lines: seq<string>)
    ensures |lines| == |records|
  {
    seq(|records|, i requires 0 <= i < |records| => CsvLine(records[i]))
  }

  /** Every record, each read back whole. */
  function LoadedLines(records: seq<AccountRecord>): (r: seq<AccountLine>)
    ensures |r| == |records| && forall j :: 0 <= j < |records| ==> r[j] == LoadedAccount(records[j])
  {
    seq(|records|, j requires 0 <= j < |records| => LoadedAccount(records[j]))
  }

  lemma {:induction false} LoadParsedLoaded(records: seq<AccountRecord>)
    ensures LoadParsed(LoadedLines(records)) == AccountsLoad(records, Completed)
    decreases |records|
  {
    if |records| > 0 {
      var n := |records| - 1;
      assert LoadedLines(records)[..n] == LoadedLines(records[..n]);
      LoadParsedLoaded(records[..n]);
      assert records[..n] + [records[n]] == records;
    }
  }

  /** `toCSV` of a record whose name and password hold no line break is a single line. */
  lemma CsvLineIsOneLine(r: AccountRecord)
    requires LineFree(r.name) && LineFree(r.password)
    ensures LineFree(CsvLine(r))
  {
    IntStrHasNo(r.accNo, '\n');
    IntStrHasNo(r.accNo, '\r');
    CentsTextHasNo(r.balance, '\n');
    CentsTextHasNo(r.balance, '\r');
  }

  /**
   * Saving valid records whose names and passwords hold no comma and no line break, and
   * loading the file, gives every record back in order: each record is written as one
   * line, and that line reads back whole.
   */
  lemma AccountFileRoundTrip(records: seq<AccountRecord>)
    requires forall i :: 0 <= i < |records| ==> ValidRecord(records[i])
    requires forall i :: 0 <= i < |records| ==> ',' !in records[i].name && ',' !in records[i].password
    requires forall i :: 0 <= i < |records| ==> LineFree(records[i].name) && LineFree(records[i].password)
    ensures forall i :: 0 <= i < |records| ==> LineFree(AccountFile(records)[i])
    ensures LoadAccountLines(AccountFile(records)) == AccountsLoad(records, Completed)
  {
    forall j | 0 <= j < |records|
      ensures LineFree(AccountFile(records)[j])
    {
      CsvLineIsOneLine(records[j]);
    }
    forall j | 0 <= j < |records|
      ensures ParseAccountLine(CsvLine(records[j])) == LoadedAccount(records[j])
    {
      CsvLineRoundTrip(records[j]);
    }
    assert ParsedLines(AccountFile(records)) == LoadedLines(records);
    LoadParsedLoaded(records);
    LoadAccountLinesIsLoadParsed(AccountFile(records));
  }

  // ---------------------------------------------------------------------------
  // Transaction lines

  datatype TransactionLine =
    | SkippedTransaction         // fewer than four fields
    | MalformedTransactionNumber // Integer.parseInt or Double.parseDouble threw
    | TransactionFields(accNo: Int32, kind: string, amount: int, description: string)

  /** A transaction line split into at most four fields, the description keeping its commas. */
  function ParseTransactionLine(line: string): TransactionLine {
    var parts := SplitLimit(line, ',', 4);
    if |parts| != 4 then SkippedTransaction
    else
      match ParseInt32(parts[0])
      case None => MalformedTransactionNumber
      case Some(n) =>
        match ParseCents(parts[2])
        case None => MalformedTransactionNumber
        case Some(a) => TransactionFields(n, parts[1], a, parts[3])
  }

  /** `saveAllTransactions`: the line written for one transaction of account `accNo`. */
  function TransactionLineOf(accNo: Int32, t: Transaction): string {
    IntStr(accNo) + "," + t.kind + "," + CentsText(t.amount) + "," + t.description
  }

  lemma TransactionLineRoundTrip(accNo: Int32, t: Transaction)
    requires ',' !in t.kind
    ensures ParseTransactionLine(TransactionLineOf(accNo, t)) == TransactionFields(accNo, t.kind, t.amount, t.description)
  {
    IntStrHasNo(accNo, ',');
    CentsTextHasNo(t.amount, ',');
    SplitLimitOfFour(IntStr(accNo), t.kind, CentsText(t.amount), t.description, ',');
    IntStrRoundTrip(accNo);
    CentsTextRoundTrip(t.amount);
  }

  /** A transaction handed to the account at position `index`. */
  datatype Delivery = Delivery(index: nat, transaction: Transaction)

  /** The exceptions that leave `loadTransactions`: it catches only I/O errors. */
  datatype TransactionFailure = TransactionNumberFormat | TransactionBlankDescription

  datatype LineEffect = Ignored | Throws(failure: TransactionFailure) | Delivers(delivery: Delivery)

  /**
   * One transaction line against the accounts' numbers: skipped with too few fields or
   * no owning account, thrown on a bad number, and on a blank description only when an
   * owner exists (the Transaction is built after the lookup).
   */
  function LineEffectOf(nums: seq<Int32>, line: string): (r: LineEffect)
    ensures r.Delivers? ==> r.delivery.index < |nums|
  {
    FieldsEffect(nums, ParseTransactionLine(line))
  }

  /** The effect of a line once it has been split and its numbers parsed. */
  function FieldsEffect(nums: seq<Int32>, fields: TransactionLine): (r: LineEffect)
    ensures r.Delivers? ==> r.delivery.index < |nums|
  {
    match fields
    case SkippedTransaction => Ignored
    case MalformedTransactionNumber => Throws(TransactionNumberFormat)
    case TransactionFields(n, kind, amount, description) =>
      match FirstIndex(nums, n)
      case None => Ignored
      case Some(i) =>
        match NewTransaction(kind, amount, description)
        case Failure(_) => Throws(TransactionBlankDescription)
        case Success(t) => Delivers(Delivery(i, t))
  }

  datatype Replay = Replay(delivered: seq<Delivery>, failure: Option<TransactionFailure>)

  /** The effect of every line, in file order. */
  function Effects(nums: seq<Int32>, lines: seq<string>): (r: seq<LineEffect>)
    ensures |r| == |lines|
    decreases |lines|
  {
    if |lines| == 0 then [] else Effects(nums, lines[..|lines| - 1]) + [LineEffectOf(nums, lines[|lines| - 1])]
  }

  lemma {:induction false} EffectsAt(nums: seq<Int32>, lines: seq<string>)
    ensures forall j :: 0 <= j < |lines| ==> Effects(nums, lines)[j] == LineEffectOf(nums, lines[j])
    decreases |lines|
  {
    if |lines| > 0 {
      var n := |lines| - 1;
      EffectsAt(nums, lines[..n]);
    }
  }

  lemma {:induction false} EffectsPrefix(nums: seq<Int32>, lines: seq<string>, k: nat)
    requires k <= |lines|
    ensures Effects(nums, lines)[..k] == Effects(nums, lines[..k])
    decreases |lines|
  {
    if k < |lines| {
      var n := |lines| - 1;
      assert lines[..n][..k] == lines[..k];
      EffectsPrefix(nums, lines[..n], k);
      assert Effects(nums, lines)[..k] == Effects(nums, lines[..n])[..k];
    } else {
      assert lines[..k] == lines;
    }
  }

  /** Carrying the effects out in order, up to the first exception. */
  function Fold(effects: seq<LineEffect>): (r: Replay)
    decreases |effects|
  {
    if |effects| == 0 then Replay([], None)
    else
      var before := Fold(effects[..|effects| - 1]);
      if before.failure.Some? then before
      else
        match effects[|effects| - 1]
        case Ignored => before
        case Throws(f) => Replay(before.delivered, Some(f))
        case Delivers(d) => Replay(before.delivered + [d], None)
  }

  /** `loadTransactions` on a list of lines: the deliveries made, in file order, up to the first exception. */
  function ReplayLines(nums: seq<Int32>, lines: seq<string>): (r: Replay)
  {
    Fold(Effects(nums, lines))
  }

  lemma {:induction false} FoldFrom(effects: seq<LineEffect>)
    ensures forall k :: 0 <= k < |Fold(effects).delivered| ==> Delivers(Fold(effects).delivered[k]) in effects
    decreases |effects|
  {
    if |effects| > 0 {
      var front := effects[..|effects| - 1];
      FoldFrom(front);
      assert forall x :: x in front ==> x in effects;
    }
  }

  /** Every transaction the loader delivers goes to an existing position. */
  lemma ReplayTargetsExist(nums: seq<Int32>, lines: seq<string>)
    ensures forall k :: 0 <= k < |ReplayLines(nums, lines).delivered| ==> ReplayLines(nums, lines).delivered[k].index < |nums|
  {
    FoldFrom(Effects(nums, lines));
    EffectsAt(nums, lines);
  }

  /** Once an exception has left the loader, later lines change nothing. */
  lemma {:induction false} FoldSettled(effects: seq<LineEffect>, k: nat)
    requires k <= |effects| && Fold(effects[..k]).failure.Some?
    ensures Fold(effects) == Fold(effects[..k])
    decreases |effects| - k
  {
    if k < |effects| {
      var front := effects[..|effects| - 1];
      assert front[..k] == effects[..k];
      FoldSettled(front, k);
    } else {
      assert effects[..k] == effects;
    }
  }

  lemma ReplayLinesSettled(nums: seq<Int32>, lines: seq<string>, k: nat)
    requires k <= |lines| && ReplayLines(nums, lines[..k]).failure.Some?
    ensures ReplayLines(nums, lines) == ReplayLines(nums, lines[..k])
  {
    EffectsPrefix(nums, lines, k);
    FoldSettled(Effects(nums, lines), k);
  }

  /** After effects that throw nothing, the rest are carried out as if from the start. */
  lemma {:induction false} FoldAppend(e1: seq<LineEffect>, e2: seq<LineEffect>)
    requires Fold(e1).failure.None?
    ensures Fold(e1 + e2) == Replay(Fold(e1).delivered + Fold(e2).delivered, Fold(e2).failure)
    decreases |e2|
  {
    if |e2| == 0 {
      assert e1 + e2 == e1;
    } else {
      var n := |e2| - 1;
      assert (e1 + e2)[..|e1 + e2| - 1] == e1 + e2[..n];
      FoldAppend(e1, e2[..n]);
      var d1, d2 := Fold(e1).delivered, Fold(e2[..n]).delivered;
      if e2[n].Delivers? {
        assert d1 + d2 + [e2[n].delivery] == d1 + (d2 + [e2[n].delivery]);
      }
    }
  }

  /**
   * Two runs of lines, the first of which throws nothing, deliver the first run's
   * transactions and then the second's, and end as the second run alone ends; when the
   * first run throws, `ReplayLinesSettled` says the second delivers nothing.
   */
  lemma ReplayLinesAppend(nums: seq<Int32>, l1: seq<string>, l2: seq<string>, k: nat)
    requires ReplayLines(nums, l1).failure.None?
    ensures ReplayLines(nums, l1 + l2).delivered == ReplayLines(nums, l1).delivered + ReplayLines(nums, l2).delivered
    ensures ReplayLines(nums, l1 + l2).failure == ReplayLines(nums, l2).failure
    ensures DeliveredTo(ReplayLines(nums, l1 + l2).delivered, k) ==
      DeliveredTo(ReplayLines(nums, l1).delivered, k) + DeliveredTo(ReplayLines(nums, l2).delivered, k)
  {
    EffectsAppend(nums, l1, l2);
    FoldAppend(Effects(nums, l1), Effects(nums, l2));
    DeliveredToAppend(ReplayLines(nums, l1).delivered, ReplayLines(nums, l2).delivered, k);
  }

  /** `effects` is the effect of each of the first `|effects|` lines. */
  ghost predicate EffectsAs(nums: seq<Int32>, lines: seq<string>, effects: seq<LineEffect>) {
    |effects| <= |lines| &&
    forall j {:trigger LineEffectOf(nums, lines[j])} :: 0 <= j < |effects| ==> effects[j] == LineEffectOf(nums, lines[j])
  }

  lemma EffectsAsSnoc(nums: seq<Int32>, lines: seq<string>, effects: seq<LineEffect>, effect: LineEffect)
    requires EffectsAs(nums, lines, effects) && |effects| < |lines| && effect == LineEffectOf(nums, lines[|effects|])
    ensures EffectsAs(nums, lines, effects + [effect])
  {
  }

  lemma EffectsAsPrefix(nums: seq<Int32>, lines: seq<string>, effects: seq<LineEffect>)
    requires EffectsAs(nums, lines, effects)
    ensures Effects(nums, lines[..|effects|]) == effects
  {
    var prefix := lines[..|effects|];
    EffectsAt(nums, prefix);
    forall j | 0 <= j < |effects|
      ensures Effects(nums, prefix)[j] == effects[j]
    {
      assert prefix[j] == lines[j];
    }
  }

  /** The effects of every line, or of the lines up to one that throws, determine the replay. */
  lemma ReplayLinesFrom(nums: seq<Int32>, lines: seq<string>, effects: seq<LineEffect>)
    requires EffectsAs(nums, lines, effects)
    requires |effects| == |lines| || Fold(effects).failure.Some?
    ensures ReplayLines(nums, lines) == Fold(effects)
  {
    var k := |effects|;
    EffectsAsPrefix(nums, lines, effects);
    if k < |lines| {
      ReplayLinesSettled(nums, lines, k);
    } else {
      assert lines[..k] == lines;
    }
  }

  /** One more effect carried out. */
  lemma FoldSnoc(effects: seq<LineEffect>, effect: LineEffect)
    requires Fold(effects).failure.None?
    ensures effect.Ignored? ==> Fold(effects + [effect]) == Fold(effects)
    ensures effect.Throws? ==> Fold(effects + [effect]) == Replay(Fold(effects).delivered, Some(effect.failure))
    ensures effect.Delivers? ==> Fold(effects + [effect]) == Replay(Fold(effects).delivered + [effect.delivery], None)
  {
    assert (effects + [effect])[..|effects|] == effects;
  }

  /** The transactions among the deliveries that go to position `k`, in order. */
  function DeliveredTo(ds: seq<Delivery>, k: nat): seq<Transaction> {
    if |ds| == 0 then []
    else DeliveredTo(ds[..|ds| - 1], k) + (if ds[|ds| - 1].index == k then [ds[|ds| - 1].transaction] else [])
  }

  lemma {:induction false} DeliveredToAppend(a: seq<Delivery>, b: seq<Delivery>, k: nat)
    ensures DeliveredTo(a + b, k) == DeliveredTo(a, k) + DeliveredTo(b, k)
    decreases |b|
  {
    if |b| > 0 {
      var n := |b| - 1;
      assert (a + b)[..|a + b| - 1] == a + b[..n];
      DeliveredToAppend(a, b[..n], k);
    } else {
      assert a + b == a;
    }
  }

  /** Deliveries all addressed to position `i`, carrying `ts` in order. */
  function Batch(i: nat, ts: seq<Transaction>): (r: seq<Delivery>)
    ensures |r| == |ts| && forall j :: 0 <= j < |ts| ==> r[j] == Delivery(i, ts[j])
  {
    seq(|ts|, j requires 0 <= j < |ts| => Delivery(i, ts[j]))
  }

  lemma {:induction false} DeliveredToBatch(i: nat, ts: seq<Transaction>, k: nat)
    ensures DeliveredTo(Batch(i, ts), k) == if i == k then ts else []
    decreases |ts|
  {
    if |ts| > 0 {
      var n := |ts| - 1;
      assert Batch(i, ts)[..n] == Batch(i, ts[..n]);
      DeliveredToBatch(i, ts[..n], k);
      assert ts[..n] + [ts[n]] == ts;
    }
  }

  /** The lines `saveAllTransactions` writes for one account. */
  function AccountTransactionLines(s: AccountState): (lines: seq<string>)
    ensures |lines| == |s.transactions|
  {
    seq(|s.transactions|, j requires 0 <= j < |s.transactions| => TransactionLineOf(s.record.accNo, s.transactions[j]))
  }

  /** `saveAllTransactions`: each account in list order, then each of its transactions in order. */
  function TransactionFile(states: seq<AccountState>): seq<string> {
    TransactionFileUpTo(states, |states|)
  }

  /** The lines written for the first `m` accounts. */
  function TransactionFileUpTo(states: seq<AccountState>, m: nat): seq<string>
    requires m <= |states|
  {
    if m == 0 then [] else TransactionFileUpTo(states, m - 1) + AccountTransactionLines(states[m - 1])
  }

  function StateNumbers(states: seq<AccountState>): (r: seq<Int32>)
    ensures |r| == |states| && forall i :: 0 <= i < |states| ==> r[i] == states[i].record.accNo
  {
    seq(|states|, i requires 0 <= i < |states| => states[i].record.accNo)
  }

  function RecordNumbers(records: seq<AccountRecord>): (r: seq<Int32>)
    ensures |r| == |records| && forall i :: 0 <= i < |records| ==> r[i] == records[i].accNo
  {
    seq(|records|, i requires 0 <= i < |records| => records[i].accNo)
  }

  predicate UniqueNumbers(nums: seq<Int32>) {
    forall i, j :: 0 <= i < j < |nums| ==> nums[i] != nums[j]
  }

  /** No transaction type contains a comma (the types the program writes are fixed words). */
  predicate CommaFreeKinds(states: seq<AccountState>) {
    forall i, j :: 0 <= i < |states| && 0 <= j < |states[i].transactions| ==> ',' !in states[i].transactions[j].kind
  }

  /** No transaction type or description holds a line break. */
  predicate LineFreeTransactions(states: seq<AccountState>) {
    forall i, j :: 0 <= i < |states| && 0 <= j < |states[i].transactions| ==>
      LineFree(states[i].transactions[j].kind) && LineFree(states[i].transactions[j].description)
  }

  /** The line saved for a transaction whose type and description hold no line break is a single line. */
  lemma TransactionLineIsOneLine(accNo: Int32, t: Transaction)
    requires LineFree(t.kind) && LineFree(t.description)
    ensures LineFree(TransactionLineOf(accNo, t))
  {
    IntStrHasNo(accNo, '\n');
    IntStrHasNo(accNo, '\r');
    CentsTextHasNo(t.amount, '\n');
    CentsTextHasNo(t.amount, '\r');
  }

  /** Every line saved for one account is a single line when its transactions hold no line break. */
  lemma AccountLinesAreLines(s: AccountState)
    requires forall j :: 0 <= j < |s.transactions| ==> LineFree(s.transactions[j].kind) && LineFree(s.transactions[j].description)
    ensures forall j :: 0 <= j < |AccountTransactionLines(s)| ==> LineFree(AccountTransactionLines(s)[j])
  {
    forall j | 0 <= j < |s.transactions|
      ensures LineFree(AccountTransactionLines(s)[j])
    {
      TransactionLineIsOneLine(s.record.accNo, s.transactions[j]);
    }
  }

  lemma {:induction false} TransactionFileUpToIsLines(states: seq<AccountState>, m: nat)
    requires m <= |states| && LineFreeTransactions(states)
    ensures forall k :: 0 <= k < |TransactionFileUpTo(states, m)| ==> LineFree(TransactionFileUpTo(states, m)[k])
    decreases m
  {
    if m > 0 {
      var before := TransactionFileUpTo(states, m - 1);
      var own := AccountTransactionLines(states[m - 1]);
      var file := TransactionFileUpTo(states, m);
      TransactionFileUpToIsLines(states, m - 1);
      AccountLinesAreLines(states[m - 1]);
      assert file == before + own;
      forall k | 0 <= k < |file|
        ensures LineFree(file[k])
      {
        if k < |before| {
          assert file[k] == before[k];
        } else {
          assert file[k] == own[k - |before|];
        }
      }
    }
  }

  /** Effects that each deliver, carrying `ds` in order. */
  function Deliveries(ds: seq<Delivery>): (r: seq<LineEffect>)
    ensures |r| == |ds| && forall j :: 0 <= j < |ds| ==> r[j] == Delivers(ds[j])
  {
    seq(|ds|, j requires 0 <= j < |ds| => Delivers(ds[j]))
  }

  /** Carrying out effects that each deliver adds those deliveries in order. */
  lemma {:induction false} FoldDeliveries(pre: seq<LineEffect>, ds: seq<Delivery>)
    requires Fold(pre).failure.None?
    ensures Fold(pre + Deliveries(ds)) == Replay(Fold(pre).delivered + ds, None)
    decreases |ds|
  {
    if |ds| == 0 {
      assert pre + Deliveries(ds) == pre;
      assert Fold(pre).delivered + ds == Fold(pre).delivered;
    } else {
      var n := |ds| - 1;
      var front := pre + Deliveries(ds[..n]);
      FoldDeliveries(pre, ds[..n]);
      assert pre + Deliveries(ds) == front + [Delivers(ds[n])];
      FoldSnoc(front, Delivers(ds[n]));
      assert Fold(pre).delivered + ds[..n] + [ds[n]] == Fold(pre).delivered + ds;
    }
  }


  /** The deliveries the saved file of the first `m` accounts produces. */
  function ExpectedDeliveries(states: seq<AccountState>, m: nat): seq<Delivery>
    requires m <= |states|
  {
    if m == 0 then [] else ExpectedDeliveries(states, m - 1) + Batch(m - 1, states[m - 1].transactions)
  }

  /** Each saved line of account `k` reads back as a delivery of its transaction to position `k`. */
  lemma AccountLinesEffects(states: seq<AccountState>, k: nat)
    requires k < |states|
    requires UniqueNumbers(StateNumbers(states)) && CommaFreeKinds(states)
    ensures Effects(StateNumbers(states), AccountTransactionLines(states[k])) == Deliveries(Batch(k, states[k].transactions))
  {
    var nums := StateNumbers(states);
    var s := states[k];
    assert FirstIndex(nums, s.record.accNo) == Some(k);
    EffectsAt(nums, AccountTransactionLines(s));
    forall j | 0 <= j < |s.transactions|
      ensures LineEffectOf(nums, AccountTransactionLines(s)[j]) == Delivers(Delivery(k, s.transactions[j]))
    {
      assert ',' !in s.transactions[j].kind;
      TransactionLineRoundTrip(s.record.accNo, s.transactions[j]);
    }
  }

  /** The effects of two runs of lines are those of the first run, then those of the second. */
  lemma {:induction false} EffectsAppend(nums: seq<Int32>, a: seq<string>, b: seq<string>)
    ensures Effects(nums, a + b) == Effects(nums, a) + Effects(nums, b)
    decreases |b|
  {
    if |b| == 0 {
      assert a + b == a;
    } else {
      var n := |b| - 1;
      assert (a + b)[..|a + b| - 1] == a + b[..n];
      assert (a + b)[|a + b| - 1] == b[n];
      EffectsAppend(nums, a, b[..n]);
    }
  }


  lemma {:induction false} ReplayTransactionFile(states: seq<AccountState>, m: nat)
    requires m <= |states|
    requires UniqueNumbers(StateNumbers(states)) && CommaFreeKinds(states)
    ensures Fold(Effects(StateNumbers(states), TransactionFileUpTo(states, m))) == Replay(ExpectedDeliveries(states, m), None)
    decreases m
  {
    var nums := StateNumbers(states);
    if m > 0 {
      var k := m - 1;
      var own := AccountTransactionLines(states[k]);
      var batch := Batch(k, states[k].transactions);
      var pre := Effects(nums, TransactionFileUpTo(states, k));
      assert TransactionFileUpTo(states, m) == TransactionFileUpTo(states, k) + own;
      assert ExpectedDeliveries(states, m) == ExpectedDeliveries(states, k) + batch;
      ReplayTransactionFile(states, k);
      AccountLinesEffects(states, k);
      EffectsAppend(nums, TransactionFileUpTo(states, k), own);
      assert Effects(nums, TransactionFileUpTo(states, m)) == pre + Deliveries(batch);
      FoldDeliveries(pre, batch);
    }
  }

  /** The batch of account `m - 1` adds nothing for any other position. */
  lemma ExpectedDeliveriesOther(states: seq<AccountState>, m: nat, k: nat)
    requires 0 < m <= |states| && k != m - 1
    ensures DeliveredTo(ExpectedDeliveries(states, m), k) == DeliveredTo(ExpectedDeliveries(states, m - 1), k)
  {
    var ts := states[m - 1].transactions;
    DeliveredToAppend(ExpectedDeliveries(states, m - 1), Batch(m - 1, ts), k);
    DeliveredToBatch(m - 1, ts, k);
  }

  /** The batch of account `m - 1` adds its transactions, in order, for position `m - 1`. */
  lemma ExpectedDeliveriesOwn(states: seq<AccountState>, m: nat)
    requires 0 < m <= |states|
    ensures DeliveredTo(ExpectedDeliveries(states, m), m - 1)
         == DeliveredTo(ExpectedDeliveries(states, m - 1), m - 1) + states[m - 1].transactions
  {
    var ts := states[m - 1].transactions;
    DeliveredToAppend(ExpectedDeliveries(states, m - 1), Batch(m - 1, ts), m - 1);
    DeliveredToBatch(m - 1, ts, m - 1);
  }

  /** The first `m` batches deliver nothing to a position at or beyond `m`. */
  lemma {:induction false} ExpectedDeliveredToNone(states: seq<AccountState>, m: nat, k: nat)
    requires m <= |states| && m <= k
    ensures DeliveredTo(ExpectedDeliveries(states, m), k) == []
    decreases m
  {
    if m > 0 {
      ExpectedDeliveredToNone(states, m - 1, k);
      ExpectedDeliveriesOther(states, m, k);
    }
  }

  /** The first `m` batches deliver to position `k < m` exactly the transactions of account `k`. */
  lemma {:induction false} ExpectedDeliveredTo(states: seq<AccountState>, m: nat, k: nat)
    requires k < m <= |states|
    ensures DeliveredTo(ExpectedDeliveries(states, m), k) == states[k].transactions
    decreases m
  {
    if k == m - 1 {
      ExpectedDeliveredToNone(states, m - 1, k);
      ExpectedDeliveriesOwn(states, m);
      assert DeliveredTo(ExpectedDeliveries(states, m - 1), k) == [];
    } else {
      ExpectedDeliveredTo(states, m - 1, k);
      ExpectedDeliveriesOther(states, m, k);
    }
  }

  lemma EveryAccountExpected(states: seq<AccountState>)
    ensures forall k :: 0 <= k < |states| ==> DeliveredTo(ExpectedDeliveries(states, |states|), k) == states[k].transactions
  {
    forall k | 0 <= k < |states|
      ensures DeliveredTo(ExpectedDeliveries(states, |states|), k) == states[k].transactions
    {
      ExpectedDeliveredTo(states, |states|, k);
    }
  }

  /**
   * Saving the transactions of accounts with distinct numbers, comma-free types and no
   * line break in any type or description writes one line per transaction, and
   * replaying the file against the same numbers hands every account exactly its own
   * transactions, in order, and nothing throws.
   */
  lemma TransactionFileRoundTrip(states: seq<AccountState>)
    requires UniqueNumbers(StateNumbers(states)) && CommaFreeKinds(states) && LineFreeTransactions(states)
    ensures forall k :: 0 <= k < |TransactionFile(states)| ==> LineFree(TransactionFile(states)[k])
    ensures ReplayLines(StateNumbers(states), TransactionFile(states)).failure.None?
    ensures forall k :: 0 <= k < |states| ==>
      DeliveredTo(ReplayLines(StateNumbers(states), TransactionFile(states)).delivered, k) == states[k].transactions
  {
    TransactionFileUpToIsLines(states, |states|);
    TransactionFileReplay(states);
    EveryAccountExpected(states);
  }


  lemma TransactionFileReplay(states: seq<AccountState>)
    requires UniqueNumbers(StateNumbers(states)) && CommaFreeKinds(states)
    ensures ReplayLines(StateNumbers(states), TransactionFile(states)) == Replay(ExpectedDeliveries(states, |states|), None)
  {
    ReplayTransactionFile(states, |states|);
  }

  /**
   * The whole persisted ledger: writing both files and reading them back gives the same
   * records in the same order, each with its own transaction list.
   */
  lemma LedgerRoundTrip(states: seq<AccountState>)
    requires forall i :: 0 <= i < |states| ==> ValidRecord(states[i].record)
    requires forall i :: 0 <= i < |states| ==> ',' !in states[i].record.name && ',' !in states[i].record.password
    requires forall i :: 0 <= i < |states| ==> LineFree(states[i].record.name) && LineFree(states[i].record.password)
    requires UniqueNumbers(StateNumbers(states)) && CommaFreeKinds(states) && LineFreeTransactions(states)
    ensures var load := LoadAccountLines(AccountFile(seq(|states|, i requires 0 <= i < |states| => states[i].record)));
      load.stop.Completed? && |load.records| == |states| &&
      forall i :: 0 <= i < |states| ==> load.records[i] == states[i].record
    ensures var replay := ReplayLines(StateNumbers(states), TransactionFile(states));
      replay.failure.None? && forall k :: 0 <= k < |states| ==> DeliveredTo(replay.delivered, k) == states[k].transactions
  {
    var records := seq(|states|, i requires 0 <= i < |states| => states[i].record);
    AccountFileRoundTrip(records);
    TransactionFileRoundTrip(states);
  }
}
