# Banking application: a verified model of its core

This project models the core of a small console banking application written in Java. Each
account has a holder name, a number, a balance and a password. It also keeps an ordered
history of transactions. Accounts are kept in memory as an ordered list and persisted to
two comma-separated text files. One file holds the accounts: `name,number,balance,password`
per line. The other holds the transactions: `number,type,amount,description` per line.
The console menu lets a user do these things:

- create an account and log in with three password attempts;
- deposit, withdraw and transfer money to another account;
- change the password and delete the account.

The model is split into these modules:

- `Text` (`text.dfy`) models the Java text operations the program relies on:
  - `trim().isEmpty()`;
  - `Integer.toString` and `Integer.parseInt`;
  - `Double.toString` and `Double.parseDouble` on amounts in whole cents;
  - `%.2f`;
  - `split(",")`, `split(",", -1)` and `split(",", 4)`.
- `Transactions` (`transaction.dfy`) models the immutable ledger entry and its `toString`.
- `Accounts` (`account.dfy`) models the account class. Its balance, password and
  transaction list are updated in place.
- `BankRecords` (`records.dfy`) holds functions that describe what the loaders do with the
  two files, line by line. It also proves the save/load round trips.
- `Banking` (`bank.dfy`) models the bank class. It covers first-match lookup, add and
  remove, and the loops that load and save both files. Each loop is proved equal to the
  functions in `BankRecords`.
- `App` (`banking_app.dfy`) models the console application's rules:
  - the password-format and six-character number checks;
  - `verifyPassword` with its three attempts;
  - the prompt loops of `changePassword`;
  - the session state the menu acts on: the account list and the logged-in account.
- `LegacyAccounts` (`legacy_account.dfy`) is the earlier, unvalidated account class kept at
  the top of the repository.

Amounts are integers counting cents. Console input is a sequence of lines read from the
front. When the lines run out, the model reports an outcome that stands for Scanner's
`NoSuchElementException`. Each file is a sequence of lines: saving returns them and loading
takes them.

## Model

| member | source | states |
|---|---|---|
| Text.BlankIsAllSpace | src/Account.java:15 | `trim().isEmpty()` holds exactly when every character is at or below the space |
| Text.Utf16Length | src/Account.java:24 | `length()` lies between the number of characters and twice it |
| Text.Utf16LengthOfBmp | src/Account.java:24 | on text inside the Basic Multilingual Plane, `length()` is the number of characters |
| Text.ParseInt32 | src/Bank.java:58 | `Integer.parseInt`: a sign or digit first, ASCII digits, inside the int range, else the number-format error; `Text.IntStrRoundTrip` is its inverse |
| Text.IntStrRoundTrip | src/Bank.java:58 | `Integer.parseInt` of `Integer.toString(x)` gives back `x` for every int |
| Text.CentsText | src/Account.java:114 | the text of a balance starts with '-' exactly when it is negative and holds the point; read back by `Text.CentsTextRoundTrip` |
| Text.ParseCents | src/Bank.java:59 | `Double.parseDouble` on a sign, digits and at most two decimals; `Text.CentsTextRoundTrip` shows it inverts `Text.CentsText` |
| Text.CentsTextRoundTrip | src/Bank.java:59 | `Double.parseDouble` of the text `toCSV` writes for an amount gives back the same amount |
| Text.TwoDecimalsInjective | src/Transaction.java:37 | the `%.2f` rendering of a non-negative amount determines the amount |
| Text.JavaSplit | src/Bank.java:55 | `split(",")`: a text without a comma whole, otherwise its fields with the trailing empty ones dropped; `Text.JavaSplitIsFields` relates it to the full field list |
| Text.JavaSplitHasNoSeparator | src/Bank.java:55 | no field that `split(",")` returns holds a comma |
| Text.JavaSplitIsFields | src/Bank.java:55 | `split(",")` keeps every field when the text does not end with a comma |
| Text.SplitLimit | src/Bank.java:90 | `split(",", n)` gives between one and `n` fields |
| Text.SplitLimitOfFour | src/Bank.java:90 | `split(",", 4)` gives the first three fields and leaves every comma of the rest in the fourth |
| Text.FieldsOfFour | src/Account.java:113-115 | four comma-free fields joined by commas split back into the same four |
| Transactions.NewTransaction | src/Transaction.java:8-19 | the constructor throws exactly on a blank description; any amount sign is accepted; the getters return the arguments |
| Transactions.ToString | src/Transaction.java:34-39 | the text starts with the type and ": $" and ends with " - " and the description |
| Transactions.ToStringIgnoresSign | src/Transaction.java:34-39 | entries that differ only in the amount's sign render the same text |
| Transactions.ToStringDeterminesMagnitude | src/Transaction.java:34-39 | for the same type and description, equal texts mean equal absolute amounts |
| Accounts.PasswordError | src/Account.java:101-107 | blank gives the empty-password error; non-blank and shorter than six UTF-16 code units (as `length()` counts) gives the short-password error; otherwise there is no error |
| Accounts.SurrogatePairsCountTwice | src/Account.java:24 | three characters outside the Basic Multilingual Plane pass the length check (six code units); two do not |
| Accounts.CsvLine | src/Account.java:113-115 | the `toCSV` line: name, number, balance and password joined by commas with no escaping; `BankRecords.CsvLineRoundTrip` and `BankRecords.CommaFieldIsSkipped` say how it reads back |
| Accounts.Account.constructor | src/Account.java:27-33 | with arguments that pass every check, the account holds exactly them and an empty history |
| Accounts.CreationError | src/Account.java:14-26 | the constructor's checks in their order: name, then balance, then password; no error when all pass |
| Accounts.Account.Open | src/Account.java:14-33 | throws the first failing check; otherwise a fresh account holding exactly the arguments and an empty history |
| Accounts.Account.AddTransaction | src/Account.java:36-38 | appends one entry and changes nothing else |
| Accounts.Account.Deposit | src/Account.java:51-63 | refused exactly when the amount is not positive, and then nothing changes; otherwise the balance grows by the amount and one "Deposit" entry is appended; validity is kept |
| Accounts.Account.Withdraw | src/Account.java:65-82 | succeeds exactly when 0 < amount <= balance; then the balance shrinks by the amount and one "Withdrawal" entry with the unsigned amount is appended; otherwise nothing changes; validity is kept |
| Accounts.Account.CheckPassword | src/Account.java:96-98 | true exactly when the input equals the stored password |
| Accounts.Account.ToCSV | src/Account.java:113-115 | the `toCSV` line of the account's current record; `Banking.Bank.SaveAllAccounts` writes it |
| Accounts.Account.SetPassword | src/Account.java:101-111 | a blank or short password is refused and the old one stays; otherwise the new one is stored and checks true, and a different old one no longer checks |
| BankRecords.FirstIndex | src/Bank.java:23-30 | the first position holding the number, or none when no position holds it |
| BankRecords.Owner | src/Bank.java:23-30 | the account `findAccountByNumber` returns; `BankRecords.OwnerIsFirstWithNumber` states what it is |
| BankRecords.OwnerIsFirstWithNumber | src/Bank.java:23-30 | null exactly when no account has the number; otherwise an account at a position holding the number with no earlier position holding it |
| BankRecords.OwnerPosition | src/Bank.java:97-99 | the account found for a number sits at the position the replay targets |
| BankRecords.AccountFromFields | src/Bank.java:56-61 | a line that is not four fields is skipped; a loaded record passed the constructor's checks and keeps fields 0 and 3 |
| BankRecords.ParseAccountLineAsWritten | src/Bank.java:55-61 | the loader's reading of one line with `split(",")`: a loaded account passed the constructor's checks and has no comma in its name or password |
| BankRecords.ParseAccountLine | src/Bank.java:55-61 | the corrected reading, keeping empty fields: a loaded account passed the constructor's checks and has no comma in its name or password |
| BankRecords.AsWrittenAgreesOffTrailingComma | src/Bank.java:55 | the as-written and corrected readings agree on every line that does not end with a comma |
| BankRecords.CsvLineRoundTrip | src/Account.java:113-115 | a valid record whose name and password have no comma reads back whole |
| BankRecords.CommaFieldIsSkipped | src/Bank.java:56 | with the corrected split, a comma in the name or the password makes more than four fields, so the line is skipped |
| BankRecords.ReloadIsStable | src/Bank.java:55-61 | under either split, an account loaded from a line, written again with `toCSV` and reloaded, is the same account |
| BankRecords.AsWrittenCsvLineRoundTrip | src/Bank.java:55-61 | with the source's own `split(",")`, a valid saved account whose name and password have no comma reads back whole, whether it was loaded or made by `createAccount` |
| BankRecords.CsvLineExactOrSkipped | src/Bank.java:51-71 | with the corrected split, a saved valid account either reloads exactly or is skipped; it is never loaded as a different account |
| BankRecords.AsWrittenDropsTrailingComma | src/Bank.java:55 | a password ending in a comma is read back without that comma |
| BankRecords.AsWrittenTruncatesPassword | src/Bank.java:55-61 | the valid password "abcdef," reloads as the different password "abcdef" |
| BankRecords.AsWrittenRejectsSavedAccount | src/Bank.java:55-61 | the valid password "abcde," reloads as "abcde", so the constructor throws; the corrected reading skips the line |
| BankRecords.LoadAccountLines | src/Bank.java:54-70 | `loadAllAccounts` on a list of lines: each line read in order, a loaded account appended, a skipped line ignored, the first number-format error or constructor exception ending the loop |
| BankRecords.LoadAccountLinesIsLoadParsed | src/Bank.java:54-63 | loading lines is loading how each line reads, in order |
| BankRecords.LoadedRecordsValid | src/Bank.java:61 | every account the loader adds passed the constructor's checks |
| BankRecords.LoadAccountLinesPrefix | src/Bank.java:54-70 | reading more lines never loses an account already added |
| BankRecords.LoadAccountLinesSettled | src/Bank.java:67-70 | once a number-format error or a constructor exception has stopped loading, later lines change nothing |
| BankRecords.AccountFile | src/Bank.java:40-49 | one line per account, in list order; `BankRecords.AccountFileRoundTrip` reads it back |
| BankRecords.CsvLineIsOneLine | src/Bank.java:43-44 | a record whose name and password hold no line break is written as exactly one line |
| BankRecords.AccountFileRoundTrip | src/Bank.java:40-71 | saving valid records whose names and passwords hold no comma and no line break writes one line per record, and loading the file gives every record back, in order, with loading completed |
| BankRecords.TransactionLineOf | src/Bank.java:77 | the line of one transaction: number, type, amount and description joined by commas; `BankRecords.TransactionLineRoundTrip` reads it back |
| BankRecords.ParseTransactionLine | src/Bank.java:90-95 | `split(",", 4)`, then `parseInt` of the number and `parseDouble` of the amount; `BankRecords.TransactionLineRoundTrip` shows it inverts the saved line |
| BankRecords.TransactionLineRoundTrip | src/Bank.java:77-95 | a saved transaction line parses back to its number, type, amount and description, whatever commas the description holds |
| BankRecords.LineEffectOf | src/Bank.java:90-103 | a delivered line targets an existing account position |
| BankRecords.ReplayLines | src/Bank.java:86-109 | `loadTransactions` on a list of lines: the deliveries in line order until a number-format error or blank-description exception leaves the loop |
| BankRecords.ReplayTargetsExist | src/Bank.java:97-99 | every transaction the loader delivers goes to an existing account |
| BankRecords.ReplayLinesSettled | src/Bank.java:86-109 | once an exception has left the loader, later lines change nothing |
| BankRecords.DeliveredToAppend | src/Bank.java:89-99 | the transactions an account receives from two runs of deliveries are those of the first run followed by those of the second |
| BankRecords.ReplayLinesAppend | src/Bank.java:86-109 | when a first run of lines throws nothing, the first run followed by a second delivers the first run's transactions and then the second's, to each account in that order, and ends as the second run alone ends |
| BankRecords.TransactionFile | src/Bank.java:73-84 | each account in list order, then each of its transactions in order; `BankRecords.TransactionFileRoundTrip` replays it |
| BankRecords.TransactionLineIsOneLine | src/Bank.java:77-78 | a transaction whose type and description hold no line break is written as exactly one line |
| BankRecords.TransactionFileRoundTrip | src/Bank.java:73-109 | for accounts with distinct numbers and transactions whose types hold no comma and whose types and descriptions hold no line break, the file has one line per transaction, and replaying it throws nothing and hands each account exactly its own list, in order |
| BankRecords.LedgerRoundTrip | src/Bank.java:40-109 | with the conditions of both file round trips, writing both files and reading them back gives the same records in the same order, each with its own transaction list |
| Banking.FindAccountByNumber | src/Bank.java:23-30 | null exactly when no account has the number; otherwise the first one in list order that has it (the same loop is at src/BankingApp.java:46-52) |
| Banking.RemoveFirstSplices | src/Bank.java:36-38 | removing an object keeps everything before and after its first occurrence, in order |
| Banking.RemoveFirstAbsent | src/Bank.java:36-38 | removing an object that is not in the list changes nothing |
| Banking.RemoveFirstMultiset | src/Bank.java:36-38 | removal takes out exactly one copy of the object and nothing else |
| Banking.RemoveFirst | src/Bank.java:37 | `accounts.remove(account)`: every account left was in the list; `RemoveFirstSplices`, `RemoveFirstAbsent` and `RemoveFirstMultiset` state which one goes (also at src/BankingApp.java:541) |
| Banking.Bank.Open | src/Bank.java:13-17 | the constructor fails exactly when an exception leaves a loader; otherwise the accounts are the records loaded, each with the transactions the replay delivers to it |
| Banking.Bank.Find | src/Bank.java:23-30 | the first account with the number, or null |
| Banking.Bank.LoadAllAccounts | src/Bank.java:51-71 | appends exactly the records the loader functions give, as fresh accounts with empty histories, keeps the old accounts, and ends as they say |
| Banking.Bank.ReadAccountLine | src/Bank.java:55-61 | one line read as the loader functions say, with an account appended exactly when it loads |
| Banking.Bank.LoadTransactions | src/Bank.java:86-109 | each account's history grows by exactly the transactions the replay delivers to its position; the exception is the replay's; balances and passwords are untouched |
| Banking.Bank.ReadTransactionLine | src/Bank.java:90-103 | one line handled as the line-effect function says: parse, first-match lookup, then append to that account only |
| Banking.Bank.SaveAllAccounts | src/Bank.java:40-49 | the lines written are exactly the account file of the current records |
| Banking.Bank.SaveAllTransactions | src/Bank.java:73-84 | the lines written are exactly the transaction file of the current accounts |
| Banking.Bank.AccountLines | src/Bank.java:76-79 | the lines of one account's transactions, in order |
| Banking.Bank.AddAccount | src/Bank.java:32-34 | appends at the end with no duplicate check |
| Banking.Bank.RemoveAccount | src/Bank.java:36-38 | the list loses the first occurrence of that object |
| App.IsValidPasswordFormat | src/BankingApp.java:24-26 | not blank and at least six UTF-16 code units; `App.FormatMatchesAccountCheck` ties it to the account's check |
| App.FormatMatchesAccountCheck | src/BankingApp.java:24-26 | the app's password-format check accepts exactly what the account's own check accepts |
| App.HasSixCharacters | src/BankingApp.java:86 | `String.valueOf(accNo).length() == 6`; `App.SixCharactersRange` gives the numbers that pass |
| App.SixCharactersRange | src/BankingApp.java:86 | an int passes the six-character check exactly when it is in 100000..999999 or -99999..-10000 |
| App.AcceptsNewNumber | src/BankingApp.java:86-92 | the exit test of `createAccount`'s number loop; `App.AcceptsNewNumberMeans` states it |
| App.AcceptsNewNumberMeans | src/BankingApp.java:86-92 | the prompt accepts a number exactly when it has six characters and no account in the list has it |
| App.VerdictFrom | src/BankingApp.java:158-176 | granted exactly when one of the first three lines equals the password, and then after reading up to the first match; denied after three misses; input ends first otherwise |
| App.VerifyPassword | src/BankingApp.java:158-176 | the loop's verdict is the one the verdict function gives; the account is not modified |
| App.ValidPasswordLine | src/BankingApp.java:29-44 | the first line at or after the start with valid format, none when there is none |
| App.GetValidatedPasswordInput | src/BankingApp.java:29-44 | the re-prompt loop stops at the first line of valid format |
| App.NewPasswordFrom | src/BankingApp.java:339-357 | a chosen password has valid format, differs from the current one and was typed twice in a row |
| App.StaleLineSkipped | src/BankingApp.java:339-345 | a line of invalid format, or one equal to the current password, is passed over on its own |
| App.SkipToFirstFresh | src/BankingApp.java:338-345 | the loop passes over every line before the first line of valid format that differs from the current password |
| App.FirstFreshCandidate | src/BankingApp.java:339-357 | the first line of valid format that differs from the current password is chosen when the next line confirms it, ends the input when it is the last line, and is otherwise dropped with its mismatched confirmation |
| App.NothingChosen | src/BankingApp.java:339-357 | no new password is chosen exactly when the input runs out before a confirmed fresh candidate: none exists, the first is the last line, or its confirmation fails and nothing is chosen after it |
| App.ReadNewPassword | src/BankingApp.java:339-357 | the new-password loop chooses what the new-password function gives |
| App.ChangeOutcomeOf | src/BankingApp.java:328-364 | verification first, then the new-password loop; `App.ChangedOnlyWhenChecked` and `App.NotVerifiedNotChanged` state what it allows |
| App.ChangedOnlyWhenChecked | src/BankingApp.java:328-364 | a password is changed only after verification, to a well-formed value that differs from the current one, was confirmed after the verification, and that the account accepts |
| App.NotVerifiedNotChanged | src/BankingApp.java:331-334 | a failed verification never changes the password |
| App.MoveFunds | src/BankingApp.java:250-273 | between distinct accounts, the sender loses and the recipient gains the amount, and each gets its two entries with the right signs and numbers; for a self-transfer the balance is unchanged and all four entries are appended |
| App.BankingApp.constructor | src/BankingApp.java:14 | `main`'s start: the loaded account list (src/BankingApp.java:374) and `loggedInAccount = null`, with every account valid, which establishes the session invariant |
| App.BankingApp.Login | src/BankingApp.java:198-209 | logs in exactly the first account with the number, and only on a granted verdict; nothing else changes |
| App.BankingApp.Logout | src/BankingApp.java:555-560 | nobody is logged in afterwards; the accounts are untouched |
| App.BankingApp.CreateAccount | src/BankingApp.java:54-129 | with fields the prompts accepted, the constructor cannot throw; a fresh account with those fields goes to the end of the list and is the one found for its number |
| App.BankingApp.MenuDeposit | src/BankingApp.java:464-487 | a positive amount is deposited, and the menu appends a second "Deposit" entry after the account's own; a non-positive one changes nothing |
| App.BankingApp.MenuWithdraw | src/BankingApp.java:489-510 | an amount in 1..balance is withdrawn, and the menu appends a second "Withdrawal" entry after the account's own; any other amount changes nothing |
| App.BankingApp.TransferFunds | src/BankingApp.java:216-286 | the checks in source order decide the outcome; a rejected transfer changes neither account; an accepted one moves the amount as `MoveFunds` states, and neither the sender's nor the recipient's password changes; the two "failed" branches cannot be reached |
| App.BankingApp.ChangePassword | src/BankingApp.java:328-370 | the outcome is the change-password function's; the password changes exactly when the outcome says so, to the value it carries; the handler for `IllegalArgumentException` cannot be reached |
| App.ConfirmsYes | src/BankingApp.java:540 | `equalsIgnoreCase("yes")`: three characters, each y, e and s up to Java's case mapping |
| App.BankingApp.DeleteAccount | src/BankingApp.java:535-553 | the account is removed and the user logged out exactly when verification succeeds and the next line is a case-insensitive "yes"; otherwise nothing changes |
| LegacyAccounts.Account.constructor | Account.java:6-10 | stores name, number and balance with no validation |
| LegacyAccounts.Account.Deposit | Account.java:18-22 | adds the amount whatever its sign |
| LegacyAccounts.Account.Withdraw | Account.java:24-31 | subtracts exactly when the balance covers the amount, otherwise nothing changes; a non-negative balance stays non-negative |
| LegacyAccounts.Account.ToCSV | Account.java:34-36 | name, number and balance joined by commas, with no password |
| LegacyAccounts.NegativeDepositBreaksNonNegative | Account.java:18-19 | a negative deposit takes a zero balance below zero |
| LegacyAccounts.LegacyCsvFields | Account.java:34-36 | with a comma-free name the line has exactly three fields: name, number and balance |
| LegacyAccounts.LegacyLineIsSkipped | Account.java:34-36 | a three-field line from the early class is skipped by the later loader, under either split |

## Left out

- File I/O, `IOException` handling and console output are not modelled. This includes `display()`, prompts and "Press Enter". Files are sequences of lines; a missing file is an empty one.
- Floating point is not modelled. Amounts are whole cents.
- Text.CentsText: it writes plain decimal text at every magnitude. That equals `Double.toString` only below 10^7; from 10^7 on Java writes exponent notation ("1.0E7"), which is not modelled, so `Text.CentsTextRoundTrip` speaks of the plain text.
- `ParseCents` accepts a sign, digits and at most two decimals. `parseDouble`'s other syntax (exponents, `NaN`, more decimals) is read as a number-format error.
- Scanner tokenising (`hasNextInt`, `nextInt`, `nextDouble`) and the re-prompt loops in `createAccount` and `login` are not modelled. `App.BankingApp.Login` and `App.BankingApp.CreateAccount` take values those loops would accept. The `InputMismatchException` that `transferFunds` can throw on non-numeric input is also left out.
- The name pattern `^[a-zA-Z\s.'-]+$` in `createAccount` is not modelled. `App.BankingApp.CreateAccount` only requires a non-blank name.
- App.ConfirmsYes: it covers only the characters whose Java case mapping meets "yes". These are y/Y, e/E, s/S and U+017F. Unicode case folding in general is not modelled.
- Text.ParseInt32: it accepts only the ASCII digits 0-9. `Integer.parseInt` also accepts the other Unicode decimal digits (`Character.digit`), such as Arabic-Indic digits; the table of those digits is not modelled, so such a number reads as a number-format error.
- Java strings are sequences of UTF-16 code units; the model's strings are sequences of Unicode characters. `Text.Utf16Length` gives Java's `length()`, but a lone surrogate, which a Java string can hold, has no counterpart in the model.
- Java `null` strings are not modelled. No caller passes one: split fields and read lines are never null.
- The saves after a menu change are not repeated in `App`. `createAccount`, `transferFunds`, deposit, withdraw and delete call both `saveAllAccounts` and `saveAllTransactions` on the current list; `changePassword` calls only `saveAllAccounts` (src/BankingApp.java:363). Their output is `BankRecords.AccountFile` and `BankRecords.TransactionFile` of the current state, as `Banking.Bank.SaveAllAccounts` and `Banking.Bank.SaveAllTransactions` state.
- `main`'s own account-loading loop (src/BankingApp.java:376-398) is the same loop as `loadAllAccounts` and is covered by `Banking.Bank.LoadAllAccounts`. `BankingApp.loadTransactions` is never called from `main`, so a restarted application starts with empty histories; it is the same loop as the bank's `loadTransactions`.
- Banking.Bank.LoadAllAccounts: it reads each line with the corrected split (see Findings), not the as-written `split(",")`. The as-written reading is `BankRecords.ParseAccountLineAsWritten`, related to the corrected one by `BankRecords.AsWrittenAgreesOffTrailingComma`: the two differ only on a line that ends with a comma.
- Banking.Bank.ReadAccountLine: it reads one line with the corrected split. On a saved line whose password ends with a comma, Java's `split(",")` loads a truncated password or throws from the constructor instead ("Ann,123456,100.0,abcde," makes `new Bank()` throw, where the model skips the line).
- BankRecords.LoadAccountLines: it folds the corrected reading `BankRecords.ParseAccountLine` over the lines, not the as-written one, with the same difference on lines that end with a comma.
- Banking.Bank.Open: it loads accounts through `Banking.Bank.LoadAllAccounts`, so it inherits the corrected split and its difference from `new Bank()` on lines that end with a comma.
- BankRecords.CommaFieldIsSkipped: it states the corrected reading. As written, a password whose only commas are at its end loads truncated instead of being skipped, as `BankRecords.AsWrittenTruncatesPassword` shows.
- Files are sequences of lines; the splitting of a file into lines by `readLine` at '\n', '\r' and "\r\n" is not modelled. The file round trips therefore require that no saved field holds a line break, and state that each record is then written as one line. Every field the console produces meets this, because `Scanner.nextLine` never returns a line terminator.
- Menu options 1 (summary) and 5 (history) only print, and are not modelled. The top-level menu dispatch and `System.exit` are not modelled either.
- The root `BankingApp.java` is not part of this model. It calls an account constructor and `checkPassword` that the root `Account.java` does not declare. `src/Cli.java` only prints menus and is not part of this model either.
- Concurrency is not relevant: the program is single-threaded.

## Findings

| source | as written | input that shows it | evidently intended | confidence | as-written member | corrected member |
|---|---|---|---|---|---|---|
| src/Bank.java:55 | `line.split(",")` drops trailing empty fields, so a saved password that ends with a comma is read back without it | an account with password "abcdef," reloads with password "abcdef"; with "abcde," the constructor rejects the reloaded five-character password and loading throws | a saved account reads back exactly as it was written, or its line is skipped when a field holds a comma, e.g. with `split(",", -1)` | not executed | BankRecords.AsWrittenTruncatesPassword | BankRecords.CsvLineExactOrSkipped |
