# nerdledger core, modelled in Dafny

A model of the home-finance ledger in `accounting.py` and of the UBS Visa
card importer in `from_csv.py`.

**Ledger.** The ledger keeps two sqlite tables: `accounts`, keyed by name,
and `transactions`, which is only appended to. For one account name, an
`Account` view does three things:

- replays the transactions that touch the name, in date order, into a
  running balance;
- reports the final balance, with the sign flipped for `credit` and
  `income` accounts;
- builds a statement of all rows or of the last `limit` rows.

The `Ledger` itself:

- registers names;
- hands out account views (`ledger[name]`);
- records transfers between registered accounts;
- prints a roster of every account, grouped by type in a fixed order and
  sorted by name within each group.

**Importer.** The importer turns card statement rows into transfer
requests. It skips three kinds of rows: rows dated before a cut-off, rows
without a debit, and the balance-report row. For every other row, the
destination is the first keyword rule that matches the row's text and type.

**Files.**

| file | contents |
|---|---|
| `wrappers.dfy` | `Option` and `Result` |
| `strings.dfy` | the parts of Python `str` that the code relies on: ASCII `lower()`, the substring test `w in s`, code-point order, and `sorted()` on a list of names |
| `database.dfy` | the two tables as a class `Db` that both the ledger and the accounts update in place; the one SQL query (`WHERE source = name OR destination = name ORDER BY date`), as a filter followed by a stable sort, with NULL dates first |
| `accounting.dfy` | classes `Account` and `Ledger`, with the specification functions and lemmas their contracts use |
| `from_csv.dfy` | `match`, the first-match rule search and the `ubs_visa` row loop |
| `scenarios.dfy` | worked examples with concrete values |

**Units.** Money is in integer cents. A date is an integer timestamp on one
scale, at whatever resolution the caller chooses: `datetime.now()` and a
`datetime` argument carry their time of day, and a parsed date string is
midnight of its day. The worked examples use day numbers. A statement line is
a structured record, not the fixed-width text the source formats. An error the
source raises is an `Err` value of the operation that raises it.

**Behaviour that is easy to get wrong, modelled as the code does it.**

- A self-transfer only debits the account: the `if src … elif dst` test
  checks the source first, so it lowers the balance by the amount
  (accounting.py:113-116).
- Once the `transactions` table exists, an account without transactions has
  no balance: `balance()` reads the last row of an empty list and raises
  `IndexError` (accounting.py:133). Before the first transfer the table does
  not exist at all, which the model does not capture (see "## Left out").
- The `balance` argument of `open_account` is stored in a column that
  `Account` never reads, so a new account starts with an opening balance
  of 0 (accounting.py:257). Opening `bank` with 1000.00 and paying 50.25
  leaves `bank` at -50.25; `bank` shows 949.75 only after
  `set_opening_balance(1000.00)`, as `Scenarios.PaymentScenario` states.
- A date string is stored only when the destination was given by name.
  With an `Account` object as destination, no date is stored
  (accounting.py:311-318).
- The roster fails on an account whose type is missing or not one of the
  four allowed types (accounting.py:237-238).

## Model

| member | source | states |
|---|---|---|
| `Strings.LowerChar` | from_csv.py:19 | an upper-case ASCII letter moves to its lower-case letter (code point plus 32); every other character is unchanged; the result is never upper-case |
| `Strings.Lower` | from_csv.py:19 | `text.lower()` keeps the length, lowers each character in place and leaves no upper-case letter |
| `Strings.Contains` | from_csv.py:19 | `word in text` holds exactly when the word occurs in the text at some index |
| `Strings.ContainsShift` | from_csv.py:19 | with no occurrence at index 0, the occurrences in `s` are exactly those in `s[1..]` shifted by one |
| `Strings.LexLeTotal` | accounting.py:243 | any two names are comparable in Python's string order |
| `Strings.LexLeTransitive` | accounting.py:243 | Python's string order is transitive |
| `Strings.InsertSorted` | accounting.py:243 | inserting a name into a sorted list keeps it sorted and adds exactly that name |
| `Strings.SortStringsSorted` | accounting.py:243 | `sorted(names)` is in non-decreasing order and is a permutation of `names` |
| `Strings.InsertDistinct` | accounting.py:243 | inserting a new name into a list without repeats gives a list without repeats, holding exactly the old names and the new one |
| `Strings.SortStringsDistinct` | accounting.py:243 | sorting a list of distinct names keeps them distinct and keeps exactly the same names |
| `Database.Touching` | accounting.py:92-98 | the WHERE clause keeps exactly the stored rows whose source or destination is the name, and never adds rows |
| `Database.InsertByDateSorted` | accounting.py:96 | inserting one row into a date-ordered list keeps it date-ordered (NULL first) and adds exactly that row |
| `Database.SortByDateSorted` | accounting.py:96 | ORDER BY date yields a date-ordered permutation of its input |
| `Database.MaxId` | accounting.py:324 | the largest id in the table (0 for an empty one): no stored id exceeds it, and some stored row has it |
| `Database.QueryExact` | accounting.py:92-98 | the query returns every stored transaction that touches the name, as often as it is stored, with no other rows, in non-decreasing date order |
| `Accounting.DeltaSplit` | accounting.py:113-116 | one row moves the balance by what it brings in from another account minus what it takes out; a row that does not name the account moves nothing |
| `Accounting.SumDeltaSplit` | accounting.py:113-116 | the net movement of a list of rows is what other accounts sent in, minus everything the account sent out |
| `Accounting.SumDeltaAppend` | accounting.py:106-118 | one more row moves the net total by that row's own movement |
| `Accounting.SumDeltaInsert` | accounting.py:96 | the net movement does not depend on where ORDER BY inserts a row |
| `Accounting.SumDeltaSort` | accounting.py:96 | ordering by date leaves the net movement unchanged |
| `Accounting.SumDeltaTouching` | accounting.py:92-98 | rows that do not touch the account contribute nothing, so filtering leaves the net movement unchanged |
| `Accounting.QueryTotal` | accounting.py:92-118 | replaying the query's rows gives the same net movement as summing inflow minus outflow over the whole table |
| `Accounting.RunningStep` | accounting.py:106-118 | row k carries the k-th query row; its balance is the previous row's balance (the opening balance for row 0) moved by that row, checking the source first |
| `Accounting.RunningBalance` | accounting.py:101-118 | row k's balance is the opening balance, minus the amounts sent, plus the amounts received from other accounts, over rows 0 to k |
| `Accounting.RunningAppend` | accounting.py:106-120 | one more transaction appends exactly one row with the moved balance and leaves the earlier rows unchanged |
| `Accounting.SelfTransferDebits` | accounting.py:113-116 | a transfer from an account to itself lowers that account's balance by the amount and never credits it back |
| `Accounting.QueryNonEmpty` | accounting.py:133 | when some stored transaction touches the name, the query returns at least one row |
| `Accounting.LastBalance` | accounting.py:133 | when some stored transaction touches the name, the last row exists and its balance is the opening balance minus all outflow plus all inflow in the table |
| `Accounting.DisplaySign` | accounting.py:129-132 | the display sign is ±1, and it is -1 exactly when display is on and the type is `credit` or `income` |
| `Accounting.ShownRows` | accounting.py:137-164 | a positive limit keeps the last min(limit, count) rows; a zero limit keeps every row; a negative limit drops the first -limit rows |
| `Accounting.LineOfMeaning` | accounting.py:166-185 | for a row touching the account, the line reads "in" exactly when the row raised the balance; it shows the size of that change; the counter-account and the account are the two ends of the transfer; the balance is sign times the running balance |
| `Accounting.Account.constructor` | accounting.py:38-68 | the view takes the row's type; it takes the stored opening balance, or 0 when none is stored, and then writes that 0 back to the row; no other row changes |
| `Accounting.Account.SetType` | accounting.py:70-78 | succeeds exactly for `bank`, `credit`, `income` and `expense`, updating the view and the row; otherwise raises and changes nothing |
| `Accounting.Account.SetOpeningBalance` | accounting.py:80-85 | stores the new opening balance in the view and the row, with no check; nothing else changes |
| `Accounting.Account.Transactions` | accounting.py:87-122 | the loop returns one row per query result, in query order, each with the opening balance moved by that row and all earlier ones |
| `Accounting.Account.Balance` | accounting.py:124-133 | given at least one transaction, the balance is the display sign times (opening balance − outflow + inflow) over the whole table |
| `Accounting.Account.BalanceSheet` | accounting.py:135-190 | header name and type; one line per shown row with that row's layout and the display sign; a transaction count only when no limit is given, equal to the number of transactions touching the account |
| `Accounting.Resolve` | accounting.py:291-309 | an `Account` object resolves to its name; a string resolves only when registered; anything else is refused |
| `Accounting.StoredDate` | accounting.py:311-318 | no date gives `now`; a `datetime` is kept; a string is parsed only when the destination was given by name, an unparsable one is refused, and with an `Account` destination no date is stored |
| `Accounting.Ledger.constructor` | accounting.py:205-217 | every row of the accounts table becomes a registered name with a fresh view that holds that row's type and opening balance; each row changes at most by a missing opening balance becoming 0, and the transactions are unchanged |
| `Accounting.Ledger.Get` | accounting.py:219-225 | returns the view of a registered name, and raises exactly on an unregistered one |
| `Accounting.Ledger.OpenAccount` | accounting.py:250-261 | raises exactly on an already registered name and then changes nothing; otherwise registers exactly that name, writes its row with the given type and a `balance` column, and leaves its opening balance at 0; the transaction table and the "every transaction names registered accounts" invariant are kept |
| `Accounting.Ledger.Transfer` | accounting.py:263-324 | checks the source first, then the destination, then the date string; a failure stores nothing; a success appends exactly one transaction whose id is one more than the largest stored id, so greater than every stored id, the resolved names, description `''` when none is given, the stored date, and the creation time; earlier rows and the accounts are unchanged; registered endpoints keep the invariant |
| `Accounting.FileByType` | accounting.py:234-238 | the loop over the accounts' types raises KeyError exactly when some type is missing or not allowed; otherwise it gives one list per allowed type, each without repeats, holding exactly the names of that type |
| `Accounting.Ledger.ByType` | accounting.py:234-238 | raises KeyError exactly when some account's type is missing or not allowed; otherwise files each account, once, under its type |
| `Accounting.Ledger.Section` | accounting.py:241-245 | for one type, raises IndexError exactly when one of its accounts has no transaction; otherwise lists exactly the accounts of that type, sorted and distinct, each with its display balance |
| `Accounting.Ledger.Roster` | accounting.py:227-248 | fails exactly when some account is not well typed (KeyError) or, failing that, has no transaction (IndexError); otherwise gives four sections in the fixed type order, each listing exactly the accounts of its type, sorted, with display balances |
| `Accounting.Ledger.Listed` | accounting.py:234-245 | when every account is well typed and the four sections list their types, every account appears in one of the sections, and every account has a transaction |
| `FromCsv.AllIn` | from_csv.py:18-20 | the word loop passes exactly when every word occurs in the string |
| `FromCsv.Match` | from_csv.py:14-27 | a rule matches exactly when both hold: the text is NaN or holds every `in_text` word once lower-cased, and the type is NaN or holds every `in_type` word once lower-cased |
| `FromCsv.EmptyRuleMatches` | from_csv.py:17-27 | a rule with no words matches every row |
| `FromCsv.UpperCaseWordNeverMatches` | from_csv.py:19 | an `in_text` word with an upper-case letter never matches a text that is present |
| `FromCsv.UpperCaseTypeWordNeverMatches` | from_csv.py:24 | an `in_type` word with an upper-case letter never matches a type cell that is present |
| `FromCsv.FirstMatch` | from_csv.py:86-89 | the index found is a matching rule with no matching rule before it, or the end of the list when none matches |
| `FromCsv.DestinationIsFirstMatch` | from_csv.py:85-89 | the destination is the `to` of a matching rule that has no matching rule before it |
| `FromCsv.DestinationWithoutMatch` | from_csv.py:85-89 | with no matching rule the destination is `<TBA>` |
| `FromCsv.FirstDestination` | from_csv.py:85-89 | the search loop with `break` finds the first matching rule's `to`, or `<TBA>` |
| `FromCsv.Kept` | from_csv.py:73-83 | a row is kept exactly when it is not dated before the cut-off, has a debit, and is not the balance report |
| `FromCsv.ImportOne` | from_csv.py:73-99 | a skipped row gives no request; any other row gives exactly its own request |
| `FromCsv.ImportAppend` | from_csv.py:67-99 | the requests of two consecutive parts of a statement are those of the first part followed by those of the second, so input order is kept |
| `FromCsv.RequestFields` | from_csv.py:91-97 | a request has the card account as source, the first matching rule's account as destination, the row's debit as amount, the text and type joined by a space as description, and the purchase date |
| `FromCsv.ImportOrigins` | from_csv.py:67-99 | every request is the request of some row that is not skipped |
| `FromCsv.ImportOrigin` | from_csv.py:67-99 | names the row that a given request comes from: one that is in the statement and is not skipped |
| `FromCsv.ImportKeeps` | from_csv.py:67-99 | every row that is not skipped yields its request |
| `FromCsv.UbsVisa` | from_csv.py:65-99 | the row loop, with its three `continue`s and the rule search, writes exactly the requests of the non-skipped rows in input order |
| `Scenarios.OpenAccountScenario` | accounting.py:250-261 | opening `bank` with 1000.00 leaves its opening balance at 0 and stores 1000.00 only in the `balance` column; opening it again is refused |
| `Scenarios.PaymentScenario` | accounting.py:124-133 | after paying 50.25 from `bank` to `groceries`, `bank` shows -50.25 and `groceries` 50.25; with opening balance 1000.00, `bank` shows 949.75 |
| `Scenarios.DateScenario` | accounting.py:311-318 | a date string is kept with a destination given by name and dropped with an `Account` destination; an unregistered name is refused |
| `Scenarios.CoopRule` | from_csv.py:14-27 | the rule with `in_text: [coop]` and an explicit empty `in_type` list matches "COOP ZURICH", whatever the type cell holds |
| `Scenarios.CoopScenario` | from_csv.py:85-97 | a 12.50 debit for "COOP ZURICH" with the rule `{in_text: [coop], in_type: [], to: groceries}` becomes one request to `groceries`, described "COOP ZURICH Einkauf" |

## Left out

- The sqlite store is the `Db` class, a map and a sequence. The `dataset` library, the SQL text and the database file are not modelled.
- Rows with equal dates keep their insertion order. sqlite does not promise any order for ties.
- Date parsing and the clock are parameters:
  - a date string arrives already parsed, with `None` when `strptime` fails;
  - `datetime.now()` is the `now` argument of `Transfer`;
  - the CSV purchase date arrives already parsed.
- A date argument that is neither a string nor a `datetime` is not modelled. With a by-name destination, the source raises a `TypeError` there.
- Floating point is not modelled: amounts are integer cents, so `round(…, 2)` is the identity.
- Text formatting is not modelled. This covers the fixed-width columns of statements and the roster, the header underline, and `Account.__str__` / `__repr__`. A statement is a `Statement` record and the roster a sequence of `Group`s.
- Printing is left out: the debug `print(direction)` and the summary that `transfer` prints after inserting.
- `setattr`/`getattr` on `a_<name>` attributes is not modelled. The ledger keeps an explicit map from name to view instead.
- `Strings.Lower`, `Strings.LowerChar`: only ASCII `A`–`Z` are lowered; Python's `lower()` also lowers other scripts, which the model leaves unchanged.
- The file I/O of `ubs_visa` is not modelled. This covers `pd.read_csv`, the YAML rule file and the YAML dump. `UbsVisa` takes the rows and rules as values and returns the requests.
- A NaN debit is `None`, and a NaN text or type cell is `None`. `'{}'.format` prints a NaN cell as `nan`.
- `accounting/__main__.py` (the command-line entry point) and `accounting/__init__.py` (re-exports) are not part of this model.
- `Accounting.Ledger.Transfer`: the invariant that every transaction names registered accounts is preserved only when any `Account` object passed in belongs to this ledger. The source accepts any `Account` object, so with a foreign one a transaction can name an unregistered account.
- `Accounting.Account.Balance`: it requires at least one transaction touching the account. The source raises `IndexError` in that case, and the roster models that error as `IndexError`, once the `transactions` table exists.
- `Accounting.Ledger.Transfer`: the summary is not modelled. With `summary=True` the source looks up `self[source]` and `self[destination]` after the insert (accounting.py:328-329). For an `Account` object whose name is not registered in this ledger, that lookup raises `ValueError` with the row already stored; the model returns `Ok`. Formatting a summary line for a row with no date (accounting.py:148, 152) raises `TypeError` in the same place, which the model does not reproduce either.
- `Accounting.Account.BalanceSheet`: a row with a NULL date makes `{date:10.10}` raise `TypeError` (accounting.py:148, 152). The model returns a `Line` with date `None` instead.
- `Database.Touching`: the account name is pasted into the SQL text (accounting.py:92-97), so a name holding `'` makes the query fail or select other rows. The model compares names exactly, which is what the query does for names without a quote.
- `FromCsv.Match`: a rule that lacks the `in_text` or `in_type` key raises `KeyError` when the matching cell is not NaN (from_csv.py:18, 23). A `Rule` always has both lists, so a rule file must spell out an empty list, as `Scenarios.CoopScenario` does.
- `Accounting.Account.Transactions`: the `transactions` table is created by the first insert of a transfer (accounting.py:324), so on a database where no transfer was ever stored the query (accounting.py:92-98) raises sqlite `OperationalError` ("no such table"). The model always has the table and returns `[]` there. When every stored row lacks a date (a date string with an `Account` destination, accounting.py:312-316), the table has no `date` column and `ORDER BY transactions.date` raises `OperationalError` ("no such column"); the model orders the rows with NULL dates instead.
- `Accounting.Account.BalanceSheet`: it calls the same query, so with no transfer ever stored the source raises `OperationalError`, where the model returns a statement with no lines and a count of 0; the same holds when no stored row has a date.
- `Accounting.Ledger.Roster`: on a ledger that has well-typed accounts and no stored transfer, the source's `balance()` call raises `OperationalError` from the missing table; the model returns `Err(IndexError)` there. `accounting/__main__.py` prints the roster right after opening the ledger, so it meets this case.
