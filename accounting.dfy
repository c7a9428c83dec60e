/**
 * The single-entry ledger of `accounting.py`: account views that replay the
 * transactions touching one name into a running balance and a statement, and
 * the ledger that registers names, records transfers and lists the accounts
 * grouped by type.
 *
 * Money is in integer cents, so `round(…, 2)` is the identity and the
 * `%8.2f` columns become plain integers in structured statement lines.
 */
module Accounting {
  import opened Wrappers
  import opened Database
  import Strings

  datatype Error =
    | NoSuchAccount                 // `ledger[name]` on an unregistered name
    | DuplicateAccount              // `open_account` on a registered name
    | InvalidAccountType            // `set_type` outside the allowed list
    | UnknownEndpoint(name: string) // `transfer` to or from an unregistered name
    | InvalidEndpoint               // `transfer` endpoint neither a name nor an Account
    | InvalidDate                   // a date string that is not YYYY-MM-DD
    | KeyError                      // roster: an account whose type is not allowed
    | IndexError                    // roster: `balance()` of an account without transactions

  /** The only values `set_type` accepts, in the order the roster prints them. */
  const AllowedTypes: seq<string> := ["bank", "credit", "income", "expense"]

  // ---------------------------------------------------------------- balances

  /**
   * How one transaction moves `name`'s internal balance.  The source side is
   * checked first, so a transfer from `name` to itself is only debited.
   */
  function Delta(name: string, t: Transaction): int {
    if t.source == name then -t.amount
    else if t.destination == name then t.amount
    else 0
  }

  function SumDelta(name: string, ts: seq<Transaction>): int {
    if ts == [] then 0 else Delta(name, ts[0]) + SumDelta(name, ts[1..])
  }

  /** Total amount of the transactions whose source is `name`. */
  function Outflow(name: string, ts: seq<Transaction>): int {
    if ts == [] then 0
    else (if ts[0].source == name then ts[0].amount else 0) + Outflow(name, ts[1..])
  }

  /** Total amount of the transactions into `name` from another account. */
  function Inflow(name: string, ts: seq<Transaction>): int {
    if ts == [] then 0
    else (if ts[0].destination == name && ts[0].source != name then ts[0].amount else 0)
         + Inflow(name, ts[1..])
  }

  /**
   * One transaction moves the balance by what it brings in from another
   * account minus what it takes out; one that does not touch the account
   * leaves it alone.
   */
  lemma DeltaSplit(name: string, t: Transaction)
    ensures Delta(name, t) == Inflow(name, [t]) - Outflow(name, [t])
    ensures !Touches(t, name) ==> Delta(name, t) == 0
  {
    assert [t][1..] == [];
  }

  lemma {:induction false} SumDeltaSplit(name: string, ts: seq<Transaction>)
    ensures SumDelta(name, ts) == Inflow(name, ts) - Outflow(name, ts)
  {
    if ts != [] {
      SumDeltaSplit(name, ts[1..]);
    }
  }

  lemma {:induction false} SumDeltaAppend(name: string, ts: seq<Transaction>, t: Transaction)
    ensures SumDelta(name, ts + [t]) == SumDelta(name, ts) + Delta(name, t)
  {
    if ts != [] {
      assert (ts + [t])[1..] == ts[1..] + [t];
      SumDeltaAppend(name, ts[1..], t);
    }
  }

  lemma {:induction false} SumDeltaInsert(name: string, t: Transaction, s: seq<Transaction>)
    ensures SumDelta(name, InsertByDate(t, s)) == Delta(name, t) + SumDelta(name, s)
  {
    if s != [] && !DateLe(t.date, s[0].date) {
      SumDeltaInsert(name, t, s[1..]);
    }
  }

  lemma {:induction false} SumDeltaSort(name: string, s: seq<Transaction>)
    ensures SumDelta(name, SortByDate(s)) == SumDelta(name, s)
  {
    if s != [] {
      SumDeltaSort(name, s[1..]);
      SumDeltaInsert(name, s[0], SortByDate(s[1..]));
    }
  }

  lemma {:induction false} SumDeltaTouching(name: string, ts: seq<Transaction>)
    ensures SumDelta(name, Touching(ts, name)) == SumDelta(name, ts)
  {
    if ts != [] {
      SumDeltaTouching(name, ts[1..]);
      var rest := Touching(ts[1..], name);
      if Touches(ts[0], name) {
        assert Touching(ts, name) == [ts[0]] + rest;
        assert ([ts[0]] + rest)[1..] == rest;
      } else {
        assert Touching(ts, name) == [] + rest == rest;
      }
    }
  }

  /**
   * Replaying the query's rows gives the same total as summing over the whole
   * table in any order: opening balance minus outflow plus inflow.
   */
  lemma QueryTotal(name: string, ts: seq<Transaction>)
    ensures SumDelta(name, Query(ts, name)) == Inflow(name, ts) - Outflow(name, ts)
  {
    SumDeltaSort(name, Touching(ts, name));
    SumDeltaTouching(name, ts);
    SumDeltaSplit(name, ts);
  }

  /** A query row augmented with the balance after it, as `transactions()` yields it. */
  datatype Row = Row(t: Transaction, balance: int)

  /** The rows `transactions()` returns for the query result `ts`. */
  function Running(name: string, opening: int, ts: seq<Transaction>): (rows: seq<Row>)
    ensures |rows| == |ts|
  {
    seq(|ts|, k requires 0 <= k < |ts| => Row(ts[k], opening + SumDelta(name, ts[..k + 1])))
  }

  /**
   * Row k carries transaction k, and its balance is the previous row's
   * balance (the opening balance for the first row) moved by that transaction.
   */
  lemma RunningStep(name: string, opening: int, ts: seq<Transaction>, k: nat)
    requires k < |ts|
    ensures Running(name, opening, ts)[k].t == ts[k]
    ensures Running(name, opening, ts)[k].balance
         == (if k == 0 then opening else Running(name, opening, ts)[k - 1].balance) + Delta(name, ts[k])
  {
    assert ts[..k + 1] == ts[..k] + [ts[k]];
    SumDeltaAppend(name, ts[..k], ts[k]);
    if k > 0 {
      assert ts[..k - 1 + 1] == ts[..k];
    }
  }

  /**
   * Row k's balance is the opening balance, minus what left the account and
   * plus what entered it from elsewhere, over rows 0..k.
   */
  lemma RunningBalance(name: string, opening: int, ts: seq<Transaction>, k: nat)
    requires k < |ts|
    ensures Running(name, opening, ts)[k].balance
         == opening - Outflow(name, ts[..k + 1]) + Inflow(name, ts[..k + 1])
  {
    SumDeltaSplit(name, ts[..k + 1]);
  }

  /**
   * When some stored transaction touches `name`, the query has a last row,
   * and its balance is the opening balance minus everything `name` sent plus
   * everything it received from other accounts.
   */
  lemma LastBalance(name: string, opening: int, all: seq<Transaction>)
    requires HasTransactions(all, name)
    ensures |Running(name, opening, Query(all, name))| > 0
    ensures Running(name, opening, Query(all, name))[|Query(all, name)| - 1].balance
         == opening - Outflow(name, all) + Inflow(name, all)
  {
    var ts := Query(all, name);
    QueryNonEmpty(all, name);
    assert Running(name, opening, ts)[|ts| - 1].balance == opening + SumDelta(name, ts[..|ts|]);
    assert ts[..|ts|] == ts;
    QueryTotal(name, all);
  }

  lemma QueryNonEmpty(all: seq<Transaction>, name: string)
    requires HasTransactions(all, name)
    ensures |Query(all, name)| > 0
  {
    QueryExact(all, name);
    var t :| t in all && Touches(t, name);
    assert t in Query(all, name);
  }

  /** A transfer from an account to itself lowers its balance by the amount. */
  lemma SelfTransferDebits(name: string, opening: int, ts: seq<Transaction>, k: nat)
    requires k < |ts| && ts[k].source == name && ts[k].destination == name
    ensures Running(name, opening, ts)[k].balance
         == (if k == 0 then opening else Running(name, opening, ts)[k - 1].balance) - ts[k].amount
  {
    RunningStep(name, opening, ts, k);
  }

  /** `credit` and `income` balances are shown with the opposite sign. */
  predicate Inverted(accountType: Option<string>) {
    accountType == Some("credit") || accountType == Some("income")
  }

  /** The sign `balance(display)` applies. */
  function DisplaySign(display: bool, accountType: Option<string>): (s: int)
    ensures s * s == 1
    ensures s == -1 <==> display && Inverted(accountType)
  {
    if display && Inverted(accountType) then -1 else 1
  }

  /** Some stored transaction touches `name`, so `transactions()[-1]` exists. */
  predicate HasTransactions(ts: seq<Transaction>, name: string) {
    exists t :: t in ts && Touches(t, name)
  }

  // -------------------------------------------------------------- statements

  datatype Direction = In | Out

  /** One body line of `balance_sheet`, before fixed-width formatting. */
  datatype Line = Line(
    id: nat,
    date: Option<int>,
    description: string,
    counterAccount: string,
    direction: Direction,
    amount: nat,
    balance: int)

  /** `balance_sheet`: the header fields, the body lines and the optional count line. */
  datatype Statement = Statement(name: string, accountType: Option<string>, lines: seq<Line>, count: Option<nat>)

  function Abs(x: int): nat {
    if x < 0 then -x else x
  }

  function Min(a: int, b: int): int {
    if a <= b then a else b
  }

  /** Python's `s[start:]`: a negative start counts from the end, both are clamped. */
  function SliceFrom<T>(s: seq<T>, start: int): seq<T> {
    if start >= 0 then s[Min(start, |s|)..]
    else s[|s| - Min(-start, |s|)..]
  }

  /**
   * `transactions[limit:]` after `limit *= -1`.  No limit and a zero limit
   * keep every row; a positive limit keeps the last min(limit, count) rows; a
   * negative limit drops the first -limit rows.
   */
  function Shown<T>(s: seq<T>, limit: Option<int>): seq<T> {
    if limit.None? then s else SliceFrom(s, -limit.value)
  }

  /** The rows a statement shows, case by case on the limit. */
  lemma ShownRows<T>(s: seq<T>, limit: Option<int>)
    ensures var r := Shown(s, limit);
            && (limit.None? ==> r == s)
            && (limit.Some? && limit.value > 0 ==> |r| == Min(limit.value, |s|) && r == s[|s| - Min(limit.value, |s|)..])
            && (limit.Some? && limit.value == 0 ==> r == s)
            && (limit.Some? && limit.value < 0 ==> r == s[Min(-limit.value, |s|)..])
  {
  }

  /**
   * Line layout of one row.  For a row touching the account, the line reads
   * "in" exactly when the row raised the internal balance, shows the size of
   * that change, names the other end of the transfer and shows the signed
   * running balance.
   */
  function LineOf(name: string, sign: int, row: Row): Line {
    var t := row.t;
    if t.source == name then
      Line(t.id, t.date, t.description, t.destination, if t.amount < 0 then In else Out,
           Abs(t.amount), sign * row.balance)
    else
      Line(t.id, t.date, t.description, t.source, if t.amount > 0 then In else Out,
           Abs(t.amount), sign * row.balance)
  }

  /**
   * What a statement line says about a transaction touching the account: money
   * comes in exactly when the transaction raises the balance, the amount is the
   * size of the change, the other column names the other endpoint, and the
   * balance is the running balance in display sign.
   */
  lemma LineOfMeaning(name: string, sign: int, row: Row)
    requires Touches(row.t, name)
    ensures var l := LineOf(name, sign, row);
            && (l.direction == In <==> Delta(name, row.t) > 0)
            && l.amount == Abs(Delta(name, row.t))
            && {l.counterAccount, name} == {row.t.source, row.t.destination}
            && l.balance == sign * row.balance
            && l.id == row.t.id && l.date == row.t.date && l.description == row.t.description
  {
  }

  // ----------------------------------------------------------------- Account

  /** The `opening_balance` the `Account` constructor settles on: the stored one, or 0. */
  function OpeningOf(row: AccountRow): int {
    row.openingBalance.GetOr(0)
  }

  /** Rows 0..|ts| extended by one transaction: one more row, the earlier ones unchanged. */
  lemma RunningAppend(name: string, opening: int, ts: seq<Transaction>, t: Transaction)
    ensures Running(name, opening, ts + [t])
         == Running(name, opening, ts) + [Row(t, opening + SumDelta(name, ts) + Delta(name, t))]
  {
    SumDeltaAppend(name, ts, t);
    assert (ts + [t])[..|ts| + 1] == ts + [t];
    forall k | 0 <= k < |ts|
      ensures Running(name, opening, ts + [t])[k] == Running(name, opening, ts)[k]
    {
      assert (ts + [t])[..k + 1] == ts[..k + 1];
    }
  }

  /** The view of one account name over the shared database (class `Account`). */
  class Account {
    const name: string
    const db: Db
    var accountType: Option<string>
    var openingBalance: int

    /** The cached type and opening balance agree with the account's row. */
    ghost predicate Valid()
      reads this, db
    {
      && name in db.accounts
      && db.accounts[name].accountType == accountType
      && db.accounts[name].openingBalance == Some(openingBalance)
    }

    /** Reads the row of `name`; a missing opening balance becomes 0, in the row too. */
    constructor (name: string, db: Db)
      requires name in db.accounts
      modifies db
      ensures this.name == name && this.db == db && Valid()
      ensures accountType == old(db.accounts[name].accountType)
      ensures openingBalance == OpeningOf(old(db.accounts[name]))
      ensures db.accounts == old(db.accounts)[name := old(db.accounts[name]).(openingBalance := Some(openingBalance))]
      ensures db.transactions == old(db.transactions)
    {
      this.name := name;
      this.db := db;
      var row := db.accounts[name];
      accountType := row.accountType;
      openingBalance := OpeningOf(row);
      new;
      if row.openingBalance.None? {
        db.accounts := db.accounts[name := row.(openingBalance := Some(0))];
      } else {
        assert row.(openingBalance := Some(openingBalance)) == row;
      }
    }

    /** Accepts exactly the allowed types; otherwise raises and changes nothing. */
    method SetType(newType: string) returns (r: Result<(), Error>)
      requires Valid()
      modifies this, db
      ensures Valid()
      ensures r.Ok? <==> newType in AllowedTypes
      ensures r.Err? ==> r.error == InvalidAccountType
      ensures accountType == if r.Ok? then Some(newType) else old(accountType)
      ensures openingBalance == old(openingBalance)
      ensures db.accounts == if r.Ok? then old(db.accounts)[name := old(db.accounts[name]).(accountType := Some(newType))]
                             else old(db.accounts)
      ensures db.transactions == old(db.transactions)
    {
      if newType in AllowedTypes {
        db.accounts := db.accounts[name := db.accounts[name].(accountType := Some(newType))];
        accountType := Some(newType);
        r := Ok(());
      } else {
        r := Err(InvalidAccountType);
      }
    }

    /** Overwrites the opening balance, with no check on sign or size. */
    method SetOpeningBalance(balance: int)
      requires Valid()
      modifies this, db
      ensures Valid()
      ensures openingBalance == balance && accountType == old(accountType)
      ensures db.accounts == old(db.accounts)[name := old(db.accounts[name]).(openingBalance := Some(balance))]
      ensures db.transactions == old(db.transactions)
    {
      openingBalance := balance;
      db.accounts := db.accounts[name := db.accounts[name].(openingBalance := Some(balance))];
    }

    /** The query's rows, each with the running balance after it. */
    method Transactions() returns (rows: seq<Row>)
      ensures rows == Running(name, openingBalance, Query(db.transactions, name))
    {
      var ts := Query(db.transactions, name);
      var balance := openingBalance;
      rows := [];
      for i := 0 to |ts|
        invariant balance == openingBalance + SumDelta(name, ts[..i])
        invariant rows == Running(name, openingBalance, ts[..i])
      {
        var t := ts[i];
        if name == t.source {
          balance := balance - t.amount;
        } else if name == t.destination {
          balance := balance + t.amount;
        }
        SumDeltaAppend(name, ts[..i], t);
        RunningAppend(name, openingBalance, ts[..i], t);
        assert ts[..i + 1] == ts[..i] + [t];
        rows := rows + [Row(t, balance)];
      }
      assert ts[..|ts|] == ts;
    }

    /**
     * The balance after the last transaction: the opening balance minus
     * everything sent from this account plus everything received from other
     * accounts, negated for display on `credit` and `income` accounts.
     */
    method Balance(display: bool) returns (b: int)
      requires HasTransactions(db.transactions, name)
      ensures b == DisplaySign(display, accountType)
                   * (openingBalance - Outflow(name, db.transactions) + Inflow(name, db.transactions))
    {
      var sign := 1;
      if display && (accountType == Some("credit") || accountType == Some("income")) {
        sign := -1;
      }
      var rows := Transactions();
      LastBalance(name, openingBalance, db.transactions);
      b := sign * rows[|rows| - 1].balance;
    }

    /**
     * The statement: header fields, one line per shown row (all rows, or the
     * last `limit` of them), and the number of transactions only when no
     * limit is given.
     */
    method BalanceSheet(limit: Option<int>) returns (st: Statement)
      ensures st.name == name && st.accountType == accountType
      ensures var shown := Shown(Running(name, openingBalance, Query(db.transactions, name)), limit);
              && |st.lines| == |shown|
              && forall k :: 0 <= k < |shown| ==> st.lines[k] == LineOf(name, DisplaySign(true, accountType), shown[k])
      ensures st.count == if limit.None? then Some(|Touching(db.transactions, name)|) else None
    {
      var sign := if accountType == Some("income") || accountType == Some("credit") then -1 else 1;
      var transactions := Transactions();
      var shown := Shown(transactions, limit);
      var lines: seq<Line> := [];
      for i := 0 to |shown|
        invariant |lines| == i
        invariant forall k :: 0 <= k < i ==> lines[k] == LineOf(name, sign, shown[k])
      {
        var row := shown[i];
        var account2: string;
        var direction: Direction;
        if row.t.source == name {
          account2 := row.t.destination;
          direction := if row.t.amount < 0 then In else Out;
        } else {
          account2 := row.t.source;
          direction := if row.t.amount > 0 then In else Out;
        }
        var line := Line(row.t.id, row.t.date, row.t.description, account2, direction,
                         Abs(row.t.amount), sign * row.balance);
        assert line == LineOf(name, sign, shown[i]);
        lines := lines + [line];
      }
      assert sign == DisplaySign(true, accountType);
      QueryExact(db.transactions, name);
      assert |transactions| == |Touching(db.transactions, name)|;
      st := Statement(name, accountType, lines, if limit.None? then Some(|transactions|) else None);
    }
  }

  // ------------------------------------------------------------------ Ledger

  /** What `transfer` accepts as an endpoint: an `Account` object, a name, or anything else. */
  datatype Endpoint = AccountObject(account: Account) | AccountName(name: string) | OtherValue

  /**
   * What `transfer` accepts as a date: none, a date-time value, or a string
   * (given here as the value it parses to under `%Y-%m-%d`, None when it does
   * not parse).
   */
  datatype DateArg = NoDate | DateTime(value: int) | DateText(parsed: Option<int>)

  /** How `transfer` turns an endpoint into an account name, or the error it raises. */
  function Resolve(e: Endpoint, accounts: set<string>): (r: Result<string, Error>)
    ensures r.Ok? <==> e.AccountObject? || (e.AccountName? && e.name in accounts)
    ensures r.Ok? && e.AccountName? ==> r.value == e.name && r.value in accounts
    ensures r.Ok? && e.AccountObject? ==> r.value == e.account.name
  {
    match e
    case AccountObject(a) => Ok(a.name)
    case AccountName(n) => if n in accounts then Ok(n) else Err(UnknownEndpoint(n))
    case OtherValue => Err(InvalidEndpoint)
  }

  /**
   * The date `transfer` stores.  A string is parsed only when the destination
   * was given as a string; with an `Account` destination no date is stored.
   */
  function StoredDate(date: DateArg, destination: Endpoint, now: int): (r: Result<Option<int>, Error>)
    ensures r.Err? <==> date.DateText? && destination.AccountName? && date.parsed.None?
    ensures r.Err? ==> r.error == InvalidDate
    ensures r == Ok(None) <==> date.DateText? && !destination.AccountName?
    ensures date.NoDate? ==> r == Ok(Some(now))
    ensures date.DateTime? ==> r == Ok(Some(date.value))
    ensures date.DateText? && destination.AccountName? && r.Ok? ==> r.value == date.parsed
  {
    match date
    case NoDate => Ok(Some(now))
    case DateTime(d) => Ok(Some(d))
    case DateText(parsed) =>
      if !destination.AccountName? then Ok(None)
      else if parsed.None? then Err(InvalidDate)
      else Ok(parsed)
  }

  /** Every stored transaction names registered accounts at both ends. */
  predicate Registered(ts: seq<Transaction>, names: set<string>) {
    forall t :: t in ts ==> t.source in names && t.destination in names
  }

  /** An `Account` object passed to `transfer` is one of the ledger's accounts. */
  predicate FromLedger(e: Endpoint, names: set<string>) {
    e.AccountObject? ==> e.account.name in names
  }

  /** One roster entry: the account name and its display balance. */
  datatype Entry = Entry(name: string, balance: int)

  /** The roster section of one account type. */
  datatype Group = Group(accountType: string, entries: seq<Entry>)

  function Names(entries: seq<Entry>): (names: seq<string>)
    ensures |names| == |entries|
    ensures forall i :: 0 <= i < |entries| ==> names[i] == entries[i].name
  {
    seq(|entries|, i requires 0 <= i < |entries| => entries[i].name)
  }

  /** `filed` lists, under each type, exactly the names in `done` that have that type. */
  ghost predicate Filed(filed: map<string, seq<string>>, done: set<string>, types: map<string, Option<string>>) {
    forall u, x :: u in filed ==> (x in filed[u] <==> x in done && x in types && types[x] == Some(u))
  }

  /** Appending a newly seen name to the list of its type keeps the filing exact and repeats no name. */
  lemma FileUnder(filed: map<string, seq<string>>, done: set<string>, types: map<string, Option<string>>,
                  t: string, a: string)
    requires Filed(filed, done, types) && t in filed && Strings.Distinct(filed[t])
    requires a !in done && a in types && types[a] == Some(t)
    ensures Filed(filed[t := filed[t] + [a]], done + {a}, types)
    ensures Strings.Distinct(filed[t := filed[t] + [a]][t])
  {
    var after := filed[t := filed[t] + [a]];
    forall u, x | u in after
      ensures x in after[u] <==> x in done + {a} && x in types && types[x] == Some(u)
    {
      if u == t {
        assert x in after[u] <==> x in filed[u] || x == a;
      } else {
        assert after[u] == filed[u];
      }
    }
  }

  /** An account type that `a_by_t` has a list for. */
  predicate Allowed(kind: Option<string>) {
    kind.Some? && kind.value in AllowedTypes
  }

  /**
   * The first loop of `repr(ledger)`, over each account's type: files every
   * name under its type, and raises KeyError at a type that is missing or
   * not one of the allowed ones.
   */
  method FileByType(types: map<string, Option<string>>) returns (r: Result<map<string, seq<string>>, Error>)
    ensures r.Err? <==> exists a :: a in types && !Allowed(types[a])
    ensures r.Err? ==> r.error == KeyError
    ensures r.Ok? ==> forall t :: t in r.value <==> t in AllowedTypes
    ensures r.Ok? ==> forall t :: t in r.value ==> Strings.Distinct(r.value[t])
    ensures r.Ok? ==> Filed(r.value, types.Keys, types)
  {
    var byType: map<string, seq<string>> := map["bank" := [], "credit" := [], "income" := [], "expense" := []];
    var rest := types.Keys;
    ghost var done: set<string> := {};
    while rest != {}
      invariant done + rest == types.Keys && done !! rest
      invariant forall t :: t in byType <==> t in AllowedTypes
      invariant forall a :: a in done ==> Allowed(types[a])
      invariant forall t :: t in byType ==> Strings.Distinct(byType[t])
      invariant Filed(byType, done, types)
      decreases rest
    {
      var a :| a in rest;
      if types[a].None? || types[a].value !in byType {
        return Err(KeyError);
      }
      var t := types[a].value;
      FileUnder(byType, done, types, t, a);
      byType := byType[t := byType[t] + [a]];
      rest := rest - {a};
      done := done + {a};
    }
    r := Ok(byType);
  }

  /** The book: the registered names, one account view per name, and the database. */
  class Ledger {
    const db: Db
    var accounts: set<string>
    var views: map<string, Account>

    ghost predicate Valid()
      reads this, db, views.Values
    {
      && views.Keys == accounts
      && db.accounts.Keys == accounts
      && forall n :: n in views ==> views[n].name == n && views[n].db == db && views[n].Valid()
    }

    /** Opens the book on `db`: every row of the accounts table becomes a registered account. */
    constructor (db: Db)
      modifies db
      ensures this.db == db && Valid()
      ensures accounts == old(db.accounts.Keys)
      ensures forall n :: n in views ==>
                && fresh(views[n])
                && views[n].accountType == old(db.accounts[n].accountType)
                && views[n].openingBalance == OpeningOf(old(db.accounts[n]))
      ensures forall n :: n in db.accounts ==>
                db.accounts[n] == old(db.accounts[n]).(openingBalance := Some(views[n].openingBalance))
      ensures db.transactions == old(db.transactions)
    {
      this.db := db;
      accounts := {};
      views := map[];
      new;
      var rest := db.accounts.Keys;
      while rest != {}
        invariant accounts + rest == old(db.accounts.Keys) && accounts !! rest
        invariant db.accounts.Keys == old(db.accounts.Keys)
        invariant views.Keys == accounts
        invariant forall n :: n in rest ==> db.accounts[n] == old(db.accounts[n])
        invariant forall n :: n in views ==> fresh(views[n]) && views[n].name == n && views[n].db == db
        invariant forall n :: n in views ==>
                    && views[n].accountType == old(db.accounts[n].accountType)
                    && views[n].openingBalance == OpeningOf(old(db.accounts[n]))
        invariant forall n :: n in views ==>
                    db.accounts[n] == old(db.accounts[n]).(openingBalance := Some(views[n].openingBalance))
        invariant db.transactions == old(db.transactions)
        decreases rest
      {
        var n :| n in rest;
        accounts := accounts + {n};
        var account := new Account(n, db);
        views := views[n := account];
        rest := rest - {n};
      }
    }

    /** `ledger[name]`: the account view of a registered name; raises on any other. */
    method Get(name: string) returns (r: Result<Account, Error>)
      requires Valid()
      ensures r.Ok? <==> name in accounts
      ensures r.Ok? ==> r.value == views[name] && r.value.name == name
      ensures r.Err? ==> r.error == NoSuchAccount
    {
      if name !in accounts {
        return Err(NoSuchAccount);
      }
      r := Ok(views[name]);
    }

    /**
     * Registers a new name; raises on a name already registered.  The row is
     * written with the given type and a `balance` column, so the new account's
     * opening balance is 0 whatever `balance` says.  The source's defaults
     * (`type='expense', balance=0.`) are explicit here: `open_account(name)` is
     * `OpenAccount(name, Some("expense"), 0)`.
     */
    method OpenAccount(name: string, accountType: Option<string>, balance: int) returns (r: Result<(), Error>)
      requires Valid()
      modifies this, db
      ensures Valid()
      ensures r.Err? <==> name in old(accounts)
      ensures r.Err? ==> r.error == DuplicateAccount
      ensures r.Err? ==> accounts == old(accounts) && views == old(views) && db.accounts == old(db.accounts)
      ensures r.Ok? ==> accounts == old(accounts) + {name}
      ensures r.Ok? ==> fresh(views[name]) && views == old(views)[name := views[name]]
      ensures r.Ok? ==> views[name].accountType == accountType && views[name].openingBalance == 0
      ensures r.Ok? ==> db.accounts == old(db.accounts)[name := AccountRow(accountType, Some(0), Some(balance))]
      ensures db.transactions == old(db.transactions)
      ensures old(Registered(db.transactions, accounts)) ==> Registered(db.transactions, accounts)
    {
      if name in accounts {
        return Err(DuplicateAccount);
      }
      ghost var before := views;
      db.accounts := db.accounts[name := AccountRow(accountType, None, Some(balance))];
      accounts := accounts + {name};
      var account := new Account(name, db);
      views := views[name := account];
      forall n | n in views
        ensures views[n].name == n && views[n].db == db && views[n].Valid()
      {
        if n != name {
          assert views[n] == before[n] && n in before;
          assert db.accounts[n] == old(db.accounts[n]);
        }
      }
      assert db.accounts == old(db.accounts)[name := AccountRow(accountType, Some(0), Some(balance))];
      r := Ok(());
    }

    /**
     * Records one transfer.  Each endpoint must be an `Account` object or a
     * registered name; the source is checked first.  On success exactly one
     * transaction is appended (description '' when none is given, the next
     * id, `now` as creation time); on failure nothing changes.
     */
    method Transfer(amount: int, source: Endpoint, destination: Endpoint,
                    description: Option<string>, date: DateArg, now: int)
      returns (r: Result<Transaction, Error>)
      requires Valid()
      modifies db
      ensures Valid() && db.accounts == old(db.accounts)
      ensures r.Ok? <==> && Resolve(source, accounts).Ok?
                         && Resolve(destination, accounts).Ok?
                         && StoredDate(date, destination, now).Ok?
      ensures r.Err? ==> db.transactions == old(db.transactions)
      ensures r.Err? ==> r.error == if Resolve(source, accounts).Err? then Resolve(source, accounts).error
                                    else if Resolve(destination, accounts).Err? then Resolve(destination, accounts).error
                                    else StoredDate(date, destination, now).error
      ensures r.Ok? ==> db.transactions == old(db.transactions) + [r.value]
      ensures r.Ok? ==> forall u :: u in old(db.transactions) ==> u.id < r.value.id
      ensures r.Ok? ==> r.value == Transaction(MaxId(old(db.transactions)) + 1,
                                               Resolve(source, accounts).value, Resolve(destination, accounts).value,
                                               amount, description.GetOr(""),
                                               StoredDate(date, destination, now).value, now)
      ensures old(Registered(db.transactions, accounts)) && FromLedger(source, accounts) && FromLedger(destination, accounts)
              ==> Registered(db.transactions, accounts)
    {
      var text := if description.None? then "" else description.value;

      var src: string;
      match source {
        case AccountObject(a) =>
          src := a.name;
        case AccountName(n) =>
          if n !in accounts {
            return Err(UnknownEndpoint(n));
          }
          src := n;
        case OtherValue =>
          return Err(InvalidEndpoint);
      }

      var dst: string;
      match destination {
        case AccountObject(a) =>
          dst := a.name;
        case AccountName(n) =>
          if n !in accounts {
            return Err(UnknownEndpoint(n));
          }
          dst := n;
        case OtherValue =>
          return Err(InvalidEndpoint);
      }

      var stored: Option<int>;
      match date {
        case DateTime(d) =>
          stored := Some(d);
        case DateText(parsed) =>
          // the source tests the destination's type here, not the date's
          if destination.AccountName? {
            if parsed.None? {
              return Err(InvalidDate);
            }
            stored := parsed;
          } else {
            stored := None;
          }
        case NoDate =>
          stored := Some(now);
      }

      var t := Transaction(MaxId(db.transactions) + 1, src, dst, amount, text, stored, now);
      db.transactions := db.transactions + [t];
      r := Ok(t);
    }

    /** `a_by_t[self[a].type]` finds a list: the account's type is an allowed one. */
    ghost predicate WellTyped(a: string)
      reads this, views.Values
    {
      a in views && views[a].accountType.Some? && views[a].accountType.value in AllowedTypes
    }

    /**
     * The roster section for type `t`: the accounts of that type, each once,
     * sorted by name, each shown with its display balance.
     */
    ghost predicate Lists(g: Group, t: string)
      reads this, db, views.Values
    {
      && g.accountType == t
      && Strings.Sorted(Names(g.entries))
      && Strings.Distinct(Names(g.entries))
      && (forall a :: a in Names(g.entries) <==> a in views && views[a].accountType == Some(t))
      && forall i :: 0 <= i < |g.entries| ==> Shows(g.entries[i])
    }

    /** A roster entry: a registered account with transactions, shown with its display balance. */
    ghost predicate Shows(e: Entry)
      reads this, db, views.Values
    {
      && e.name in views
      && HasTransactions(db.transactions, e.name)
      && e.balance == DisplaySign(true, views[e.name].accountType)
                      * (views[e.name].openingBalance - Outflow(e.name, db.transactions) + Inflow(e.name, db.transactions))
    }

    /**
     * The first loop of `repr(ledger)`: files every account under its type.
     * Raises KeyError when some account's type is not one of the allowed ones.
     */
    method ByType() returns (r: Result<map<string, seq<string>>, Error>)
      requires Valid()
      ensures r.Err? <==> exists a :: a in accounts && !WellTyped(a)
      ensures r.Err? ==> r.error == KeyError
      ensures r.Ok? ==> forall t :: t in r.value <==> t in AllowedTypes
      ensures r.Ok? ==> forall t :: t in r.value ==> Strings.Distinct(r.value[t])
      ensures r.Ok? ==> forall t, a :: t in r.value ==>
                          (a in r.value[t] <==> a in views && views[a].accountType == Some(t))
    {
      var types := map a | a in views :: views[a].accountType;
      r := FileByType(types);
      forall a | a in accounts
        ensures WellTyped(a) <==> Allowed(types[a])
      {
        assert types[a] == views[a].accountType;
      }
      if r.Ok? {
        forall u, x | u in r.value
          ensures x in r.value[u] <==> x in views && views[x].accountType == Some(u)
        {
          assert x in r.value[u] <==> x in types && types[x] == Some(u);
          if x in views {
            assert types[x] == views[x].accountType;
          }
        }
      }
    }

    lemma ViewOf(a: string)
      requires Valid() && a in views
      ensures views[a].name == a && views[a].db == db && views[a].Valid()
    {
    }

    /**
     * One section of `repr(ledger)`: the given accounts of type `t`, sorted,
     * each with `balance()`.  Raises IndexError when one of them has no
     * transaction.
     */
    method Section(t: string, members: seq<string>) returns (r: Result<Group, Error>)
      requires Valid()
      requires Strings.Distinct(members)
      requires forall a :: a in members <==> a in views && views[a].accountType == Some(t)
      ensures r.Err? <==> exists a :: a in members && !HasTransactions(db.transactions, a)
      ensures r.Err? ==> r.error == IndexError
      ensures r.Ok? ==> Lists(r.value, t)
    {
      var names := Strings.SortStrings(members);
      Strings.SortStringsSorted(members);
      Strings.SortStringsDistinct(members);
      var entries: seq<Entry> := [];
      for i := 0 to |names|
        invariant |entries| == i
        invariant forall k :: 0 <= k < i ==> entries[k].name == names[k] && Shows(entries[k])
      {
        var a := names[i];
        if !HasTransactions(db.transactions, a) {
          return Err(IndexError);
        }
        assert a in members && a in views;
        var account := views[a];
        ViewOf(a);
        var balance := account.Balance(true);
        assert balance == DisplaySign(true, views[a].accountType)
                          * (views[a].openingBalance - Outflow(a, db.transactions) + Inflow(a, db.transactions));
        assert Shows(Entry(a, balance));
        entries := entries + [Entry(a, balance)];
      }
      assert Names(entries) == names;
      r := Ok(Group(t, entries));
    }

    /**
     * `repr(ledger)`: one section per allowed type, in the fixed order.  Raises
     * KeyError when some account's type is not allowed, otherwise IndexError
     * when some account has no transaction.
     */
    method Roster() returns (r: Result<seq<Group>, Error>)
      requires Valid()
      ensures r.Err? <==> || (exists a :: a in accounts && !WellTyped(a))
                          || (exists a :: a in accounts && !HasTransactions(db.transactions, a))
      ensures r.Err? ==> r.error == if exists a :: a in accounts && !WellTyped(a) then KeyError else IndexError
      ensures r.Ok? ==> && |r.value| == |AllowedTypes|
                        && forall g :: 0 <= g < |AllowedTypes| ==> Lists(r.value[g], AllowedTypes[g])
    {
      var filed := ByType();
      if filed.Err? {
        return Err(KeyError);
      }
      var byType := filed.value;
      var groups: seq<Group> := [];
      for g := 0 to |AllowedTypes|
        invariant |groups| == g
        invariant forall h :: 0 <= h < g ==> Lists(groups[h], AllowedTypes[h])
      {
        var section := Section(AllowedTypes[g], byType[AllowedTypes[g]]);
        if section.Err? {
          return Err(IndexError);
        }
        groups := groups + [section.value];
      }
      Listed(groups);
      r := Ok(groups);
    }

    /** When every account is well typed, the four sections list every account. */
    lemma Listed(groups: seq<Group>)
      requires Valid()
      requires forall a :: a in accounts ==> WellTyped(a)
      requires |groups| == |AllowedTypes| && forall g :: 0 <= g < |AllowedTypes| ==> Lists(groups[g], AllowedTypes[g])
      ensures forall a :: a in accounts ==> exists g :: 0 <= g < |groups| && a in Names(groups[g].entries)
      ensures forall a :: a in accounts ==> HasTransactions(db.transactions, a)
    {
      forall a | a in accounts
        ensures (exists g :: 0 <= g < |groups| && a in Names(groups[g].entries)) && HasTransactions(db.transactions, a)
      {
        var t := views[a].accountType.value;
        var g :| 0 <= g < |AllowedTypes| && AllowedTypes[g] == t;
        var names := Names(groups[g].entries);
        assert a in names;
        var i :| 0 <= i < |names| && names[i] == a;
      }
    }
  }
}
