/**
 * The two tables of the ledger's sqlite file, and the one query the
 * accounting code runs against them:
 *
 *   SELECT * FROM transactions
 *   WHERE source == name OR destination == name ORDER BY date
 *
 * Money is in integer cents.  A date is an integer timestamp on one scale,
 * at whatever resolution the caller chooses.  A NULL date sorts
 * before every date, as in sqlite.  Rows with equal dates keep the order in
 * which they were inserted.
 */
module Database {
  import opened Wrappers

  /** One row of the `transactions` table; `id` is the table's auto-increment key. */
  datatype Transaction = Transaction(
    id: nat,
    source: string,
    destination: string,
    amount: int,
    description: string,
    date: Option<int>,
    created: int)

  /**
   * One row of the `accounts` table (keyed by name).  `balance` is the column
   * that `open_account` writes; `opening_balance` is the one `Account` reads.
   */
  datatype AccountRow = AccountRow(accountType: Option<string>, openingBalance: Option<int>, balance: Option<int>)

  /** The open database: both tables, updated in place by the ledger and its accounts. */
  class Db {
    var accounts: map<string, AccountRow>
    var transactions: seq<Transaction>

    constructor (accounts: map<string, AccountRow>, transactions: seq<Transaction>)
      ensures this.accounts == accounts && this.transactions == transactions
    {
      this.accounts := accounts;
      this.transactions := transactions;
    }
  }

  /**
   * The largest id in the table, 0 when it is empty.  sqlite gives a new row
   * of an INTEGER PRIMARY KEY table this value plus one.
   */
  function MaxId(ts: seq<Transaction>): (m: nat)
    ensures ts == [] ==> m == 0
    ensures forall t :: t in ts ==> t.id <= m
    ensures ts != [] ==> exists t :: t in ts && t.id == m
  {
    if ts == [] then 0
    else
      var rest := MaxId(ts[1..]);
      if ts[0].id >= rest then ts[0].id else rest
  }

  predicate Touches(t: Transaction, name: string) {
    t.source == name || t.destination == name
  }

  /** The WHERE clause: the rows touching `name`, in table order. */
  function Touching(ts: seq<Transaction>, name: string): (r: seq<Transaction>)
    ensures forall t :: t in r <==> t in ts && Touches(t, name)
    ensures |r| <= |ts|
  {
    if ts == [] then []
    else (if Touches(ts[0], name) then [ts[0]] else []) + Touching(ts[1..], name)
  }

  /** ORDER BY on a nullable date column: NULL first, then ascending. */
  predicate DateLe(a: Option<int>, b: Option<int>) {
    a.None? || (b.Some? && a.value <= b.value)
  }

  predicate SortedByDate(s: seq<Transaction>) {
    forall i, j :: 0 <= i < j < |s| ==> DateLe(s[i].date, s[j].date)
  }

  function InsertByDate(t: Transaction, s: seq<Transaction>): seq<Transaction> {
    if s == [] || DateLe(t.date, s[0].date) then [t] + s else [s[0]] + InsertByDate(t, s[1..])
  }

  function SortByDate(s: seq<Transaction>): seq<Transaction> {
    if s == [] then [] else InsertByDate(s[0], SortByDate(s[1..]))
  }

  /** The query `Account.transactions` sends to the database. */
  function Query(ts: seq<Transaction>, name: string): seq<Transaction> {
    SortByDate(Touching(ts, name))
  }

  lemma {:induction false} InsertByDateSorted(t: Transaction, s: seq<Transaction>)
    requires SortedByDate(s)
    ensures SortedByDate(InsertByDate(t, s))
    ensures multiset(InsertByDate(t, s)) == multiset(s) + multiset{t}
  {
    if s == [] {
    } else if DateLe(t.date, s[0].date) {
    } else {
      InsertByDateSorted(t, s[1..]);
      var r := InsertByDate(t, s[1..]);
      forall u | u in r ensures DateLe(s[0].date, u.date) {
        assert u in multiset(r);
        if u != t {
          assert u in s[1..];
        }
      }
      assert s == [s[0]] + s[1..];
    }
  }

  lemma {:induction false} SortByDateSorted(s: seq<Transaction>)
    ensures SortedByDate(SortByDate(s))
    ensures multiset(SortByDate(s)) == multiset(s)
  {
    if s != [] {
      SortByDateSorted(s[1..]);
      InsertByDateSorted(s[0], SortByDate(s[1..]));
      assert s == [s[0]] + s[1..];
    }
  }

  /**
   * The query returns exactly the stored transactions that touch `name`
   * (each as often as it is stored), in non-decreasing date order.
   */
  lemma QueryExact(ts: seq<Transaction>, name: string)
    ensures SortedByDate(Query(ts, name))
    ensures multiset(Query(ts, name)) == multiset(Touching(ts, name))
    ensures |Query(ts, name)| == |Touching(ts, name)|
    ensures forall t :: t in Query(ts, name) <==> t in ts && Touches(t, name)
  {
    SortByDateSorted(Touching(ts, name));
    var q := Query(ts, name);
    assert |multiset(q)| == |q|;
    forall t ensures t in q <==> t in ts && Touches(t, name) {
      assert t in q <==> t in multiset(q);
    }
  }
}
