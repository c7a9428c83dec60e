/**
 * Worked examples over the model: opening an account, a grocery payment and
 * the balances it leaves, how a date string is stored, and a card payment
 * picked up by a keyword rule.  Amounts are in cents, dates are day numbers.
 */
module Scenarios {
  import opened Wrappers
  import opened Database
  import opened Accounting
  import FromCsv
  import Strings

  /**
   * Opening `bank` with a balance of 1000.00 stores the amount in the row's
   * `balance` column and leaves the opening balance at 0; opening it again
   * is refused.
   */
  method OpenAccountScenario() returns (opening: int, stored: Option<int>, again: Result<(), Error>)
    ensures opening == 0 && stored == Some(100000)
    ensures again == Err(DuplicateAccount)
  {
    var db := new Db(map[], []);
    var ledger := new Ledger(db);
    var result := ledger.OpenAccount("bank", Some("bank"), 100000);
    assert result.Ok?;
    opening := ledger.views["bank"].openingBalance;
    stored := db.accounts["bank"].balance;
    again := ledger.OpenAccount("bank", Some("bank"), 0);
  }

  /**
   * Paying 50.25 from `bank` to `groceries`, both opened with a zero opening
   * balance: `bank` shows -50.25 and `groceries` 50.25; once `bank`'s opening
   * balance is set to 1000.00 it shows 949.75.
   */
  method PaymentScenario(db: Db, ledger: Ledger) returns (bankShown: int, groceriesShown: int, bankReopened: int)
    requires ledger.Valid() && ledger.db == db && ledger.accounts == {"bank", "groceries"} && db.transactions == []
    requires ledger.views["bank"].openingBalance == 0 && ledger.views["bank"].accountType == Some("bank")
    requires ledger.views["groceries"].openingBalance == 0 && ledger.views["groceries"].accountType == Some("expense")
    modifies db, ledger.views.Values
    ensures bankShown == -5025 && groceriesShown == 5025 && bankReopened == 94975
  {
    var paid := ledger.Transfer(5025, AccountName("bank"), AccountName("groceries"), None, DateText(Some(19732)), 19740);
    assert paid.Ok?;
    var t := paid.value;
    assert db.transactions == [t];
    assert t.source == "bank" && t.destination == "groceries";
    assert "bank" != "groceries" by { assert "bank"[0] != "groceries"[0]; }
    assert t.destination != "bank" && t.source != "groceries";
    assert t.amount == 5025 && [t][1..] == [];
    assert Inflow("bank", [t][1..]) == 0 && Outflow("bank", [t][1..]) == 0;
    assert Outflow("bank", [t]) == 5025 && Inflow("bank", [t]) == 0;
    assert Inflow("groceries", [t][1..]) == 0 && Outflow("groceries", [t][1..]) == 0;
    assert Outflow("groceries", [t]) == 0 && Inflow("groceries", [t]) == 5025;

    var bank := ledger.views["bank"];
    var groceries := ledger.views["groceries"];
    assert bank.name == "bank" && groceries.name == "groceries" && bank.db == db && groceries.db == db;
    assert t in db.transactions && Touches(t, "bank") && Touches(t, "groceries");
    bankShown := bank.Balance(true);
    groceriesShown := groceries.Balance(true);
    bank.SetOpeningBalance(100000);
    bankReopened := bank.Balance(true);
  }

  /**
   * A date string is kept when the destination is given by name and dropped
   * when it is given as an `Account`; an unregistered name is refused.
   */
  method DateScenario(db: Db, ledger: Ledger)
    returns (byObject: Result<Transaction, Error>, byName: Result<Transaction, Error>, unknown: Result<Transaction, Error>)
    requires ledger.Valid() && ledger.db == db && ledger.accounts == {"bank", "groceries"}
    modifies db
    ensures byObject.Ok? && byObject.value.date == None
    ensures byName.Ok? && byName.value.date == Some(19733)
    ensures unknown == Err(UnknownEndpoint("cash"))
  {
    assert "cash" !in ledger.accounts by {
      assert "cash"[0] != "bank"[0] && "cash"[0] != "groceries"[0];
    }
    assert Resolve(AccountName("cash"), ledger.accounts) == Err(UnknownEndpoint("cash"));
    var groceries := ledger.views["groceries"];
    assert groceries.name == "groceries";
    byObject := ledger.Transfer(1000, AccountName("bank"), AccountObject(groceries), None, DateText(Some(19733)), 19740);
    byName := ledger.Transfer(1000, AccountName("bank"), AccountName("groceries"), None, DateText(Some(19733)), 19740);
    unknown := ledger.Transfer(1, AccountName("cash"), AccountName("bank"), None, NoDate, 19740);
  }

  /** The rule `[coop]` sends "COOP ZURICH" to `groceries`, whatever the type cell says. */
  lemma CoopRule(text: string, kind: Option<string>, rules: seq<FromCsv.Rule>)
    requires text == "COOP ZURICH" && rules == [FromCsv.Rule(["coop"], [], "groceries")]
    ensures FromCsv.Destination(Some(text), kind, rules) == "groceries"
  {
    var low := Strings.Lower(text);
    assert low[0..4] == "coop" by {
      assert text[0] == 'C' && text[1] == 'O' && text[2] == 'O' && text[3] == 'P';
      assert low[0] == 'c' && low[1] == 'o' && low[2] == 'o' && low[3] == 'p';
    }
    assert Strings.OccursAt("coop", low, 0);
    assert FromCsv.FirstMatch(Some(text), kind, rules) == 0;
  }

  /** A 12.50 debit for "COOP ZURICH" is sent to `groceries` by the rule `[coop]`. */
  lemma CoopScenario(text: string, rules: seq<FromCsv.Rule>)
    requires text == "COOP ZURICH" && rules == [FromCsv.Rule(["coop"], [], "groceries")]
    ensures FromCsv.Import([FromCsv.CsvRow(19732, Some(text), Some("Einkauf"), Some(1250))], rules, None)
         == [FromCsv.Request("visa_credit_card", "groceries", 1250, "COOP ZURICH Einkauf", 19732)]
  {
    var row := FromCsv.CsvRow(19732, Some(text), Some("Einkauf"), Some(1250));
    CoopRule(text, row.kind, rules);
    assert !FromCsv.Skipped(row, None);
    assert FromCsv.Show(row.text) + " " + FromCsv.Show(row.kind) == "COOP ZURICH Einkauf";
    FromCsv.RequestFields(row, rules);
    FromCsv.ImportOne(row, rules, None);
  }
}
