/**
 * The UBS Visa importer of `from_csv.py`: keyword rules that pick the
 * destination account of a card payment, and the per-row loop that turns the
 * card statement into transfer requests for the ledger.
 *
 * A CSV cell that pandas reads as NaN is `None`; the purchase date is the
 * integer timestamp it parses to (on the ledger's date scale, midnight of
 * that day); the debit is in integer cents.
 */
module FromCsv {
  import opened Wrappers
  import opened Strings

  /** One entry of the rule file: words to find in the text and in the type, and the account. */
  datatype Rule = Rule(inText: seq<string>, inType: seq<string>, to: string)

  /** The columns of one statement row that the importer reads. */
  datatype CsvRow = CsvRow(datePurchase: int, text: Option<string>, kind: Option<string>, debit: Option<int>)

  /** One transfer request written to the output file. */
  datatype Request = Request(from: string, to: string, amount: int, description: string, date: int)

  const CardAccount: string := "visa_credit_card"
  const Unassigned: string := "<TBA>"
  const BalanceReport: string := "Report de solde"

  /** The `for word in …: if word not in s: return False` loop. */
  function AllIn(words: seq<string>, s: string): (b: bool)
    ensures b <==> forall k :: 0 <= k < |words| ==> Contains(s, words[k])
  {
    if words == [] then true
    else if !Contains(s, words[0]) then false
    else AllIn(words[1..], s)
  }

  /**
   * `match(text, typ, rule)`: every `in_text` word occurs in the lower-cased
   * text and every `in_type` word in the lower-cased type; a NaN cell skips
   * its check.  The rule words themselves are not lower-cased.
   */
  function Match(text: Option<string>, kind: Option<string>, rule: Rule): (b: bool)
    ensures b <==> && (text.None? || forall k :: 0 <= k < |rule.inText| ==> Contains(Lower(text.value), rule.inText[k]))
                   && (kind.None? || forall k :: 0 <= k < |rule.inType| ==> Contains(Lower(kind.value), rule.inType[k]))
  {
    && (text.None? || AllIn(rule.inText, Lower(text.value)))
    && (kind.None? || AllIn(rule.inType, Lower(kind.value)))
  }

  /** A rule with no words matches every row. */
  lemma EmptyRuleMatches(text: Option<string>, kind: Option<string>, to: string)
    ensures Match(text, kind, Rule([], [], to))
  {
  }

  /**
   * A rule word with an upper-case letter never matches a text that is
   * present, since the text is lower-cased and the word is not.
   */
  lemma UpperCaseWordNeverMatches(text: string, kind: Option<string>, rule: Rule, k: nat, i: nat)
    requires k < |rule.inText| && i < |rule.inText[k]| && IsUpper(rule.inText[k][i])
    ensures !Match(Some(text), kind, rule)
  {
    var w, s := rule.inText[k], Lower(text);
    forall j ensures !OccursAt(w, s, j) {
      if 0 <= j && j + |w| <= |s| {
        assert s[j..j + |w|][i] == s[j + i];
      }
    }
  }

  /**
   * The same for the type cell: an `in_type` word with an upper-case letter
   * never matches a type that is present, since the type is lower-cased.
   */
  lemma UpperCaseTypeWordNeverMatches(text: Option<string>, kind: string, rule: Rule, k: nat, i: nat)
    requires k < |rule.inType| && i < |rule.inType[k]| && IsUpper(rule.inType[k][i])
    ensures !Match(text, Some(kind), rule)
  {
    var w, s := rule.inType[k], Lower(kind);
    forall j ensures !OccursAt(w, s, j) {
      if 0 <= j && j + |w| <= |s| {
        assert s[j..j + |w|][i] == s[j + i];
      }
    }
  }

  /** Index of the first rule that matches, `|rules|` when none does. */
  function FirstMatch(text: Option<string>, kind: Option<string>, rules: seq<Rule>): (k: nat)
    ensures k <= |rules|
    ensures k < |rules| ==> Match(text, kind, rules[k])
    ensures forall j :: 0 <= j < k ==> !Match(text, kind, rules[j])
  {
    if rules == [] then 0
    else if Match(text, kind, rules[0]) then 0
    else 1 + FirstMatch(text, kind, rules[1..])
  }

  /** The `to` of the first matching rule, or `<TBA>`. */
  function Destination(text: Option<string>, kind: Option<string>, rules: seq<Rule>): string {
    var k := FirstMatch(text, kind, rules);
    if k < |rules| then rules[k].to else Unassigned
  }

  /**
   * The destination is the `to` of a matching rule preceded only by rules
   * that do not match; it is `<TBA>` exactly when no rule matches (or one
   * that matches names `<TBA>` itself).
   */
  lemma DestinationIsFirstMatch(text: Option<string>, kind: Option<string>, rules: seq<Rule>, k: nat)
    requires k < |rules| && Match(text, kind, rules[k])
    requires forall j :: 0 <= j < k ==> !Match(text, kind, rules[j])
    ensures Destination(text, kind, rules) == rules[k].to
  {
  }

  lemma DestinationWithoutMatch(text: Option<string>, kind: Option<string>, rules: seq<Rule>)
    requires forall j :: 0 <= j < |rules| ==> !Match(text, kind, rules[j])
    ensures Destination(text, kind, rules) == Unassigned
  {
  }

  /** Python's `'{}'.format(cell)`: NaN prints as `nan`. */
  function Show(cell: Option<string>): string {
    if cell.None? then "nan" else cell.value
  }

  /** The three `continue`s of the row loop. */
  predicate Skipped(row: CsvRow, startDate: Option<int>)
  {
    || (startDate.Some? && row.datePurchase < startDate.value)
    || row.debit.None?
    || row.text == Some(BalanceReport)
  }

  function RequestOf(row: CsvRow, rules: seq<Rule>): Request
    requires row.debit.Some?
  {
    Request(CardAccount, Destination(row.text, row.kind, rules), row.debit.value,
            Show(row.text) + " " + Show(row.kind), row.datePurchase)
  }

  /**
   * A row is kept exactly when it has a debit, is not the balance report,
   * and is not dated before the cut-off.
   */
  lemma Kept(row: CsvRow, startDate: Option<int>)
    ensures !Skipped(row, startDate) <==> && row.debit.Some?
                                          && row.text != Some(BalanceReport)
                                          && (startDate.None? || startDate.value <= row.datePurchase)
  {
  }

  /** The requests `ubs_visa` writes for `rows`. */
  function Import(rows: seq<CsvRow>, rules: seq<Rule>, startDate: Option<int>): seq<Request> {
    if rows == [] then []
    else (if Skipped(rows[0], startDate) then [] else [RequestOf(rows[0], rules)])
         + Import(rows[1..], rules, startDate)
  }

  /** Importing two parts of a statement gives the requests of the first part, then the second's. */
  lemma {:induction false} ImportAppend(a: seq<CsvRow>, b: seq<CsvRow>, rules: seq<Rule>, startDate: Option<int>)
    ensures Import(a + b, rules, startDate) == Import(a, rules, startDate) + Import(b, rules, startDate)
  {
    if a == [] {
      assert a + b == b;
    } else {
      assert (a + b)[0] == a[0];
      assert (a + b)[1..] == a[1..] + b;
      ImportAppend(a[1..], b, rules, startDate);
      var head := if Skipped(a[0], startDate) then [] else [RequestOf(a[0], rules)];
      var tail, rest := Import(a[1..], rules, startDate), Import(b, rules, startDate);
      assert Import(a + b, rules, startDate) == head + (tail + rest);
      assert head + (tail + rest) == (head + tail) + rest;
    }
  }

  /** A single row gives its request, or nothing when it is skipped. */
  lemma ImportOne(row: CsvRow, rules: seq<Rule>, startDate: Option<int>)
    ensures Import([row], rules, startDate) == if Skipped(row, startDate) then [] else [RequestOf(row, rules)]
  {
    assert [row][1..] == [];
  }

  /**
   * A request carries the card account as source, the first matching rule's
   * account as destination, the row's debit, its text and type joined by a
   * space, and its purchase date.
   */
  lemma RequestFields(row: CsvRow, rules: seq<Rule>)
    requires row.debit.Some?
    ensures RequestOf(row, rules).from == CardAccount
    ensures RequestOf(row, rules).to == Destination(row.text, row.kind, rules)
    ensures Some(RequestOf(row, rules).amount) == row.debit
    ensures RequestOf(row, rules).description == Show(row.text) + " " + Show(row.kind)
    ensures RequestOf(row, rules).date == row.datePurchase
  {
  }

  /** Every request is the request of some row that is not skipped. */
  lemma ImportOrigins(rows: seq<CsvRow>, rules: seq<Rule>, startDate: Option<int>, q: Request)
    requires q in Import(rows, rules, startDate)
    ensures exists row :: row in rows && !Skipped(row, startDate) && q == RequestOf(row, rules)
  {
    var row := ImportOrigin(rows, rules, startDate, q);
  }

  /** The row a request comes from. */
  lemma {:induction false} ImportOrigin(rows: seq<CsvRow>, rules: seq<Rule>, startDate: Option<int>, q: Request)
    returns (row: CsvRow)
    requires q in Import(rows, rules, startDate)
    ensures row in rows && !Skipped(row, startDate) && q == RequestOf(row, rules)
  {
    assert rows != [];
    var rest := Import(rows[1..], rules, startDate);
    if !Skipped(rows[0], startDate) && q == RequestOf(rows[0], rules) {
      row := rows[0];
    } else {
      assert q in rest;
      row := ImportOrigin(rows[1..], rules, startDate, q);
    }
  }

  /** Every row that is not skipped gives a request. */
  lemma {:induction false} ImportKeeps(rows: seq<CsvRow>, rules: seq<Rule>, startDate: Option<int>, i: nat)
    requires i < |rows| && !Skipped(rows[i], startDate)
    ensures RequestOf(rows[i], rules) in Import(rows, rules, startDate)
  {
    if i > 0 {
      ImportKeeps(rows[1..], rules, startDate, i - 1);
    }
  }

  /** The inner loop of `ubs_visa`: the first matching rule names the destination. */
  method FirstDestination(text: Option<string>, kind: Option<string>, rules: seq<Rule>) returns (destination: string)
    ensures destination == Destination(text, kind, rules)
  {
    destination := Unassigned;
    for k := 0 to |rules|
      invariant forall j :: 0 <= j < k ==> !Match(text, kind, rules[j])
    {
      if Match(text, kind, rules[k]) {
        DestinationIsFirstMatch(text, kind, rules, k);
        destination := rules[k].to;
        return;
      }
    }
    DestinationWithoutMatch(text, kind, rules);
  }

  /** `ubs_visa`'s row loop (file reading, date parsing and the YAML dump are not part of this model). */
  method UbsVisa(rows: seq<CsvRow>, rules: seq<Rule>, startDate: Option<int>) returns (requests: seq<Request>)
    ensures requests == Import(rows, rules, startDate)
  {
    requests := [];
    for i := 0 to |rows|
      invariant requests == Import(rows[..i], rules, startDate)
    {
      var fields := rows[i];
      ImportAppend(rows[..i], [fields], rules, startDate);
      assert rows[..i + 1] == rows[..i] + [fields];
      ImportOne(fields, rules, startDate);

      if startDate.Some? && fields.datePurchase < startDate.value {
        continue;
      }
      if fields.debit.None? {
        continue;
      }
      if fields.text == Some(BalanceReport) {
        continue;
      }

      var destination := FirstDestination(fields.text, fields.kind, rules);
      requests := requests + [Request(CardAccount, destination, fields.debit.value,
                                      Show(fields.text) + " " + Show(fields.kind), fields.datePurchase)];
    }
    assert rows[..|rows|] == rows;
  }
}
