/** The CSV import block: each row the CSV reader yields is normalised
    (header names trimmed and lower-cased, values trimmed), mapped onto the
    lead fields with `or`-fallbacks, and upserted when its e-mail is not
    empty; accepted rows are counted. */
module CsvImport {
  import opened Text
  import opened Values
  import opened LeadStore

  /** One row as the CSV reader yields it: its (header, value) items in
      column order. A value is None where the row is shorter than the
      header line. Cells beyond the header line have no string header and
      cannot be written as a `Row`. */
  type Row = seq<(string, Option<string>)>

  /** A normalised row: trimmed, lower-cased header to trimmed value. */
  type NormRow = map<string, Option<string>>

  function NormKey(k: string): string {
    Lower(Trim(k))
  }

  function NormValue(v: Option<string>): (r: Option<string>)
    ensures r.Some? <==> v.Some?
    ensures v.Some? ==> r.value == Trim(v.value)
  {
    if v.Some? then Some(Trim(v.value)) else None
  }

  /** The row's items with their headers and values normalised. */
  function NormItems(row: Row): (r: Row)
    ensures |r| == |row|
    ensures forall i :: 0 <= i < |row| ==> r[i] == (NormKey(row[i].0), NormValue(row[i].1))
  {
    seq(|row|, i requires 0 <= i < |row| => (NormKey(row[i].0), NormValue(row[i].1)))
  }

  /** A dictionary built from items in order: when a key repeats, the later
      item wins. */
  function ToDict(items: Row): (d: NormRow)
    decreases |items|
  {
    if items == [] then map[]
    else
      var n := |items| - 1;
      ToDict(items[..n])[items[n].0 := items[n].1]
  }

  /** The value a key ends with is that of the last item carrying it. */
  lemma {:induction false} ToDictLastWins(items: Row, i: nat)
    requires i < |items|
    requires forall j :: i < j < |items| ==> items[j].0 != items[i].0
    ensures items[i].0 in ToDict(items) && ToDict(items)[items[i].0] == items[i].1
    decreases |items|
  {
    var n := |items| - 1;
    if i < n {
      var init := items[..n];
      assert init[i] == items[i];
      forall j | i < j < |init| ensures init[j].0 != init[i].0 {
        assert init[j] == items[j];
      }
      ToDictLastWins(init, i);
    }
  }

  /** The dictionary comprehension over the row's items. */
  function Normalize(row: Row): NormRow {
    ToDict(NormItems(row))
  }

  /** When two headers normalise to the same key, the later one wins. */
  lemma NormalizeLastWins(row: Row, i: nat)
    requires i < |row|
    requires forall j :: i < j < |row| ==> NormKey(row[j].0) != NormKey(row[i].0)
    ensures NormKey(row[i].0) in Normalize(row) && Normalize(row)[NormKey(row[i].0)] == NormValue(row[i].1)
  {
    ToDictLastWins(NormItems(row), i);
  }

  /** `norm.get(key)`: None when the key is absent or its value is None. */
  function Field(norm: NormRow, key: string): (v: Value)
    ensures v.VNone? || v.VStr?
    ensures v.VStr? <==> key in norm && norm[key].Some?
  {
    if key in norm && norm[key].Some? then VStr(norm[key].value) else VNone
  }

  /** The budget text of a row can be read as a whole number: empty, absent,
      or digits only. */
  predicate BudgetReadable(norm: NormRow) {
    var b := Field(norm, "budget");
    !Truthy(b) || AllDigits(b.s)
  }

  /** `float(norm.get("budget") or 0)` for a readable budget. */
  function BudgetValue(norm: NormRow): (v: Value)
    requires BudgetReadable(norm)
    ensures v.VNum? && v.n >= 0
    ensures !Truthy(Field(norm, "budget")) ==> v == VNum(0)
    ensures Truthy(Field(norm, "budget")) ==> v == VNum(DigitsValue(Field(norm, "budget").s))
  {
    var b := Field(norm, "budget");
    if Truthy(b) then VNum(DigitsValue(b.s)) else VNum(0)
  }

  /** The lead a normalised row becomes, stamped with `now`. */
  function ImportedLead(norm: NormRow, now: string): (lead: Lead)
    requires BudgetReadable(norm)
    ensures lead.Keys == {"Name", "Email", "Company", "UseCase", "Budget", "Phone", "Status", "LastActionAt"}
    ensures lead["Status"] == VStr("New") && lead["LastActionAt"] == VStr(now)
    ensures lead["Name"].VStr? && lead["Email"].VStr?
    ensures Truthy(Field(norm, "email")) ==> lead["Email"] == Field(norm, "email")
    ensures !Truthy(Field(norm, "email")) ==> lead["Email"] == VStr("")
    ensures lead["Company"] == Field(norm, "company")
    ensures lead["Budget"] == BudgetValue(norm)
  {
    map[
      "Name" := Or(Or(Field(norm, "name"), Field(norm, "prospect")), VStr("")),
      "Email" := Or(Field(norm, "email"), VStr("")),
      "Company" := Field(norm, "company"),
      "UseCase" := Or(Field(norm, "usecase"), Field(norm, "automationneed")),
      "Budget" := BudgetValue(norm),
      "Phone" := Or(Field(norm, "phone"), VNone),
      "Status" := VStr("New"),
      "LastActionAt" := VStr(now)
    ]
  }

  /** Every row has a readable budget. */
  predicate Readable(rows: seq<Row>) {
    forall i :: 0 <= i < |rows| ==> BudgetReadable(Normalize(rows[i]))
  }

  /** The row passes the `if lead["Email"]` guard. */
  predicate HasEmail(row: Row) {
    Truthy(Field(Normalize(row), "email"))
  }

  /** The imported lead has a non-empty store key exactly when the row
      gave a non-empty e-mail. */
  lemma ImportedKey(norm: NormRow, now: string)
    requires BudgetReadable(norm)
    ensures EmailKey(ImportedLead(norm, now)) != "" <==> Truthy(Field(norm, "email"))
  {
    var lead := ImportedLead(norm, now);
    assert Get(lead, "Email") == lead["Email"];
  }

  /** The leads the import upserts, in row order: one per row with a
      non-empty e-mail. */
  function Accepted(rows: seq<Row>, now: string): (r: seq<Lead>)
    requires Readable(rows)
    ensures |r| <= |rows|
    ensures forall j :: 0 <= j < |r| ==> EmailKey(r[j]) != ""
    decreases |rows|
  {
    if rows == [] then []
    else
      var n := |rows| - 1;
      assert forall i :: 0 <= i < n ==> rows[..n][i] == rows[i];
      var init := Accepted(rows[..n], now);
      if HasEmail(rows[n]) then
        var norm := Normalize(rows[n]);
        ImportedKey(norm, now);
        init + [ImportedLead(norm, now)]
      else init
  }

  /** The indices of the rows the import accepts. */
  ghost function AcceptedRows(rows: seq<Row>): set<nat> {
    set i: nat | i < |rows| && HasEmail(rows[i])
  }

  lemma AcceptedRowsSplit(rows: seq<Row>)
    requires rows != []
    ensures var n := |rows| - 1;
      var small := AcceptedRows(rows[..n]);
      && n !in small
      && AcceptedRows(rows) == small + (if HasEmail(rows[n]) then {n} else {})
  {
    var n := |rows| - 1;
    var init := rows[..n];
    var small := AcceptedRows(init);
    var big := AcceptedRows(rows);
    forall i: nat ensures i in big - {n} <==> i in small {
      if i < n {
        assert init[i] == rows[i];
      }
    }
  }

  /** The count the import reports is the number of rows with a non-empty
      e-mail. */
  lemma {:induction false} AcceptedCount(rows: seq<Row>, now: string)
    requires Readable(rows)
    ensures |Accepted(rows, now)| == |AcceptedRows(rows)|
    decreases |rows|
  {
    if rows != [] {
      var n := |rows| - 1;
      var init := rows[..n];
      assert forall i :: 0 <= i < n ==> init[i] == rows[i];
      AcceptedCount(init, now);
      AcceptedRowsSplit(rows);
      if HasEmail(rows[n]) {
        assert |Accepted(rows, now)| == |Accepted(init, now)| + 1;
      } else {
        assert Accepted(rows, now) == Accepted(init, now);
      }
    }
  }

  /** A row without an e-mail never reaches the store: the accepted leads
      of a row list are those of the rows before it. */
  lemma SkipsEmptyEmail(rows: seq<Row>, row: Row, now: string)
    requires Readable(rows + [row]) && !HasEmail(row)
    ensures Readable(rows)
    ensures Accepted(rows + [row], now) == Accepted(rows, now)
  {
    assert forall i :: 0 <= i < |rows| ==> (rows + [row])[i] == rows[i];
    assert (rows + [row])[..|rows|] == rows;
  }

  /** `Name` falls back from `name` to `prospect` to "". */
  lemma NameFallback(norm: NormRow, now: string)
    requires BudgetReadable(norm)
    ensures var name := ImportedLead(norm, now)["Name"];
      && (Truthy(Field(norm, "name")) ==> name == Field(norm, "name"))
      && (!Truthy(Field(norm, "name")) && Truthy(Field(norm, "prospect")) ==> name == Field(norm, "prospect"))
      && (!Truthy(Field(norm, "name")) && !Truthy(Field(norm, "prospect")) ==> name == VStr(""))
  {
  }

  /** `UseCase` falls back from `usecase` to `automationneed`, and stays None
      when neither is given; a given phone is stored as is and an empty one
      as None. */
  lemma UseCaseAndPhone(norm: NormRow, now: string)
    requires BudgetReadable(norm)
    ensures var lead := ImportedLead(norm, now);
      && (Truthy(Field(norm, "usecase")) ==> lead["UseCase"] == Field(norm, "usecase"))
      && (!Truthy(Field(norm, "usecase")) ==> lead["UseCase"] == Field(norm, "automationneed"))
      && (Truthy(Field(norm, "phone")) ==> lead["Phone"] == Field(norm, "phone"))
      && (!Truthy(Field(norm, "phone")) ==> lead["Phone"] == VNone)
  {
  }

  /** Header names are matched after trimming and lower-casing: spaces
      around a header and its letter case do not matter. */
  lemma PaddedHeaderKey(a: string, h: string, b: string)
    requires forall i :: 0 <= i < |a| ==> IsSpace(a[i])
    requires forall i :: 0 <= i < |b| ==> IsSpace(b[i])
    requires h != [] && !IsSpace(h[0]) && !IsSpace(h[|h| - 1])
    ensures NormKey(a + h + b) == Lower(h)
  {
    TrimPadded(a, h, b);
  }

  /** A row is accepted through the last column whose header normalises to
      "email" and whose value is not blank once trimmed; the lead's e-mail is
      that trimmed value. */
  lemma EmailColumnAccepted(row: Row, i: nat)
    requires i < |row| && NormKey(row[i].0) == "email"
    requires forall j :: i < j < |row| ==> NormKey(row[j].0) != "email"
    requires row[i].1.Some? && Trim(row[i].1.value) != ""
    ensures HasEmail(row)
    ensures Field(Normalize(row), "email") == VStr(Trim(row[i].1.value))
  {
    NormalizeLastWins(row, i);
  }

  /** A row whose "email" column is blank once trimmed is skipped. */
  lemma BlankEmailSkipped(row: Row, i: nat)
    requires i < |row| && NormKey(row[i].0) == "email"
    requires forall j :: i < j < |row| ==> NormKey(row[j].0) != "email"
    requires row[i].1.None? || Trim(row[i].1.value) == ""
    ensures !HasEmail(row)
  {
    NormalizeLastWins(row, i);
  }
}
