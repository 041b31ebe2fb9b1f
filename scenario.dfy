/** A worked import-then-qualify run: one CSV row for Jane Doe with a budget
    of 15000, imported into an empty lead list and qualified against a
    threshold of 10000. */
module Scenario {
  import opened Text
  import opened Values
  import opened LeadStore
  import opened Lifecycle
  import opened CsvImport

  /** The row `name,email,budget` / `Jane Doe,jane@acme.com,15000`. */
  function JaneRow(): Row {
    [("name", Some("Jane Doe")), ("email", Some("jane@acme.com")), ("budget", Some("15000"))]
  }

  /** A header with no surrounding whitespace and no upper-case letter
      normalises to itself. */
  lemma PlainKey(h: string)
    requires h != [] && !IsSpace(h[0]) && !IsSpace(h[|h| - 1])
    requires forall i :: 0 <= i < |h| ==> !IsUpper(h[i])
    ensures NormKey(h) == h
  {
    TrimKeepsUnpadded(h);
    LowerOfLower(h);
  }

  /** The headers of the Jane Doe row normalise to themselves. */
  lemma EmailKeyName()
    ensures NormKey("email") == "email"
  {
    PlainKey("email");
  }

  lemma BudgetKey()
    ensures NormKey("budget") == "budget"
  {
    PlainKey("budget");
  }

  /** The digits 15000 read as fifteen thousand. */
  lemma BudgetDigits()
    ensures AllDigits("15000") && DigitsValue("15000") == 15000
  {
    assert "15000"[..4] == "1500" && "1500"[..3] == "150" && "150"[..2] == "15";
    assert "15"[..1] == "1" && "1"[..0] == "";
  }

  /** The e-mail column of `row` is column `ie` (the last one whose header
      normalises to "email") and holds a value that is not blank. */
  predicate EmailColumn(row: Row, ie: nat) {
    && ie < |row| && NormKey(row[ie].0) == "email"
    && (forall j :: ie < j < |row| ==> NormKey(row[j].0) != "email")
    && row[ie].1.Some? && Trim(row[ie].1.value) != ""
  }

  /** The budget column of `row` is column `ib` and holds digits only. */
  predicate BudgetColumn(row: Row, ib: nat) {
    && ib < |row| && NormKey(row[ib].0) == "budget"
    && (forall j :: ib < j < |row| ==> NormKey(row[j].0) != "budget")
    && row[ib].1.Some? && AllDigits(Trim(row[ib].1.value))
  }

  /** The lead such a row becomes, and its place as the only accepted lead. */
  lemma RowLead(row: Row, ie: nat, ib: nat, now: string)
    requires EmailColumn(row, ie) && BudgetColumn(row, ib)
    ensures BudgetReadable(Normalize(row)) && Readable([row]) && HasEmail(row)
    ensures var lead := ImportedLead(Normalize(row), now);
      && Accepted([row], now) == [lead]
      && lead["Email"] == VStr(Trim(row[ie].1.value))
      && lead["Budget"] == VNum(DigitsValue(Trim(row[ib].1.value)))
      && lead["Status"] == VStr("New")
  {
    EmailColumnAccepted(row, ie);
    NormalizeLastWins(row, ib);
    var rows := [row];
    assert rows[..0] == [];
  }

  /** Upserting one lead into an empty list gives that lead with its
      defaults filled in. */
  lemma UpsertIntoEmpty(lead: Lead, now: string)
    ensures UpsertAll([], [lead], now) == [WithDefaults(lead, now)]
  {
    var one := [lead];
    assert one[..0] == [];
    UpsertAppends([], lead, now);
  }

  /** A bulk run over one lead is that lead's own step. */
  lemma SingleRun(c: Lead, threshold: int, onlyPending: bool, now: string, ts: string)
    requires RunnableOn([c], onlyPending)
    ensures var run := QualifyRun([c], threshold, onlyPending, now, ts);
      var step := QualifyOne(c, threshold, onlyPending, now, ts);
      run.leads == [step.lead] && run.artifacts == step.artifacts
  {
    var one := [c];
    assert one[..0] == [];
  }

  /** "Auto-qualify imported leads" over a list holding one New lead whose
      budget reaches the threshold qualifies it and writes one call request
      to its e-mail. */
  lemma QualifyNewLead(c: Lead, threshold: int, now: string, ts: string)
    requires Get(c, "Status") == VStr("New") && BudgetIsNumber(c) && BudgetOf(c) >= threshold
    ensures RunnableOn([c], true)
    ensures var run := QualifyRun([c], threshold, true, now, ts);
      && |run.leads| == 1
      && Get(run.leads[0], "Status") == VStr("Qualified")
      && |run.artifacts| == 1
      && run.artifacts[0].CallRequestDoc?
      && run.artifacts[0].payload.leadEmail == Get(c, "Email")
  {
    assert RunnableOn([c], true);
    SingleRun(c, threshold, true, now, ts);
    var step := AutoQualifyStep(c, threshold, now, ts);
    assert step.artifacts[0] in step.artifacts;
  }

  /** Importing one row with an e-mail and a budget of at least the
      threshold into an empty list, then running "Auto-qualify imported
      leads", leaves one lead, Qualified, and exactly one call request,
      addressed to the row's e-mail. */
  lemma ImportThenQualify(row: Row, ie: nat, ib: nat, threshold: int, now: string, later: string, ts: string)
    requires EmailColumn(row, ie) && BudgetColumn(row, ib)
    requires DigitsValue(Trim(row[ib].1.value)) >= threshold
    ensures Readable([row])
    ensures var leads := UpsertAll([], Accepted([row], now), now);
      && |leads| == 1
      && RunnableOn(leads, true)
      && var run := QualifyRun(leads, threshold, true, later, ts);
      && |run.leads| == 1
      && Get(run.leads[0], "Status") == VStr("Qualified")
      && |run.artifacts| == 1
      && run.artifacts[0].CallRequestDoc?
      && run.artifacts[0].payload.leadEmail == VStr(Trim(row[ie].1.value))
  {
    RowLead(row, ie, ib, now);
    var lead := ImportedLead(Normalize(row), now);
    UpsertIntoEmpty(lead, now);
    var c := WithDefaults(lead, now);
    assert Get(c, "Status") == VStr("New") && Get(c, "Budget") == lead["Budget"];
    assert Get(c, "Email") == lead["Email"];
    QualifyNewLead(c, threshold, later, ts);
  }

  /** The Jane Doe row's e-mail column is column 1. */
  lemma JaneEmailColumn()
    ensures EmailColumn(JaneRow(), 1) && Trim(JaneRow()[1].1.value) == "jane@acme.com"
  {
    EmailKeyName();
    BudgetKey();
    TrimKeepsUnpadded("jane@acme.com");
  }

  /** The Jane Doe row's budget column is column 2 and reads 15000. */
  lemma JaneBudgetColumn()
    ensures BudgetColumn(JaneRow(), 2) && DigitsValue(Trim(JaneRow()[2].1.value)) == 15000
  {
    BudgetKey();
    TrimKeepsUnpadded("15000");
    BudgetDigits();
  }

  /** The row `name,email,budget` / `Jane Doe,jane@acme.com,15000` meets
      the conditions of `ImportThenQualify` with a threshold of 10000. */
  lemma JaneRowMeetsThreshold()
    ensures EmailColumn(JaneRow(), 1) && BudgetColumn(JaneRow(), 2)
    ensures Trim(JaneRow()[1].1.value) == "jane@acme.com"
    ensures DigitsValue(Trim(JaneRow()[2].1.value)) >= 10000
  {
    JaneEmailColumn();
    JaneBudgetColumn();
  }

  /** Importing Jane's row into an empty list and running "Auto-qualify
      imported leads" at the default threshold of 10000 qualifies her and
      writes one call request to jane@acme.com. */
  lemma JaneIsQualified(now: string, later: string, ts: string)
    ensures Readable([JaneRow()])
    ensures var leads := UpsertAll([], Accepted([JaneRow()], now), now);
      && |leads| == 1
      && RunnableOn(leads, true)
      && var run := QualifyRun(leads, 10000, true, later, ts);
      && |run.leads| == 1
      && Get(run.leads[0], "Status") == VStr("Qualified")
      && |run.artifacts| == 1
      && run.artifacts[0].CallRequestDoc?
      && run.artifacts[0].payload.leadEmail == VStr("jane@acme.com")
  {
    JaneRowMeetsThreshold();
    ImportThenQualify(JaneRow(), 1, 2, 10000, now, later, ts);
  }
}
