/** The in-memory lead list of one session and the actions of the UI that
    change it: saving a lead, the two bulk qualification runs, triggering a
    call, sending a proposal, the webhook simulator and the CSV import. The
    files the actions write and the notification-log lines they append are
    kept as ghost sequences. */
module Session {
  import opened Text
  import opened Values
  import opened Outbox
  import opened LeadStore
  import opened Lifecycle
  import opened CsvImport

  /** How an action keyed by an e-mail ended. */
  datatype Outcome = Done | NotFound | NoSelection

  /** The webhook simulator's lookup `x.get("Email") == em`: exact equality
      on the stored value, so case matters and None matches a lead without
      an e-mail. */
  function FirstWithEmail(leads: seq<Lead>, em: Value): (r: Option<nat>)
    ensures r.Some? ==> r.value < |leads| && Get(leads[r.value], "Email") == em
    ensures r.Some? ==> forall j :: 0 <= j < r.value ==> Get(leads[j], "Email") != em
    ensures r.None? ==> forall j :: 0 <= j < |leads| ==> Get(leads[j], "Email") != em
    decreases |leads|
  {
    if leads == [] then None
    else if Get(leads[0], "Email") == em then Some(0)
    else
      match FirstWithEmail(leads[1..], em)
      case None => None
      case Some(i) => Some(i + 1)
  }

  /** The webhook lookup is case-sensitive while the action lookups are not:
      a lead stored as "Ann@X.co" is found by "ann@x.co" through the lower-cased
      comparison but not through the webhook's. */
  lemma WebhookLookupIsCaseSensitive()
    ensures var leads := [map["Email" := VStr("Ann@X.co")]];
      && FirstMatch(leads, Lower("ann@x.co")) == Some(0)
      && FirstWithEmail(leads, VStr("ann@x.co")) == None
  {
    var leads := [map["Email" := VStr("Ann@X.co")]];
    var stored := Lower("Ann@X.co");
    assert forall k :: 0 <= k < 8 ==> stored[k] == "ann@x.co"[k];
    assert stored == "ann@x.co";
    LowerOfLower("ann@x.co");
    assert EmailKey(leads[0]) == stored;
    assert "Ann@X.co"[0] != "ann@x.co"[0];
  }

  /** A webhook event leaves the lead's e-mail alone. */
  lemma WebhookKeepsEmail(lead: Lead, eventType: string, transcript: string, now: string, ts: string)
    ensures Get(WebhookStep(lead, eventType, transcript, now, ts).lead, "Email") == Get(lead, "Email")
  {
    if !IsNoAnswer(eventType) {
      TranscriptKeepsEmail(lead, transcript, now, ts);
      assert WebhookStep(lead, eventType, transcript, now, ts) == TranscriptStep(lead, transcript, now, ts);
    }
  }

  /** Sending a proposal leaves the lead's e-mail and LastActionAt alone. */
  lemma ProposalKeepsEmail(lead: Lead, html: string, now: string, ts: string)
    ensures var after := ProposalStep(lead, html, now, ts).lead;
      Get(after, "Email") == Get(lead, "Email") && Get(after, "LastActionAt") == Get(lead, "LastActionAt")
  {
    var r := ProposalStep(lead, html, now, ts);
    assert r.lead == ProposalSentLead(lead, ProposalsDir + r.artifacts[0].name);
  }

  /** If every record keeps its store key, unique keys stay unique. */
  lemma SameKeysKeepUnique(a: seq<Lead>, b: seq<Lead>)
    requires |a| == |b| && UniqueEmails(a)
    requires forall j :: 0 <= j < |a| ==> EmailKey(a[j]) == EmailKey(b[j])
    ensures UniqueEmails(b)
  {
  }

  /** A lead edited without touching its "Email" field keeps its store key. */
  lemma EditKeepsKey(a: seq<Lead>, j: nat, lead: Lead)
    requires j < |a| && Get(lead, "Email") == Get(a[j], "Email")
    ensures |a[j := lead]| == |a|
    ensures forall i :: 0 <= i < |a| ==> EmailKey(a[j := lead][i]) == EmailKey(a[i])
  {
  }

  /** The lead the "Save Lead" form builds. */
  function FormLead(name: string, email: string, company: string, useCase: string,
                    budget: int, phone: string, now: string): (lead: Lead)
    ensures lead.Keys == {"Name", "Email", "Company", "UseCase", "Budget", "Phone", "Status", "LastActionAt"}
    ensures lead["Status"] == VStr("New") && lead["LastActionAt"] == VStr(now)
    ensures EmailKey(lead) == Lower(email)
  {
    var lead := map[
      "Name" := VStr(name), "Email" := VStr(email), "Company" := VStr(company),
      "UseCase" := VStr(useCase), "Budget" := VNum(budget), "Phone" := VStr(phone),
      "Status" := VStr("New"), "LastActionAt" := VStr(now)];
    assert Get(lead, "Email") == VStr(email);
    lead
  }

  /** One bulk-run iteration extends the run over the prefix before it. */
  lemma QualifyRunExtends(leads: seq<Lead>, j: nat, threshold: int, onlyPending: bool, now: string, ts: string)
    requires RunnableOn(leads, onlyPending) && j < |leads|
    ensures RunnableOn(leads[..j], onlyPending) && RunnableOn(leads[..j + 1], onlyPending)
    ensures var before := QualifyRun(leads[..j], threshold, onlyPending, now, ts);
      var step := QualifyOne(leads[j], threshold, onlyPending, now, ts);
      QualifyRun(leads[..j + 1], threshold, onlyPending, now, ts)
        == Batch(before.leads + [step.lead], before.artifacts + step.artifacts, before.notices + step.notices)
  {
    assert leads[..j + 1][..j] == leads[..j];
    assert leads[..j + 1][j] == leads[j];
  }

  /** The bookkeeping of one bulk-loop iteration: the run over one more lead
      is the run so far plus that lead's step, and the lead list is the
      processed prefix followed by the rest. */
  lemma QualifyLoopStep(start: seq<Lead>, j: nat, done: seq<Lead>, written: seq<Artifact>, logged: seq<string>,
                        threshold: int, onlyPending: bool, now: string, ts: string)
    requires RunnableOn(start, onlyPending) && j < |start| && |done| == j
    requires QualifyRun(start[..j], threshold, onlyPending, now, ts) == Batch(done, written, logged)
    ensures var step := QualifyOne(start[j], threshold, onlyPending, now, ts);
      && RunnableOn(start[..j + 1], onlyPending)
      && QualifyRun(start[..j + 1], threshold, onlyPending, now, ts)
        == Batch(done + [step.lead], written + step.artifacts, logged + step.notices)
      && (done + start[j..])[j] == start[j]
      && (Selected(start[j], onlyPending) ==> BudgetIsNumber(start[j]))
      && (done + start[j..])[j := step.lead] == (done + [step.lead]) + start[j + 1..]
  {
    QualifyRunExtends(start, j, threshold, onlyPending, now, ts);
    var step := QualifyOne(start[j], threshold, onlyPending, now, ts);
    ReplaceNext(done, start[j..], step.lead);
    assert start[j..][1..] == start[j + 1..];
  }

  lemma AppendAssoc<T>(a: seq<T>, b: seq<T>, c: seq<T>)
    ensures (a + b) + c == a + (b + c)
  {
  }

  /** Replacing the first element after a prefix. */
  lemma ReplaceNext<T>(done: seq<T>, rest: seq<T>, v: T)
    requires rest != []
    ensures (done + rest)[|done| := v] == (done + [v]) + rest[1..]
  {
  }

  /** A bulk-run iteration leaves the lead's e-mail alone. */
  lemma QualifyOneKeepsEmail(lead: Lead, threshold: int, onlyPending: bool, now: string, ts: string)
    requires Selected(lead, onlyPending) ==> BudgetIsNumber(lead)
    ensures Get(QualifyOne(lead, threshold, onlyPending, now, ts).lead, "Email") == Get(lead, "Email")
  {
    if Selected(lead, onlyPending) {
      var r := AutoQualifyStep(lead, threshold, now, ts).lead;
      assert "Email" in r <==> "Email" in lead;
    }
  }

  /** A bulk run keeps e-mails unique. */
  lemma QualifyRunKeepsUnique(leads: seq<Lead>, threshold: int, onlyPending: bool, now: string, ts: string)
    requires RunnableOn(leads, onlyPending) && UniqueEmails(leads)
    ensures UniqueEmails(QualifyRun(leads, threshold, onlyPending, now, ts).leads)
  {
    var r := QualifyRun(leads, threshold, onlyPending, now, ts).leads;
    QualifyRunLeads(leads, threshold, onlyPending, now, ts);
    forall i | 0 <= i < |leads| ensures EmailKey(r[i]) == EmailKey(leads[i]) {
      QualifyOneKeepsEmail(leads[i], threshold, onlyPending, now, ts);
    }
    SameKeysKeepUnique(leads, r);
  }

  lemma ReadablePrefix(rows: seq<Row>, i: nat)
    requires Readable(rows) && i <= |rows|
    ensures Readable(rows[..i])
  {
    assert forall k :: 0 <= k < i ==> rows[..i][k] == rows[k];
  }

  /** The import loop's accepted leads grow one row at a time. */
  lemma AcceptedExtends(rows: seq<Row>, i: nat, now: string)
    requires Readable(rows) && i < |rows|
    ensures Readable(rows[..i]) && Readable(rows[..i + 1]) && BudgetReadable(Normalize(rows[i]))
    ensures Accepted(rows[..i + 1], now)
      == Accepted(rows[..i], now) + (if HasEmail(rows[i]) then [ImportedLead(Normalize(rows[i]), now)] else [])
  {
    ReadablePrefix(rows, i);
    ReadablePrefix(rows, i + 1);
    var next := rows[..i + 1];
    assert next[..i] == rows[..i];
    assert next[i] == rows[i];
  }

  lemma UpsertAllExtends(leads: seq<Lead>, cands: seq<Lead>, c: Lead, now: string)
    ensures UpsertAll(leads, cands + [c], now) == Upserted(UpsertAll(leads, cands, now), c, now)
  {
    assert (cands + [c])[..|cands|] == cands;
  }

  /** `if not lead:` after a lookup: the lookup found a record and that
      record is not the empty dictionary, which Python counts as false. */
  predicate Found(leads: seq<Lead>, r: Option<nat>) {
    r.Some? && r.value < |leads| && leads[r.value] != map[]
  }

  /** A stored empty record has the empty e-mail key and no e-mail, so both
      lookups match it, yet the actions report it as not found. */
  lemma EmptyRecordNotFound(leads: seq<Lead>, i: nat)
    requires i < |leads| && leads[i] == map[]
    requires forall j :: 0 <= j < i ==> EmailKey(leads[j]) != "" && Get(leads[j], "Email") != VNone
    ensures FirstMatch(leads, Lower("")) == Some(i) && !Found(leads, FirstMatch(leads, Lower("")))
    ensures FirstWithEmail(leads, VNone) == Some(i) && !Found(leads, FirstWithEmail(leads, VNone))
  {
    assert Lower("") == "";
    assert EmailKey(leads[i]) == "" && Get(leads[i], "Email") == VNone;
  }

  class LeadBook {
    /** `st.session_state.leads`. */
    var leads: seq<Lead>
    /** The proposals, e-mails and call requests written, in order. */
    ghost var outbox: seq<Artifact>
    /** The notification-log lines appended, in order. */
    ghost var log: seq<string>

    /** No two leads with a non-empty e-mail share it, ignoring case. */
    ghost predicate Valid()
      reads this
    {
      UniqueEmails(leads)
    }

    constructor(initial: seq<Lead>)
      ensures leads == initial && outbox == [] && log == []
    {
      leads := initial;
      outbox := [];
      log := [];
    }

    /** `upsert_lead(leads, cand)`: nothing is written to the outbox. */
    method Upsert(cand: Lead, now: string)
      modifies this
      ensures leads == Upserted(old(leads), cand, now)
      ensures outbox == old(outbox) && log == old(log)
      ensures old(Valid()) ==> Valid()
    {
      var key := EmailKey(cand);
      var idx := FindIndex(leads, key);
      var c := WithDefaults(cand, now);
      if idx.None? {
        leads := leads + [c];
      } else {
        var i := idx.value;
        var m := CopyFields(leads[i], c);
        assert m == leads[i] + c;
        m := m["Status" := StatusAfterMerge(Get(m, "Status"))];
        m := m["LastActionAt" := VStr(now)];
        leads := leads[i := m];
      }
      if old(Valid()) {
        UpsertKeepsUnique(old(leads), cand, now);
      }
    }

    /** The "Save Lead" button: an empty e-mail is refused, otherwise the
        form's lead is upserted. */
    method AddLead(name: string, email: string, company: string, useCase: string,
                   budget: int, phone: string, now: string) returns (saved: bool)
      modifies this
      ensures saved <==> email != ""
      ensures saved ==> leads == Upserted(old(leads), FormLead(name, email, company, useCase, budget, phone, now), now)
      ensures !saved ==> leads == old(leads)
      ensures outbox == old(outbox) && log == old(log)
      ensures old(Valid()) ==> Valid()
    {
      if email == "" {
        return false;
      }
      Upsert(FormLead(name, email, company, useCase, budget, phone, now), now);
      return true;
    }

    /** `auto_qualify(leads[j], threshold)`, returning the status it set. */
    method AutoQualify(j: nat, threshold: int, now: string, ts: string) returns (status: string)
      requires j < |leads| && BudgetIsNumber(leads[j])
      modifies this
      ensures var step := AutoQualifyStep(old(leads)[j], threshold, now, ts);
        && leads == old(leads)[j := step.lead]
        && outbox == old(outbox) + step.artifacts
        && log == old(log) + step.notices
      ensures status == "Qualified" <==> BudgetOf(old(leads)[j]) >= threshold
      ensures leads[j]["Status"] == VStr(status)
      ensures old(Valid()) ==> Valid()
    {
      var step := AutoQualifyStep(leads[j], threshold, now, ts);
      status := if BudgetOf(leads[j]) >= threshold then "Qualified" else "Unqualified";
      EditKeepsKey(leads, j, step.lead);
      if Valid() {
        SameKeysKeepUnique(leads, leads[j := step.lead]);
      }
      leads := leads[j := step.lead];
      outbox := outbox + step.artifacts;
      log := log + step.notices;
    }

    /** A bulk qualification loop: every lead when `onlyPending` is false,
        only New and Updated ones when it is true. */
    method QualifyEach(threshold: int, onlyPending: bool, now: string, ts: string)
      requires RunnableOn(leads, onlyPending)
      modifies this
      ensures |leads| == |old(leads)|
      ensures var run := QualifyRun(old(leads), threshold, onlyPending, now, ts);
        && leads == run.leads
        && outbox == old(outbox) + run.artifacts
        && log == old(log) + run.notices
      ensures old(Valid()) ==> Valid()
    {
      ghost var start := leads;
      ghost var done, written, logged := [], [], [];
      var j := 0;
      while j < |leads|
        invariant 0 <= j <= |start| == |leads|
        invariant QualifyRun(start[..j], threshold, onlyPending, now, ts) == Batch(done, written, logged)
        invariant |done| == j && leads == done + start[j..]
        invariant outbox == old(outbox) + written && log == old(log) + logged
      {
        done, written, logged := QualifyNext(start, j, done, written, logged, old(outbox), old(log), threshold, onlyPending, now, ts);
        j := j + 1;
      }
      assert start[..j] == start;
      if old(Valid()) {
        QualifyRunKeepsUnique(start, threshold, onlyPending, now, ts);
      }
    }

    /** One turn of the bulk loop over `start`, which has handled the leads
        before `j`: it handles lead `j` and extends the run accordingly. */
    method QualifyNext(ghost start: seq<Lead>, j: nat, ghost done: seq<Lead>, ghost written: seq<Artifact>,
                       ghost logged: seq<string>, ghost outbox0: seq<Artifact>, ghost log0: seq<string>,
                       threshold: int, onlyPending: bool, now: string, ts: string)
      returns (ghost done': seq<Lead>, ghost written': seq<Artifact>, ghost logged': seq<string>)
      requires RunnableOn(start, onlyPending) && j < |start| && |done| == j
      requires QualifyRun(start[..j], threshold, onlyPending, now, ts) == Batch(done, written, logged)
      requires leads == done + start[j..] && outbox == outbox0 + written && log == log0 + logged
      modifies this
      ensures QualifyRun(start[..j + 1], threshold, onlyPending, now, ts) == Batch(done', written', logged')
      ensures |done'| == j + 1 && leads == done' + start[j + 1..]
      ensures outbox == outbox0 + written' && log == log0 + logged'
    {
      ghost var step := QualifyOne(start[j], threshold, onlyPending, now, ts);
      QualifyLoopStep(start, j, done, written, logged, threshold, onlyPending, now, ts);
      QualifyAt(j, threshold, onlyPending, now, ts);
      done', written', logged' := done + [step.lead], written + step.artifacts, logged + step.notices;
      AppendAssoc(outbox0, written, step.artifacts);
      AppendAssoc(log0, logged, step.notices);
    }

    /** One iteration of a bulk loop: `auto_qualify` on a selected lead,
        nothing on another. */
    method QualifyAt(j: nat, threshold: int, onlyPending: bool, now: string, ts: string)
      requires j < |leads| && (Selected(leads[j], onlyPending) ==> BudgetIsNumber(leads[j]))
      modifies this
      ensures var step := QualifyOne(old(leads)[j], threshold, onlyPending, now, ts);
        && leads == old(leads)[j := step.lead]
        && outbox == old(outbox) + step.artifacts
        && log == old(log) + step.notices
    {
      if Selected(leads[j], onlyPending) {
        var _ := AutoQualify(j, threshold, now, ts);
      } else {
        assert leads == leads[j := leads[j]];
      }
    }

    /** "Auto-qualify All". */
    method QualifyAll(threshold: int, now: string, ts: string)
      requires RunnableOn(leads, false)
      modifies this
      ensures var run := QualifyRun(old(leads), threshold, false, now, ts);
        leads == run.leads && outbox == old(outbox) + run.artifacts && log == old(log) + run.notices
      ensures old(Valid()) ==> Valid()
    {
      QualifyEach(threshold, false, now, ts);
    }

    /** "Auto-qualify imported leads": only leads whose Status is New or
        Updated. */
    method QualifyImported(threshold: int, now: string, ts: string)
      requires RunnableOn(leads, true)
      modifies this
      ensures |leads| == |old(leads)|
      ensures var run := QualifyRun(old(leads), threshold, true, now, ts);
        leads == run.leads && outbox == old(outbox) + run.artifacts && log == old(log) + run.notices
      ensures forall j :: 0 <= j < |leads| && !IsPending(old(leads)[j]) ==> leads[j] == old(leads)[j]
      ensures old(Valid()) ==> Valid()
    {
      QualifyEach(threshold, true, now, ts);
      QualifyRunLeads(old(leads), threshold, true, now, ts);
    }

    /** "Trigger Call": the first lead whose e-mail equals `target` ignoring
        case gets a call request, unless that record is empty; the leads are
        not changed. */
    method TriggerCallFor(target: string, now: string, ts: string) returns (outcome: Outcome)
      modifies this
      ensures leads == old(leads)
      ensures outcome == Done <==> Found(old(leads), FirstMatch(old(leads), Lower(target)))
      ensures outcome != Done ==> outcome == NotFound && outbox == old(outbox) && log == old(log)
      ensures outcome == Done ==>
        var step := CallStep(old(leads)[FirstMatch(old(leads), Lower(target)).value], now, ts);
        outbox == old(outbox) + step.artifacts && log == old(log) + step.notices
    {
      var idx := FindIndex(leads, Lower(target));
      if idx.None? || leads[idx.value] == map[] {
        return NotFound;
      }
      var step := CallStep(leads[idx.value], now, ts);
      outbox := outbox + step.artifacts;
      log := log + step.notices;
      return Done;
    }

    /** Replaces lead `i` by the lead an action produced and records what
        the action wrote. */
    method Apply(i: nat, step: Step)
      requires i < |leads|
      modifies this
      ensures leads == old(leads)[i := step.lead]
      ensures outbox == old(outbox) + step.artifacts && log == old(log) + step.notices
      ensures old(Valid()) && Get(step.lead, "Email") == Get(old(leads)[i], "Email") ==> Valid()
    {
      if Valid() && Get(step.lead, "Email") == Get(leads[i], "Email") {
        EditKeepsKey(leads, i, step.lead);
        SameKeysKeepUnique(leads, leads[i := step.lead]);
      }
      leads := leads[i := step.lead];
      outbox := outbox + step.artifacts;
      log := log + step.notices;
    }

    /** "Generate & Save Proposal": the first lead whose e-mail equals `em`
        ignoring case gets the fallback proposal and the status "Proposal
        Sent", unless that record is empty; its LastActionAt is left as it
        was. */
    method SendProposalFor(em: string, now: string, ts: string) returns (outcome: Outcome)
      modifies this
      ensures outcome == Done <==> Found(old(leads), FirstMatch(old(leads), Lower(em)))
      ensures outcome != Done ==> outcome == NotFound && leads == old(leads) && outbox == old(outbox) && log == old(log)
      ensures outcome == Done ==>
        var i := FirstMatch(old(leads), Lower(em)).value;
        var step := ProposalStep(old(leads)[i], ActionProposalHtml, now, ts);
        && leads == old(leads)[i := step.lead]
        && outbox == old(outbox) + step.artifacts
        && log == old(log) + step.notices
        && Get(leads[i], "LastActionAt") == Get(old(leads)[i], "LastActionAt")
      ensures old(Valid()) ==> Valid()
    {
      var idx := FindIndex(leads, Lower(em));
      if idx.None? || leads[idx.value] == map[] {
        return NotFound;
      }
      var i := idx.value;
      ProposalKeepsEmail(leads[i], ActionProposalHtml, now, ts);
      Apply(i, ProposalStep(leads[i], ActionProposalHtml, now, ts));
      return Done;
    }

    /** "Send Event" in the webhook simulator: "-" selects nothing; otherwise
        the first lead whose stored e-mail equals `em` exactly handles the
        event, unless that record is empty. */
    method Webhook(em: Value, eventType: string, transcript: string, now: string, ts: string)
      returns (outcome: Outcome)
      modifies this
      ensures outcome == NoSelection <==> em == VStr("-")
      ensures outcome == Done <==> em != VStr("-") && Found(old(leads), FirstWithEmail(old(leads), em))
      ensures outcome != Done ==> leads == old(leads) && outbox == old(outbox) && log == old(log)
      ensures outcome == Done ==>
        var i := FirstWithEmail(old(leads), em).value;
        var step := WebhookStep(old(leads)[i], eventType, transcript, now, ts);
        && leads == old(leads)[i := step.lead]
        && outbox == old(outbox) + step.artifacts
        && log == old(log) + step.notices
      ensures old(Valid()) ==> Valid()
    {
      if em == VStr("-") {
        return NoSelection;
      }
      var found := FirstWithEmail(leads, em);
      if found.None? || leads[found.value] == map[] {
        return NotFound;
      }
      var i := found.value;
      WebhookKeepsEmail(leads[i], eventType, transcript, now, ts);
      Apply(i, WebhookStep(leads[i], eventType, transcript, now, ts));
      return Done;
    }



    method Import(rows: seq<Row>, now: string) returns (count: nat)
      requires Readable(rows)
      modifies this
      ensures leads == UpsertAll(old(leads), Accepted(rows, now), now)
      ensures count == |AcceptedRows(rows)|
      ensures outbox == old(outbox) && log == old(log)
      ensures old(Valid()) ==> Valid()
    {
      count := 0;
      ghost var cands: seq<Lead> := [];
      var i := 0;
      while i < |rows|
        invariant 0 <= i <= |rows|
        invariant Readable(rows[..i]) && cands == Accepted(rows[..i], now)
        invariant leads == UpsertAll(old(leads), cands, now)
        invariant count == |cands|
        invariant outbox == old(outbox) && log == old(log)
        invariant old(Valid()) ==> Valid()
      {
        AcceptedExtends(rows, i, now);
        if HasEmail(rows[i]) {
          var lead := ImportedLead(Normalize(rows[i]), now);
          UpsertAllExtends(old(leads), cands, lead, now);
          Upsert(lead, now);
          cands := cands + [lead];
          count := count + 1;
        }
        i := i + 1;
      }
      assert rows[..i] == rows;
      AcceptedCount(rows, now);
    }
  }
}
