/** The lead lifecycle actions: qualification against a budget threshold, the
    simulated call, sending a proposal, and the webhook simulator's handling of
    call outcomes. Each action is a function from the lead (and its inputs) to
    the updated lead, the artifacts written and the notification-log lines. */
module Lifecycle {
  import opened Text
  import opened Values
  import opened Outbox
  import opened ProposalTemplate

  /** What one action produces: the lead after it, the files written in
      order, and the notification-log lines appended in order. */
  datatype Step = Step(lead: Lead, artifacts: seq<Artifact>, notices: seq<string>)

  /** What a bulk qualification run produces. */
  datatype Batch = Batch(leads: seq<Lead>, artifacts: seq<Artifact>, notices: seq<string>)

  const TranscriptLimit := 15000
  const NoAnswerNote := "No pickup from local outbound"
  const FollowUpSubject := "Follow-up: Let's schedule a quick call"
  const FollowUpHtml := "<p>Hi, we tried reaching you by phone about your automation project.</p>"
    + "<p>You can reply to this email to coordinate a time.</p><p>\U{2014} Team</p>"
  const NoAnswerNotice := "\U{1F4EA} No answer \U{2014} follow-up saved. #lead-no-pickup"
  const NoProposalNotice := " Call completed; no proposal requested or not detected."
  /** Body of the e-mail sent by the "Generate & Save Proposal" action. */
  const ActionProposalHtml := "<p>Attached proposal is saved locally.</p>"
  /** Body of the e-mail sent when a transcript asks for a proposal. */
  const WebhookProposalHtml := "<p>Hi, attached is your tailored automation proposal. Happy to iterate.</p>"
  const ProposalKeywords := [
    "send a proposal", "yes proposal", "email the proposal",
    "want a proposal", "please send proposal", "yes"
  ]

  /** `float(lead.get("Budget") or 0)` succeeds: the budget is missing, None,
      empty or a number. */
  predicate BudgetIsNumber(lead: Lead) {
    match Get(lead, "Budget")
    case VStr(s) => s == ""
    case _ => true
  }

  /** The budget `auto_qualify` compares; missing, None, "" and 0 read as 0. */
  function BudgetOf(lead: Lead): (b: int)
    requires BudgetIsNumber(lead)
    ensures !Truthy(Get(lead, "Budget")) ==> b == 0
    ensures Get(lead, "Budget").VNum? ==> b == Get(lead, "Budget").n
  {
    match Get(lead, "Budget")
    case VNum(n) => n
    case _ => 0
  }

  /** `trigger_local_call`: writes one call request and logs it; the lead is
      not changed. */
  function CallStep(lead: Lead, now: string, ts: string): (r: Step)
    ensures r.lead == lead
    ensures |r.artifacts| == 1 && r.artifacts[0].CallRequestDoc?
    ensures r.artifacts[0].payload.leadEmail == Get(lead, "Email")
    ensures |r.notices| == 1
  {
    Step(lead, [CallArtifact(lead, ts)], [NotificationLine(now, CallNotice(lead, ts))])
  }

  /** `auto_qualify`: Status becomes "Qualified" exactly when the budget
      reaches the threshold and "Unqualified" otherwise, LastActionAt becomes
      `now`, nothing else in the lead changes, and one call request is written
      exactly when the lead qualifies. */
  function AutoQualifyStep(lead: Lead, threshold: int, now: string, ts: string): (r: Step)
    requires BudgetIsNumber(lead)
    ensures r.lead.Keys == lead.Keys + {"Status", "LastActionAt"}
    ensures r.lead["Status"] == VStr("Qualified") <==> BudgetOf(lead) >= threshold
    ensures r.lead["Status"] == VStr("Qualified") || r.lead["Status"] == VStr("Unqualified")
    ensures r.lead["LastActionAt"] == VStr(now)
    ensures forall k :: k in lead && k != "Status" && k != "LastActionAt" ==> r.lead[k] == lead[k]
    ensures |r.artifacts| == (if BudgetOf(lead) >= threshold then 1 else 0)
    ensures forall a :: a in r.artifacts ==> a.CallRequestDoc? && a.payload.leadEmail == Get(lead, "Email")
    ensures |r.notices| == |r.artifacts|
  {
    var qualified := BudgetOf(lead) >= threshold;
    var status := if qualified then "Qualified" else "Unqualified";
    var updated := lead["Status" := VStr(status)]["LastActionAt" := VStr(now)];
    if qualified then
      var call := CallStep(updated, now, ts);
      Step(updated, call.artifacts, call.notices)
    else
      Step(updated, [], [])
  }

  /** Qualifying twice gives the status the first run gave and writes the
      same number of call requests: the rule has no memory. */
  lemma QualifyIsIdempotent(lead: Lead, threshold: int, now: string, later: string, ts: string, ts2: string)
    requires BudgetIsNumber(lead)
    ensures BudgetIsNumber(AutoQualifyStep(lead, threshold, now, ts).lead)
    ensures var once := AutoQualifyStep(lead, threshold, now, ts);
      var twice := AutoQualifyStep(once.lead, threshold, later, ts2);
      twice.lead["Status"] == once.lead["Status"] && |twice.artifacts| == |once.artifacts|
  {
    var once := AutoQualifyStep(lead, threshold, now, ts);
    assert Get(once.lead, "Budget") == Get(lead, "Budget");
  }

  /** A lead the "qualify imported" run touches: Status "New" or "Updated". */
  predicate IsPending(lead: Lead) {
    Get(lead, "Status") == VStr("New") || Get(lead, "Status") == VStr("Updated")
  }

  /** Whether a bulk run qualifies this lead: every lead for "Auto-qualify
      All", only pending ones for "Auto-qualify imported leads". */
  predicate Selected(lead: Lead, onlyPending: bool) {
    !onlyPending || IsPending(lead)
  }

  predicate RunnableOn(leads: seq<Lead>, onlyPending: bool) {
    forall j :: 0 <= j < |leads| && Selected(leads[j], onlyPending) ==> BudgetIsNumber(leads[j])
  }

  /** One iteration of a bulk run: a selected lead is qualified, another is
      left alone. */
  function QualifyOne(lead: Lead, threshold: int, onlyPending: bool, now: string, ts: string): Step
    requires Selected(lead, onlyPending) ==> BudgetIsNumber(lead)
  {
    if Selected(lead, onlyPending) then AutoQualifyStep(lead, threshold, now, ts) else Step(lead, [], [])
  }

  /** A bulk qualification loop over `leads`, in order. */
  function QualifyRun(leads: seq<Lead>, threshold: int, onlyPending: bool, now: string, ts: string): (r: Batch)
    requires RunnableOn(leads, onlyPending)
    ensures |r.leads| == |leads|
    ensures |r.notices| == |r.artifacts|
    decreases |leads|
  {
    if leads == [] then Batch([], [], [])
    else
      var before := QualifyRun(leads[..|leads| - 1], threshold, onlyPending, now, ts);
      var step := QualifyOne(leads[|leads| - 1], threshold, onlyPending, now, ts);
      Batch(before.leads + [step.lead], before.artifacts + step.artifacts, before.notices + step.notices)
  }

  /** Each lead replaced by its own step's lead. */
  function QualifiedLeads(leads: seq<Lead>, threshold: int, onlyPending: bool, now: string, ts: string): (r: seq<Lead>)
    requires RunnableOn(leads, onlyPending)
    ensures |r| == |leads|
  {
    seq(|leads|, j requires 0 <= j < |leads| => QualifyOne(leads[j], threshold, onlyPending, now, ts).lead)
  }

  /** A bulk run over a prefix leaves each lead of the prefix as its own
      step made it. */
  lemma {:induction false} QualifyRunPrefix(leads: seq<Lead>, m: nat, threshold: int, onlyPending: bool, now: string, ts: string)
    requires RunnableOn(leads, onlyPending) && m <= |leads|
    ensures RunnableOn(leads[..m], onlyPending)
    ensures QualifyRun(leads[..m], threshold, onlyPending, now, ts).leads == QualifiedLeads(leads, threshold, onlyPending, now, ts)[..m]
    decreases m
  {
    var pre := leads[..m];
    assert RunnableOn(pre, onlyPending);
    if m > 0 {
      var n := m - 1;
      assert pre[..n] == leads[..n];
      QualifyRunPrefix(leads, n, threshold, onlyPending, now, ts);
      var q := QualifiedLeads(leads, threshold, onlyPending, now, ts);
      assert q[..m] == q[..n] + [q[n]];
    }
  }

  /** What a bulk run does to the leads: selected ones are replaced by their
      qualified version, the others are left as they are. */
  lemma QualifyRunLeads(leads: seq<Lead>, threshold: int, onlyPending: bool, now: string, ts: string)
    requires RunnableOn(leads, onlyPending)
    ensures var r := QualifyRun(leads, threshold, onlyPending, now, ts);
      && |r.leads| == |leads|
      && (forall j :: 0 <= j < |leads| ==> r.leads[j] == QualifyOne(leads[j], threshold, onlyPending, now, ts).lead)
  {
    QualifyRunPrefix(leads, |leads|, threshold, onlyPending, now, ts);
    assert leads[..|leads|] == leads;
  }

  /** Everything a bulk run writes is a call request. */
  lemma {:induction false} QualifyRunWritesCalls(leads: seq<Lead>, threshold: int, onlyPending: bool, now: string, ts: string)
    requires RunnableOn(leads, onlyPending)
    ensures forall a :: a in QualifyRun(leads, threshold, onlyPending, now, ts).artifacts ==> a.CallRequestDoc?
    decreases |leads|
  {
    if leads != [] {
      var n := |leads| - 1;
      var init := leads[..n];
      assert RunnableOn(init, onlyPending);
      QualifyRunWritesCalls(init, threshold, onlyPending, now, ts);
      var before := QualifyRun(init, threshold, onlyPending, now, ts).artifacts;
      var step := QualifyOne(leads[n], threshold, onlyPending, now, ts).artifacts;
      assert forall a :: a in step ==> a.CallRequestDoc?;
      assert QualifyRun(leads, threshold, onlyPending, now, ts).artifacts == before + step;
    }
  }

  /** Indices of the leads a bulk run writes a call request for. */
  ghost function CalledIndices(leads: seq<Lead>, threshold: int, onlyPending: bool): set<nat> {
    set j: nat | j < |leads| && WritesCall(leads[j], threshold, onlyPending)
  }

  predicate WritesCall(lead: Lead, threshold: int, onlyPending: bool) {
    Selected(lead, onlyPending) && BudgetIsNumber(lead) && BudgetOf(lead) >= threshold
  }

  /** A bulk run writes exactly one call request per selected lead whose
      budget reaches the threshold. */
  lemma {:induction false} QualifyRunCallCount(leads: seq<Lead>, threshold: int, onlyPending: bool, now: string, ts: string)
    requires RunnableOn(leads, onlyPending)
    ensures |QualifyRun(leads, threshold, onlyPending, now, ts).artifacts| == |CalledIndices(leads, threshold, onlyPending)|
    decreases |leads|
  {
    if leads != [] {
      var n := |leads| - 1;
      var init := leads[..n];
      assert RunnableOn(init, onlyPending);
      QualifyRunCallCount(init, threshold, onlyPending, now, ts);
      var step := QualifyOne(leads[n], threshold, onlyPending, now, ts);
      assert |QualifyRun(leads, threshold, onlyPending, now, ts).artifacts|
          == |QualifyRun(init, threshold, onlyPending, now, ts).artifacts| + |step.artifacts|;
      CalledIndicesSplit(leads, threshold, onlyPending);
      if WritesCall(leads[n], threshold, onlyPending) {
        assert |step.artifacts| == 1;
      } else {
        assert |step.artifacts| == 0;
      }
    }
  }

  lemma CalledIndicesSplit(leads: seq<Lead>, threshold: int, onlyPending: bool)
    requires leads != []
    ensures var n := |leads| - 1;
      var small := CalledIndices(leads[..n], threshold, onlyPending);
      && n !in small
      && CalledIndices(leads, threshold, onlyPending)
         == small + (if WritesCall(leads[n], threshold, onlyPending) then {n} else {})
  {
    var n := |leads| - 1;
    var init := leads[..n];
    var small := CalledIndices(init, threshold, onlyPending);
    var big := CalledIndices(leads, threshold, onlyPending);
    forall j: nat ensures j in big - {n} <==> j in small {
      if j < n {
        assert init[j] == leads[j];
      }
    }
  }

  /** The lead after a proposal is saved at `path`: it records the path and
      the status "Proposal Sent"; LastActionAt is not touched. */
  function ProposalSentLead(lead: Lead, path: string): (r: Lead)
    ensures r.Keys == lead.Keys + {"Status", "ProposalPath"}
    ensures r["Status"] == VStr("Proposal Sent") && r["ProposalPath"] == VStr(path)
    ensures forall k :: k in lead && k != "Status" && k != "ProposalPath" ==> r[k] == lead[k]
    ensures Get(r, "Status") == VStr("Proposal Sent") && Get(r, "ProposalPath") == VStr(path)
    ensures Get(r, "Email") == Get(lead, "Email")
    ensures Get(r, "CallTranscript") == Get(lead, "CallTranscript")
  {
    lead["ProposalPath" := VStr(path)]["Status" := VStr("Proposal Sent")]
  }

  /** The e-mail that carries a saved proposal to the lead. */
  function ProposalEmail(lead: Lead, html: string, attachment: Attachment, ts: string): (a: Artifact)
    ensures a.EmailDoc? && a.to == Display(Get(lead, "Email"))
    ensures Contains(a.text, AttachmentLine(attachment))
  {
    var to := Display(Get(lead, "Email"));
    var subject := Display(GetOr(lead, "Company", VStr("Your"))) + " Automation Proposal";
    assert Contains(EmailText(to, subject, html, [attachment]), AttachmentLine([attachment][0]));
    EmailArtifact(ts, to, subject, html, [attachment])
  }

  /** "Generate & Save Proposal" (and the proposal branch of the webhook):
      the fallback proposal is saved, the lead gets its path and the status
      "Proposal Sent", and one e-mail carrying the proposal as an attachment is
      written. */
  function ProposalStep(lead: Lead, html: string, now: string, ts: string): (r: Step)
    ensures |r.artifacts| == 2 && r.artifacts[0].ProposalDoc? && r.artifacts[1].EmailDoc?
    ensures r.lead == ProposalSentLead(lead, ProposalsDir + r.artifacts[0].name)
    ensures r.artifacts[1].to == Display(Get(lead, "Email"))
    ensures |r.notices| == 1
  {
    var name := ProposalFileName(TextOf(Get(lead, "Company")), ts);
    var path := ProposalsDir + name;
    var updated := ProposalSentLead(lead, path);
    var email := ProposalEmail(updated, html, Attachment(name, path), ts);
    Step(updated, [ProposalDoc(name, FallbackProposal(lead)), email],
         [NotificationLine(now, EmailSavedNotice(ts, email.to, email.subject))])
  }

  /** The saved proposal carries the six section headers, and the e-mail
      lists it as an attachment by its file name and path. */
  lemma ProposalStepContents(lead: Lead, html: string, now: string, ts: string)
    ensures var r := ProposalStep(lead, html, now, ts);
      && (forall k :: 0 <= k < 6 ==> Contains(r.artifacts[0].markdown, SectionHeaders[k]))
      && Contains(r.artifacts[1].text, AttachmentLine(Attachment(r.artifacts[0].name, ProposalsDir + r.artifacts[0].name)))
  {
    var name := ProposalFileName(TextOf(Get(lead, "Company")), ts);
    var path := ProposalsDir + name;
    var email := ProposalEmail(ProposalSentLead(lead, path), html, Attachment(name, path), ts);
    assert ProposalStep(lead, html, now, ts).artifacts == [ProposalDoc(name, FallbackProposal(lead)), email];
  }

  predicate IsNoAnswer(eventType: string) {
    eventType == "call.no_answer" || eventType == "call.unanswered"
  }

  /** The transcript asks for a proposal: its lower-cased text, in full,
      contains one of the keywords. */
  predicate WantsProposal(transcript: string)
    ensures WantsProposal(transcript) <==> exists kw :: kw in ProposalKeywords && Contains(Lower(transcript), kw)
  {
    AnyFoundIff(Lower(transcript), ProposalKeywords);
    AnyFound(Lower(transcript), ProposalKeywords)
  }

  /** Python's `any(w in text for w in words)`. */
  predicate AnyFound(text: string, words: seq<string>) {
    words != [] && (Contains(text, words[0]) || AnyFound(text, words[1..]))
  }

  lemma {:induction false} AnyFoundIff(text: string, words: seq<string>)
    ensures AnyFound(text, words) <==> exists w :: w in words && Contains(text, w)
  {
    if words != [] {
      AnyFoundIff(text, words[1..]);
      assert words == [words[0]] + words[1..];
      if exists w :: w in words && Contains(text, w) {
        var w :| w in words && Contains(text, w);
        assert w == words[0] || w in words[1..];
      }
      if AnyFound(text, words) && !Contains(text, words[0]) {
        var w :| w in words[1..] && Contains(text, w);
        assert w in words;
      }
    }
  }

  /** The lead after a no-answer event: status "No Answer", the fixed note
      and a fresh timestamp; every other field, the transcript included, is
      kept. */
  function NoAnswerLead(lead: Lead, now: string): (r: Lead)
    ensures r.Keys == lead.Keys + {"Status", "Notes", "LastActionAt"}
    ensures r["Status"] == VStr("No Answer") && r["Notes"] == VStr(NoAnswerNote)
    ensures r["LastActionAt"] == VStr(now)
    ensures forall k :: k in lead && k != "Status" && k != "Notes" && k != "LastActionAt" ==> r[k] == lead[k]
    ensures Get(r, "Status") == VStr("No Answer") && Get(r, "Notes") == VStr(NoAnswerNote)
    ensures Get(r, "Email") == Get(lead, "Email")
  {
    lead["Status" := VStr("No Answer")]["Notes" := VStr(NoAnswerNote)]["LastActionAt" := VStr(now)]
  }

  /** The no-answer branch of the webhook handler: the lead as above, one
      follow-up e-mail to the lead's address and no proposal. */
  function NoAnswerStep(lead: Lead, now: string, ts: string): (r: Step)
    ensures Get(r.lead, "Status") == VStr("No Answer") && Get(r.lead, "Notes") == VStr(NoAnswerNote)
    ensures Get(r.lead, "Email") == Get(lead, "Email")
    ensures |r.artifacts| == 1 && r.artifacts[0].EmailDoc? && r.artifacts[0].subject == FollowUpSubject
    ensures r.artifacts[0].to == Display(Get(lead, "Email"))
    ensures |r.notices| == 2
  {
    var to := Display(Get(lead, "Email"));
    Step(NoAnswerLead(lead, now),
         [EmailArtifact(ts, to, FollowUpSubject, FollowUpHtml, [])],
         [NotificationLine(now, EmailSavedNotice(ts, to, FollowUpSubject)), NotificationLine(now, NoAnswerNotice)])
  }

  /** The lead with the transcript stored, cut to the limit. */
  function StoredTranscript(lead: Lead, transcript: string): (r: Lead)
    ensures r.Keys == lead.Keys + {"CallTranscript"}
    ensures r["CallTranscript"] == VStr(Prefix(transcript, TranscriptLimit))
    ensures forall k :: k in lead && k != "CallTranscript" ==> r[k] == lead[k]
    ensures Get(r, "Email") == Get(lead, "Email")
  {
    lead["CallTranscript" := VStr(Prefix(transcript, TranscriptLimit))]
  }

  /** The webhook handler's last write: LastActionAt becomes `now` and
      nothing else changes. */
  function Stamped(lead: Lead, now: string): (r: Lead)
    ensures r.Keys == lead.Keys + {"LastActionAt"}
    ensures r["LastActionAt"] == VStr(now)
    ensures forall k :: k in lead && k != "LastActionAt" ==> r[k] == lead[k]
    ensures Get(r, "Status") == Get(lead, "Status") && Get(r, "ProposalPath") == Get(lead, "ProposalPath")
    ensures Get(r, "CallTranscript") == Get(lead, "CallTranscript") && Get(r, "Email") == Get(lead, "Email")
  {
    lead["LastActionAt" := VStr(now)]
  }

  /** The proposal branch of a transcript event, on the lead with the
      transcript already stored: a proposal is sent, the notice names the
      recipient and LastActionAt becomes `now`. */
  function SendOnTranscript(stored: Lead, now: string, ts: string): (r: Step)
    ensures |r.artifacts| == 2 && r.artifacts[0].ProposalDoc? && r.artifacts[1].EmailDoc?
    ensures r.lead == Stamped(ProposalSentLead(stored, ProposalsDir + r.artifacts[0].name), now)
    ensures r.artifacts[1].to == Display(Get(stored, "Email"))
    ensures Get(r.lead, "Status") == VStr("Proposal Sent")
    ensures Get(r.lead, "ProposalPath") == VStr(ProposalsDir + r.artifacts[0].name)
    ensures Get(r.lead, "CallTranscript") == Get(stored, "CallTranscript")
    ensures Get(r.lead, "LastActionAt") == VStr(now)
    ensures |r.notices| == 2
  {
    var sent := ProposalStep(stored, WebhookProposalHtml, now, ts);
    var updated := ProposalSentLead(stored, ProposalsDir + sent.artifacts[0].name);
    var notice := NotificationLine(now, " Proposal saved for email to " + Display(Get(updated, "Email")));
    Step(Stamped(updated, now), sent.artifacts, sent.notices + [notice])
  }

  /** The other branch of the webhook handler: the transcript is stored cut
      to the limit; a proposal is sent exactly when the full transcript asks
      for one, otherwise the status and the outbox are left alone. */
  function TranscriptStep(lead: Lead, transcript: string, now: string, ts: string): (r: Step)
    ensures Get(r.lead, "CallTranscript") == VStr(Prefix(transcript, TranscriptLimit))
    ensures Get(r.lead, "LastActionAt") == VStr(now)
    ensures WantsProposal(transcript) ==> |r.artifacts| == 2 && |r.notices| == 2
    ensures !WantsProposal(transcript) ==> r.artifacts == [] && |r.notices| == 1
  {
    var stored := StoredTranscript(lead, transcript);
    if WantsProposal(transcript) then
      SendOnTranscript(stored, now, ts)
    else
      Step(Stamped(stored, now), [], [NotificationLine(now, NoProposalNotice)])
  }

  /** A transcript that asks for a proposal gets one: the status becomes
      "Proposal Sent", the proposal is saved, its path recorded and an e-mail
      to the lead written. */
  lemma TranscriptSendsProposal(lead: Lead, transcript: string, now: string, ts: string)
    requires WantsProposal(transcript)
    ensures var r := TranscriptStep(lead, transcript, now, ts);
      && Get(r.lead, "Status") == VStr("Proposal Sent")
      && r.artifacts[0].ProposalDoc? && r.artifacts[1].EmailDoc?
      && Get(r.lead, "ProposalPath") == VStr(ProposalsDir + r.artifacts[0].name)
      && r.artifacts[1].to == Display(Get(lead, "Email"))
  {
    var stored := StoredTranscript(lead, transcript);
    assert Get(stored, "Email") == Get(lead, "Email");
  }

  /** A transcript event keeps every field but the transcript, the
      timestamp, the status and the proposal path. */
  lemma TranscriptKeepsOtherFields(lead: Lead, transcript: string, now: string, ts: string)
    ensures var r := TranscriptStep(lead, transcript, now, ts);
      forall k :: k in lead && k != "Status" && k != "ProposalPath" && k != "CallTranscript" && k != "LastActionAt" ==>
        k in r.lead && r.lead[k] == lead[k]
  {
  }

  /** The fields a transcript event adds: the transcript and the timestamp,
      and the status and the proposal path when a proposal is sent. */
  lemma TranscriptKeys(lead: Lead, transcript: string, now: string, ts: string)
    ensures WantsProposal(transcript) ==>
      TranscriptStep(lead, transcript, now, ts).lead.Keys == lead.Keys + {"CallTranscript", "Status", "ProposalPath", "LastActionAt"}
    ensures !WantsProposal(transcript) ==>
      TranscriptStep(lead, transcript, now, ts).lead.Keys == lead.Keys + {"CallTranscript", "LastActionAt"}
  {
  }

  /** A transcript event leaves the lead's e-mail alone. */
  lemma TranscriptKeepsEmail(lead: Lead, transcript: string, now: string, ts: string)
    ensures Get(TranscriptStep(lead, transcript, now, ts).lead, "Email") == Get(lead, "Email")
  {
    var stored := StoredTranscript(lead, transcript);
    if WantsProposal(transcript) {
      var r := SendOnTranscript(stored, now, ts);
      assert TranscriptStep(lead, transcript, now, ts) == r;
      var sent := ProposalSentLead(stored, ProposalsDir + r.artifacts[0].name);
      assert r.lead == Stamped(sent, now);
      assert Get(r.lead, "Email") == Get(sent, "Email");
    } else {
      assert TranscriptStep(lead, transcript, now, ts).lead == Stamped(stored, now);
    }
  }

  /** Without a proposal the status is left as it was. */
  lemma TranscriptWithoutProposalKeepsStatus(lead: Lead, transcript: string, now: string, ts: string)
    requires !WantsProposal(transcript)
    ensures Get(TranscriptStep(lead, transcript, now, ts).lead, "Status") == Get(lead, "Status")
  {
    var stored := StoredTranscript(lead, transcript);
    assert TranscriptStep(lead, transcript, now, ts).lead == Stamped(stored, now);
    assert Get(stored, "Status") == Get(lead, "Status");
  }

  /** The "Send Event" handler of the webhook simulator, on the selected
      lead: a no-answer event sends one follow-up e-mail and marks the lead
      "No Answer"; any other event stores the transcript and sends a proposal
      exactly when the transcript asks for one. */
  function WebhookStep(lead: Lead, eventType: string, transcript: string, now: string, ts: string): (r: Step)
    ensures IsNoAnswer(eventType) ==>
      && Get(r.lead, "Status") == VStr("No Answer")
      && |r.artifacts| == 1 && r.artifacts[0].EmailDoc?
      && r.artifacts[0].to == Display(Get(lead, "Email"))
    ensures !IsNoAnswer(eventType) ==>
      && Get(r.lead, "CallTranscript") == VStr(Prefix(transcript, TranscriptLimit))
      && Get(r.lead, "LastActionAt") == VStr(now)
      && (|r.artifacts| == 2 <==> WantsProposal(transcript))
    ensures Get(r.lead, "Email") == Get(lead, "Email")
  {
    TranscriptKeepsEmail(lead, transcript, now, ts);
    if IsNoAnswer(eventType) then NoAnswerStep(lead, now, ts) else TranscriptStep(lead, transcript, now, ts)
  }

  /** A transcript over the limit is stored cut to exactly the limit. */
  lemma LongTranscriptStoredCut(lead: Lead, eventType: string, transcript: string, now: string, ts: string)
    requires !IsNoAnswer(eventType) && |transcript| > TranscriptLimit
    ensures var stored := Get(WebhookStep(lead, eventType, transcript, now, ts).lead, "CallTranscript");
      stored.VStr? && |stored.s| == TranscriptLimit && stored.s == transcript[..TranscriptLimit]
  {
  }

  /** Keyword detection reads the whole transcript, not the stored prefix: a
      "yes" just past the limit still sends a proposal although the stored
      transcript asks for none. */
  lemma KeywordPastLimitCounts(pad: string)
    requires |pad| == TranscriptLimit && !WantsProposal(pad)
    ensures WantsProposal(pad + "yes")
    ensures Prefix(pad + "yes", TranscriptLimit) == pad
    ensures !WantsProposal(Prefix(pad + "yes", TranscriptLimit))
  {
    var t := pad + "yes";
    assert Lower(t) == Lower(pad) + "yes";
    ContainsInfix(Lower(pad), "yes", "");
    assert Lower(pad) + "yes" + "" == Lower(t);
    assert "yes" in ProposalKeywords;
    AnyFoundIff(Lower(t), ProposalKeywords);
  }

  /** A word with a character that a string lacks is not in the string. */
  lemma MissingCharNotContained(s: string, w: string, c: char)
    requires c in w && c !in s
    ensures !Contains(s, w)
  {
    ContainsIffOccurs(s, w);
  }

  /** A transcript of the full stored length made of the letter 'a' alone
      asks for no proposal, since every keyword has a 'p' or a 'y'. */
  lemma KeywordFreePad()
    ensures !WantsProposal(seq(TranscriptLimit, _ => 'a'))
  {
    var pad := seq(TranscriptLimit, _ => 'a');
    assert forall i :: 0 <= i < |pad| ==> pad[i] == 'a';
    LowerOfLower(pad);
    assert 'p' !in pad && 'y' !in pad;
    forall kw | kw in ProposalKeywords ensures !Contains(pad, kw) {
      if kw == "yes" {
        MissingCharNotContained(pad, kw, 'y');
      } else {
        assert 'p' in kw;
        MissingCharNotContained(pad, kw, 'p');
      }
    }
    AnyFoundIff(pad, ProposalKeywords);
  }

  /** The keyword-free pad meets the precondition of
      `KeywordPastLimitCounts`: a "yes" past the limit is acted on although
      the stored transcript asks for no proposal. */
  lemma KeywordOnlyPastLimit()
    ensures var t := seq(TranscriptLimit, _ => 'a') + "yes";
      WantsProposal(t) && !WantsProposal(Prefix(t, TranscriptLimit))
  {
    KeywordFreePad();
    KeywordPastLimitCounts(seq(TranscriptLimit, _ => 'a'));
  }

  /** The webhook simulator's default transcript asks for a proposal. */
  lemma DefaultTranscriptWantsProposal()
    ensures WantsProposal("Great chat. Please send a proposal.")
  {
    var head, kw, tail := "Great chat. Please ", "send a proposal", ".";
    assert head + kw + tail == "Great chat. Please send a proposal.";
    LowerAppend(head + kw, tail);
    LowerAppend(head, kw);
    LowerOfLower(kw);
    ContainsInfix(Lower(head), kw, Lower(tail));
    assert kw in ProposalKeywords;
    AnyFoundIff(Lower(head + kw + tail), ProposalKeywords);
  }

  /** The refusal has neither a 'p' nor a 'y' in any case. */
  lemma RefusalLacksKeywordLetters()
    ensures 'p' !in Lower("Not interested, thanks.") && 'y' !in Lower("Not interested, thanks.")
  {
    var t := "Not interested, thanks.";
    LowerLacks(t, 'p');
    LowerLacks(t, 'y');
  }

  /** A refusal mentions no keyword: no proposal is sent. */
  lemma RefusalWantsNoProposal()
    ensures !WantsProposal("Not interested, thanks.")
  {
    RefusalLacksKeywordLetters();
    var low := Lower("Not interested, thanks.");
    forall kw | kw in ProposalKeywords ensures !Contains(low, kw) {
      if kw == "yes" {
        MissingCharNotContained(low, kw, 'y');
      } else {
        assert 'p' in kw;
        MissingCharNotContained(low, kw, 'p');
      }
    }
    AnyFoundIff(low, ProposalKeywords);
  }
}
