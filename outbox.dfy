/** The simulated outbox: the artifacts the tool writes instead of sending
    mail or placing calls, their file names, the e-mail file layout and the
    notification-log line format. */
module Outbox {
  import opened Text
  import opened Values

  datatype Attachment = Attachment(filename: string, path: string)

  datatype Customer = Customer(name: Value, email: Value, company: Value)

  /** The JSON body of a simulated outbound call request. */
  datatype CallPayload = CallPayload(
    assistantId: string,
    phoneNumber: Value,
    customer: Customer,
    leadEmail: Value,          // metadata.leadEmail
    webhookUrl: string,
    synthesisPrompt: string)   // synthesis.prompt

  /** One file written to the outbox or the proposals folder. */
  datatype Artifact =
    | ProposalDoc(name: string, markdown: string)
    | EmailDoc(name: string, to: string, subject: string, text: string)
    | CallRequestDoc(name: string, payload: CallPayload)

  const ProposalsDir := "proposals/"

  /** Characters a file-name slug keeps before spaces become underscores. */
  predicate SlugChar(c: char) {
    IsAlnum(c) || c == '_' || c == '-' || c == ' '
  }

  /** Characters of a finished, file-system safe name piece. */
  predicate SafeChar(c: char) {
    IsAlnum(c) || c == '_' || c == '-'
  }

  /** The company part of a proposal file name (`save_proposal`): never
      empty, only letters, digits, '_' and '-'. */
  function ProposalStem(company: string): (r: string)
    ensures r != []
    ensures forall c :: c in r ==> SafeChar(c)
  {
    var source := if company == "" then "proposal" else company;
    var safe := Slugged(Filter(source, SlugChar));
    if safe == "" then "proposal" else safe
  }

  /** The strip-then-replace step both slugs share: every character that is
      left is safe, and nothing is added. */
  function Slugged(kept: string): (r: string)
    requires forall c :: c in kept ==> SlugChar(c)
    ensures |r| <= |kept|
    ensures forall c :: c in r ==> SafeChar(c)
  {
    var t := Trim(kept);
    var r := SpacesToUnderscores(t);
    assert |t| <= |kept| && forall c :: c in r ==> SafeChar(c) by {
      TrimKeepsChars(kept, SlugChar);
      var i :| StrippedAt(kept, t, i);
      forall c | c in r ensures SafeChar(c) {
        var k :| 0 <= k < |r| && r[k] == c;
        assert t[k] in t;
      }
    }
    r
  }

  /** A company name that is already a safe slug is used unchanged. */
  lemma SafeCompanyIsItsOwnStem(company: string)
    requires company != []
    requires forall i :: 0 <= i < |company| ==> SafeChar(company[i])
    ensures ProposalStem(company) == company
  {
    FilterKeepsAll(company, SlugChar);
    SafeIsSlugged(company);
  }

  /** A string of safe characters is its own slug. */
  lemma SafeIsSlugged(s: string)
    requires s != []
    requires forall i :: 0 <= i < |s| ==> SafeChar(s[i])
    ensures forall c :: c in s ==> SlugChar(c)
    ensures Slugged(s) == s
  {
    assert !IsSpace(s[0]) && !IsSpace(s[|s| - 1]);
    TrimKeepsUnpadded(s);
    assert SpacesToUnderscores(s) == s;
  }

  /** `{safe}_{ts}.md` (`save_proposal`): the sanitised stem, then the
      timestamp. Only the timestamp can bring a '/' into the name. */
  function ProposalFileName(company: string, ts: string): (r: string)
    ensures var stem := ProposalStem(company);
      && |r| == |stem| + |ts| + 4
      && r[..|stem|] == stem
      && r[|stem|..] == "_" + ts + ".md"
    ensures '/' !in ts ==> '/' !in r
  {
    var stem := ProposalStem(company);
    var tail := "_" + ts + ".md";
    assert '/' !in stem by { assert !SafeChar('/'); }
    assert '/' !in ".md" && '/' !in "_";
    assert (stem + tail)[..|stem|] == stem && (stem + tail)[|stem|..] == tail;
    stem + tail
  }

  /** The subject part of an e-mail file name (`save_email`): at most 80
      characters, only letters, digits, '_' and '-'. */
  function SubjectSlug(subject: string): (r: string)
    ensures |r| <= 80
    ensures forall c :: c in r ==> SafeChar(c)
  {
    var filtered := Filter(subject, SlugChar);
    var kept := Prefix(filtered, 80);
    assert forall c :: c in kept ==> c in filtered;
    Slugged(kept)
  }

  /** `{ts}__{to_email}__{safe_subj}.md` (`save_email`): the recipient is
      put into the name as given, without sanitising. */
  function EmailFileName(ts: string, to: string, subject: string): (r: string)
    ensures |r| == |ts| + |to| + |SubjectSlug(subject)| + 7
    ensures r[..|ts| + 2] == ts + "__"
    ensures r[|ts| + 2..|ts| + 2 + |to|] == to
    ensures r[|ts| + 2 + |to|..] == "__" + SubjectSlug(subject) + ".md"
  {
    var head, tail := ts + "__", "__" + SubjectSlug(subject) + ".md";
    Split3(head, to, tail);
    head + to + tail
  }

  function AttachmentLine(a: Attachment): string {
    "- " + a.filename + " -> " + a.path
  }

  /** The lines of a saved e-mail: a To and a Subject header, a blank line,
      the body, a blank line, and an attachments section only when there are
      attachments. */
  function EmailLines(to: string, subject: string, html: string, attachments: seq<Attachment>): (r: seq<string>)
    ensures |r| == if attachments == [] then 5 else 6 + |attachments|
    ensures r[0] == "# To: " + to && r[1] == "# Subject: " + subject
    ensures r[2] == "" && r[3] == html && r[4] == ""
    ensures attachments != [] ==> r[5] == "## Attachments"
    ensures forall i :: 0 <= i < |attachments| ==> r[6 + i] == AttachmentLine(attachments[i])
  {
    var head := ["# To: " + to, "# Subject: " + subject, "", html, ""];
    if attachments == [] then head
    else head + ["## Attachments"]
         + seq(|attachments|, i requires 0 <= i < |attachments| => AttachmentLine(attachments[i]))
  }

  /** The text of a saved e-mail file. */
  function EmailText(to: string, subject: string, html: string, attachments: seq<Attachment>): (r: string)
    ensures Contains(r, "# To: " + to) && Contains(r, "# Subject: " + subject) && Contains(r, html)
    ensures attachments != [] ==> Contains(r, "## Attachments")
    ensures forall i :: 0 <= i < |attachments| ==> Contains(r, AttachmentLine(attachments[i]))
  {
    var lines := EmailLines(to, subject, html, attachments);
    EveryLineFound(lines);
    JoinLines(lines)
  }

  lemma EveryLineFound(lines: seq<string>)
    ensures forall k :: 0 <= k < |lines| ==> Contains(JoinLines(lines), lines[k])
  {
    forall k | 0 <= k < |lines| ensures Contains(JoinLines(lines), lines[k]) {
      JoinedLineFound(lines, k);
    }
  }

  /** The e-mail artifact `save_email` writes. */
  function EmailArtifact(ts: string, to: string, subject: string, html: string, attachments: seq<Attachment>): Artifact {
    EmailDoc(EmailFileName(ts, to, subject), to, subject, EmailText(to, subject, html, attachments))
  }

  /** The notice `save_email` logs after writing. */
  function EmailSavedNotice(ts: string, to: string, subject: string): string {
    "Email saved: " + EmailFileName(ts, to, subject) + " -> " + to
  }

  /** One line of the notification log: `<timestamp> | <message>`. */
  function NotificationLine(now: string, msg: string): (r: string)
    ensures |r| == |now| + 3 + |msg| + 1
    ensures r[..|now|] == now && r[|now|..|now| + 3] == " | "
    ensures r[|now| + 3..|r| - 1] == msg && r[|r| - 1] == '\n'
    ensures '\n' !in now && '\n' !in msg ==> forall i :: 0 <= i < |r| - 1 ==> r[i] != '\n'
  {
    var r := now + " | " + msg + "\n";
    assert forall i :: 0 <= i < |now| ==> r[i] == now[i];
    assert forall i :: 0 <= i < |msg| ==> r[|now| + 3 + i] == msg[i];
    r
  }

  /** The call request `trigger_local_call` builds from a lead. */
  function CallPayloadOf(lead: Lead): (p: CallPayload)
    ensures p.customer.email == p.leadEmail == Get(lead, "Email")
    ensures p.phoneNumber == Get(lead, "Phone")
    ensures p.customer.name == Get(lead, "Name") && p.customer.company == Get(lead, "Company")
  {
    CallPayload(
      "local-assistant",
      Get(lead, "Phone"),
      Customer(Get(lead, "Name"), Get(lead, "Email"), Get(lead, "Company")),
      Get(lead, "Email"),
      "(local-streamlit)",
      "Friendly sales agent confirming proposal need.")
  }

  /** `call_{email}_{ts}.json` (`trigger_local_call`): the lead's e-mail as
      an f-string shows it, "unknown" when the key is absent. */
  function CallFileName(lead: Lead, ts: string): (r: string)
    ensures var e := Display(GetOr(lead, "Email", VStr("unknown")));
      && |r| == |e| + |ts| + 11
      && r[..5] == "call_"
      && r[5..5 + |e|] == e
      && r[5 + |e|..] == "_" + ts + ".json"
    ensures "Email" in lead ==> r[5..5 + |Display(lead["Email"])|] == Display(lead["Email"])
    ensures "Email" !in lead ==> r[5..12] == "unknown"
  {
    var e := Display(GetOr(lead, "Email", VStr("unknown")));
    Split3("call_", e, "_" + ts + ".json");
    "call_" + e + ("_" + ts + ".json")
  }

  /** Neither the e-mail file name nor the call file name sanitises the
      address: a '/' in it reaches the name, where it reads as a directory
      separator. */
  lemma SlashInAddressReachesFileNames(lead: Lead, ts: string, subject: string)
    requires Get(lead, "Email") == VStr("a/b@x.io")
    ensures '/' in EmailFileName(ts, "a/b@x.io", subject)
    ensures '/' in CallFileName(lead, ts)
  {
    var to := "a/b@x.io";
    assert to[1] == '/';
    var e := EmailFileName(ts, to, subject);
    assert e[|ts| + 2..|ts| + 2 + |to|][1] == e[|ts| + 3];
    var c := CallFileName(lead, ts);
    assert c[5..5 + |to|][1] == c[6];
  }

  function CallArtifact(lead: Lead, ts: string): Artifact {
    CallRequestDoc(CallFileName(lead, ts), CallPayloadOf(lead))
  }

  function CallNotice(lead: Lead, ts: string): string {
    " Simulated call created: " + CallFileName(lead, ts)
  }
}
