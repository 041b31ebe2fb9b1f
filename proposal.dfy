/** The deterministic proposal text `generate_proposal_md` falls back to when
    the language model is unavailable. */
module ProposalTemplate {
  import opened Text
  import opened Values

  const SectionHeaders: seq<string> := [
    "## 1) Problem summary",
    "## 2) Proposed automation solution",
    "## 3) Architecture (bullets)",
    "## 4) Timeline & milestones",
    "## 5) Pricing",
    "## 6) Next steps"
  ]

  /** The fixed text under each section header. */
  function SectionBody(k: nat): string
    requires k < 6
  {
    if k == 0 then "Describe the current pain points and desired outcomes.\n\n"
    else if k == 1 then "- People: roles and responsibilities\n- Process: key steps and governance\n"
      + "- Tech: LLM + orchestration + integrations (swappable)\n\n"
    else if k == 2 then "- Data intake -> Processing -> LLM -> Output\n- Observability & logging\n- Security & access\n\n"
    else if k == 3 then "- Week 1\U{2013}2: Discovery & design\n- Week 3\U{2013}4: MVP build\n- Week 5\U{2013}6: Pilot & iteration\n\n"
    else if k == 4 then "- Fixed fee within stated budget with clear deliverables.\n\n"
    else "- Reply to confirm and schedule a working session.\n"
  }

  /** `lead.get('UseCase', lead.get('AutomationNeed', ''))`: the legacy field
      is consulted only when UseCase is absent. */
  function UseCaseOf(lead: Lead): (v: Value)
    ensures "UseCase" in lead ==> v == lead["UseCase"]
    ensures "UseCase" !in lead ==> v == GetOr(lead, "AutomationNeed", VStr(""))
  {
    GetOr(lead, "UseCase", GetOr(lead, "AutomationNeed", VStr("")))
  }

  function CompanyLine(lead: Lead): string {
    "# Automation Proposal \U{2014} " + Display(GetOr(lead, "Company", VStr("(Company)")))
  }

  function ProspectLine(lead: Lead): string {
    "**Prospect:** " + Display(GetOr(lead, "Name", VStr("")))
  }

  function EmailLine(lead: Lead): string {
    "**Email:** " + Display(GetOr(lead, "Email", VStr("")))
  }

  function UseCaseLine(lead: Lead): string {
    "**Use case:** " + Display(UseCaseOf(lead))
  }

  /** The pieces of the template, in order: a four-line heading built from
      the lead, then the six fixed sections. */
  function TemplateParts(lead: Lead): (parts: seq<string>)
    ensures |parts| == 10
    ensures forall k :: 0 <= k < 6 ==> parts[4 + k] == SectionHeaders[k] + ("\n" + SectionBody(k))
  {
    [ CompanyLine(lead) + "\n\n",
      ProspectLine(lead) + "  \n",
      EmailLine(lead) + "  \n",
      UseCaseLine(lead) + "  \n\n" ]
    + seq(6, k requires 0 <= k < 6 => SectionHeaders[k] + ("\n" + SectionBody(k)))
  }

  /** The fallback proposal: it always carries the six section headers and
      the lead's company, name, e-mail and use case as given. */
  function FallbackProposal(lead: Lead): (r: string)
    ensures forall k :: 0 <= k < 6 ==> Contains(r, SectionHeaders[k])
    ensures Contains(r, CompanyLine(lead)) && Contains(r, ProspectLine(lead))
    ensures Contains(r, EmailLine(lead)) && Contains(r, UseCaseLine(lead))
  {
    TemplateFacts(lead);
    Concat(TemplateParts(lead))
  }

  lemma TemplateFacts(lead: Lead)
    ensures forall k :: 0 <= k < 6 ==> Contains(Concat(TemplateParts(lead)), SectionHeaders[k])
    ensures Contains(Concat(TemplateParts(lead)), CompanyLine(lead))
    ensures Contains(Concat(TemplateParts(lead)), ProspectLine(lead))
    ensures Contains(Concat(TemplateParts(lead)), EmailLine(lead))
    ensures Contains(Concat(TemplateParts(lead)), UseCaseLine(lead))
  {
    var parts := TemplateParts(lead);
    HeadersFound(parts);
    PartFoundStart(parts, 0, CompanyLine(lead), "\n\n");
    PartFoundStart(parts, 1, ProspectLine(lead), "  \n");
    PartFoundStart(parts, 2, EmailLine(lead), "  \n");
    PartFoundStart(parts, 3, UseCaseLine(lead), "  \n\n");
  }

  lemma PartFoundStart(parts: seq<string>, k: nat, w: string, x: string)
    requires k < |parts| && parts[k] == w + x
    ensures Contains(Concat(parts), w)
  {
    ConcatPartFound(parts, k);
    ContainsStart(Concat(parts), w, x);
  }

  lemma HeadersFound(parts: seq<string>)
    requires |parts| == 10
    requires forall k :: 0 <= k < 6 ==> parts[4 + k] == SectionHeaders[k] + ("\n" + SectionBody(k))
    ensures forall k :: 0 <= k < 6 ==> Contains(Concat(parts), SectionHeaders[k])
  {
    forall k | 0 <= k < 6 ensures Contains(Concat(parts), SectionHeaders[k]) {
      ConcatPartFound(parts, 4 + k);
      ContainsStart(Concat(parts), SectionHeaders[k], "\n" + SectionBody(k));
    }
  }
}
