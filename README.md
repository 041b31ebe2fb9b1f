# Lead automation: a verified model of the lead store and its actions

`leadautomation.py` is a small Streamlit tool for qualifying sales leads and
sending them proposals. It has no database and no outside services. Leads are
dictionaries kept in a list in the session and saved to a JSON file. Every
outward action writes a file instead of reaching a person:

- a qualified lead gets a simulated call request (a JSON file);
- a proposal becomes a Markdown file plus an e-mail file that names it as an
  attachment;
- each notification is appended as a timestamped line to a log.

This project models the core of that tool in Dafny:

- **the lead store.** `upsert_lead` matches leads by e-mail, ignoring case.
  It fills the `Status` and `LastActionAt` defaults and either appends the
  lead or merges it into the existing record.
- **qualification.** `auto_qualify` compares the budget with a threshold. A
  qualified lead gets a call request from `trigger_local_call`.
- **the bulk runs.** "Auto-qualify All" qualifies every lead. "Auto-qualify
  imported leads" qualifies only those whose status is `New` or `Updated`.
- **the outbox formats.**
  - the file-name slugs of `save_proposal` and `save_email`;
  - the layout of an e-mail file;
  - the call payload;
  - the `notify` log line;
  - the fallback proposal template.
- **the CSV import.** Headers and values are trimmed and headers are
  lower-cased. Field fallbacks fill the lead (`name` or `prospect`, `usecase`
  or `automationneed`). The budget becomes a number. A row without an e-mail
  is skipped.
- **the actions.** "Trigger Call" and "Generate & Save Proposal" each look up
  a lead and act on it.
- **the webhook simulator.** A no-answer event marks the lead and writes a
  follow-up e-mail. Any other event stores the transcript, cut to 15000
  characters. If the transcript contains a proposal keyword, a proposal is
  sent.

## Structure of the model

| module | contents |
|---|---|
| `Text` | the string operations the code uses: strip, lower, substring test, filter, slicing, decimal digits |
| `Values` | a lead as a `map<string, Value>`, and `d.get`, truthiness, `a or b` and f-string display over it |
| `Outbox` | the files the tool writes (`Artifact`), their names, the e-mail layout, the call payload and the log line |
| `ProposalTemplate` | the fallback proposal Markdown |
| `LeadStore` | `upsert_lead` over a `seq<Lead>`, its cases, and the unique-e-mail invariant |
| `Lifecycle` | each action as a function from a lead to a `Step`: the new lead, the files written and the log lines |
| `CsvImport` | row normalisation, the imported lead, and the rows an import accepts |
| `Session` | class `LeadBook`, the session's lead list with the outbox and the log, and one method per UI action |
| `Scenario` | a CSV row imported and then qualified end to end |

The methods of `Session.LeadBook` update the lead list in place, as the
Python code mutates the list and its dictionaries. Each method's `ensures`
ties the new list, outbox and log to the pure functions of `LeadStore`,
`Lifecycle` and `CsvImport`, and the lemmas about those functions state what
the actions guarantee. `Valid()` says that no two leads share a non-empty
e-mail when case is ignored. Every action keeps it.

The model follows the code where the code and its comments or intent
differ:

- A merge overwrites `Status` with the incoming value. A lead that is
  already `Qualified` and is imported again becomes `Updated`. The comment
  at line 98 says the status should be kept. `LeadStore.MergeIgnoresPriorStatus`
  proves that the stored status has no effect on the result.
- Leads whose e-mail is empty or missing all share the key `""`. They
  collide in `upsert_lead` (`LeadStore.EmptyEmailsCollide`).
- The webhook finds its lead by exact e-mail equality, while the other
  actions ignore case (`Session.WebhookLookupIsCaseSensitive`).
- The webhook stores only the first 15000 characters of the transcript, but
  it looks for keywords in the whole transcript
  (`Lifecycle.KeywordPastLimitCounts`). The keyword `yes` also matches
  inside other words.
- A lookup that finds an empty record (`{}`) reports "Lead not found",
  because an empty dictionary is false in Python (`Session.EmptyRecordNotFound`).
- The "Generate & Save Proposal" action does not refresh `LastActionAt`
  (`Session.ProposalKeepsEmail`). The webhook's proposal path does refresh it.
- Only the company stem (lines 158-159) and the subject (line 168) are
  sanitised before they go into a file name. `save_email` puts the recipient
  into the name as given (line 169). `trigger_local_call` puts in the raw
  `Email` value, `None` or `unknown` (line 190). An address containing `/`
  therefore names a sub-directory that does not exist, and the write fails
  (`Outbox.SlashInAddressReachesFileNames`).

## Model

| member | source | states |
|---|---|---|
| Text.Lower | leadautomation.py:92 | `str.lower`: same length, and each character mapped by `LowerChar` (upper-case ASCII letters shifted down, all else kept) |
| Text.Trim | leadautomation.py:316 | `str.strip`: the result is a contiguous slice of the input, only whitespace is removed on each side, and it neither starts nor ends with whitespace |
| Text.TrimPadded | leadautomation.py:316 | stripping whitespace padding around a text that has no whitespace at its ends gives back exactly that text |
| Text.ContainsIffOccurs | leadautomation.py:373 | the recursive substring test `kw in text` holds exactly when some index starts an occurrence of the word |
| Text.Filter | leadautomation.py:158 | the character filter of a slug keeps exactly the characters that pass the test, and nothing else |
| Text.FilterAppend | leadautomation.py:158 | the filter works piece by piece: the kept characters of a concatenation are those of each part, in order, so order and repetitions are kept |
| Text.SpacesToUnderscores | leadautomation.py:159 | `replace(" ", "_")`: same length, no space left, spaces become `_`, other characters unchanged |
| Text.Prefix | leadautomation.py:372 | `s[:n]`: a prefix of `s` whose length is the smaller of `n` and the length of `s` |
| Text.DigitsRoundTrip | leadautomation.py:322 | reading the decimal digits written for a number gives back the number, so a budget renders and parses consistently |
| Values.Get | leadautomation.py:92 | `d.get(k)`: the stored value when the key is present, None otherwise |
| Values.Or | leadautomation.py:318-323 | `a or b`: `a` when it is truthy, otherwise `b` |
| Values.Display | leadautomation.py:144-147 | an f-string renders a string as itself and None as `None` |
| Outbox.ProposalStem | leadautomation.py:158-159 | the proposal file stem is never empty and uses only letters, digits, `_` and `-` |
| Outbox.SafeCompanyIsItsOwnStem | leadautomation.py:158-159 | a non-empty company name made only of slug-safe characters is its own file stem |
| Outbox.SubjectSlug | leadautomation.py:168 | the subject slug has at most 80 characters, all of them slug-safe |
| Outbox.EmailLines | leadautomation.py:170-174 | the e-mail file lines: To, Subject, blank, body, blank, then the attachments heading and one line per attachment only when there are attachments |
| Outbox.EmailText | leadautomation.py:170-175 | the saved e-mail text contains the To line, the Subject line, the body, and every attachment line |
| Outbox.NotificationLine | leadautomation.py:72 | the log line is the timestamp, a space-bar-space separator, the message and a newline, and it is a single line when its parts have no newline |
| Outbox.ProposalFileName | leadautomation.py:161 | the proposal file name is the sanitised stem, `_`, the timestamp and `.md`; it contains no `/` unless the timestamp does |
| Outbox.EmailFileName | leadautomation.py:169 | the e-mail file name starts with the timestamp and `__`, then carries the recipient unchanged, and ends with `__`, the subject slug and `.md` |
| Outbox.CallFileName | leadautomation.py:190 | the call file name is `call_`, the lead's displayed e-mail (`unknown` when the key is absent), `_`, the timestamp and `.json` |
| Outbox.SlashInAddressReachesFileNames | leadautomation.py:169-190 | a `/` in the lead's e-mail reaches both the e-mail file name and the call file name unsanitised |
| Outbox.CallPayloadOf | leadautomation.py:181-188 | the call payload carries the lead's phone, name, company and e-mail, and its metadata names the lead's e-mail |
| ProposalTemplate.UseCaseOf | leadautomation.py:147 | the use case is the `UseCase` field when present, otherwise `AutomationNeed` with `""` as the default |
| ProposalTemplate.TemplateParts | leadautomation.py:143-154 | the template has ten parts, and the last six are the six section headings, in order, each followed by its body |
| ProposalTemplate.FallbackProposal | leadautomation.py:143-154 | the proposal contains all six section headings and the company, prospect, e-mail and use-case lines for the lead |
| ProposalTemplate.TemplateFacts | leadautomation.py:143-154 | the joined template parts contain every heading and every per-lead line |
| LeadStore.FirstMatch | leadautomation.py:92 | the index found is the first lead whose lower-cased e-mail equals the key; None means that no lead matches |
| LeadStore.FindIndex | leadautomation.py:92 | the loop over the leads returns exactly the first match |
| LeadStore.CopyFields | leadautomation.py:100-101 | after copying, the record has the union of both key sets, the incoming values win, and the other existing values are kept |
| LeadStore.WithDefaults | leadautomation.py:93-94 | `setdefault` adds `Status` = New and `LastActionAt` = now only when they are absent, and keeps every other field and the e-mail key |
| LeadStore.Upserted | leadautomation.py:91-104 | the list grows by one exactly when no lead has the candidate's e-mail key; a new entry is the candidate with its defaults after the old list; every lead with another key is unchanged |
| LeadStore.UpsertAppends | leadautomation.py:95-96 | with no lead of the same e-mail, the list grows by one: the old leads come first, then the candidate with its defaults |
| LeadStore.UpsertMerges | leadautomation.py:97-104 | with a first match at `i`, only `i` changes: incoming fields win, the others stay, the status becomes `Updated` if it was New or Updated, and `LastActionAt` is now |
| LeadStore.MergeIgnoresPriorStatus | leadautomation.py:98-103 | the status stored before the merge has no effect on the result, because the incoming status overwrites it |
| LeadStore.UpsertTwiceGivesUpdated | leadautomation.py:91-104 | inserting the same new lead twice gives one record with status `Updated`, stamped with the second time |
| LeadStore.EmptyEmailsCollide | leadautomation.py:92 | a lead with an empty e-mail merges into any stored lead with an empty e-mail, so the list does not grow |
| LeadStore.UpsertKeepsUnique | leadautomation.py:91-104 | an upsert keeps the e-mails unique, keeps every existing lead's key, and adds at most the candidate's key |
| LeadStore.UpsertAllKeepsUnique | leadautomation.py:327-329 | a sequence of upserts keeps the e-mails unique, grows the list by at most the number of candidates, and every new entry has a candidate's key |
| Lifecycle.BudgetOf | leadautomation.py:197 | `float(lead.get("Budget") or 0)`: a missing, None or empty budget counts as 0, and a number is itself |
| Lifecycle.CallStep | leadautomation.py:180-193 | a call trigger leaves the lead as it is, writes one call request addressed to the lead's e-mail, and logs one line |
| Lifecycle.AutoQualifyStep | leadautomation.py:196-204 | the status is `Qualified` exactly when the budget reaches the threshold and `Unqualified` otherwise; the time is stamped; other fields are kept; one call request to the lead is written exactly when qualified |
| Lifecycle.QualifyIsIdempotent | leadautomation.py:196-204 | qualifying an already qualified lead again gives the same status and the same number of call requests |
| Lifecycle.QualifyRun | leadautomation.py:274-275 | a bulk run over the leads in order (also lines 333-335 with the pending filter) keeps the number of leads and writes one log line per call request |
| Lifecycle.QualifyRunLeads | leadautomation.py:333-335 | each lead after a run is that lead's own qualification step, or the lead unchanged when the pending filter skips it |
| Lifecycle.QualifyRunWritesCalls | leadautomation.py:274-275 | every file a bulk run writes is a call request |
| Lifecycle.QualifyRunCallCount | leadautomation.py:333-335 | a bulk run writes exactly one call request per selected lead whose budget reaches the threshold |
| Lifecycle.ProposalSentLead | leadautomation.py:298-299 | sending a proposal sets `ProposalPath` and the status `Proposal Sent`, and keeps every other field, including the e-mail |
| Lifecycle.ProposalEmail | leadautomation.py:300 | the proposal e-mail is addressed to the lead's e-mail and lists the proposal file as an attachment |
| Lifecycle.ProposalStep | leadautomation.py:296-300 | the proposal action writes the proposal and then an e-mail to the lead, and the lead records the path of the proposal written |
| Lifecycle.ProposalStepContents | leadautomation.py:296-300 | the saved proposal has all six section headings, and the e-mail's attachment line names the saved proposal file |
| Lifecycle.WantsProposal | leadautomation.py:373-375 | a transcript asks for a proposal exactly when its lower-cased text contains one of the six keywords |
| Lifecycle.AnyFoundIff | leadautomation.py:373-375 | `any(kw in text for kw in words)` holds exactly when some keyword occurs in the text |
| Lifecycle.NoAnswerLead | leadautomation.py:366-368 | a no-answer event sets the status `No Answer`, the note and the time, and keeps every other field |
| Lifecycle.NoAnswerStep | leadautomation.py:366-370 | a no-answer event keeps the e-mail, writes exactly one follow-up e-mail to the lead with the follow-up subject, and logs two lines |
| Lifecycle.StoredTranscript | leadautomation.py:372 | the stored transcript is its first 15000 characters, and every other field is kept |
| Lifecycle.Stamped | leadautomation.py:385 | stamping changes only `LastActionAt`, which becomes now |
| Lifecycle.SendOnTranscript | leadautomation.py:376-382 | a proposal request writes the proposal and an e-mail to the lead, sets `Proposal Sent` and the path, keeps the stored transcript, stamps the time, and logs two lines |
| Lifecycle.TranscriptStep | leadautomation.py:371-385 | any event other than no-answer stores the cut transcript and stamps the time; with a keyword it writes two files and logs two lines, without one it writes nothing and logs one line |
| Lifecycle.TranscriptSendsProposal | leadautomation.py:376-381 | a transcript with a keyword gives the status `Proposal Sent`, a proposal file whose path the lead records, and an e-mail to the lead |
| Lifecycle.TranscriptKeepsOtherFields | leadautomation.py:371-385 | a transcript event changes no field other than status, proposal path, transcript and time |
| Lifecycle.TranscriptKeys | leadautomation.py:371-385 | the fields a transcript event adds: transcript and time, plus status and proposal path when a proposal is sent |
| Lifecycle.TranscriptKeepsEmail | leadautomation.py:371-385 | a transcript event never changes the lead's e-mail |
| Lifecycle.TranscriptWithoutProposalKeepsStatus | leadautomation.py:383-385 | a transcript without a keyword leaves the status as it was |
| Lifecycle.WebhookStep | leadautomation.py:366-385 | a no-answer event marks the lead `No Answer` and writes one follow-up e-mail to the lead's address; any other event stores the cut transcript, stamps the time, and writes two files exactly when the transcript asks for a proposal; the e-mail never changes |
| Lifecycle.LongTranscriptStoredCut | leadautomation.py:372 | a transcript longer than the limit is stored as exactly its first 15000 characters |
| Lifecycle.KeywordPastLimitCounts | leadautomation.py:372-375 | for a keyword-free text of exactly the limit followed by `yes`, a proposal is sent although the stored transcript, exactly that text, asks for none |
| Lifecycle.KeywordFreePad | leadautomation.py:373-375 | a text of 15000 letters `a` contains no proposal keyword |
| Lifecycle.KeywordOnlyPastLimit | leadautomation.py:372-375 | that text followed by `yes` sends a proposal, and its stored prefix asks for none, so the precondition of the general lemma can be met |
| Lifecycle.DefaultTranscriptWantsProposal | leadautomation.py:357 | the simulator's default transcript asks for a proposal |
| Lifecycle.RefusalWantsNoProposal | leadautomation.py:373-375 | a transcript with none of the keywords, "Not interested, thanks.", asks for no proposal |
| CsvImport.NormValue | leadautomation.py:316 | normalising a cell keeps it absent when absent, and a present value becomes that value stripped of surrounding whitespace |
| CsvImport.NormItems | leadautomation.py:316 | every header is stripped and lower-cased and every value stripped, with the order and count unchanged |
| CsvImport.ToDictLastWins | leadautomation.py:316 | building the dictionary gives each key the value of its last occurrence |
| CsvImport.NormalizeLastWins | leadautomation.py:316 | when two headers normalise to the same key, the later column's trimmed value is kept |
| CsvImport.Field | leadautomation.py:318-323 | `norm.get(key)` is a string exactly when the column exists and has a value, and None otherwise |
| CsvImport.BudgetValue | leadautomation.py:322 | the budget is a non-negative number: 0 when the cell is missing or empty, and otherwise the number its digits spell |
| CsvImport.ImportedLead | leadautomation.py:317-326 | an imported lead has exactly the eight fields, the status `New`, the import time, the e-mail when given (`""` otherwise), the company as given, and the parsed budget |
| CsvImport.ImportedKey | leadautomation.py:327 | an imported lead has a non-empty store key exactly when its row gave an e-mail |
| CsvImport.Accepted | leadautomation.py:327-329 | the leads an import passes to the upsert are at most one per row, and each has a non-empty e-mail |
| CsvImport.AcceptedCount | leadautomation.py:327-331 | the number of leads imported equals the number of rows with an e-mail |
| CsvImport.SkipsEmptyEmail | leadautomation.py:327 | a row without an e-mail adds no lead |
| CsvImport.NameFallback | leadautomation.py:318 | the name is `name`, else `prospect`, else `""` |
| CsvImport.UseCaseAndPhone | leadautomation.py:321-323 | the use case is `usecase`, else `automationneed`; a given phone is stored as given, and a missing or empty one becomes None |
| CsvImport.PaddedHeaderKey | leadautomation.py:316 | a header with whitespace around it normalises to its lower-cased core |
| CsvImport.EmailColumnAccepted | leadautomation.py:316-327 | a row whose last `email` column has a non-blank value is accepted with that value trimmed |
| CsvImport.BlankEmailSkipped | leadautomation.py:316-327 | a row whose last `email` column is blank or missing is skipped |
| Session.EmptyRecordNotFound | leadautomation.py:282-284 | an empty stored record has the empty key and no e-mail, so both lookups return it, yet `Found` rejects it as `not found` does |
| Session.FirstWithEmail | leadautomation.py:362 | the webhook's lookup finds the first lead whose e-mail is exactly the selected value, or none |
| Session.WebhookLookupIsCaseSensitive | leadautomation.py:362 | an e-mail that differs only in case is found by the other actions but not by the webhook |
| Session.WebhookKeepsEmail | leadautomation.py:366-385 | no webhook event changes the lead's e-mail |
| Session.ProposalKeepsEmail | leadautomation.py:296-300 | the proposal action keeps the e-mail and leaves `LastActionAt` as it was |
| Session.FormLead | leadautomation.py:259-262 | a lead from the form has the eight fields, the status `New`, the current time, and the entered e-mail as its key |
| Session.QualifyRunKeepsUnique | leadautomation.py:274-275 | a bulk run keeps the e-mails unique |
| Session.LeadBook.constructor | leadautomation.py:215-219 | a session starts with the loaded leads, an empty outbox and an empty log |
| Session.LeadBook.Upsert | leadautomation.py:91-104 | the lead list becomes the upsert of the candidate, nothing is written, and the unique-e-mail invariant is kept |
| Session.LeadBook.AddLead | leadautomation.py:255-262 | the form saves exactly when an e-mail was entered, and then upserts the form lead; otherwise nothing changes |
| Session.LeadBook.AutoQualify | leadautomation.py:196-204 | qualifies lead `j` in place, appends its call request and log lines, and returns `Qualified` exactly when the budget reaches the threshold |
| Session.LeadBook.QualifyEach | leadautomation.py:274-275 | the in-place loop over the list leaves exactly the leads, outbox and log of the bulk run |
| Session.LeadBook.QualifyAt | leadautomation.py:333-335 | one iteration qualifies lead `j` when the filter selects it and otherwise leaves it |
| Session.LeadBook.QualifyAll | leadautomation.py:273-275 | "Auto-qualify All" is the bulk run over every lead, and it keeps the invariant |
| Session.LeadBook.QualifyImported | leadautomation.py:332-335 | "Auto-qualify imported leads" is the bulk run over pending leads; a lead that is not New or Updated is left unchanged |
| Session.LeadBook.TriggerCallFor | leadautomation.py:280-288 | the call is placed exactly when the first lead matching ignoring case is a non-empty record; otherwise the result is not found and nothing is written; the leads never change |
| Session.LeadBook.SendProposalFor | leadautomation.py:290-300 | the proposal is sent exactly when the first lead matching ignoring case is a non-empty record: that lead takes the proposal step, and its `LastActionAt` is unchanged; otherwise nothing changes |
| Session.LeadBook.Webhook | leadautomation.py:358-385 | `-` means no selection; otherwise the first exact e-mail match takes the webhook step when it is a non-empty record, and no match or an empty record changes nothing |
| Session.LeadBook.Import | leadautomation.py:311-331 | the list becomes the upserts of the accepted rows in order, the count is the number of rows with an e-mail, and the invariant is kept |
| Scenario.RowLead | leadautomation.py:315-329 | a row with an e-mail column and a digit budget gives one lead with that e-mail and budget and the status `New` |
| Scenario.UpsertIntoEmpty | leadautomation.py:91-96 | the first lead into an empty store is appended with its defaults |
| Scenario.QualifyNewLead | leadautomation.py:332-335 | a new lead whose budget reaches the threshold is qualified by the pending run and gets one call request to its e-mail |
| Scenario.ImportThenQualify | leadautomation.py:311-335 | importing one such row into an empty store and then running "Auto-qualify imported leads" qualifies it and writes one call to the row's e-mail |
| Scenario.JaneRowMeetsThreshold | leadautomation.py:311-331 | a concrete row has the e-mail `jane@acme.com` and a budget of at least 10000, which is the default threshold |
| Scenario.JaneIsQualified | leadautomation.py:311-335 | importing that row into an empty list and running "Auto-qualify imported leads" at 10000 leaves one lead, `Qualified`, and one call request to `jane@acme.com` |

## Left out

- The Streamlit interface (widgets, tabs, reruns, success and error banners) is not modelled. Each button is a method of `Session.LeadBook`, and the "Lead not found" and "Select a lead" branches are its `Outcome` results.
- `load_leads` and `save_leads` (lines 78-88) are left out, because they only read and write files. The constructor takes the loaded list as a parameter.
- File writes are left out. The outbox is a ghost sequence of `Artifact` values with their names and contents.
- Absolute paths are not modelled. A proposal path is `proposals/` followed by the file name.
- `st.toast` is left out, and the log file append of `notify` is the ghost `log` sequence.
- `now_iso()` and the `%Y%m%d_%H%M%S` timestamp are clock reads. They are passed in as `now` and `ts`.
- `as_df` (lines 107-110) is left out. It only builds a table for display.
- The LLM path of `generate_proposal_md` is left out. It is a foreign HTTP call, so the model always uses the fallback template. The "LLM unavailable" log line that a failed call would add is not modelled.
- The settings sidebar is left out. The threshold is a parameter.
- The Calls tab (lines 340-350) is left out. It repeats `trigger_local_call`, which `Lifecycle.CallStep` models.
- The Outbox Viewer (lines 389-419) is left out. It only reads files back.
- CSV parsing (`csv.DictReader`, UTF-8 decoding) is left out. A row is given as its header and cell pairs; a cell that is absent is `None`.
- Floating point is not modelled. Budgets are whole numbers (`VNum(int)`), so a fractional budget or one written with a decimal point or an exponent is not covered.
- Lifecycle.BudgetOf requires `BudgetIsNumber`: the budget is missing, None, empty or a number. Any other text budget is left out, numeric text such as `"15000"` included, although `float()` accepts it.
- Lifecycle.AutoQualifyStep requires `BudgetIsNumber`, for the same reason.
- Session.LeadBook.AutoQualify requires `BudgetIsNumber`, for the same reason.
- Session.LeadBook.QualifyAll requires `BudgetIsNumber` for every lead (`RunnableOn`), for the same reason.
- Session.LeadBook.QualifyImported requires `BudgetIsNumber` for every selected lead, for the same reason.
- CsvImport.BudgetValue requires `BudgetReadable`: the cell is empty, missing or digits only. `float()` also accepts signs, decimals, exponents, underscores between digits, `inf` and `nan`; those cells, and the `ValueError` on text it rejects, are left out.
- Session.LeadBook.Import requires every row to be `Readable`. A row whose budget `float()` parses but the model does not, and a row on which it raises part-way through an import, are not modelled.
- Session.LeadBook.Import does not model a row with more cells than the header line. `csv.DictReader` puts the extra cells, for example after a trailing comma, under the key `None`. `k.strip()` at line 316 then raises `AttributeError` part-way through the import: the leads upserted before that row stay in memory and `save_leads` (line 330) is not reached. `CsvImport.Row` has only string headers, so it cannot express that row.
- CsvImport.NormalizeLastWins differs from `csv.DictReader` when two header cells are identical before normalising. `DictReader` keeps one key for them, holding the last column's value, so the result agrees. But with headers `Email`, `email `, `Email`, the reader's dictionary holds `Email` (third cell) before `email ` (second cell), so the comprehension keeps the second cell. The model reads the items in column order with the later column winning, and keeps the third.
- `str.isspace`, `str.isalnum` and `str.lower` are modelled on ASCII, not on full Unicode.
- The JSON serialisation of the call payload is not modelled. The payload is a datatype with the same fields.
