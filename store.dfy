/** The lead store's merge logic (`upsert_lead`): records are found by their
    lower-cased e-mail, a new candidate is appended, and a known one is merged
    field by field into the first matching record. */
module LeadStore {
  import opened Text
  import opened Values

  /** `(x.get("Email") or "").lower()`: the case-insensitive identity of a
      record. A missing, None or empty e-mail gives "". */
  function EmailKey(rec: Lead): string {
    Lower(TextOf(Get(rec, "Email")))
  }

  /** Among records with a non-empty key, no two share it. */
  ghost predicate UniqueEmails(leads: seq<Lead>) {
    forall i, j :: 0 <= i < j < |leads| && EmailKey(leads[i]) != "" ==> EmailKey(leads[i]) != EmailKey(leads[j])
  }

  /** The index the generator in `upsert_lead` stops at: the first record
      whose key is `key`, or None when there is none. */
  function FirstMatch(leads: seq<Lead>, key: string): (r: Option<nat>)
    ensures r.Some? ==> r.value < |leads| && EmailKey(leads[r.value]) == key
    ensures r.Some? ==> forall j :: 0 <= j < r.value ==> EmailKey(leads[j]) != key
    ensures r.None? ==> forall j :: 0 <= j < |leads| ==> EmailKey(leads[j]) != key
  {
    if leads == [] then None
    else if EmailKey(leads[0]) == key then Some(0)
    else match FirstMatch(leads[1..], key)
      case None => None
      case Some(i) => Some(i + 1)
  }

  /** The lookup loop of `upsert_lead` and of the "Trigger Call" and
      "Generate & Save Proposal" actions. */
  method FindIndex(leads: seq<Lead>, key: string) returns (r: Option<nat>)
    ensures r == FirstMatch(leads, key)
  {
    var i := 0;
    while i < |leads|
      invariant 0 <= i <= |leads|
      invariant forall j :: 0 <= j < i ==> EmailKey(leads[j]) != key
    {
      if EmailKey(leads[i]) == key {
        return Some(i);
      }
      i := i + 1;
    }
    return None;
  }

  /** The copy loop `for k, v in lead.items(): existing[k] = v`: every key of
      the candidate overwrites, every other key keeps its value. */
  method CopyFields(existing: Lead, cand: Lead) returns (m: Lead)
    ensures m.Keys == existing.Keys + cand.Keys
    ensures forall k :: k in cand ==> m[k] == cand[k]
    ensures forall k :: k in existing && k !in cand ==> m[k] == existing[k]
  {
    m := existing;
    var todo := cand.Keys;
    while todo != {}
      invariant todo <= cand.Keys
      invariant m.Keys == existing.Keys + (cand.Keys - todo)
      invariant forall k :: k in cand && k !in todo ==> m[k] == cand[k]
      invariant forall k :: k in existing && k !in cand ==> m[k] == existing[k]
      decreases todo
    {
      var k :| k in todo;
      m := m[k := cand[k]];
      todo := todo - {k};
    }
  }

  /** The two `setdefault` calls: Status "New" and LastActionAt `now` when
      the candidate lacks them (a key present with value None is kept). */
  function WithDefaults(cand: Lead, now: string): (c: Lead)
    ensures c.Keys == cand.Keys + {"Status", "LastActionAt"}
    ensures forall k :: k in cand ==> c[k] == cand[k]
    ensures c["Status"] == GetOr(cand, "Status", VStr("New"))
    ensures c["LastActionAt"] == GetOr(cand, "LastActionAt", VStr(now))
    ensures EmailKey(c) == EmailKey(cand)
  {
    var c := if "Status" in cand then cand else cand["Status" := VStr("New")];
    if "LastActionAt" in c then c else c["LastActionAt" := VStr(now)]
  }

  /** The status a merged record ends with, given the status it received
      from the candidate. */
  function StatusAfterMerge(s: Value): Value {
    if s == VStr("New") || s == VStr("Updated") then VStr("Updated") else s
  }

  /** The existing record after the merge branch of `upsert_lead`. */
  function Merged(existing: Lead, c: Lead, now: string): Lead {
    var m := existing + c;
    var m' := m["Status" := StatusAfterMerge(Get(m, "Status"))];
    m'["LastActionAt" := VStr(now)]
  }

  /** The lead list after `upsert_lead(leads, cand)` at time `now`: the list
      grows by one exactly when no lead has the candidate's e-mail key, and
      every lead with another key is left as it was. */
  function Upserted(leads: seq<Lead>, cand: Lead, now: string): (r: seq<Lead>)
    ensures |r| == |leads| <==> exists j :: 0 <= j < |leads| && EmailKey(leads[j]) == EmailKey(cand)
    ensures |r| == |leads| + 1 ==> r[..|leads|] == leads && r[|leads|] == WithDefaults(cand, now)
    ensures |r| == |leads| || |r| == |leads| + 1
    ensures forall j :: 0 <= j < |leads| && EmailKey(leads[j]) != EmailKey(cand) ==> r[j] == leads[j]
  {
    var c := WithDefaults(cand, now);
    match FirstMatch(leads, EmailKey(cand))
    case None =>
      assert (leads + [c])[..|leads|] == leads;
      leads + [c]
    case Some(i) =>
      assert EmailKey(leads[i]) == EmailKey(cand);
      leads[i := Merged(leads[i], c, now)]
  }

  /** No match: the candidate, with its defaults, is appended and nothing
      before it changes. */
  lemma UpsertAppends(leads: seq<Lead>, cand: Lead, now: string)
    requires forall j :: 0 <= j < |leads| ==> EmailKey(leads[j]) != EmailKey(cand)
    ensures var r := Upserted(leads, cand, now);
      && |r| == |leads| + 1
      && r[..|leads|] == leads
      && (forall k :: k in cand ==> k in r[|leads|] && r[|leads|][k] == cand[k])
      && r[|leads|].Keys == cand.Keys + {"Status", "LastActionAt"}
      && r[|leads|]["Status"] == GetOr(cand, "Status", VStr("New"))
      && r[|leads|]["LastActionAt"] == GetOr(cand, "LastActionAt", VStr(now))
  {
    assert FirstMatch(leads, EmailKey(cand)).None?;
    assert (leads + [WithDefaults(cand, now)])[..|leads|] == leads;
  }

  /** A match: only the first matching record changes. Every key of the
      candidate overwrites it, its other keys keep their values, its status
      follows `StatusAfterMerge` of the candidate's status, and LastActionAt
      becomes `now`. */
  lemma UpsertMerges(leads: seq<Lead>, cand: Lead, now: string, i: nat)
    requires i < |leads| && EmailKey(leads[i]) == EmailKey(cand)
    requires forall j :: 0 <= j < i ==> EmailKey(leads[j]) != EmailKey(cand)
    ensures var r := Upserted(leads, cand, now);
      && |r| == |leads|
      && (forall j :: 0 <= j < |leads| && j != i ==> r[j] == leads[j])
      && r[i].Keys == leads[i].Keys + cand.Keys + {"Status", "LastActionAt"}
      && (forall k :: k in cand && k != "Status" && k != "LastActionAt" ==> r[i][k] == cand[k])
      && (forall k :: k in leads[i] && k !in cand && k != "Status" && k != "LastActionAt" ==> r[i][k] == leads[i][k])
      && r[i]["Status"] == StatusAfterMerge(GetOr(cand, "Status", VStr("New")))
      && r[i]["LastActionAt"] == VStr(now)
  {
    var m := FirstMatch(leads, EmailKey(cand));
    assert m.Some?;
    assert m.value == i by {
      if m.value < i {
      } else if m.value > i {
      }
    }
  }

  /** The merged status never depends on the status the existing record had:
      overwriting that status beforehand changes nothing in the result. */
  lemma MergeIgnoresPriorStatus(leads: seq<Lead>, cand: Lead, now: string, i: nat, s: Value)
    requires i < |leads| && FirstMatch(leads, EmailKey(cand)) == Some(i)
    ensures Upserted(leads[i := leads[i]["Status" := s]], cand, now) == Upserted(leads, cand, now)
  {
    var before := leads[i := leads[i]["Status" := s]];
    forall j | 0 <= j < |leads| ensures EmailKey(before[j]) == EmailKey(leads[j]) {
      if j == i {
        assert Get(before[j], "Email") == Get(leads[j], "Email");
      }
    }
    SameKeysSameMatch(before, leads, EmailKey(cand));
    var c := WithDefaults(cand, now);
    OverriddenUpdateForgotten(leads[i], c, "Status", s);
    assert Merged(before[i], c, now) == Merged(leads[i], c, now);
  }

  /** Setting a key that the right-hand map of a union overrides is lost. */
  lemma OverriddenUpdateForgotten(m: Lead, c: Lead, k: string, v: Value)
    requires k in c
    ensures m[k := v] + c == m + c
  {
  }

  /** Two lists whose records have the same keys give the same first match. */
  lemma {:induction false} SameKeysSameMatch(a: seq<Lead>, b: seq<Lead>, key: string)
    requires |a| == |b|
    requires forall j :: 0 <= j < |a| ==> EmailKey(a[j]) == EmailKey(b[j])
    ensures FirstMatch(a, key) == FirstMatch(b, key)
  {
    if a != [] && EmailKey(a[0]) != key {
      SameKeysSameMatch(a[1..], b[1..], key);
    }
  }

  /** Upserting the same fresh "New" candidate twice leaves one record, whose
      status is "Updated". */
  lemma UpsertTwiceGivesUpdated(leads: seq<Lead>, cand: Lead, now: string, later: string)
    requires forall j :: 0 <= j < |leads| ==> EmailKey(leads[j]) != EmailKey(cand)
    requires GetOr(cand, "Status", VStr("New")) == VStr("New")
    ensures var r := Upserted(Upserted(leads, cand, now), cand, later);
      && |r| == |leads| + 1
      && r[..|leads|] == leads
      && r[|leads|]["Status"] == VStr("Updated")
      && r[|leads|]["LastActionAt"] == VStr(later)
  {
    UpsertAppends(leads, cand, now);
    var once := Upserted(leads, cand, now);
    assert once[|leads|] == WithDefaults(cand, now);
    UpsertMerges(once, cand, later, |leads|);
    var r := Upserted(once, cand, later);
    assert r[..|leads|] == leads by {
      forall j | 0 <= j < |leads| ensures r[j] == leads[j] {
        assert r[j] == once[j];
      }
    }
  }

  /** Records with no usable e-mail match one another: a candidate without an
      e-mail is merged into the first record without one instead of being
      added. */
  lemma EmptyEmailsCollide(leads: seq<Lead>, cand: Lead, now: string, i: nat)
    requires i < |leads| && EmailKey(leads[i]) == "" && EmailKey(cand) == ""
    ensures |Upserted(leads, cand, now)| == |leads|
  {
    assert FirstMatch(leads, "").Some?;
  }

  /** Upserting never creates a second record for a non-empty key. */
  lemma UpsertKeepsUnique(leads: seq<Lead>, cand: Lead, now: string)
    requires UniqueEmails(leads)
    ensures UniqueEmails(Upserted(leads, cand, now))
    ensures |Upserted(leads, cand, now)| >= |leads|
    ensures forall j :: 0 <= j < |leads| ==> EmailKey(Upserted(leads, cand, now)[j]) == EmailKey(leads[j])
    ensures forall j :: |leads| <= j < |Upserted(leads, cand, now)| ==> EmailKey(Upserted(leads, cand, now)[j]) == EmailKey(cand)
  {
    var c := WithDefaults(cand, now);
    match FirstMatch(leads, EmailKey(cand))
    case None =>
      AppendKeepsUnique(leads, c);
    case Some(i) =>
      var m := Merged(leads[i], c, now);
      assert Get(m, "Email") == Get(leads[i] + c, "Email");
      if "Email" in cand {
        assert EmailKey(m) == EmailKey(cand);
      } else {
        assert EmailKey(m) == EmailKey(leads[i]);
      }
      ReplaceKeepsUnique(leads, i, m);
  }

  lemma AppendKeepsUnique(leads: seq<Lead>, c: Lead)
    requires UniqueEmails(leads)
    requires forall j :: 0 <= j < |leads| ==> EmailKey(leads[j]) != EmailKey(c)
    ensures UniqueEmails(leads + [c])
  {
    var r := leads + [c];
    forall i, j | 0 <= i < j < |r| && EmailKey(r[i]) != "" ensures EmailKey(r[i]) != EmailKey(r[j]) {
      if j == |leads| {
        assert r[i] == leads[i];
      } else {
        assert r[i] == leads[i] && r[j] == leads[j];
      }
    }
  }

  lemma ReplaceKeepsUnique(leads: seq<Lead>, i: nat, m: Lead)
    requires UniqueEmails(leads) && i < |leads|
    requires EmailKey(m) == EmailKey(leads[i])
    ensures UniqueEmails(leads[i := m])
  {
    var r := leads[i := m];
    assert forall j :: 0 <= j < |r| ==> EmailKey(r[j]) == EmailKey(leads[j]);
  }

  /** `upsert_lead` applied to each candidate in turn. */
  function UpsertAll(leads: seq<Lead>, cands: seq<Lead>, now: string): seq<Lead>
    decreases |cands|
  {
    if cands == [] then leads
    else Upserted(UpsertAll(leads, cands[..|cands| - 1], now), cands[|cands| - 1], now)
  }

  /** A run of upserts keeps keys unique, keeps the records it started with
      (at their places, under their keys), and only ever adds records whose
      key is one of the candidates' keys. */
  lemma {:induction false} UpsertAllKeepsUnique(leads: seq<Lead>, cands: seq<Lead>, now: string)
    requires UniqueEmails(leads)
    ensures var r := UpsertAll(leads, cands, now);
      && UniqueEmails(r)
      && |leads| <= |r| <= |leads| + |cands|
      && (forall j :: 0 <= j < |leads| ==> EmailKey(r[j]) == EmailKey(leads[j]))
      && (forall j :: |leads| <= j < |r| ==> exists c :: c in cands && EmailKey(r[j]) == EmailKey(c))
    decreases |cands|
  {
    if cands != [] {
      var init := cands[..|cands| - 1];
      var last := cands[|cands| - 1];
      UpsertAllKeepsUnique(leads, init, now);
      var mid := UpsertAll(leads, init, now);
      UpsertKeepsUnique(mid, last, now);
      var r := Upserted(mid, last, now);
      forall j | |leads| <= j < |r| ensures exists c :: c in cands && EmailKey(r[j]) == EmailKey(c) {
        if j < |mid| {
          var c :| c in init && EmailKey(mid[j]) == EmailKey(c);
          assert c in cands;
        } else {
          assert last in cands;
        }
      }
    }
  }
}
