/** The job's audit history: its entries, the provider ids mentioned in
    their diffs, the provider profiles looked up for those ids, and the text
    each diff is shown with. */
module JobHistory {
  import opened Common
  import Text

  /** A JSON value as it appears in `old`/`new` of a diff. Numbers are
      integers here. */
  datatype Value = Null | Undefined | Str(s: string) | Bool(b: bool) | Num(n: int)

  /** JavaScript truthiness of a value. */
  predicate Truthy(v: Value) {
    match v
    case Null => false
    case Undefined => false
    case Str(s) => s != ""
    case Bool(b) => b
    case Num(n) => n != 0
  }

  /** `String(v)` */
  function JsString(v: Value): string {
    match v
    case Null => "null"
    case Undefined => "undefined"
    case Str(s) => s
    case Bool(b) => if b then "true" else "false"
    case Num(n) => if n >= 0 then Text.NatToString(n) else "-" + Text.NatToString(-n)
  }

  /** One changed field of an audit entry; `field` is `None` when absent. */
  datatype Diff = Diff(field: Option<string>, oldValue: Value, newValue: Value)

  /** An `audit_log` row; `details` is `None` when `details.details` is
      missing or falsy. */
  datatype AuditEntry = AuditEntry(id: string, action: string, entity: string,
                                   occurredAt: Option<Timestamp>, details: Option<seq<Diff>>)

  /** A `profiles` row as the history reads it. */
  datatype Profile = Profile(id: string, fullName: Option<string>, companyName: Option<string>,
                             email: Option<string>)

  const ProviderField := "provider_id"

  /** `e?.details?.details || []` */
  function EntryDiffs(e: AuditEntry): seq<Diff> {
    e.details.GetOr([])
  }

  /** `displayName(p)`: company name, else full name, else e-mail, else
      `'Unknown'`, skipping empty strings. */
  function DisplayName(p: Profile): (r: string)
    ensures r != ""
    ensures r == "Unknown" || Some(r) == p.companyName || Some(r) == p.fullName || Some(r) == p.email
    ensures Present(p.companyName) ==> r == p.companyName.value
  {
    if Present(p.companyName) then p.companyName.value
    else if Present(p.fullName) then p.fullName.value
    else if Present(p.email) then p.email.value
    else "Unknown"
  }

  /** The fallback chain in full: each name is used exactly when the ones
      before it are missing or empty and it is not. */
  lemma DisplayNameChoice(p: Profile)
    ensures !Present(p.companyName) && Present(p.fullName) ==> DisplayName(p) == p.fullName.value
    ensures !Present(p.companyName) && !Present(p.fullName) && Present(p.email) ==> DisplayName(p) == p.email.value
    ensures !Present(p.companyName) && !Present(p.fullName) && !Present(p.email) ==> DisplayName(p) == "Unknown"
  {
  }

  /** `fmtTime(ts)`: `NotAvailable` is the text `'N/A'`; a timestamp is
      shown in the local format, which is not modelled. */
  datatype TimeText = NotAvailable | LocalTime(ts: Timestamp)

  function FmtTime(ts: Option<Timestamp>): (r: TimeText)
    ensures r == NotAvailable <==> !Present(ts)
    ensures r.LocalTime? ==> Some(r.ts) == ts
  {
    if Present(ts) then LocalTime(ts.value) else NotAvailable
  }

  /** `fmt(v)` for generic fields. */
  function Fmt(v: Value): (r: string)
    ensures v.Null? || v.Undefined? ==> r == "null"
    ensures v.Str? ==> r == v.s
  {
    if v.Null? || v.Undefined? then "null" else JsString(v)
  }

  /** The text `'null'` stands for null, undefined or the string "null";
      numbers and booleans never print as it. */
  lemma FmtNullMeaning(v: Value)
    ensures Fmt(v) == "null" <==> v.Null? || v.Undefined? || v == Str("null")
  {
    if v.Num? {
      var digits := Text.NatToString(if v.n >= 0 then v.n else -v.n);
      assert Text.AllDigits(digits);
      if v.n >= 0 {
        assert Fmt(v)[0] == digits[0];
      } else {
        assert Fmt(v)[0] == '-';
      }
    }
  }

  /** `(d.field || '').replace(/_/g, ' ')` */
  function FieldLabel(field: Option<string>): (r: string)
    ensures |r| == |field.GetOr("")|
    ensures forall i :: 0 <= i < |r| ==> r[i] != '_'
    ensures forall i :: 0 <= i < |r| ==> r[i] == if field.GetOr("")[i] == '_' then ' ' else field.GetOr("")[i]
  {
    Text.UnderscoresToSpaces(field.GetOr(""))
  }

  /** The provider ids a diff contributes, old before new: only for the
      provider field, and only truthy values. */
  function DiffCandidates(d: Diff): (r: seq<Value>)
    ensures forall v :: v in r <==> Contributes(d, v)
  {
    if d.field == Some(ProviderField) then
      (if Truthy(d.oldValue) then [d.oldValue] else []) + (if Truthy(d.newValue) then [d.newValue] else [])
    else []
  }

  /** The candidates of a list of diffs, in order. */
  function ListCandidates(list: seq<Diff>): seq<Value> {
    if list == [] then [] else ListCandidates(list[..|list| - 1]) + DiffCandidates(list[|list| - 1])
  }

  /** The candidates of all entries, in order. */
  function Candidates(entries: seq<AuditEntry>): seq<Value> {
    if entries == [] then []
    else Candidates(entries[..|entries| - 1]) + ListCandidates(EntryDiffs(entries[|entries| - 1]))
  }

  /** `ids.add(v)` on a set that keeps insertion order. */
  function AddNew(ids: seq<Value>, v: Value): seq<Value> {
    if v in ids then ids else ids + [v]
  }

  /** The distinct values of `s` in the order they are first seen. */
  function Dedup(s: seq<Value>): seq<Value> {
    if s == [] then [] else AddNew(Dedup(s[..|s| - 1]), s[|s| - 1])
  }

  /** `providerIds` */
  function ProviderIds(entries: seq<AuditEntry>): (r: seq<Value>)
    ensures forall v :: v in r <==> v in Candidates(entries)
    ensures forall a, b :: 0 <= a < b < |r| ==> r[a] != r[b]
  {
    DedupMembers(Candidates(entries));
    DedupDistinct(Candidates(entries));
    Dedup(Candidates(entries))
  }

  lemma DedupSnoc(s: seq<Value>, v: Value)
    ensures Dedup(s + [v]) == AddNew(Dedup(s), v)
  {
    assert (s + [v])[..|s|] == s;
  }

  /** Deduplicating keeps exactly the values of the input. */
  lemma {:induction false} DedupMembers(s: seq<Value>)
    ensures forall v :: v in Dedup(s) <==> v in s
  {
    if s != [] {
      DedupMembers(s[..|s| - 1]);
      assert s == s[..|s| - 1] + [s[|s| - 1]];
    }
  }

  /** Deduplicating leaves no value twice. */
  lemma {:induction false} DedupDistinct(s: seq<Value>)
    ensures forall i, j :: 0 <= i < j < |Dedup(s)| ==> Dedup(s)[i] != Dedup(s)[j]
  {
    if s != [] {
      DedupDistinct(s[..|s| - 1]);
    }
  }

  /** A diff contributes `v` as a provider id. */
  predicate Contributes(d: Diff, v: Value) {
    d.field == Some(ProviderField) && Truthy(v) && (v == d.oldValue || v == d.newValue)
  }

  /** Every value a diff of the list contributes is a candidate of the
      list. */
  lemma {:induction false} ListCandidatesHas(list: seq<Diff>, k: nat, v: Value)
    requires k < |list| && Contributes(list[k], v)
    ensures v in ListCandidates(list)
  {
    var init := list[..|list| - 1];
    assert ListCandidates(list) == ListCandidates(init) + DiffCandidates(list[|list| - 1]);
    if k < |init| {
      assert init[k] == list[k];
      ListCandidatesHas(init, k, v);
    }
  }

  /** Every candidate of the list comes from some diff of it. */
  lemma {:induction false} ListCandidatesFrom(list: seq<Diff>, v: Value) returns (k: nat)
    requires v in ListCandidates(list)
    ensures k < |list| && Contributes(list[k], v)
  {
    var init := list[..|list| - 1];
    assert ListCandidates(list) == ListCandidates(init) + DiffCandidates(list[|list| - 1]);
    if v in DiffCandidates(list[|list| - 1]) {
      k := |list| - 1;
    } else {
      k := ListCandidatesFrom(init, v);
      assert init[k] == list[k];
    }
  }

  /** A value is a candidate of a list of diffs exactly when some diff in
      the list contributes it. */
  lemma ListCandidatesMembers(list: seq<Diff>, v: Value)
    ensures v in ListCandidates(list) <==> exists k :: 0 <= k < |list| && Contributes(list[k], v)
  {
    if v in ListCandidates(list) {
      var k := ListCandidatesFrom(list, v);
    }
    if exists k :: 0 <= k < |list| && Contributes(list[k], v) {
      var k :| 0 <= k < |list| && Contributes(list[k], v);
      ListCandidatesHas(list, k, v);
    }
  }

  /** Every value a diff list of the entries contributes is a candidate of
      the entries. */
  lemma {:induction false} CandidatesHas(entries: seq<AuditEntry>, i: nat, v: Value)
    requires i < |entries| && v in ListCandidates(EntryDiffs(entries[i]))
    ensures v in Candidates(entries)
  {
    var init := entries[..|entries| - 1];
    assert Candidates(entries) == Candidates(init) + ListCandidates(EntryDiffs(entries[|entries| - 1]));
    if i < |init| {
      assert init[i] == entries[i];
      CandidatesHas(init, i, v);
    }
  }

  /** Every candidate of the entries comes from the diff list of one of
      them. */
  lemma {:induction false} CandidatesFrom(entries: seq<AuditEntry>, v: Value) returns (i: nat)
    requires v in Candidates(entries)
    ensures i < |entries| && v in ListCandidates(EntryDiffs(entries[i]))
  {
    var init := entries[..|entries| - 1];
    assert Candidates(entries) == Candidates(init) + ListCandidates(EntryDiffs(entries[|entries| - 1]));
    if v in ListCandidates(EntryDiffs(entries[|entries| - 1])) {
      i := |entries| - 1;
    } else {
      i := CandidatesFrom(init, v);
      assert init[i] == entries[i];
    }
  }

  /** A value is a candidate of the entries exactly when some entry
      contributes it. */
  lemma CandidatesMembers(entries: seq<AuditEntry>, v: Value)
    ensures v in Candidates(entries) <==>
              exists i :: 0 <= i < |entries| && v in ListCandidates(EntryDiffs(entries[i]))
  {
    if v in Candidates(entries) {
      var i := CandidatesFrom(entries, v);
    }
    if exists i :: 0 <= i < |entries| && v in ListCandidates(EntryDiffs(entries[i])) {
      var i :| 0 <= i < |entries| && v in ListCandidates(EntryDiffs(entries[i]));
      CandidatesHas(entries, i, v);
    }
  }

  /** `providerIds` holds each truthy `old` or `new` of a provider-field
      diff in any entry, and nothing else, each once. */
  lemma ProviderIdsMeaning(entries: seq<AuditEntry>, v: Value)
    ensures v in ProviderIds(entries) <==>
              exists i, k :: 0 <= i < |entries| && 0 <= k < |EntryDiffs(entries[i])|
                && Contributes(EntryDiffs(entries[i])[k], v)
    ensures var ids := ProviderIds(entries);
            forall a, b :: 0 <= a < b < |ids| ==> ids[a] != ids[b]
  {
    CandidatesMembers(entries, v);
    forall i | 0 <= i < |entries| {
      ListCandidatesMembers(EntryDiffs(entries[i]), v);
    }
  }

  /** An entry without diffs adds no provider id. */
  lemma EntryWithoutDiffsAddsNothing(entries: seq<AuditEntry>, e: AuditEntry)
    requires e.details.None?
    ensures ProviderIds(entries + [e]) == ProviderIds(entries)
  {
    assert (entries + [e])[..|entries|] == entries;
    assert Candidates(entries + [e]) == Candidates(entries) + ListCandidates([]);
    assert Candidates(entries) + [] == Candidates(entries);
  }

  /** The set after the adds for one diff: `old` then `new`, when truthy,
      for the provider field. */
  function AddDiff(ids: seq<Value>, d: Diff): seq<Value> {
    if d.field == Some(ProviderField) then
      var afterOld := if Truthy(d.oldValue) then AddNew(ids, d.oldValue) else ids;
      if Truthy(d.newValue) then AddNew(afterOld, d.newValue) else afterOld
    else ids
  }

  /** Adding one diff's values to the distinct values seen so far gives the
      distinct values of the longer sequence. */
  lemma DedupStep(p: seq<Value>, d: Diff)
    ensures Dedup(p + DiffCandidates(d)) == AddDiff(Dedup(p), d)
  {
    if d.field == Some(ProviderField) {
      if Truthy(d.oldValue) {
        DedupSnoc(p, d.oldValue);
        if Truthy(d.newValue) {
          DedupSnoc(p + [d.oldValue], d.newValue);
          assert p + DiffCandidates(d) == (p + [d.oldValue]) + [d.newValue];
        } else {
          assert p + DiffCandidates(d) == p + [d.oldValue];
        }
      } else if Truthy(d.newValue) {
        DedupSnoc(p, d.newValue);
        assert p + DiffCandidates(d) == p + [d.newValue];
      } else {
        assert p + DiffCandidates(d) == p;
      }
    } else {
      assert p + DiffCandidates(d) == p;
    }
  }

  lemma ListCandidatesSnoc(list: seq<Diff>, j: nat)
    requires j < |list|
    ensures ListCandidates(list[..j + 1]) == ListCandidates(list[..j]) + DiffCandidates(list[j])
  {
    assert list[..j + 1][..j] == list[..j];
  }

  /** One more diff of an entry: the distinct values so far grow by that
      diff's adds. */
  lemma InnerStep(seen: seq<Value>, list: seq<Diff>, j: nat)
    requires j < |list|
    ensures Dedup(seen + ListCandidates(list[..j + 1])) == AddDiff(Dedup(seen + ListCandidates(list[..j])), list[j])
  {
    var p := seen + ListCandidates(list[..j]);
    assert seen + ListCandidates(list[..j + 1]) == p + DiffCandidates(list[j]) by {
      ListCandidatesSnoc(list, j);
    }
    DedupStep(p, list[j]);
  }

  /** The body of the inner loop: `ids.add` for a diff's old and new
      provider. */
  method AddProviderIds(ids: seq<Value>, d: Diff) returns (r: seq<Value>)
    ensures r == AddDiff(ids, d)
  {
    r := ids;
    if d.field == Some(ProviderField) {
      if Truthy(d.oldValue) && d.oldValue !in r {
        r := r + [d.oldValue];
      }
      if Truthy(d.newValue) && d.newValue !in r {
        r := r + [d.newValue];
      }
    }
  }

  /** The inner loop, over the diffs of one entry. */
  method AddEntryIds(ids: seq<Value>, list: seq<Diff>, ghost seen: seq<Value>) returns (r: seq<Value>)
    requires ids == Dedup(seen)
    ensures r == Dedup(seen + ListCandidates(list))
  {
    r := ids;
    var j := 0;
    assert seen + ListCandidates(list[..0]) == seen;
    while j < |list|
      invariant 0 <= j <= |list|
      invariant r == Dedup(seen + ListCandidates(list[..j]))
    {
      InnerStep(seen, list, j);
      r := AddProviderIds(r, list[j]);
      j := j + 1;
    }
    assert list[..|list|] == list;
  }

  /** The loops that build `providerIds`. */
  method CollectProviderIds(entries: seq<AuditEntry>) returns (ids: seq<Value>)
    ensures ids == ProviderIds(entries)
  {
    ids := [];
    var i := 0;
    while i < |entries|
      invariant 0 <= i <= |entries|
      invariant ids == Dedup(Candidates(entries[..i]))
    {
      assert entries[..i + 1][..i] == entries[..i];
      ids := AddEntryIds(ids, EntryDiffs(entries[i]), Candidates(entries[..i]));
      i := i + 1;
    }
    assert entries[..|entries|] == entries;
  }

  /** The profiles by id; a later profile with the same id replaces an
      earlier one. */
  function ProfilesById(ps: seq<Profile>): (m: map<string, Profile>)
    ensures forall k :: k in m ==> m[k].id == k
    ensures forall i :: 0 <= i < |ps| ==> ps[i].id in m
  {
    if ps == [] then map[] else ProfilesById(ps[..|ps| - 1])[ps[|ps| - 1].id := ps[|ps| - 1]]
  }

  /** Every returned profile can be found under its id, and the one found
      is the last with that id. */
  lemma {:induction false} ProfilesByIdMeaning(ps: seq<Profile>, k: string)
    ensures k in ProfilesById(ps) <==> exists i :: 0 <= i < |ps| && ps[i].id == k
    ensures k in ProfilesById(ps) ==>
              exists i :: 0 <= i < |ps| && ps[i].id == k && ProfilesById(ps)[k] == ps[i]
                && forall j :: i < j < |ps| ==> ps[j].id != k
  {
    if ps != [] {
      var init := ps[..|ps| - 1];
      ProfilesByIdMeaning(init, k);
      if k != ps[|ps| - 1].id {
        if exists i :: 0 <= i < |ps| && ps[i].id == k {
          var i :| 0 <= i < |ps| && ps[i].id == k;
          assert init[i] == ps[i];
        }
        if k in ProfilesById(init) {
          var i :| 0 <= i < |init| && init[i].id == k && ProfilesById(init)[k] == init[i]
                   && forall j :: i < j < |init| ==> init[j].id != k;
          assert ps[i] == init[i];
          assert forall j :: i < j < |ps| ==> ps[j].id != k by {
            forall j | i < j < |ps|
              ensures ps[j].id != k
            {
              if j < |init| {
                assert ps[j] == init[j];
              }
            }
          }
        }
      }
    }
  }

  /** The loop that fills `profilesById` from the rows returned, `data ||
      []`. */
  method BuildProfileMap(data: Option<seq<Profile>>) returns (m: map<string, Profile>)
    ensures m == ProfilesById(data.GetOr([]))
  {
    var ps := data.GetOr([]);
    m := map[];
    var i := 0;
    while i < |ps|
      invariant 0 <= i <= |ps|
      invariant m == ProfilesById(ps[..i])
    {
      assert ps[..i + 1][..i] == ps[..i];
      m := m[ps[i].id := ps[i]];
      i := i + 1;
    }
    assert ps[..|ps|] == ps;
  }

  /** The profile key of a value: object keys are strings. */
  function Key(v: Value): string {
    JsString(v)
  }

  /** The label of the old provider. */
  function OldLabel(d: Diff, profiles: map<string, Profile>): (r: string)
    ensures !Truthy(d.oldValue) ==> r == "Unassigned"
    ensures Truthy(d.oldValue) && Key(d.oldValue) !in profiles ==> r == "Unassigned"
    ensures Truthy(d.oldValue) && Key(d.oldValue) in profiles ==> r == DisplayName(profiles[Key(d.oldValue)])
  {
    if Truthy(d.oldValue) then
      if Key(d.oldValue) in profiles then DisplayName(profiles[Key(d.oldValue)]) else "Unassigned"
    else "Unassigned"
  }

  /** The label of the new provider. */
  function NewLabel(d: Diff, profiles: map<string, Profile>): (r: string)
    ensures !Truthy(d.newValue) ==> r == "Unassigned"
    ensures Truthy(d.newValue) && Key(d.newValue) !in profiles ==> r == "Unknown"
    ensures Truthy(d.newValue) && Key(d.newValue) in profiles ==> r == DisplayName(profiles[Key(d.newValue)])
  {
    if Truthy(d.newValue) then
      if Key(d.newValue) in profiles then DisplayName(profiles[Key(d.newValue)]) else "Unknown"
    else "Unassigned"
  }

  /** The two labels differ only for a new provider whose profile is not
      known: an old one then reads "Unassigned" and a new one "Unknown". */
  lemma LabelsOfUnknownProvider(v: Value, profiles: map<string, Profile>)
    requires Truthy(v) && Key(v) !in profiles
    ensures OldLabel(Diff(Some(ProviderField), v, v), profiles) == "Unassigned"
    ensures NewLabel(Diff(Some(ProviderField), v, v), profiles) == "Unknown"
  {
  }

  /** `renderDetail(d)` */
  datatype DetailText =
    | ProviderChange(oldLabel: string, newLabel: string)
    | FieldChange(fieldLabel: string, oldText: string, newText: string)

  function RenderDetail(d: Diff, profiles: map<string, Profile>): (r: DetailText)
    ensures r.ProviderChange? <==> d.field == Some(ProviderField)
    ensures r.ProviderChange? ==> r.oldLabel == OldLabel(d, profiles) && r.newLabel == NewLabel(d, profiles)
    ensures r.FieldChange? ==> r.fieldLabel == FieldLabel(d.field) && r.oldText == Fmt(d.oldValue) && r.newText == Fmt(d.newValue)
  {
    if d.field == Some(ProviderField) then ProviderChange(OldLabel(d, profiles), NewLabel(d, profiles))
    else FieldChange(FieldLabel(d.field), Fmt(d.oldValue), Fmt(d.newValue))
  }

  /** The component's state. `jobId` is `""` when the job or its id is
      missing; `lookups` counts the profile queries issued. */
  class History {
    const jobId: JobId
    var entries: seq<AuditEntry>
    var profilesById: map<string, Profile>
    var loading: bool
    var lookups: nat

    constructor (jobId: JobId)
      ensures this.jobId == jobId && entries == [] && profilesById == map[] && loading && lookups == 0
    {
      this.jobId := jobId;
      entries := [];
      profilesById := map[];
      loading := true;
      lookups := 0;
    }

    /** The first effect: nothing without a job id; otherwise `result` is
        the rows returned (`None` on error, an empty list for `null`), which
        replace the entries on success, and loading ends either way. */
    method LoadEntries(result: Option<seq<AuditEntry>>)
      modifies this`entries, this`loading
      ensures jobId == "" ==> entries == old(entries) && loading == old(loading)
      ensures jobId != "" ==> entries == (if result.Some? then result.value else old(entries)) && !loading
    {
      if jobId == "" {
        return;
      }
      loading := true;
      if result.Some? {
        entries := result.value;
      }
      loading := false;
    }

    /** The second effect: with no provider ids nothing is queried; on error
        the map is kept; otherwise it is rebuilt from the returned
        profiles. */
    method LoadProfiles(result: Option<seq<Profile>>) returns (queried: bool)
      modifies this`profilesById, this`lookups
      ensures queried <==> ProviderIds(entries) != []
      ensures lookups == old(lookups) + (if queried then 1 else 0)
      ensures profilesById == if queried && result.Some? then ProfilesById(result.value) else old(profilesById)
    {
      var providerIds := CollectProviderIds(entries);
      if |providerIds| == 0 {
        return false;
      }
      queried := true;
      lookups := lookups + 1;
      if result.Some? {
        profilesById := BuildProfileMap(Some(result.value));
      }
    }
  }
}
