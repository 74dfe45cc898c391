// The store form (views/StoreRegistry.tsx): the comma-separated text of the
// SSID and BSSID lists, the defaults a saved store falls back on, and the form
// state that decides between creating a store and updating one.

module StoreForm {
  import opened Types
  import opened Seqs
  import Text

  /** An entry the list parser can produce: non-empty, with no comma and no whitespace at
      either end. */
  predicate CleanEntry(x: string)
  {
    x != "" && ',' !in x && !Text.IsWhitespace(x[0]) && !Text.IsWhitespace(x[|x| - 1])
  }

  /** `raw.split(',').map(s => s.trim()).filter(Boolean)`: the trimmed pieces between commas,
      blank ones dropped, in the order they were typed. */
  function ParseList(raw: string): (r: seq<string>)
    ensures IsSubsequence(r, Map(Text.Trim, Text.Split(raw, ',')))
    ensures forall x :: x in r <==> x != "" && x in Map(Text.Trim, Text.Split(raw, ','))
    ensures forall x :: multiset(r)[x] == if x != "" then multiset(Map(Text.Trim, Text.Split(raw, ',')))[x] else 0
  {
    FilterCount(NonEmpty, Map(Text.Trim, Text.Split(raw, ',')));
    Filter(NonEmpty, Map(Text.Trim, Text.Split(raw, ',')))
  }

  /** Every parsed entry is clean. */
  lemma ParsedClean(raw: string)
    ensures forall k :: 0 <= k < |ParseList(raw)| ==> CleanEntry(ParseList(raw)[k])
  {
    var pieces := Text.Split(raw, ',');
    var trimmed := Map(Text.Trim, pieces);
    var r := ParseList(raw);
    forall k | 0 <= k < |r| ensures CleanEntry(r[k]) {
      assert r[k] in trimmed;
      var i :| 0 <= i < |trimmed| && trimmed[i] == r[k];
      Text.TrimPiece(pieces[i]);
    }
  }

  /** `list.join(', ')`: how the form shows a saved list for editing. */
  function PrintList(list: seq<string>): string
  {
    Text.Join(list, ", ")
  }

  function Spaced(x: string): string { " " + x }

  lemma {:induction false} JoinSpaced(rest: seq<string>)
    requires rest != []
    ensures Text.Join(Map(Spaced, rest), ",") == " " + Text.Join(rest, ", ")
  {
    if |rest| > 1 {
      JoinSpaced(rest[1..]);
      assert Map(Spaced, rest)[1..] == Map(Spaced, rest[1..]);
    }
  }

  /** The pieces between the commas of a printed list: the first entry, then each later
      entry after the space that follows its comma. */
  function PrintedPieces(list: seq<string>): seq<string>
    requires list != []
  {
    [list[0]] + Map(Spaced, list[1..])
  }

  lemma PrintedPiecesJoin(list: seq<string>)
    requires list != []
    ensures Text.Join(PrintedPieces(list), ",") == PrintList(list)
  {
    var rest := list[1..];
    if rest != [] {
      JoinSpaced(rest);
      Text.JoinCons(list[0], Map(Spaced, rest), ",");
      Text.JoinCons(list[0], rest, ", ");
      assert [list[0]] + rest == list;
    }
  }

  lemma PrintedPiecesTrim(list: seq<string>)
    requires list != []
    requires forall k :: 0 <= k < |list| ==> CleanEntry(list[k])
    ensures forall k :: 0 <= k < |list| ==> ',' !in PrintedPieces(list)[k]
    ensures Map(Text.Trim, PrintedPieces(list)) == list
  {
    var pieces := PrintedPieces(list);
    forall k | 0 <= k < |list| ensures ',' !in pieces[k] && Text.Trim(pieces[k]) == list[k] {
      if k > 0 {
        assert pieces[k] == [' '] + list[k];
        Text.TrimLeadingWhitespace(' ', list[k]);
      }
      Text.TrimFixpoint(list[k]);
    }
  }

  /** Parsing what the form shows gives the list back, for any list of clean entries. */
  lemma ParsePrint(list: seq<string>)
    requires forall k :: 0 <= k < |list| ==> CleanEntry(list[k])
    ensures ParseList(PrintList(list)) == list
  {
    if list == [] {
      assert Text.Split("", ',') == [""];
      assert Map(Text.Trim, [""]) == [""];
    } else {
      PrintedPiecesJoin(list);
      PrintedPiecesTrim(list);
      Text.SplitJoin(PrintedPieces(list), ',');
      FilterAllPass(NonEmpty, list);
    }
  }

  /** Opening a saved list for editing and saving it unchanged keeps it as it was. */
  lemma ParsePrintParse(raw: string)
    ensures ParseList(PrintList(ParseList(raw))) == ParseList(raw)
  {
    ParsedClean(raw);
    ParsePrint(ParseList(raw));
  }

  /** The form's fields besides the two lists; an empty floor-plan address is kept as typed. */
  datatype FormData = FormData(name: string, rssiThreshold: int, floorPlanUrl: Option<string>)

  const EmptyForm := FormData("", -75, Some(""))

  /** What a submission asks the registry to do. */
  datatype Submission = AddRequest(store: Store) | UpdateRequest(store: Store)

  /** The store a submission saves: a blank name becomes "Unnamed Store", a threshold of 0
      (falsy) becomes -75, and the tenant is always "tenant-current". */
  function BuildStore(id: string, form: FormData, rawSsids: string, rawBssids: string): (s: Store)
    ensures s.id == id && s.tenantId == "tenant-current"
    ensures s.name != "" && (form.name != "" ==> s.name == form.name)
    ensures form.name == "" ==> s.name == "Unnamed Store"
    ensures s.rssiThreshold != 0 && (form.rssiThreshold != 0 ==> s.rssiThreshold == form.rssiThreshold)
    ensures form.rssiThreshold == 0 ==> s.rssiThreshold == -75
    ensures s.ssids == ParseList(rawSsids) && s.bssids == ParseList(rawBssids)
    ensures s.floorPlanUrl == form.floorPlanUrl
  {
    Store(id, "tenant-current",
          if form.name == "" then "Unnamed Store" else form.name,
          ParseList(rawSsids), ParseList(rawBssids),
          if form.rssiThreshold == 0 then -75 else form.rssiThreshold,
          form.floorPlanUrl)
  }

  /** What saving the form asks for: an update of the store being edited when `editingId`
      holds a non-empty id, otherwise a new store with the fresh id `freshId`. Exactly one of the two happens, with the fields the form holds. */
  function SubmissionFor(editingId: Option<string>, form: FormData, rawSsids: string,
                         rawBssids: string, freshId: string): (sub: Submission)
    ensures sub.UpdateRequest? <==> editingId.Some? && editingId.value != ""
    ensures sub.UpdateRequest? ==> sub.store.id == editingId.value
    ensures sub.AddRequest? ==> sub.store.id == freshId
    ensures sub.store == BuildStore(sub.store.id, form, rawSsids, rawBssids)
  {
    if editingId.Some? && editingId.value != "" then
      UpdateRequest(BuildStore(editingId.value, form, rawSsids, rawBssids))
    else
      AddRequest(BuildStore(freshId, form, rawSsids, rawBssids))
  }

  /** A store the form can save back without change. */
  predicate Resubmittable(s: Store)
  {
    && s.tenantId == "tenant-current" && s.name != "" && s.rssiThreshold != 0
    && (forall k :: 0 <= k < |s.ssids| ==> CleanEntry(s.ssids[k]))
    && (forall k :: 0 <= k < |s.bssids| ==> CleanEntry(s.bssids[k]))
  }

  /** Editing a store and saving the form untouched rebuilds the same store. */
  lemma EditRoundTrip(s: Store)
    requires Resubmittable(s)
    ensures BuildStore(s.id, FormData(s.name, s.rssiThreshold, s.floorPlanUrl),
                       PrintList(s.ssids), PrintList(s.bssids)) == s
  {
    ParsePrint(s.ssids);
    ParsePrint(s.bssids);
  }

  /** Every store the form saves can be saved again unchanged. */
  lemma BuiltResubmittable(id: string, form: FormData, rawSsids: string, rawBssids: string)
    ensures Resubmittable(BuildStore(id, form, rawSsids, rawBssids))
  {
    ParsedClean(rawSsids);
    ParsedClean(rawBssids);
  }

  /** The form state of the store registry. */
  class Form {
    var formData: FormData
    var rawSsids: string
    var rawBssids: string
    var editingId: Option<string>
    var isFormOpen: bool

    constructor ()
      ensures formData == EmptyForm && rawSsids == "" && rawBssids == ""
      ensures editingId == None && !isFormOpen
    {
      formData := EmptyForm;
      rawSsids := "";
      rawBssids := "";
      editingId := None;
      isFormOpen := false;
    }

    /** "Add Store": a blank form, not tied to any store. */
    method StartAdd()
      modifies this
      ensures formData == EmptyForm && rawSsids == "" && rawBssids == ""
      ensures editingId == None && isFormOpen
    {
      formData := EmptyForm;
      rawSsids := "";
      rawBssids := "";
      editingId := None;
      isFormOpen := true;
    }

    /** "Edit": the form filled from a saved store, its lists joined with ", ". */
    method StartEdit(s: Store)
      modifies this
      ensures formData == FormData(s.name, s.rssiThreshold, s.floorPlanUrl)
      ensures rawSsids == PrintList(s.ssids) && rawBssids == PrintList(s.bssids)
      ensures editingId == Some(s.id) && isFormOpen
    {
      formData := FormData(s.name, s.rssiThreshold, s.floorPlanUrl);
      rawSsids := PrintList(s.ssids);
      rawBssids := PrintList(s.bssids);
      editingId := Some(s.id);
      isFormOpen := true;
    }

    method SetName(name: string)
      modifies this
      ensures formData == old(formData).(name := name)
      ensures rawSsids == old(rawSsids) && rawBssids == old(rawBssids)
      ensures editingId == old(editingId) && isFormOpen == old(isFormOpen)
    {
      formData := formData.(name := name);
    }

    /** The slider and the number box; `Number("")` is 0. */
    method SetRssiThreshold(value: int)
      modifies this
      ensures formData == old(formData).(rssiThreshold := value)
      ensures rawSsids == old(rawSsids) && rawBssids == old(rawBssids)
      ensures editingId == old(editingId) && isFormOpen == old(isFormOpen)
    {
      formData := formData.(rssiThreshold := value);
    }

    method SetRawSsids(raw: string)
      modifies this
      ensures rawSsids == raw
      ensures formData == old(formData) && rawBssids == old(rawBssids)
      ensures editingId == old(editingId) && isFormOpen == old(isFormOpen)
    {
      rawSsids := raw;
    }

    method SetRawBssids(raw: string)
      modifies this
      ensures rawBssids == raw
      ensures formData == old(formData) && rawSsids == old(rawSsids)
      ensures editingId == old(editingId) && isFormOpen == old(isFormOpen)
    {
      rawBssids := raw;
    }

    /** The floor-plan remove button. */
    method ClearFloorPlan()
      modifies this
      ensures formData == old(formData).(floorPlanUrl := Some(""))
      ensures rawSsids == old(rawSsids) && rawBssids == old(rawBssids)
      ensures editingId == old(editingId) && isFormOpen == old(isFormOpen)
    {
      formData := formData.(floorPlanUrl := Some(""));
    }

    /** "Cancel" closes the form and keeps what was typed. */
    method Cancel()
      modifies this
      ensures !isFormOpen
      ensures formData == old(formData) && rawSsids == old(rawSsids)
      ensures rawBssids == old(rawBssids) && editingId == old(editingId)
    {
      isFormOpen := false;
    }

    /** Saving: see `SubmissionFor`. The form closes and forgets which store it edited. */
    method Submit(now: int) returns (sub: Submission)
      modifies this
      ensures sub == SubmissionFor(old(editingId), old(formData), old(rawSsids), old(rawBssids),
                                   "store-" + Text.IntToString(now))
      ensures !isFormOpen && editingId == None
      ensures formData == old(formData) && rawSsids == old(rawSsids) && rawBssids == old(rawBssids)
    {
      sub := SubmissionFor(editingId, formData, rawSsids, rawBssids, "store-" + Text.IntToString(now));
      isFormOpen := false;
      editingId := None;
    }
  }
}
