/** The per-code record builder `process_plotcode` of get_blrindus_data.py:
    the invalid-code cache, the classification of the primary detail reply,
    the "Allotted" eligibility filter and the two-source field merge driven
    by `field_mapping`. Remote replies arrive as values of the datatypes
    below; JSON decoding is represented by its outcome. */
module RecordFetch {
  import opened Common

  /** A decoded JSON object whose members are strings. */
  type Record = map<string, string>

  /** One output row: CSV column name to value. */
  type Row = map<string, string>

  const Unknown: string := "N/A"
  const Allotted: string := "Allotted"
  const WrongInput: string := "\"Wrong Input\""
  const PlotcodeColumn: string := "Plotcode"
  const StatusKey: string := "plst"

  /** Where a CSV column is read from: an optional key of the primary detail
      record and the keys of the IIS record, tried in order (a single key
      is a one-element list, no key the empty list). The unused `arcgis`
      entry is not represented. */
  datatype FieldSource = FieldSource(primary: Option<string>, iis: seq<string>)

  /** `field_mapping`, keyed by CSV column. */
  const FieldMapping: map<string, FieldSource> := map[
      "District Name" := FieldSource(Some("dstr"), []),
      "Name of the Industrial Area" := FieldSource(Some("nmindar"), []),
      "Project Approved By" := FieldSource(Some("prjapr"), []),
      "Plot Number" := FieldSource(Some("plno"), []),
      "Plot Category" := FieldSource(None, ["plotcat"]),
      "Plot Size" := FieldSource(Some("pltar"), ["plotsize"]),
      "Plot Rate" := FieldSource(None, ["plotrate"]),
      "Maintenance Charge" := FieldSource(None, ["mainchare"]),
      "Plot Survey No" := FieldSource(None, ["plotsurno"]),
      "Reservation" := FieldSource(Some("rsvr"), []),
      "Area in acres" := FieldSource(Some("pltar"), ["plotsize"]),
      "Plot Status" := FieldSource(Some("plst"), []),
      "Date of Allotment" := FieldSource(Some("dtaltm"), []),
      "Name of Allottee" := FieldSource(Some("nmalt"), []),
      "Allottee Phone" := FieldSource(None, ["ownphone", "phone", "contact_no", "mobile", "telephone", "allottee_phone"]),
      "Allottee Email" := FieldSource(None, ["ownemail", "email", "email_id", "contact_email", "allottee_email"]),
      "Address of the Allottee" := FieldSource(Some("addalt"), []),
      "Nature Of Industry" := FieldSource(Some("ntrind"), []),
      "Due date for payment" := FieldSource(Some("ddtpmt"), []),
      "Date of Possession" := FieldSource(Some("dtpss"), []),
      "Date of Lease Agreement Executed" := FieldSource(Some("dtleagrex"), []),
      "Stipulated time for commencement of production" := FieldSource(Some("stcmprd"), []),
      "Extension of time Granted" := FieldSource(Some("extgrt"), []),
      "Implementation Status" := FieldSource(Some("implst"), []),
      "Notice under 34-B issued" := FieldSource(Some("n34b"), []),
      "Remarks" := FieldSource(Some("remark"), []),
      "ULPIN" := FieldSource(Some("ulpin"), []),
      "Preapproved Clearances Permissions" := FieldSource(Some("preappoved_clearances_permissions"), []),
      "Preapproved Clearance Details" := FieldSource(Some("preappoved_clearances_permissions_details"), []),
      "Water Availability" := FieldSource(Some("water_availability"), []),
      "Electric Power Availability" := FieldSource(Some("electricpoweravailability"), []),
      "Gaspipeline Connectivity" := FieldSource(Some("gaspipeline_connectivity"), []),
      "OFC" := FieldSource(Some("ofc"), []),
      "STP" := FieldSource(Some("stp"), []),
      "WTP" := FieldSource(Some("wtp"), []),
      "ETP" := FieldSource(Some("etp"), [])
    ]

  /** The outcome of `json.loads` on a reply's `d` member: a list of
      objects (anything that is not a list reads as the empty list), or a
      decoding error. */
  datatype Decoded = Malformed | Items(items: seq<Record>)

  /** The primary detail request (`getdeatilsforidentifier`). When the
      JSON request fails, the SOAP fallback's list is used; otherwise the
      reply's `d` member (absent or present) and its decoding. */
  datatype PrimaryReply =
    | Unanswered(soapItems: seq<Record>)
    | Answered(d: Option<string>, decoded: Decoded)

  /** How `process_plotcode` judges a code before merging. */
  datatype Verdict =
    | Cached          // already known to be invalid: no request is made
    | Invalid         // `d` is the "Wrong Input" sentinel or empty
    | Undecodable     // `d` is not valid JSON
    | Details(details: Record)

  function FirstOrEmpty(items: seq<Record>): Record {
    if items == [] then map[] else items[0]
  }

  function Classify(code: string, cache: set<string>, primary: PrimaryReply): (v: Verdict)
    ensures v == Cached <==> code in cache
  {
    if code in cache then Cached
    else match primary
      case Unanswered(items) => Details(FirstOrEmpty(items))
      case Answered(d, decoded) =>
        if d == Some(WrongInput) || d == None || d == Some("") then Invalid
        else match decoded
          case Malformed => Undecodable
          case Items(items) => Details(FirstOrEmpty(items))
  }

  /** `details.get("plst") == "Allotted"`. */
  predicate IsAllotted(details: Record) {
    StatusKey in details && details[StatusKey] == Allotted
  }

  /** The value of the first key of `keys` that `rec` has. */
  function FirstPresent(keys: seq<string>, rec: Record): (r: Option<string>)
    ensures r.None? <==> forall i :: 0 <= i < |keys| ==> keys[i] !in rec
    ensures r.Some? ==> exists i :: 0 <= i < |keys| && keys[i] in rec && rec[keys[i]] == r.value &&
                          forall j :: 0 <= j < i ==> keys[j] !in rec
  {
    if keys == [] then None
    else if keys[0] in rec then Some(rec[keys[0]])
    else
      var r := FirstPresent(keys[1..], rec);
      assert forall i :: 1 <= i < |keys| ==> keys[i] == keys[1..][i - 1];
      r
  }

  /** The value the primary pass writes: the primary key's value whenever the
      key is present (even an empty value), "N/A" otherwise. */
  function PrimaryValue(src: FieldSource, details: Record): string {
    if src.primary.Some? && src.primary.value in details then details[src.primary.value] else Unknown
  }

  /** The final value of one column: the IIS record, when there is one,
      fills the column only while it still reads "N/A". */
  function FieldValue(src: FieldSource, details: Record, iis: Option<Record>): string {
    var v := PrimaryValue(src, details);
    if iis.Some? && v == Unknown then FirstPresent(src.iis, iis.value).GetOr(v) else v
  }

  /** The first IIS item, if the IIS list is non-empty. */
  function IisItem(iis: seq<Record>): Option<Record> {
    if iis == [] then None else Some(iis[0])
  }

  /** The row `process_plotcode` returns for a usable code, for a given
      mapping: "Plotcode" first, then every mapped column (a mapped column of
      the same name would overwrite it, as in the dict the script builds). */
  function MergedRow(mapping: map<string, FieldSource>, code: string, details: Record, iis: Option<Record>): Row {
    map[PlotcodeColumn := code] + map f | f in mapping :: FieldValue(mapping[f], details, iis)
  }

  /** The result of `process_plotcode` for a code, given the cache it starts from. */
  function FetchOutcome(code: string, cache: set<string>, primary: PrimaryReply, iis: seq<Record>): Option<Row> {
    match Classify(code, cache, primary)
    case Details(details) =>
      if IsAllotted(details) then Some(MergedRow(FieldMapping, code, details, IisItem(iis))) else None
    case _ => None
  }

  /** Whether `process_plotcode` adds the code to the invalid-code cache. */
  predicate Invalidates(code: string, cache: set<string>, primary: PrimaryReply) {
    Classify(code, cache, primary) == Invalid
  }

  /** The reply rules of `process_plotcode` for a code not in the cache: a
      `d` that is the "Wrong Input" sentinel, missing or empty gives no row
      and caches the code; a `d` that does not decode gives no row and does
      not cache it; a failed request (served by the SOAP fallback) never
      caches, and a returned row never comes with caching. */
  lemma ReplyVerdicts(code: string, cache: set<string>, primary: PrimaryReply, iis: seq<Record>)
    requires code !in cache
    ensures primary.Answered? && (primary.d == Some(WrongInput) || primary.d.None? || primary.d == Some("")) ==>
      FetchOutcome(code, cache, primary, iis).None? && Invalidates(code, cache, primary)
    ensures (primary.Answered? && primary.d.Some? && primary.d.value != WrongInput && primary.d.value != "" &&
             primary.decoded.Malformed?) ==>
      FetchOutcome(code, cache, primary, iis).None? && !Invalidates(code, cache, primary)
    ensures primary.Unanswered? ==> !Invalidates(code, cache, primary)
    ensures FetchOutcome(code, cache, primary, iis).Some? ==> !Invalidates(code, cache, primary)
  {
  }

  lemma PlotcodeNotAField()
    ensures PlotcodeColumn !in FieldMapping
  {
  }

  /** Every row carries the code it was built for and every mapped column. */
  lemma MergedRowShape(mapping: map<string, FieldSource>, code: string, details: Record, iis: Option<Record>)
    requires PlotcodeColumn !in mapping
    ensures MergedRow(mapping, code, details, iis).Keys == {PlotcodeColumn} + mapping.Keys
    ensures MergedRow(mapping, code, details, iis)[PlotcodeColumn] == code
  {
  }

  /** Source precedence: the primary record decides a column whenever it has
      the column's key with a value other than "N/A" (an empty value included). */
  lemma PrimaryWins(mapping: map<string, FieldSource>, code: string, details: Record, iis: Option<Record>, f: string)
    requires f in mapping && mapping[f].primary.Some?
    requires mapping[f].primary.value in details
    requires details[mapping[f].primary.value] != Unknown
    ensures f in MergedRow(mapping, code, details, iis)
    ensures MergedRow(mapping, code, details, iis)[f] == details[mapping[f].primary.value]
  {
  }

  /** A column differs from what the primary pass wrote only when that was
      "N/A" and an IIS record supplies the first of the column's IIS keys it
      has; conversely, whenever the primary pass left "N/A" and the IIS
      record has one of the column's keys, the first such key's value is
      what the column ends up holding. */
  lemma IisOnlyFillsUnknown(mapping: map<string, FieldSource>, code: string, details: Record, iis: Option<Record>, f: string)
    requires f in mapping
    ensures f in MergedRow(mapping, code, details, iis)
    ensures var v := MergedRow(mapping, code, details, iis)[f];
      v != PrimaryValue(mapping[f], details) ==>
        PrimaryValue(mapping[f], details) == Unknown && iis.Some? &&
        FirstPresent(mapping[f].iis, iis.value) == Some(v)
    ensures (PrimaryValue(mapping[f], details) == Unknown && iis.Some? &&
             FirstPresent(mapping[f].iis, iis.value).Some?) ==>
      MergedRow(mapping, code, details, iis)[f] == FirstPresent(mapping[f].iis, iis.value).value
  {
  }

  /** A column that neither source supplies stays "N/A". */
  lemma UnsuppliedStaysUnknown(mapping: map<string, FieldSource>, code: string, details: Record, iis: Option<Record>, f: string)
    requires f in mapping
    requires PrimaryValue(mapping[f], details) == Unknown
    requires iis.None? || FirstPresent(mapping[f].iis, iis.value).None?
    ensures f in MergedRow(mapping, code, details, iis) && MergedRow(mapping, code, details, iis)[f] == Unknown
  {
  }

  /** A row that passed the eligibility filter reads "Allotted" as its plot status. */
  lemma AllottedRowStatus(code: string, details: Record, iis: Option<Record>)
    requires IsAllotted(details)
    ensures "Plot Status" in MergedRow(FieldMapping, code, details, iis)
    ensures MergedRow(FieldMapping, code, details, iis)["Plot Status"] == Allotted
  {
    var src := FieldMapping["Plot Status"];
    assert src == FieldSource(Some(StatusKey), []);
    assert PrimaryValue(src, details) == Allotted;
  }

  /** What `process_plotcode` promises its caller about a returned row. */
  lemma FetchedRowShape(code: string, cache: set<string>, primary: PrimaryReply, iis: seq<Record>)
    requires FetchOutcome(code, cache, primary, iis).Some?
    ensures var row := FetchOutcome(code, cache, primary, iis).value;
      code !in cache && row.Keys == {PlotcodeColumn} + FieldMapping.Keys &&
      row[PlotcodeColumn] == code && row["Plot Status"] == Allotted
  {
    var details := Classify(code, cache, primary).details;
    PlotcodeNotAField();
    MergedRowShape(FieldMapping, code, details, IisItem(iis));
    AllottedRowStatus(code, details, IisItem(iis));
  }

  /** A cached code is settled without looking at any reply: the outcome is
      None whatever the services would have answered, and the cache stays. */
  lemma CachedCodeMakesNoRequest(code: string, cache: set<string>,
                                 p1: PrimaryReply, i1: seq<Record>, p2: PrimaryReply, i2: seq<Record>)
    requires code in cache
    ensures FetchOutcome(code, cache, p1, i1) == FetchOutcome(code, cache, p2, i2) == None
    ensures !Invalidates(code, cache, p1)
  {
  }

  /** The outcome depends on the cache only through the code's own membership. */
  lemma OutcomeDependsOnOwnMembership(code: string, c1: set<string>, c2: set<string>,
                                      primary: PrimaryReply, iis: seq<Record>)
    requires code in c1 <==> code in c2
    ensures FetchOutcome(code, c1, primary, iis) == FetchOutcome(code, c2, primary, iis)
    ensures Invalidates(code, c1, primary) == Invalidates(code, c2, primary)
  {
  }

  /** The cache of invalid codes (`invalid_pltcode_cache`), shared by every
      area of a run. It only ever grows. */
  class InvalidCodeCache {
    var codes: set<string>

    constructor ()
      ensures codes == {}
    {
      codes := {};
    }

    /** `process_plotcode`. */
    method ProcessPlotcode(code: string, primary: PrimaryReply, iis: seq<Record>) returns (row: Option<Row>)
      modifies this
      ensures row == FetchOutcome(code, old(codes), primary, iis)
      ensures codes == if Invalidates(code, old(codes), primary) then old(codes) + {code} else old(codes)
    {
      if code in codes {
        return None;
      }
      var details: Record;
      match primary {
        case Unanswered(items) =>
          details := if items != [] then items[0] else map[];
        case Answered(d, decoded) =>
          if d == Some(WrongInput) || d == None || d == Some("") {
            codes := codes + {code};
            return None;
          }
          match decoded {
            case Malformed =>
              return None;
            case Items(items) =>
              details := if items != [] then items[0] else map[];
          }
      }
      if !(StatusKey in details && details[StatusKey] == Allotted) {
        return None;
      }
      var r := BuildRow(FieldMapping, code, details, iis);
      row := Some(r);
    }

    /** A batch of distinct codes fetched one after another: each code gets
        the outcome it would get against the cache as it was before the
        batch, so the order of completion does not change any row. */
    method FetchBatch(batch: seq<string>, primaries: seq<PrimaryReply>, iises: seq<seq<Record>>)
      returns (rows: seq<Option<Row>>)
      requires Distinct(batch) && |primaries| == |batch| && |iises| == |batch|
      modifies this
      ensures |rows| == |batch|
      ensures forall k :: 0 <= k < |batch| ==>
        rows[k] == FetchOutcome(batch[k], old(codes), primaries[k], iises[k])
      ensures old(codes) <= codes
      ensures forall c :: c in codes && c !in old(codes) ==>
        exists k :: 0 <= k < |batch| && c == batch[k] && Invalidates(c, old(codes), primaries[k])
      ensures forall k :: 0 <= k < |batch| && Invalidates(batch[k], old(codes), primaries[k]) ==> batch[k] in codes
    {
      rows := [];
      var k := 0;
      while k < |batch|
        invariant 0 <= k <= |batch| && |rows| == k
        invariant old(codes) <= codes
        invariant forall c :: c in codes && c !in old(codes) ==>
          exists j :: 0 <= j < k && c == batch[j] && Invalidates(c, old(codes), primaries[j])
        invariant forall j :: 0 <= j < k ==> rows[j] == FetchOutcome(batch[j], old(codes), primaries[j], iises[j])
        invariant forall j :: 0 <= j < k && Invalidates(batch[j], old(codes), primaries[j]) ==> batch[j] in codes
      {
        forall j | 0 <= j < k
          ensures batch[j] != batch[k]
        {
        }
        assert batch[k] in codes <==> batch[k] in old(codes);
        OutcomeDependsOnOwnMembership(batch[k], codes, old(codes), primaries[k], iises[k]);
        ghost var before := codes;
        var row := ProcessPlotcode(batch[k], primaries[k], iises[k]);
        forall c | c in codes && c !in old(codes)
          ensures exists j :: 0 <= j < k + 1 && c == batch[j] && Invalidates(c, old(codes), primaries[j])
        {
          if c !in before {
            assert c == batch[k];
          }
        }
        rows := rows + [row];
        k := k + 1;
      }
    }
  }

  /** The row-building part of `process_plotcode`: every column starts at
      "N/A", the primary pass writes each column whose primary key the
      details have, then the IIS pass fills columns still at "N/A" from the
      first IIS item. */
  method BuildRow(mapping: map<string, FieldSource>, code: string, details: Record, iis: seq<Record>)
    returns (row: Row)
    ensures row == MergedRow(mapping, code, details, IisItem(iis))
  {
    row := map[PlotcodeColumn := code];
    var todo := mapping.Keys;
    while todo != {}
      invariant todo <= mapping.Keys
      invariant row.Keys == {PlotcodeColumn} + (mapping.Keys - todo)
      invariant forall f :: f in row ==> row[f] == if f in mapping.Keys - todo then Unknown else code
      decreases todo
    {
      var f :| f in todo;
      row := row[f := Unknown];
      todo := todo - {f};
    }
    row := PrimaryPass(mapping, code, details, row);
    if iis != [] {
      row := IisPass(mapping, code, details, iis[0], row);
    }
    MergedRowByColumns(mapping, code, details, IisItem(iis), row);
  }

  /** A row with the merged row's columns and, column by column, its values is the merged row. */
  lemma MergedRowByColumns(mapping: map<string, FieldSource>, code: string, details: Record,
                           iis: Option<Record>, row: Row)
    requires row.Keys == {PlotcodeColumn} + mapping.Keys
    requires forall f :: f in row ==> row[f] == if f in mapping then FieldValue(mapping[f], details, iis) else code
    ensures row == MergedRow(mapping, code, details, iis)
  {
    var m := MergedRow(mapping, code, details, iis);
    assert m.Keys == row.Keys;
    forall f | f in row
      ensures row[f] == m[f]
    {
    }
  }

  /** The loop over `field_mapping` that copies primary values. */
  method PrimaryPass(mapping: map<string, FieldSource>, code: string, details: Record, row0: Row)
    returns (row: Row)
    requires row0.Keys == {PlotcodeColumn} + mapping.Keys
    requires forall f :: f in row0 ==> row0[f] == if f in mapping then Unknown else code
    ensures row.Keys == {PlotcodeColumn} + mapping.Keys
    ensures forall f :: f in row ==> row[f] == if f in mapping then PrimaryValue(mapping[f], details) else code
  {
    row := row0;
    var todo := mapping.Keys;
    while todo != {}
      invariant todo <= mapping.Keys
      invariant row.Keys == {PlotcodeColumn} + mapping.Keys
      invariant forall f :: f in row ==>
        row[f] == if f !in mapping then code else if f in todo then Unknown else PrimaryValue(mapping[f], details)
      decreases todo
    {
      var f :| f in todo;
      var primaryKey := mapping[f].primary;
      if primaryKey.Some? && primaryKey.value in details {
        row := row[f := details[primaryKey.value]];
      }
      todo := todo - {f};
    }
  }

  /** The loop over `field_mapping` that fills columns still at "N/A" from
      the first IIS item. */
  method IisPass(mapping: map<string, FieldSource>, code: string, details: Record, item: Record, row0: Row)
    returns (row: Row)
    requires row0.Keys == {PlotcodeColumn} + mapping.Keys
    requires forall f :: f in row0 ==> row0[f] == if f in mapping then PrimaryValue(mapping[f], details) else code
    ensures row.Keys == {PlotcodeColumn} + mapping.Keys
    ensures forall f :: f in row ==> row[f] == if f in mapping then FieldValue(mapping[f], details, Some(item)) else code
  {
    row := row0;
    var todo := mapping.Keys;
    while todo != {}
      invariant todo <= mapping.Keys
      invariant row.Keys == {PlotcodeColumn} + mapping.Keys
      invariant forall f :: f in row ==>
        row[f] == if f !in mapping then code
                  else if f in todo then PrimaryValue(mapping[f], details)
                  else FieldValue(mapping[f], details, Some(item))
      decreases todo
    {
      var f :| f in todo;
      var keys := mapping[f].iis;
      if keys != [] && row[f] == Unknown {
        var found := LookupFirst(keys, item);
        if found.Some? {
          row := row[f := found.value];
        }
      }
      todo := todo - {f};
    }
  }

  /** The inner loop over a column's IIS keys, stopping at the first key the
      item has. */
  method LookupFirst(keys: seq<string>, item: Record) returns (found: Option<string>)
    ensures found == FirstPresent(keys, item)
  {
    var i := 0;
    while i < |keys|
      invariant 0 <= i <= |keys|
      invariant FirstPresent(keys, item) == FirstPresent(keys[i..], item)
    {
      if keys[i] in item {
        return Some(item[keys[i]]);
      }
      assert keys[i..][1..] == keys[i + 1..];
      i := i + 1;
    }
    return None;
  }
}
