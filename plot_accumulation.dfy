/** The row loop of update_supabase.py: every CSV row gets a validation
    status, and rows with a valid phone or e-mail are merged into one record
    per plot code. A cell is an optional string, None standing for NaN. */
module PlotAccumulation {
  import opened Common
  import opened ContactClean

  /** The columns of a KIADB CSV row that the loop reads. */
  datatype CsvRow = CsvRow(
    plotcode: Option<string>,
    phone: Option<string>,
    email: Option<string>,
    address: Option<string>,
    industry: Option<string>,
    plotNumber: Option<string>,
    areaAcres: Option<string>,
    allotteeName: Option<string>,
    ulpin: Option<string>,
    plotStatus: Option<string>,
    district: Option<string>,
    industrialArea: Option<string>)

  /** One `plot_data` entry. `areaAcres` keeps the cell text; its conversion
      to a float is not modelled. */
  datatype PlotRecord = PlotRecord(
    districts: set<string>,
    areas: set<string>,
    plotNumber: Option<string>,
    areaAcres: Option<string>,
    allotteeName: Option<string>,
    phone: Option<string>,
    email: Option<string>,
    address: Option<string>,
    industry: Option<string>,
    ulpin: Option<string>,
    plotStatus: Option<string>,
    phoneValid: bool,
    emailValid: bool)

  type PlotData = map<string, PlotRecord>

  // ---------------------------------------------------------------------
  // What the loop derives from one row

  /** The values lines 85-91 compute from a row before it is classified
      and merged. */
  datatype RowView = RowView(
    row: CsvRow,
    code: string,
    phone: string,
    email: string,
    phoneValid: bool,
    emailValid: bool,
    address: Option<string>,
    industry: Option<string>)

  /** `str(row["Plotcode"])` turns a missing code into the text "nan"; a
      missing phone or e-mail becomes "N/A" before validation, which no
      validator accepts, so a contact counts only when its cell is present and
      passes. The address and industry the row offers are already cleaned. */
  function View(r: CsvRow): (v: RowView)
    ensures v.phoneValid <==> r.phone.Some? && IsValidPhone(r.phone.value)
    ensures v.emailValid <==> r.email.Some? && IsValidEmail(r.email.value)
    ensures Truthy(v.address) ==> Normalised(v.address.value)
    ensures Truthy(v.industry) ==> |v.industry.value| <= IndustryLimit
  {
    var phone := r.phone.GetOr(Unknown);
    var email := r.email.GetOr(Unknown);
    PhoneShape(Unknown);
    EmailShape(Unknown);
    CleanAddressNormalised(r.address);
    RowView(r, r.plotcode.GetOr("nan"), phone, email, IsValidPhone(phone), IsValidEmail(email),
            CleanAddress(r.address), TruncateIndustry(r.industry))
  }

  function Views(rows: seq<CsvRow>): (vs: seq<RowView>)
    ensures |vs| == |rows| && forall i :: 0 <= i < |rows| ==> vs[i] == View(rows[i])
  {
    seq(|rows|, i requires 0 <= i < |rows| => View(rows[i]))
  }

  /** Only rows with at least one valid contact reach `plot_data`. */
  predicate Qualifies(v: RowView) {
    v.phoneValid || v.emailValid
  }

  /** The `validation_status` a row gets. */
  function RowStatus(r: CsvRow): Status {
    var v := View(r);
    ValidationStatus(v.phoneValid, v.emailValid)
  }

  /** The `validation_status` column of one file. */
  function FileStatuses(rows: seq<CsvRow>): (r: seq<Status>)
    ensures |r| == |rows|
    ensures forall i :: 0 <= i < |rows| ==> r[i] == RowStatus(rows[i])
  {
    seq(|rows|, i requires 0 <= i < |rows| => RowStatus(rows[i]))
  }

  /** Python truthiness of an optional string. */
  predicate Truthy(o: Option<string>) {
    o.Some? && o.value != ""
  }

  function OptSet(o: Option<string>): (s: set<string>)
    ensures forall x :: x in s <==> o == Some(x)
  {
    if o.Some? then {o.value} else {}
  }

  // ---------------------------------------------------------------------
  // The accumulation as a function

  /** The entry created for the first qualifying row of a plot code: it holds
      no contact yet, so merging that row into it stores exactly the row's
      valid contacts, its district and area, and its cleaned address and
      industry. */
  function NewRecord(v: RowView): (p: PlotRecord)
    ensures p.phone.None? && p.email.None? && !p.phoneValid && !p.emailValid
    ensures Merge(p, v).phone == (if v.phoneValid then Some(v.phone) else None)
    ensures Merge(p, v).email == (if v.emailValid then Some(v.email) else None)
    ensures Merge(p, v).districts == OptSet(v.row.district) && Merge(p, v).areas == OptSet(v.row.industrialArea)
    ensures Merge(p, v).address == v.address && Merge(p, v).industry == v.industry
  {
    PlotRecord({}, {}, v.row.plotNumber, v.row.areaAcres, v.row.allotteeName, None, None,
               v.address, v.industry, v.row.ulpin, v.row.plotStatus, false, false)
  }

  /** A qualifying row updates an entry: sets grow, a contact is written only
      while none is valid yet, address and industry only while still empty. */
  function Merge(p: PlotRecord, v: RowView): PlotRecord {
    p.(districts := p.districts + OptSet(v.row.district),
       areas := p.areas + OptSet(v.row.industrialArea),
       phone := if v.phoneValid && !p.phoneValid then Some(v.phone) else p.phone,
       phoneValid := p.phoneValid || v.phoneValid,
       email := if v.emailValid && !p.emailValid then Some(v.email) else p.email,
       emailValid := p.emailValid || v.emailValid,
       address := if Truthy(v.address) && !Truthy(p.address) then v.address else p.address,
       industry := if Truthy(v.industry) && !Truthy(p.industry) then v.industry else p.industry)
  }

  /** One iteration of the row loop on `plot_data`: only a qualifying row's
      own code can gain or change an entry. */
  function Step(plots: PlotData, v: RowView): (res: PlotData)
    ensures res.Keys == if Qualifies(v) then plots.Keys + {v.code} else plots.Keys
    ensures forall c :: c in plots && c != v.code ==> res[c] == plots[c]
  {
    if !Qualifies(v) then plots
    else
      var p := if v.code in plots then plots[v.code] else NewRecord(v);
      plots[v.code := Merge(p, v)]
  }

  /** The loop over a sequence of rows. */
  function Accumulate(plots: PlotData, views: seq<RowView>): PlotData
    decreases |views|
  {
    if views == [] then plots
    else Step(Accumulate(plots, views[..|views| - 1]), views[|views| - 1])
  }

  /** Rows of several files, one file after another. */
  function Concat(files: seq<seq<CsvRow>>): seq<CsvRow>
    decreases |files|
  {
    if files == [] then [] else Concat(files[..|files| - 1]) + files[|files| - 1]
  }

  /** The `plot_data` a run builds from all the rows it reads. */
  function PlotDataOf(views: seq<RowView>): PlotData {
    Accumulate(map[], views)
  }

  /** Reading rows in two stretches is reading them in one. */
  lemma {:induction false} AccumulateAppend(plots: PlotData, a: seq<RowView>, b: seq<RowView>)
    ensures Accumulate(plots, a + b) == Accumulate(Accumulate(plots, a), b)
    decreases |b|
  {
    if b == [] {
      assert a + b == a;
    } else {
      var b0 := b[..|b| - 1];
      AccumulateAppend(plots, a, b0);
      assert (a + b)[..|a + b| - 1] == a + b0;
      assert (a + b)[|a + b| - 1] == b[|b| - 1];
    }
  }

  lemma ViewsAppend(a: seq<CsvRow>, b: seq<CsvRow>)
    ensures Views(a + b) == Views(a) + Views(b)
  {
  }

  /** File after file, each file's rows read in one stretch. */
  function AccumulateFiles(plots: PlotData, files: seq<seq<CsvRow>>): PlotData
    decreases |files|
  {
    if files == [] then plots
    else Accumulate(AccumulateFiles(plots, files[..|files| - 1]), Views(files[|files| - 1]))
  }

  /** One more file: the fold over the first k + 1 files reads file k last. */
  lemma AccumulateFilesStep(plots: PlotData, files: seq<seq<CsvRow>>, k: nat)
    requires k < |files|
    ensures AccumulateFiles(plots, files[..k + 1]) == Accumulate(AccumulateFiles(plots, files[..k]), Views(files[k]))
  {
    assert files[..k + 1][..k] == files[..k];
  }

  /** Reading the files one at a time is reading all their rows, in order,
      as one sequence. */
  lemma {:induction false} FilesAreConcatenation(plots: PlotData, files: seq<seq<CsvRow>>)
    ensures AccumulateFiles(plots, files) == Accumulate(plots, Views(Concat(files)))
    decreases |files|
  {
    if files != [] {
      var init := files[..|files| - 1];
      FilesAreConcatenation(plots, init);
      ViewsAppend(Concat(init), files[|files| - 1]);
      AccumulateAppend(plots, Views(Concat(init)), Views(files[|files| - 1]));
    }
  }

  // ---------------------------------------------------------------------
  // Reference definitions: which rows decide a field

  /** The rows that can decide a field of the entry for `code`. */
  datatype Probe = AnyContact | ValidPhone | ValidEmail | HasAddress | HasIndustry

  predicate Hits(v: RowView, code: string, probe: Probe) {
    && v.code == code
    && Qualifies(v)
    && match probe
       case AnyContact => true
       case ValidPhone => v.phoneValid
       case ValidEmail => v.emailValid
       case HasAddress => Truthy(v.address)
       case HasIndustry => Truthy(v.industry)
  }

  /** Row `i` is the earliest row the probe hits. */
  predicate IsFirst(views: seq<RowView>, code: string, probe: Probe, i: int) {
    && 0 <= i < |views|
    && Hits(views[i], code, probe)
    && forall j :: 0 <= j < i ==> !Hits(views[j], code, probe)
  }

  predicate Never(views: seq<RowView>, code: string, probe: Probe) {
    forall i :: 0 <= i < |views| ==> !Hits(views[i], code, probe)
  }

  /** How `Never` and `IsFirst` change when one row is appended. */
  lemma SplitLast(views: seq<RowView>, code: string, probe: Probe)
    requires views != []
    ensures var init := views[..|views| - 1];
      && (Never(views, code, probe) <==> Never(init, code, probe) && !Hits(views[|views| - 1], code, probe))
      && (forall i :: 0 <= i < |init| ==> (IsFirst(views, code, probe, i) <==> IsFirst(init, code, probe, i)))
      && (IsFirst(views, code, probe, |init|) <==> Never(init, code, probe) && Hits(views[|views| - 1], code, probe))
  {
    var init := views[..|views| - 1];
    assert forall i :: 0 <= i < |init| ==> views[i] == init[i];
  }

  /** When some row is hit, there is an earliest one. */
  lemma {:induction false} FirstExists(views: seq<RowView>, code: string, probe: Probe)
    requires !Never(views, code, probe)
    ensures exists i :: IsFirst(views, code, probe, i)
    decreases |views|
  {
    var init := views[..|views| - 1];
    SplitLast(views, code, probe);
    if Never(init, code, probe) {
      assert IsFirst(views, code, probe, |init|);
    } else {
      FirstExists(init, code, probe);
      var i :| IsFirst(init, code, probe, i);
      assert IsFirst(views, code, probe, i);
    }
  }

  // ---------------------------------------------------------------------
  // Properties of the accumulated `plot_data`

  /** A plot code has an entry iff some row with that code has a valid
      phone or a valid e-mail. */
  lemma {:induction false} EntryIff(views: seq<RowView>, code: string)
    ensures code in PlotDataOf(views) <==> !Never(views, code, AnyContact)
    decreases |views|
  {
    if views != [] {
      EntryIff(views[..|views| - 1], code);
      SplitLast(views, code, AnyContact);
    }
  }

  /** Plot number, area, allottee name, ULPIN and plot status are those of the
      first qualifying row and are never overwritten. */
  lemma {:induction false} StaticFieldsFromFirstRow(views: seq<RowView>, code: string, i: int)
    requires IsFirst(views, code, AnyContact, i)
    ensures code in PlotDataOf(views)
    ensures var p := PlotDataOf(views)[code]; var r := views[i].row;
      && p.plotNumber == r.plotNumber && p.areaAcres == r.areaAcres
      && p.allotteeName == r.allotteeName && p.ulpin == r.ulpin && p.plotStatus == r.plotStatus
    decreases |views|
  {
    var init := views[..|views| - 1];
    SplitLast(views, code, AnyContact);
    if i < |init| {
      StaticFieldsFromFirstRow(init, code, i);
    } else {
      EntryIff(init, code);
    }
  }

  /** The contacts kept for a plot code: the first valid phone and the first
      valid e-mail among its rows, None when there is none, and each
      validity flag holds exactly when its contact is set. */
  ghost predicate ContactsKept(plots: PlotData, views: seq<RowView>, code: string) {
    code in plots ==>
      var p := plots[code];
      && (p.phoneValid <==> p.phone.Some?)
      && (p.emailValid <==> p.email.Some?)
      && (Never(views, code, ValidPhone) ==> p.phone.None?)
      && (Never(views, code, ValidEmail) ==> p.email.None?)
      && (forall i :: IsFirst(views, code, ValidPhone, i) ==> p.phone == Some(views[i].phone))
      && (forall i :: IsFirst(views, code, ValidEmail, i) ==> p.email == Some(views[i].email))
  }

  lemma {:induction false} FirstContactsWin(views: seq<RowView>, code: string)
    ensures ContactsKept(PlotDataOf(views), views, code)
    decreases |views|
  {
    if views != [] {
      var init := views[..|views| - 1];
      FirstContactsWin(init, code);
      EntryIff(init, code);
      SplitLast(views, code, AnyContact);
      SplitLast(views, code, ValidPhone);
      SplitLast(views, code, ValidEmail);
    }
  }

  /** The two fields that are filled in while still empty. */
  datatype Fill = Address | Industry

  function RecordFill(p: PlotRecord, f: Fill): Option<string> {
    match f
    case Address => p.address
    case Industry => p.industry
  }

  function ViewFill(v: RowView, f: Fill): Option<string> {
    match f
    case Address => v.address
    case Industry => v.industry
  }

  function FillProbe(f: Fill): Probe {
    match f
    case Address => HasAddress
    case Industry => HasIndustry
  }

  /** Address and industry: the first non-empty value among the qualifying
      rows; when there is none, whatever (None or "") the first qualifying
      row brought. */
  ghost predicate FillKept(plots: PlotData, views: seq<RowView>, code: string, f: Fill) {
    code in plots ==>
      var x := RecordFill(plots[code], f);
      && (Truthy(x) <==> !Never(views, code, FillProbe(f)))
      && (forall i :: IsFirst(views, code, FillProbe(f), i) ==> x == ViewFill(views[i], f))
      && (forall i :: IsFirst(views, code, AnyContact, i) && Never(views, code, FillProbe(f)) ==>
            x == ViewFill(views[i], f))
  }

  lemma {:induction false} FirstFillWins(views: seq<RowView>, code: string, f: Fill)
    ensures FillKept(PlotDataOf(views), views, code, f)
    decreases |views|
  {
    if views != [] {
      var init := views[..|views| - 1];
      FirstFillWins(init, code, f);
      EntryIff(init, code);
      SplitLast(views, code, AnyContact);
      SplitLast(views, code, FillProbe(f));
    }
  }

  /** The district and industrial-area sets are the unions of the non-null
      values over the qualifying rows of the code. */
  ghost predicate SetsKept(plots: PlotData, views: seq<RowView>, code: string) {
    code in plots ==>
      && (forall d :: d in plots[code].districts <==>
            exists i :: 0 <= i < |views| && Hits(views[i], code, AnyContact) && views[i].row.district == Some(d))
      && (forall a :: a in plots[code].areas <==>
            exists i :: 0 <= i < |views| && Hits(views[i], code, AnyContact) && views[i].row.industrialArea == Some(a))
  }

  lemma {:induction false} SetsAreUnions(views: seq<RowView>, code: string)
    ensures SetsKept(PlotDataOf(views), views, code)
    decreases |views|
  {
    if views != [] {
      var init := views[..|views| - 1];
      var v := views[|views| - 1];
      SetsAreUnions(init, code);
      EntryIff(init, code);
      assert forall i :: 0 <= i < |init| ==> views[i] == init[i];
      if code in PlotDataOf(views) {
        var p := PlotDataOf(views)[code];
        forall d
          ensures d in p.districts <==>
            exists i :: 0 <= i < |views| && Hits(views[i], code, AnyContact) && views[i].row.district == Some(d)
        {
          if d in p.districts && !(Hits(v, code, AnyContact) && v.row.district == Some(d)) {
            var i :| 0 <= i < |init| && Hits(init[i], code, AnyContact) && init[i].row.district == Some(d);
            assert views[i] == init[i];
          }
        }
        forall a
          ensures a in p.areas <==>
            exists i :: 0 <= i < |views| && Hits(views[i], code, AnyContact) && views[i].row.industrialArea == Some(a)
        {
          if a in p.areas && !(Hits(v, code, AnyContact) && v.row.industrialArea == Some(a)) {
            var i :| 0 <= i < |init| && Hits(init[i], code, AnyContact) && init[i].row.industrialArea == Some(a);
            assert views[i] == init[i];
          }
        }
      }
    }
  }

  /** What an entry stores passed the row checks: its phone and e-mail are
      valid, its address is a cleaned one and its industry at most 300
      characters long. */
  lemma StoredValuesChecked(rows: seq<CsvRow>, code: string)
    requires code in PlotDataOf(Views(rows))
    ensures var p := PlotDataOf(Views(rows))[code];
      && (p.phone.Some? ==> IsValidPhone(p.phone.value))
      && (p.email.Some? ==> IsValidEmail(p.email.value))
      && (Truthy(p.address) ==> Normalised(p.address.value))
      && (Truthy(p.industry) ==> |p.industry.value| <= IndustryLimit)
  {
    var views := Views(rows);
    var p := PlotDataOf(views)[code];
    FirstContactsWin(views, code);
    FirstFillWins(views, code, Address);
    FirstFillWins(views, code, Industry);
    if p.phone.Some? {
      FirstExists(views, code, ValidPhone);
    }
    if p.email.Some? {
      FirstExists(views, code, ValidEmail);
    }
    if Truthy(p.address) {
      FirstExists(views, code, HasAddress);
      var i :| IsFirst(views, code, HasAddress, i);
      CleanTextNormalised(rows[i].address.value);
    }
    if Truthy(p.industry) {
      FirstExists(views, code, HasIndustry);
    }
  }

  // ---------------------------------------------------------------------
  // The loop as it runs

  /** `plot_data`, updated in place row by row and file by file. */
  class PlotIndex {
    var plots: PlotData

    constructor()
      ensures plots == map[]
    {
      plots := map[];
    }

    /** Lines 101-136 for one row, given what lines 85-91 derived from it. */
    method AddRow(v: RowView)
      modifies this
      ensures plots == Step(old(plots), v)
    {
      if v.phoneValid || v.emailValid {
        var p := if v.code in plots then plots[v.code] else NewRecord(v);
        var districts := p.districts;
        if v.row.district.Some? {
          districts := districts + {v.row.district.value};
        }
        var areas := p.areas;
        if v.row.industrialArea.Some? {
          areas := areas + {v.row.industrialArea.value};
        }
        var phone, phoneValid := p.phone, p.phoneValid;
        if v.phoneValid && !p.phoneValid {
          phone, phoneValid := Some(v.phone), true;
        }
        var email, emailValid := p.email, p.emailValid;
        if v.emailValid && !p.emailValid {
          email, emailValid := Some(v.email), true;
        }
        var address := p.address;
        if Truthy(v.address) && !Truthy(p.address) {
          address := v.address;
        }
        var industry := p.industry;
        if Truthy(v.industry) && !Truthy(p.industry) {
          industry := v.industry;
        }
        assert districts == p.districts + OptSet(v.row.district);
        assert areas == p.areas + OptSet(v.row.industrialArea);
        var q := p.(districts := districts, areas := areas, phone := phone,
                    phoneValid := phoneValid, email := email, emailValid := emailValid,
                    address := address, industry := industry);
        assert q == Merge(p, v);
        plots := plots[v.code := q];
      }
    }

    /** One CSV file: every row starts as "both_invalid" and is overwritten
        when a contact is valid; qualifying rows are merged into `plots`. */
    method ProcessFile(rows: seq<CsvRow>) returns (statuses: seq<Status>)
      modifies this
      ensures statuses == FileStatuses(rows)
      ensures plots == Accumulate(old(plots), Views(rows))
    {
      statuses := seq(|rows|, _ => BothInvalid);
      ghost var start := plots;
      ghost var target := FileStatuses(rows);
      for i := 0 to |rows|
        invariant |statuses| == |rows|
        invariant forall j :: 0 <= j < i ==> statuses[j] == target[j]
        invariant forall j :: i <= j < |rows| ==> statuses[j] == BothInvalid
        invariant plots == Accumulate(start, Views(rows[..i]))
      {
        var v := View(rows[i]);
        if v.phoneValid && v.emailValid {
          statuses := statuses[i := Valid];
        } else if v.phoneValid {
          statuses := statuses[i := InvalidEmail];
        } else if v.emailValid {
          statuses := statuses[i := InvalidPhone];
        }
        assert statuses[i] == ValidationStatus(v.phoneValid, v.emailValid) == RowStatus(rows[i]) == target[i];
        AddRow(v);
        assert Views(rows[..i + 1])[..i] == Views(rows[..i]);
      }
      assert rows[..|rows|] == rows;
      assert statuses == target;
    }

    /** The run over all CSV files, in the order they are listed. */
    method ProcessFiles(files: seq<seq<CsvRow>>) returns (statuses: seq<seq<Status>>)
      modifies this
      ensures |statuses| == |files|
      ensures forall k :: 0 <= k < |files| ==> statuses[k] == FileStatuses(files[k])
      ensures plots == Accumulate(old(plots), Views(Concat(files)))
    {
      statuses := [];
      ghost var start := plots;
      for k := 0 to |files|
        invariant |statuses| == k
        invariant forall m :: 0 <= m < k ==> statuses[m] == FileStatuses(files[m])
        invariant plots == AccumulateFiles(start, files[..k])
      {
        AccumulateFilesStep(start, files, k);
        var s := ProcessFile(files[k]);
        statuses := statuses + [s];
      }
      assert files[..|files|] == files;
      FilesAreConcatenation(start, files);
    }
  }
}
