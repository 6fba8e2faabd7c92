/** One area run of get_blrindus_data.py: the plot codes discovered from the
    map features, the bases and suffixes learnt from them, the extracted rows,
    the plot numbers the status listing expects, and the recovery of missing
    plot numbers from the fallback probes. */
module AreaRun {
  import opened Common
  import opened PlotCode
  import opened RecordFetch
  import opened CodeSpace

  const PlotNumberColumn: string := "Plot Number"
  const PlotNumberKey: string := "plno"

  // ---------------------------------------------------------------------
  // Feature de-duplication and the base index

  /** The codes a batch of features adds to `plotcodes`, in feature order: a
      feature without a code, with an empty code, or with a code already
      processed in this run is skipped. */
  function NewCodes(features: seq<Option<string>>, processed: set<string>): (r: seq<string>)
    ensures forall k :: 0 <= k < |r| ==> r[k] != "" && r[k] !in processed && Some(r[k]) in features
    ensures Distinct(r)
    decreases |features|
  {
    if features == [] then []
    else
      var rest := features[1..];
      match features[0]
      case None => NewCodes(rest, processed)
      case Some(c) =>
        if c == "" || c in processed then NewCodes(rest, processed)
        else [c] + NewCodes(rest, processed + {c})
  }

  /** After a batch, every non-empty feature code has been processed: before it, or in it. */
  lemma {:induction false} NewCodesCover(features: seq<Option<string>>, processed: set<string>, c: string)
    requires Some(c) in features && c != ""
    ensures c in processed || c in NewCodes(features, processed)
    decreases |features|
  {
    if features[0] != Some(c) {
      assert Some(c) in features[1..];
      match features[0]
      case None => NewCodesCover(features[1..], processed, c);
      case Some(d) =>
        if d == "" || d in processed {
          NewCodesCover(features[1..], processed, c);
        } else {
          NewCodesCover(features[1..], processed + {d}, c);
        }
    }
  }

  /** The elements of a list of codes. */
  function Elems(codes: seq<string>): (r: set<string>)
    ensures forall c :: c in r <==> c in codes
  {
    set c | c in codes
  }

  /** `known_suffixes` after one code: a well-formed code adds its suffix to its base. */
  function Learn(known: map<string, set<nat>>, code: string): map<string, set<nat>> {
    match Decompose(code)
    case None => known
    case Some(sp) => known[sp.base := KnownOf(known, sp.base) + {sp.suffix}]
  }

  /** `known_suffixes` after a list of codes, taken in order. */
  function LearnAll(known: map<string, set<nat>>, codes: seq<string>): map<string, set<nat>>
    decreases |codes|
  {
    if codes == [] then known
    else Learn(LearnAll(known, codes[..|codes| - 1]), codes[|codes| - 1])
  }

  /** The base a code contributes to `pltcode_bases`: its first 12
      characters when it is well formed, none otherwise. */
  function BaseOf(code: string): (r: set<string>)
    ensures r == if WellFormed(code) then {code[..BaseLength]} else {}
    ensures forall b :: b in r ==> |b| == BaseLength
  {
    match Decompose(code)
    case None => {}
    case Some(sp) => {sp.base}
  }

  /** `pltcode_bases` grows by the bases of the well-formed codes. */
  function BasesOf(codes: seq<string>): (r: set<string>)
    ensures forall b :: b in r ==> |b| == BaseLength
    decreases |codes|
  {
    if codes == [] then {}
    else
      var last := codes[|codes| - 1];
      BasesOf(codes[..|codes| - 1]) + BaseOf(last)
  }

  /** A base is indexed exactly when some well-formed code of the list starts with it. */
  lemma {:induction false} BasesOfMembers(codes: seq<string>, b: string)
    ensures b in BasesOf(codes) <==>
      exists k :: 0 <= k < |codes| && WellFormed(codes[k]) && b == codes[k][..BaseLength]
    decreases |codes|
  {
    if codes != [] {
      var init := codes[..|codes| - 1];
      BasesOfMembers(init, b);
      if exists k :: 0 <= k < |init| && WellFormed(init[k]) && b == init[k][..BaseLength] {
        var k :| 0 <= k < |init| && WellFormed(init[k]) && b == init[k][..BaseLength];
        assert codes[k] == init[k];
      }
      if exists k :: 0 <= k < |codes| && WellFormed(codes[k]) && b == codes[k][..BaseLength] {
        var k :| 0 <= k < |codes| && WellFormed(codes[k]) && b == codes[k][..BaseLength];
        if k < |init| {
          assert init[k] == codes[k];
        }
      }
    }
  }

  /** A feature whose code the loop takes: present, non-empty and not yet processed. */
  predicate Fresh(feature: Option<string>, processed: set<string>) {
    feature.Some? && feature.value != "" && feature.value !in processed
  }

  /** Progress of the feature loop: the codes found so far followed by what
      the remaining features add is the whole batch's list, before and after
      feature i. */
  lemma NewCodesProgress(features: seq<Option<string>>, i: nat, found: seq<string>, processed: set<string>,
                         target: seq<string>)
    requires i < |features|
    requires found + NewCodes(features[i..], processed) == target
    ensures Fresh(features[i], processed) ==>
      (found + [features[i].value]) + NewCodes(features[i + 1..], processed + {features[i].value}) == target
    ensures !Fresh(features[i], processed) ==> found + NewCodes(features[i + 1..], processed) == target
  {
    NewCodesStep(features, i, processed);
    if Fresh(features[i], processed) {
      var c := features[i].value;
      var rest := NewCodes(features[i + 1..], processed + {c});
      assert found + ([c] + rest) == (found + [c]) + rest;
    }
  }

  /** One step of the feature loop, read off the definition at position i. */
  lemma NewCodesStep(features: seq<Option<string>>, i: nat, processed: set<string>)
    requires i < |features|
    ensures NewCodes(features[i..], processed) ==
      if features[i].Some? && features[i].value != "" && features[i].value !in processed
      then [features[i].value] + NewCodes(features[i + 1..], processed + {features[i].value})
      else NewCodes(features[i + 1..], processed)
  {
    assert features[i..][0] == features[i] && features[i..][1..] == features[i + 1..];
  }

  lemma LearnAllAppend(known: map<string, set<nat>>, codes: seq<string>, code: string)
    ensures LearnAll(known, codes + [code]) == Learn(LearnAll(known, codes), code)
    ensures BasesOf(codes + [code]) == BasesOf(codes) + BaseOf(code)
  {
    assert (codes + [code])[..|codes|] == codes;
  }

  /** A suffix is known for a base exactly when it was known before or some
      learnt code is that base followed by the two-digit suffix; a code that is
      not 14 characters ending in two digits teaches nothing. */
  lemma {:induction false} LearnedSuffixes(known: map<string, set<nat>>, codes: seq<string>, b: string, s: nat)
    ensures s in KnownOf(LearnAll(known, codes), b) <==>
      s in KnownOf(known, b) ||
      (|b| == BaseLength && s < 100 && exists k :: 0 <= k < |codes| && codes[k] == Compose(b, s))
    decreases |codes|
  {
    if codes != [] {
      var init, last := codes[..|codes| - 1], codes[|codes| - 1];
      LearnedSuffixes(known, init, b, s);
      var before := LearnAll(known, init);
      if |b| == BaseLength && s < 100 {
        ComposeDecompose(b, s);
        if last == Compose(b, s) {
          assert s in KnownOf(LearnAll(known, codes), b);
        }
        if s in KnownOf(LearnAll(known, codes), b) && s !in KnownOf(before, b) {
          assert Decompose(last) == Some(Split(b, s));
          DecomposeCompose(last);
        }
        if exists k :: 0 <= k < |codes| && codes[k] == Compose(b, s) {
          var k :| 0 <= k < |codes| && codes[k] == Compose(b, s);
          if k < |init| {
            assert init[k] == Compose(b, s);
          }
        }
        if exists k :: 0 <= k < |init| && init[k] == Compose(b, s) {
          var k :| 0 <= k < |init| && init[k] == Compose(b, s);
          assert codes[k] == Compose(b, s);
        }
      } else {
        match Decompose(last)
        case None =>
        case Some(sp) =>
          if sp.base == b {
            assert |sp.base| == BaseLength && sp.suffix < 100;
          }
      }
    }
  }

  // ---------------------------------------------------------------------
  // Reconciliation against the status listing

  /** The reply to one `Getplotdetailsbystatus` request: no usable response,
      or the reply's `d` field (None when absent) with the listing it decodes to. */
  datatype StatusReply = NoResponse | Listing(d: Option<string>, plots: seq<Record>)

  /** A reply is taken unless it failed or says `"Wrong Input"`. */
  predicate Accepts(reply: StatusReply) {
    reply.Listing? && reply.d != Some(WrongInput)
  }

  /** `set(plot.get("plno") for plot in status_plots if plot.get("plno"))`:
      an empty plot number is never expected. */
  function PlotNumbers(plots: seq<Record>): (r: set<string>)
    ensures "" !in r
  {
    set k | 0 <= k < |plots| && PlotNumberKey in plots[k] && plots[k][PlotNumberKey] != "" :: plots[k][PlotNumberKey]
  }

  /** `total_plots` never exceeds the number of entries in the listing. */
  lemma {:induction false} PlotNumbersBound(plots: seq<Record>)
    ensures |PlotNumbers(plots)| <= |plots|
    decreases |plots|
  {
    if plots != [] {
      var init := plots[..|plots| - 1];
      var last := plots[|plots| - 1];
      PlotNumbersBound(init);
      var extra := if PlotNumberKey in last && last[PlotNumberKey] != "" then {last[PlotNumberKey]} else {};
      assert PlotNumbers(plots) <= PlotNumbers(init) + extra by {
        forall v | v in PlotNumbers(plots)
          ensures v in PlotNumbers(init) + extra
        {
          var k :| 0 <= k < |plots| && PlotNumberKey in plots[k] && plots[k][PlotNumberKey] != "" && plots[k][PlotNumberKey] == v;
          if k < |init| {
            assert init[k] == plots[k];
          }
        }
      }
      SubsetSize(PlotNumbers(plots), PlotNumbers(init) + extra);
    }
  }

  lemma SubsetSize(a: set<string>, b: set<string>)
    requires a <= b
    ensures |a| <= |b|
  {
    assert b == a + (b - a);
  }

  /** `expected_plnos`: the plot numbers of the first accepted reply, trying the
      spellings in order, and nothing when no reply is accepted. */
  method SelectListing(replies: seq<StatusReply>) returns (expected: set<string>)
    ensures (forall k :: 0 <= k < |replies| ==> !Accepts(replies[k])) ==> expected == {}
    ensures forall k :: 0 <= k < |replies| && Accepts(replies[k]) && (forall j :: 0 <= j < k ==> !Accepts(replies[j])) ==>
      expected == PlotNumbers(replies[k].plots)
  {
    expected := {};
    var i := 0;
    while i < |replies|
      invariant 0 <= i <= |replies|
      invariant forall j :: 0 <= j < i ==> !Accepts(replies[j])
      invariant expected == {}
    {
      if Accepts(replies[i]) {
        expected := PlotNumbers(replies[i].plots);
        return;
      }
      i := i + 1;
    }
  }

  /** The plot number a row reports, with `"N/A"` for a row without one. */
  function RowPlotNumber(row: Row): string {
    if PlotNumberColumn in row then row[PlotNumberColumn] else Unknown
  }

  /** `extracted_plnos`: the plot numbers of the rows whose plot number is not
      `"N/A"`; a row without the column still yields the default `"N/A"`. */
  function ExtractedPlotNumbers(rows: seq<Row>): set<string>
  {
    set k | 0 <= k < |rows| && !(PlotNumberColumn in rows[k] && rows[k][PlotNumberColumn] == Unknown) ::
      RowPlotNumber(rows[k])
  }

  /** Apart from "N/A", the extracted plot numbers are exactly the values of
      the rows' plot-number column, the set the recovery loop extends. */
  lemma ExtractedAreColumnValues(rows: seq<Row>)
    ensures ExtractedPlotNumbers(rows) - {Unknown} == ColumnValues(rows, PlotNumberColumn) - {Unknown}
  {
    forall v | v != Unknown
      ensures v in ExtractedPlotNumbers(rows) <==> v in ColumnValues(rows, PlotNumberColumn)
    {
      ColumnValuesMembers(rows, PlotNumberColumn, v);
      if v in ExtractedPlotNumbers(rows) {
        var k :| 0 <= k < |rows| && !(PlotNumberColumn in rows[k] && rows[k][PlotNumberColumn] == Unknown) &&
          RowPlotNumber(rows[k]) == v;
        assert PlotNumberColumn in rows[k] && rows[k][PlotNumberColumn] == v;
      }
      if v in ColumnValues(rows, PlotNumberColumn) {
        var k :| 0 <= k < |rows| && PlotNumberColumn in rows[k] && rows[k][PlotNumberColumn] == v;
        assert RowPlotNumber(rows[k]) == v;
      }
    }
  }

  /** Rows built by the record builder always carry the column, so `"N/A"` is
      never counted as extracted. */
  lemma UnknownNeverExtracted(rows: seq<Row>)
    requires forall k :: 0 <= k < |rows| ==> PlotNumberColumn in rows[k]
    ensures Unknown !in ExtractedPlotNumbers(rows)
  {
  }

  // ---------------------------------------------------------------------
  // Recovery of missing plot numbers

  /** Every result that holds a row holds one with a `Plotcode`, as the record builder guarantees. */
  predicate RowsCarryCodes(results: seq<Option<Row>>) {
    forall k :: 0 <= k < |results| && results[k].Some? ==> PlotcodeColumn in results[k].value
  }

  /** Whether the recovery loop keeps a completed row: it must report a plot number still missing. */
  predicate Wanted(row: Row, expected: set<string>, found: set<string>) {
    PlotNumberColumn in row && row[PlotNumberColumn] in expected - found
  }

  /** The rows the recovery loop appends to `extracted_data`, with results in
      completion order; `found` is `extracted_plnos`. The loop stops as soon as
      nothing is missing. */
  function Recovered(results: seq<Option<Row>>, expected: set<string>, found: set<string>): (r: seq<Row>)
    ensures forall k :: 0 <= k < |r| ==> Wanted(r[k], expected, found)
    ensures forall j, k :: 0 <= j < k < |r| ==> RowPlotNumber(r[j]) != RowPlotNumber(r[k])
    decreases |results|
  {
    if results == [] then []
    else
      var rest := results[1..];
      match results[0]
      case None => Recovered(rest, expected, found)
      case Some(row) =>
        if Wanted(row, expected, found) then
          var found' := found + {row[PlotNumberColumn]};
          [row] + (if expected - found' == {} then [] else Recovered(rest, expected, found'))
        else Recovered(rest, expected, found)
  }

  /** The recovery loop only ever keeps rows it was given. */
  lemma {:induction false} RecoveredFromResults(results: seq<Option<Row>>, expected: set<string>, found: set<string>)
    ensures forall k :: 0 <= k < |Recovered(results, expected, found)| ==> Some(Recovered(results, expected, found)[k]) in results
    decreases |results|
  {
    if results != [] {
      var rest := results[1..];
      RecoveredFromResults(rest, expected, found);
      if results[0].Some? && Wanted(results[0].value, expected, found) {
        RecoveredFromResults(rest, expected, found + {results[0].value[PlotNumberColumn]});
      }
    }
  }

  /** The same loop without the early exit. */
  function RecoveredWithoutBreak(results: seq<Option<Row>>, expected: set<string>, found: set<string>): seq<Row>
    decreases |results|
  {
    if results == [] then []
    else
      var rest := results[1..];
      match results[0]
      case None => RecoveredWithoutBreak(rest, expected, found)
      case Some(row) =>
        if Wanted(row, expected, found) then [row] + RecoveredWithoutBreak(rest, expected, found + {row[PlotNumberColumn]})
        else RecoveredWithoutBreak(rest, expected, found)
  }

  lemma {:induction false} NothingMissingNothingKept(results: seq<Option<Row>>, expected: set<string>, found: set<string>)
    requires expected - found == {}
    ensures RecoveredWithoutBreak(results, expected, found) == []
    decreases |results|
  {
    if results != [] {
      NothingMissingNothingKept(results[1..], expected, found);
      if results[0].Some? {
        assert !Wanted(results[0].value, expected, found);
      }
    }
  }

  /** The early exit only saves work: without it the loop appends the same rows. */
  lemma {:induction false} BreakOnlySavesWork(results: seq<Option<Row>>, expected: set<string>, found: set<string>)
    ensures Recovered(results, expected, found) == RecoveredWithoutBreak(results, expected, found)
    decreases |results|
  {
    if results != [] {
      var rest := results[1..];
      match results[0]
      case None => BreakOnlySavesWork(rest, expected, found);
      case Some(row) =>
        if Wanted(row, expected, found) {
          var found' := found + {row[PlotNumberColumn]};
          BreakOnlySavesWork(rest, expected, found');
          if expected - found' == {} {
            NothingMissingNothingKept(rest, expected, found');
          }
        } else {
          BreakOnlySavesWork(rest, expected, found);
        }
    }
  }

  /** Every appended row removes one missing plot number, so the loop appends
      at most as many rows as there are missing plot numbers. */
  lemma {:induction false} RecoveredBound(results: seq<Option<Row>>, expected: set<string>, found: set<string>)
    ensures |Recovered(results, expected, found)| <= |expected - found|
    decreases |results|
  {
    if results != [] {
      var rest := results[1..];
      match results[0]
      case None => RecoveredBound(rest, expected, found);
      case Some(row) =>
        if Wanted(row, expected, found) {
          var found' := found + {row[PlotNumberColumn]};
          assert expected - found == (expected - found') + {row[PlotNumberColumn]};
          if expected - found' != {} {
            RecoveredBound(rest, expected, found');
          }
        } else {
          RecoveredBound(rest, expected, found);
        }
    }
  }

  /** One step of the recovery loop, read off the definition at position i. */
  lemma RecoveredStep(results: seq<Option<Row>>, i: nat, expected: set<string>, found: set<string>)
    requires i < |results|
    ensures results[i].None? ==> Recovered(results[i..], expected, found) == Recovered(results[i + 1..], expected, found)
    ensures results[i].Some? && !Wanted(results[i].value, expected, found) ==>
      Recovered(results[i..], expected, found) == Recovered(results[i + 1..], expected, found)
    ensures results[i].Some? && Wanted(results[i].value, expected, found) ==>
      var found' := found + {results[i].value[PlotNumberColumn]};
      Recovered(results[i..], expected, found) ==
        [results[i].value] + (if expected - found' == {} then [] else Recovered(results[i + 1..], expected, found'))
  {
    assert results[i..][0] == results[i] && results[i..][1..] == results[i + 1..];
  }

  /** Progress of the recovery loop: the rows kept so far followed by what
      the remaining results add is the whole list, before and after result i. */
  lemma RecoveredProgress(results: seq<Option<Row>>, i: nat, expected: set<string>, found: set<string>,
                          added: seq<Row>, target: seq<Row>)
    requires i < |results|
    requires added + Recovered(results[i..], expected, found) == target
    ensures results[i].Some? && Wanted(results[i].value, expected, found) ==>
      var found' := found + {results[i].value[PlotNumberColumn]};
      (added + [results[i].value]) + (if expected - found' == {} then [] else Recovered(results[i + 1..], expected, found')) == target
    ensures !(results[i].Some? && Wanted(results[i].value, expected, found)) ==>
      added + Recovered(results[i + 1..], expected, found) == target
  {
    RecoveredStep(results, i, expected, found);
    if results[i].Some? && Wanted(results[i].value, expected, found) {
      var row := results[i].value;
      var found' := found + {row[PlotNumberColumn]};
      var rest := if expected - found' == {} then [] else Recovered(results[i + 1..], expected, found');
      assert added + ([row] + rest) == (added + [row]) + rest;
    }
  }

  /** The values of one column over a list of rows; a row without the column
      contributes nothing. */
  function ColumnValues(rows: seq<Row>, column: string): set<string>
    decreases |rows|
  {
    if rows == [] then {}
    else
      var last := rows[|rows| - 1];
      ColumnValues(rows[..|rows| - 1], column) + if column in last then {last[column]} else {}
  }

  lemma ColumnValuesAppend(rows: seq<Row>, row: Row, column: string)
    ensures ColumnValues(rows + [row], column) == ColumnValues(rows, column) + if column in row then {row[column]} else {}
  {
    assert (rows + [row])[..|rows|] == rows;
  }

  /** A value is in the column exactly when some row holds it there. */
  lemma {:induction false} ColumnValuesMembers(rows: seq<Row>, column: string, v: string)
    ensures v in ColumnValues(rows, column) <==> exists k :: 0 <= k < |rows| && column in rows[k] && rows[k][column] == v
    decreases |rows|
  {
    if rows != [] {
      var init := rows[..|rows| - 1];
      ColumnValuesMembers(init, column, v);
      if exists k :: 0 <= k < |init| && column in init[k] && init[k][column] == v {
        var k :| 0 <= k < |init| && column in init[k] && init[k][column] == v;
        assert rows[k] == init[k];
      }
      if exists k :: 0 <= k < |rows| && column in rows[k] && rows[k][column] == v {
        var k :| 0 <= k < |rows| && column in rows[k] && rows[k][column] == v;
        if k < |init| {
          assert init[k] == rows[k];
        }
      }
    }
  }

  /** The rows that carry a value in a completion sequence. */
  function Present(results: seq<Option<Row>>): (r: seq<Row>)
    ensures forall k :: 0 <= k < |r| ==> Some(r[k]) in results
    ensures forall k :: 0 <= k < |results| && results[k].Some? ==> results[k].value in r
    decreases |results|
  {
    if results == [] then []
    else
      var init := results[..|results| - 1];
      assert forall k :: 0 <= k < |init| ==> init[k] == results[k];
      Present(init) + match results[|results| - 1] { case None => [] case Some(row) => [row] }
  }

  /** The plot numbers the results report: those of the rows that carry one. */
  function Reported(results: seq<Option<Row>>): (r: set<string>)
    ensures forall k :: 0 <= k < |results| && results[k].Some? && PlotNumberColumn in results[k].value ==>
      results[k].value[PlotNumberColumn] in r
  {
    set k | 0 <= k < |results| && results[k].Some? && PlotNumberColumn in results[k].value :: results[k].value[PlotNumberColumn]
  }

  /** The plot number a single result reports, if any. */
  function ReportedBy(result: Option<Row>): set<string> {
    if result.Some? && PlotNumberColumn in result.value then {result.value[PlotNumberColumn]} else {}
  }

  lemma ReportedFirst(results: seq<Option<Row>>)
    requires results != []
    ensures Reported(results) == ReportedBy(results[0]) + Reported(results[1..])
  {
    var rest := results[1..];
    forall v | v in Reported(results)
      ensures v in ReportedBy(results[0]) + Reported(rest)
    {
      var k :| 0 <= k < |results| && results[k].Some? && PlotNumberColumn in results[k].value && results[k].value[PlotNumberColumn] == v;
      if k > 0 {
        assert rest[k - 1] == results[k];
      }
    }
    forall v | v in Reported(rest)
      ensures v in Reported(results)
    {
      var k :| 0 <= k < |rest| && rest[k].Some? && PlotNumberColumn in rest[k].value && rest[k].value[PlotNumberColumn] == v;
      assert rest[k] == results[k + 1];
    }
  }

  lemma {:induction false} ColumnValuesConcat(a: seq<Row>, b: seq<Row>, column: string)
    ensures ColumnValues(a + b, column) == ColumnValues(a, column) + ColumnValues(b, column)
    decreases |b|
  {
    if b == [] {
      assert a + b == a;
    } else {
      var init := b[..|b| - 1];
      ColumnValuesConcat(a, init, column);
      assert (a + b)[..|a + b| - 1] == a + init;
    }
  }

  /** The recovery loop leaves missing exactly the plot numbers that were
      missing and that no result reports: a reported missing plot number is
      always recovered, even though the loop may stop early. */
  lemma {:induction false} RecoveredMissing(results: seq<Option<Row>>, expected: set<string>, found: set<string>)
    ensures expected - (found + ColumnValues(Recovered(results, expected, found), PlotNumberColumn))
         == (expected - found) - Reported(results)
    decreases |results|
  {
    if results == [] {
      assert Reported(results) == {};
    } else {
      var rest := results[1..];
      ReportedFirst(results);
      match results[0]
      case None => RecoveredMissing(rest, expected, found);
      case Some(row) =>
        if Wanted(row, expected, found) {
          var v := row[PlotNumberColumn];
          var found' := found + {v};
          var tail := if expected - found' == {} then [] else Recovered(rest, expected, found');
          ColumnValuesConcat([row], tail, PlotNumberColumn);
          assert ColumnValues([row], PlotNumberColumn) == {v} by {
            assert [row][..0] == [];
          }
          if expected - found' != {} {
            RecoveredMissing(rest, expected, found');
          }
        } else {
          RecoveredMissing(rest, expected, found);
        }
    }
  }

  /** Completeness of the recovery: every result that reports a plot number
      still missing has that plot number among the recovered rows. */
  lemma RecoveredComplete(results: seq<Option<Row>>, expected: set<string>, found: set<string>, k: nat)
    requires k < |results| && results[k].Some? && PlotNumberColumn in results[k].value
    requires results[k].value[PlotNumberColumn] in expected - found
    ensures results[k].value[PlotNumberColumn] in ColumnValues(Recovered(results, expected, found), PlotNumberColumn)
  {
    RecoveredMissing(results, expected, found);
  }

  /** Every probe is an unprocessed 14-character code of one of the bases. */
  predicate ProbesOf(codes: seq<string>, bases: set<string>, processed: set<string>) {
    forall k :: 0 <= k < |codes| ==>
      |codes[k]| == CodeLength && codes[k] !in processed &&
      exists b, s :: b in bases && s < 100 && codes[k] == Compose(b, s)
  }

  /** Probes that record their base and suffix are probes of those bases. */
  lemma OwnedProbes(codes: seq<string>, owners: seq<string>, suffixes: seq<nat>, bases: set<string>, processed: set<string>)
    requires |codes| == |owners| == |suffixes|
    requires forall k :: 0 <= k < |codes| ==>
      owners[k] in bases && suffixes[k] < 100 && codes[k] == Compose(owners[k], suffixes[k]) &&
      Eligible(owners[k], suffixes[k], processed)
    ensures ProbesOf(codes, bases, processed)
  {
    forall k | 0 <= k < |codes|
      ensures |codes[k]| == CodeLength && codes[k] !in processed
      ensures exists b, s :: b in bases && s < 100 && codes[k] == Compose(b, s)
    {
      assert Eligible(owners[k], suffixes[k], processed);
      assert owners[k] in bases && suffixes[k] < 100 && codes[k] == Compose(owners[k], suffixes[k]);
    }
  }

  // ---------------------------------------------------------------------
  // The state of one area run

  class AreaState {
    var processed: set<string>
    var bases: set<string>
    var knownSuffixes: map<string, set<nat>>
    var extracted: seq<Row>
    var expected: set<string>
    var extractedPlnos: set<string>
    var missing: set<string>

    /** Every base has 12 characters, every known suffix is a two-digit suffix
        of a known base whose code was processed, and the missing plot numbers
        are the expected ones not yet extracted. */
    ghost predicate Valid()
      reads this
    {
      && knownSuffixes.Keys <= bases
      && (forall b :: b in bases ==> |b| == BaseLength)
      && (forall b, s :: b in knownSuffixes && s in knownSuffixes[b] ==> s < 100 && Compose(b, s) in processed)
      && missing == expected - extractedPlnos
    }

    /** The empty state at the start of a coordinate file. */
    constructor ()
      ensures Valid()
      ensures processed == {} && bases == {} && knownSuffixes == map[] && extracted == []
      ensures expected == {} && extractedPlnos == {} && missing == {}
    {
      processed, bases, knownSuffixes, extracted := {}, {}, map[], [];
      expected, extractedPlnos, missing := {}, {}, {};
    }

    /** One batch of map features: collects the new plot codes, marks them
        processed and indexes the well-formed ones by base and suffix. */
    method IngestFeatures(features: seq<Option<string>>) returns (plotcodes: seq<string>)
      modifies this
      requires Valid()
      ensures Valid()
      ensures plotcodes == NewCodes(features, old(processed))
      ensures processed == old(processed) + Elems(plotcodes)
      ensures knownSuffixes == LearnAll(old(knownSuffixes), plotcodes)
      ensures bases == old(bases) + BasesOf(plotcodes)
      ensures extracted == old(extracted) && expected == old(expected)
      ensures extractedPlnos == old(extractedPlnos) && missing == old(missing)
    {
      plotcodes := [];
      var i := 0;
      while i < |features|
        invariant 0 <= i <= |features|
        invariant Valid()
        invariant plotcodes + NewCodes(features[i..], processed) == NewCodes(features, old(processed))
        invariant processed == old(processed) + Elems(plotcodes)
        invariant knownSuffixes == LearnAll(old(knownSuffixes), plotcodes)
        invariant bases == old(bases) + BasesOf(plotcodes)
        invariant extracted == old(extracted) && expected == old(expected)
        invariant extractedPlnos == old(extractedPlnos) && missing == old(missing)
      {
        NewCodesProgress(features, i, plotcodes, processed, NewCodes(features, old(processed)));
        plotcodes := Offer(features[i], plotcodes, old(processed), old(knownSuffixes), old(bases));
        i := i + 1;
      }
    }

    /** The feature loop's body: a fresh code is admitted and appended to
        `plotcodes`; anything else changes nothing. */
    method Offer(feature: Option<string>, plotcodes: seq<string>,
                 ghost processed0: set<string>, ghost known0: map<string, set<nat>>, ghost bases0: set<string>)
      returns (plotcodes': seq<string>)
      modifies this
      requires Valid()
      requires processed == processed0 + Elems(plotcodes)
      requires knownSuffixes == LearnAll(known0, plotcodes) && bases == bases0 + BasesOf(plotcodes)
      ensures Valid()
      ensures Fresh(feature, old(processed)) ==>
        plotcodes' == plotcodes + [feature.value] && processed == old(processed) + {feature.value}
      ensures !Fresh(feature, old(processed)) ==> plotcodes' == plotcodes && processed == old(processed)
      ensures processed == processed0 + Elems(plotcodes')
      ensures knownSuffixes == LearnAll(known0, plotcodes') && bases == bases0 + BasesOf(plotcodes')
      ensures extracted == old(extracted) && expected == old(expected)
      ensures extractedPlnos == old(extractedPlnos) && missing == old(missing)
    {
      plotcodes' := plotcodes;
      if Fresh(feature, processed) {
        var code := feature.value;
        Admit(code);
        LearnAllAppend(known0, plotcodes, code);
        plotcodes' := plotcodes + [code];
      }
    }

    /** One new plot code: it is marked processed, and when well formed its
        suffix is recorded under its base. */
    method Admit(code: string)
      modifies this
      requires Valid()
      ensures Valid()
      ensures processed == old(processed) + {code}
      ensures knownSuffixes == Learn(old(knownSuffixes), code)
      ensures bases == old(bases) + BaseOf(code)
      ensures extracted == old(extracted) && expected == old(expected)
      ensures extractedPlnos == old(extractedPlnos) && missing == old(missing)
    {
      processed := processed + {code};
      var split := Decompose(code);
      if split.Some? {
        var base, suffix := split.value.base, split.value.suffix;
        DecomposeCompose(code);
        bases := bases + {base};
        knownSuffixes := knownSuffixes[base := KnownOf(knownSuffixes, base) + {suffix}];
      }
    }

    /** The completed lookups of one batch, in completion order: every returned row is kept. */
    method AppendRows(results: seq<Option<Row>>)
      modifies this
      requires Valid()
      ensures Valid()
      ensures extracted == old(extracted) + Present(results)
      ensures processed == old(processed) && bases == old(bases) && knownSuffixes == old(knownSuffixes)
      ensures expected == old(expected) && extractedPlnos == old(extractedPlnos) && missing == old(missing)
    {
      var i := 0;
      while i < |results|
        invariant 0 <= i <= |results|
        invariant extracted == old(extracted) + Present(results[..i])
        invariant processed == old(processed) && bases == old(bases) && knownSuffixes == old(knownSuffixes)
        invariant expected == old(expected) && extractedPlnos == old(extractedPlnos) && missing == old(missing)
      {
        assert results[..i + 1][..i] == results[..i];
        if results[i].Some? {
          extracted := extracted + [results[i].value];
        }
        i := i + 1;
      }
      assert results[..|results|] == results;
    }

    /** Asks the status listing under both spellings and derives the plot
        numbers still missing from the extracted rows. */
    method Reconcile(replies: seq<StatusReply>)
      modifies this
      requires Valid()
      ensures Valid()
      ensures (forall k :: 0 <= k < |replies| ==> !Accepts(replies[k])) ==> expected == {}
      ensures forall k :: 0 <= k < |replies| && Accepts(replies[k]) && (forall j :: 0 <= j < k ==> !Accepts(replies[j])) ==>
        expected == PlotNumbers(replies[k].plots)
      ensures extractedPlnos == ExtractedPlotNumbers(extracted)
      ensures missing == expected - extractedPlnos
      ensures processed == old(processed) && bases == old(bases) && knownSuffixes == old(knownSuffixes)
      ensures extracted == old(extracted)
    {
      expected := SelectListing(replies);
      extractedPlnos := ExtractedPlotNumbers(extracted);
      missing := expected - extractedPlnos;
    }

    /** The fallback probe list: nothing when no plot is missing; otherwise the
        default base stands in for an empty base set, and every unprocessed
        code of every base is probed exactly once. */
    method FallbackProbes() returns (codes: seq<string>)
      modifies this
      requires Valid()
      ensures Valid()
      ensures old(missing) == {} ==> codes == [] && bases == old(bases)
      ensures old(missing) != {} ==> bases == if old(bases) == {} then {DefaultBase} else old(bases)
      ensures Distinct(codes)
      ensures ProbesOf(codes, bases, processed)
      ensures old(missing) != {} ==>
        forall b, i :: b in bases && 0 <= i < 100 && Compose(b, i) !in processed ==> Compose(b, i) in codes
      ensures processed == old(processed) && knownSuffixes == old(knownSuffixes) && extracted == old(extracted)
      ensures expected == old(expected) && extractedPlnos == old(extractedPlnos) && missing == old(missing)
    {
      if missing == {} {
        return [];
      }
      if bases == {} {
        bases := {DefaultBase};
      }
      ghost var owners, suffixes;
      codes, owners, suffixes := GenerateProbes(bases, knownSuffixes, processed);
      OwnedProbes(codes, owners, suffixes, bases, processed);
    }

    /** Appends a recovered row and records its code and plot number; `added`
        is the list of rows appended since the recovery began from `x0`, `f0`
        and `p0`. */
    method Keep(row: Row, ghost added: seq<Row>, ghost x0: seq<Row>, ghost f0: set<string>, ghost p0: set<string>)
      modifies this
      requires PlotcodeColumn in row && PlotNumberColumn in row
      requires extracted == x0 + added
      requires extractedPlnos == f0 + ColumnValues(added, PlotNumberColumn)
      requires processed == p0 + ColumnValues(added, PlotcodeColumn)
      ensures missing == expected - extractedPlnos
      ensures extracted == x0 + (added + [row])
      ensures extractedPlnos == f0 + ColumnValues(added + [row], PlotNumberColumn)
      ensures processed == p0 + ColumnValues(added + [row], PlotcodeColumn)
      ensures extractedPlnos == old(extractedPlnos) + {row[PlotNumberColumn]}
      ensures expected == old(expected) && bases == old(bases) && knownSuffixes == old(knownSuffixes)
    {
      ColumnValuesAppend(added, row, PlotNumberColumn);
      ColumnValuesAppend(added, row, PlotcodeColumn);
      extracted := extracted + [row];
      processed := processed + {row[PlotcodeColumn]};
      extractedPlnos := extractedPlnos + {row[PlotNumberColumn]};
      missing := expected - extractedPlnos;
    }

    /** The recovery loop over the fallback results, in completion order: a row
        is kept only when its plot number is still missing, and the loop stops
        once nothing is missing. `kept` names the rows it appends. */
    method Recover(results: seq<Option<Row>>) returns (ghost kept: seq<Row>)
      modifies this
      requires Valid()
      requires RowsCarryCodes(results)
      ensures Valid()
      ensures kept == Recovered(results, expected, old(extractedPlnos))
      ensures extracted == old(extracted) + kept
      ensures extractedPlnos == old(extractedPlnos) + ColumnValues(kept, PlotNumberColumn)
      ensures processed == old(processed) + ColumnValues(kept, PlotcodeColumn)
      ensures missing == old(missing) - Reported(results)
      ensures |extracted| <= |old(extracted)| + |old(missing)|
      ensures expected == old(expected) && bases == old(bases) && knownSuffixes == old(knownSuffixes)
    {
      kept := RecoverLoop(results);
      RecoveredBound(results, expected, old(extractedPlnos));
      RecoveredMissing(results, expected, old(extractedPlnos));
    }

    /** The loop of Recover on its own. */
    method RecoverLoop(results: seq<Option<Row>>) returns (ghost kept: seq<Row>)
      modifies this
      requires missing == expected - extractedPlnos
      requires RowsCarryCodes(results)
      ensures missing == expected - extractedPlnos
      ensures kept == Recovered(results, expected, old(extractedPlnos))
      ensures extracted == old(extracted) + kept
      ensures extractedPlnos == old(extractedPlnos) + ColumnValues(kept, PlotNumberColumn)
      ensures processed == old(processed) + ColumnValues(kept, PlotcodeColumn)
      ensures expected == old(expected) && bases == old(bases) && knownSuffixes == old(knownSuffixes)
    {
      ghost var e0, f0, x0, p0 := expected, extractedPlnos, extracted, processed;
      ghost var target := Recovered(results, e0, f0);
      ghost var added: seq<Row> := [];
      var i := 0;
      while i < |results|
        invariant 0 <= i <= |results|
        invariant expected == e0 && bases == old(bases) && knownSuffixes == old(knownSuffixes)
        invariant missing == e0 - extractedPlnos
        invariant extracted == x0 + added
        invariant added + Recovered(results[i..], e0, extractedPlnos) == target
        invariant extractedPlnos == f0 + ColumnValues(added, PlotNumberColumn)
        invariant processed == p0 + ColumnValues(added, PlotcodeColumn)
      {
        RecoveredProgress(results, i, e0, extractedPlnos, added, target);
        if results[i].Some? && PlotNumberColumn in results[i].value && results[i].value[PlotNumberColumn] in missing {
          var row := results[i].value;
          Keep(row, added, x0, f0, p0);
          added := added + [row];
          if missing == {} {
            assert added == target;
            break;
          }
        }
        i := i + 1;
      }
      assert added == target;
      kept := added;
    }
  }
}
