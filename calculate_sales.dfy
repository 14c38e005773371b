/** The whole run of `CalculateSales.main`: load the branch definitions, find
    and order the sales files, check their serial numbers, add up the records
    and write the summary. In this model every check that fails ends the run
    with its error and no summary; the source goes on past the record checks. */
module CalculateSales {
  import opened Results
  import opened Branches
  import opened SalesFiles
  import opened Records
  import opened Summary

  /** The sales files of a listing in the order the run reads them. */
  function SalesFileOrder(entries: seq<Entry>): (files: seq<Entry>)
    ensures forall i :: 0 <= i < |files| ==> IsSalesFile(files[i])
    ensures AllSalesFileNames(files) && SortedByName(files)
    ensures multiset(files) == multiset(Selected(entries))
  {
    var files := SortByName(Selected(entries));
    assert forall i :: 0 <= i < |files| ==> IsSalesFile(files[i]) by {
      forall i | 0 <= i < |files| ensures IsSalesFile(files[i]) {
        assert files[i] in multiset(Selected(entries));
        SelectedMembers(entries, files[i]);
      }
    }
    files
  }

  /** The registry the run ends with, or the error that stops it. */
  function Aggregate(definitions: Option<seq<string>>, entries: seq<Entry>): (r: Result<Registry>)
    ensures r.Ok? ==> r.value.WellFormed()
  {
    match Load(definitions)
    case Err(e) => Err(e)
    case Ok(reg) =>
      LoadedRegistry(definitions.value);
      var files := SalesFileOrder(entries);
      if !Consecutive(files) then Err(SalesFilesNotSequential)
      else
        AccumulateOutcome(reg, files);
        AccumulateFrom(reg, files)
  }

  /** `main` after the argument check, with the directory given as the optional
      lines of `branch.lst` and the listing of the other entries. On success the
      result is the lines of `branch.out`. */
  method Run(definitions: Option<seq<string>>, entries: seq<Entry>) returns (r: Result<seq<string>>)
    ensures r.Ok? <==> Aggregate(definitions, entries).Ok?
    ensures r.Err? ==> r.error == Aggregate(definitions, entries).error
    ensures r.Ok? ==> IsSummaryOf(r.value, Aggregate(definitions, entries).value)
  {
    var loaded := ReadFile(definitions);
    if loaded.Err? {
      return Err(loaded.error);
    }
    var reg := loaded.value;
    LoadedRegistry(definitions.value);
    var rcdFiles := ListSalesFiles(entries);
    rcdFiles := SortByName(rcdFiles);
    assert rcdFiles == SalesFileOrder(entries);
    var sequential := CheckSequential(rcdFiles);
    if !sequential {
      return Err(SalesFilesNotSequential);
    }
    var totals := AggregateSales(reg, rcdFiles);
    if totals.Err? {
      return Err(totals.error);
    }
    AccumulateOutcome(reg, rcdFiles);
    var out := WriteFile(totals.value);
    return Ok(out);
  }

  /** The run succeeds exactly when the definitions load, the sales files are
      consecutive, every sales file is a valid record, and no branch's recorded
      amounts add up to the limit. */
  lemma AggregateSucceedsIff(definitions: Option<seq<string>>, entries: seq<Entry>)
    ensures Aggregate(definitions, entries).Ok? <==>
      && Load(definitions).Ok?
      && Consecutive(SalesFileOrder(entries))
      && (forall e :: e in Selected(entries) ==> IsValidRecord(Load(definitions).value.names, e))
      && (forall k :: k in Load(definitions).value.names ==> SalesOf(k, Selected(entries)) < TotalLimit)
  {
    if Load(definitions).Ok? {
      var reg := Load(definitions).value;
      LoadedRegistry(definitions.value);
      var files := SalesFileOrder(entries);
      AccumulateOutcome(reg, files);
      forall k ensures SalesOf(k, files) == SalesOf(k, Selected(entries)) {
        SalesOfPermutation(k, files, Selected(entries));
      }
      assert (forall i :: 0 <= i < |files| ==> IsValidRecord(reg.names, files[i])) <==>
             (forall e :: e in Selected(entries) ==> IsValidRecord(reg.names, e)) by {
        forall e | e in Selected(entries) ensures e in files {
          assert e in multiset(files);
        }
        forall i | 0 <= i < |files| ensures files[i] in Selected(entries) {
          assert files[i] in multiset(Selected(entries));
        }
      }
    }
  }

  /** After a successful run each branch declared in the definitions has as its
      total the sum of the amounts of the sales files, in any order, that
      record a sale for it. */
  lemma AggregateTotals(definitions: Option<seq<string>>, entries: seq<Entry>)
    requires Aggregate(definitions, entries).Ok?
    ensures Load(definitions).Ok?
    ensures var reg := Aggregate(definitions, entries).value;
      && reg.names == Load(definitions).value.names
      && reg.sales.Keys == reg.names.Keys
      && (forall k :: k in reg.sales ==> reg.sales[k] == SalesOf(k, Selected(entries)))
  {
    var reg0 := Load(definitions).value;
    LoadedRegistry(definitions.value);
    var files := SalesFileOrder(entries);
    AccumulateOutcome(reg0, files);
    forall k ensures SalesOf(k, files) == SalesOf(k, Selected(entries)) {
      SalesOfPermutation(k, files, Selected(entries));
    }
  }

  /** A gap in the serial numbers ends the run before any record is looked at:
      the outcome is the same whatever the files contain. */
  lemma GapStopsBeforeRecords(definitions: Option<seq<string>>, entries: seq<Entry>)
    requires Load(definitions).Ok?
    requires var files := SalesFileOrder(entries);
      exists j :: (0 <= j < |files| - 1 && SerialNumber(files[j + 1].name) - SerialNumber(files[j].name) != 1)
    ensures Aggregate(definitions, entries) == Err(SalesFilesNotSequential)
  {
  }

  /** A declared branch that no sales file names shows the zero it was seeded
      with: its summary line is `code,name,0`. */
  lemma UnsoldBranchShowsZero(definitions: Option<seq<string>>, entries: seq<Entry>, k: string)
    requires Aggregate(definitions, entries).Ok?
    requires k in Aggregate(definitions, entries).value.names
    requires forall e :: e in Selected(entries) ==> |e.lines| != 2 || e.lines[0] != k
    ensures Aggregate(definitions, entries).value.sales[k] == 0
    ensures LineFor(Aggregate(definitions, entries).value, k) == k + "," + Aggregate(definitions, entries).value.names[k] + ",0"
  {
    AggregateTotals(definitions, entries);
    var selected := Selected(entries);
    assert forall i :: 0 <= i < |selected| ==> selected[i] in selected;
    SalesOfUnnamed(k, selected);
  }
}
