/** Reading the sales files one by one and adding each amount to its branch's
    total (the record loop of `main`). */
module Records {
  import opened Text
  import opened Results
  import opened Branches
  import opened SalesFiles

  /** A total of eleven digits or more is refused: 10^10. */
  const TotalLimit: nat := 10_000_000_000

  /** The form an amount line must have: decimal digits only, and at least one
      of them (`Long.parseLong` refuses the empty string that `^[0-9]*$` admits). */
  predicate IsAmount(s: string)
  {
    s != [] && AllDigits(s)
  }

  /** A sales file that passes every check but the limit on the new total. */
  predicate IsValidRecord(names: map<string, string>, e: Entry)
  {
    |e.lines| == 2 && e.lines[0] in names && IsAmount(e.lines[1])
  }

  /** One pass of the record loop: the three checks of the file, then the new
      total of its branch and the limit check on it. The source prints the
      first three messages and goes on; each is an error that ends the run here. */
  function AddSale(reg: Registry, e: Entry): (r: Result<Registry>)
    requires reg.WellFormed()
    ensures r.Ok? <==>
      IsValidRecord(reg.names, e) && reg.sales[e.lines[0]] + DecimalValue(e.lines[1]) < TotalLimit
    ensures |e.lines| != 2 ==> r == Err(SalesFileInvalidFormat(e.name))
    ensures |e.lines| == 2 && e.lines[0] !in reg.names ==> r == Err(SalesFileInvalidCode(e.name))
    ensures |e.lines| == 2 && e.lines[0] in reg.names && !IsAmount(e.lines[1]) ==> r == Err(UnknownError)
    ensures IsValidRecord(reg.names, e) && r.Err? ==> r.error == TotalTooLarge
    ensures r.Ok? ==>
      && r.value.WellFormed()
      && r.value.names == reg.names
      && r.value.sales.Keys == reg.sales.Keys
      && r.value.sales[e.lines[0]] == reg.sales[e.lines[0]] + DecimalValue(e.lines[1])
      && (forall k :: k in reg.sales && k != e.lines[0] ==> r.value.sales[k] == reg.sales[k])
  {
    if |e.lines| != 2 then Err(SalesFileInvalidFormat(e.name))
    else if e.lines[0] !in reg.names then Err(SalesFileInvalidCode(e.name))
    else if !IsAmount(e.lines[1]) then Err(UnknownError)
    else
      var code := e.lines[0];
      var saleAmount := reg.sales[code] + DecimalValue(e.lines[1]);
      if saleAmount >= TotalLimit then Err(TotalTooLarge)
      else Ok(Registry(reg.names, reg.sales[code := saleAmount]))
  }

  /** The record loop over the remaining files, stopping at the first error. */
  function AccumulateFrom(reg: Registry, files: seq<Entry>): Result<Registry>
    requires reg.WellFormed()
    decreases |files|
  {
    if files == [] then Ok(reg)
    else
      match AddSale(reg, files[0])
      case Err(e) => Err(e)
      case Ok(next) => AccumulateFrom(next, files[1..])
  }

  /** The record loop of `main`: for each sales file, its lines, the checks,
      and the update of `branchSales` in place. */
  method AggregateSales(reg: Registry, rcdFiles: seq<Entry>) returns (r: Result<Registry>)
    requires reg.WellFormed()
    ensures r == AccumulateFrom(reg, rcdFiles)
  {
    var branchNames := reg.names;
    var branchSales: map<string, nat> := reg.sales;
    var i := 0;
    while i < |rcdFiles|
      invariant 0 <= i <= |rcdFiles|
      invariant branchNames == reg.names
      invariant Registry(branchNames, branchSales).WellFormed()
      invariant AccumulateFrom(Registry(branchNames, branchSales), rcdFiles[i..]) == AccumulateFrom(reg, rcdFiles)
    {
      var rcdInfoFiles := rcdFiles[i].lines;
      if |rcdInfoFiles| != 2 {
        return Err(SalesFileInvalidFormat(rcdFiles[i].name));
      }
      if rcdInfoFiles[0] !in branchNames {
        return Err(SalesFileInvalidCode(rcdFiles[i].name));
      }
      if !IsAmount(rcdInfoFiles[1]) {
        return Err(UnknownError);
      }
      var fileSale := DecimalValue(rcdInfoFiles[1]);
      var saleAmount := branchSales[rcdInfoFiles[0]] + fileSale;
      if saleAmount >= TotalLimit {
        return Err(TotalTooLarge);
      }
      branchSales := branchSales[rcdInfoFiles[0] := saleAmount];
      assert rcdFiles[i..][1..] == rcdFiles[i + 1..];
      i := i + 1;
    }
    return Ok(Registry(branchNames, branchSales));
  }

  /** The amount a file adds to `code`: its second line when it is a two-line
      record for that code with a well-formed amount, otherwise nothing. */
  function RecordAmount(code: string, e: Entry): nat
  {
    if |e.lines| == 2 && e.lines[0] == code && IsAmount(e.lines[1]) then DecimalValue(e.lines[1]) else 0
  }

  /** The sum of the amounts the files record for `code`. */
  function SalesOf(code: string, files: seq<Entry>): nat
    decreases |files|
  {
    if files == [] then 0 else RecordAmount(code, files[0]) + SalesOf(code, files[1..])
  }

  /** Every total is below the limit. */
  predicate WithinLimit(reg: Registry)
  {
    forall k :: k in reg.sales ==> reg.sales[k] < TotalLimit
  }

  /** Started from totals below the limit, the record loop succeeds exactly
      when every file is a valid record and no branch's starting total plus its
      recorded amounts reaches the limit; then every branch's total is its
      starting total plus the sum of its amounts, and the names are untouched. */
  lemma {:induction false} AccumulateOutcome(reg: Registry, files: seq<Entry>)
    requires reg.WellFormed() && WithinLimit(reg)
    ensures AccumulateFrom(reg, files).Ok? <==>
      && (forall i :: 0 <= i < |files| ==> IsValidRecord(reg.names, files[i]))
      && (forall k :: k in reg.sales ==> reg.sales[k] + SalesOf(k, files) < TotalLimit)
    ensures AccumulateFrom(reg, files).Ok? ==>
      var final := AccumulateFrom(reg, files).value;
      && final.WellFormed()
      && final.names == reg.names
      && final.sales.Keys == reg.sales.Keys
      && (forall k :: k in final.sales ==> final.sales[k] == reg.sales[k] + SalesOf(k, files))
    decreases |files|
  {
    if files != [] {
      var e, rest := files[0], files[1..];
      SplitFirstFile(files);
      match AddSale(reg, e)
      case Err(_) =>
        if IsValidRecord(reg.names, e) {
          var code := e.lines[0];
          assert reg.sales[code] + SalesOf(code, files) >= TotalLimit;
        }
      case Ok(next) =>
        AccumulateOutcome(next, rest);
        assert forall k :: k in reg.sales ==> reg.sales[k] + SalesOf(k, files) == next.sales[k] + SalesOf(k, rest);
    }
  }

  /** The first file and the others, as the fold takes them apart. */
  lemma SplitFirstFile(files: seq<Entry>)
    requires files != []
    ensures forall k :: SalesOf(k, files) == RecordAmount(k, files[0]) + SalesOf(k, files[1..])
    ensures forall names :: (forall i :: 0 <= i < |files| ==> IsValidRecord(names, files[i])) <==>
      IsValidRecord(names, files[0]) && (forall i :: 0 <= i < |files[1..]| ==> IsValidRecord(names, files[1..][i]))
  {
    forall names ensures (forall i :: 0 <= i < |files| ==> IsValidRecord(names, files[i])) <==>
      IsValidRecord(names, files[0]) && (forall i :: 0 <= i < |files[1..]| ==> IsValidRecord(names, files[1..][i]))
    {
      assert forall i :: 1 <= i < |files| ==> files[1..][i - 1] == files[i];
    }
  }


  lemma {:induction false} SalesOfConcat(code: string, a: seq<Entry>, b: seq<Entry>)
    ensures SalesOf(code, a + b) == SalesOf(code, a) + SalesOf(code, b)
    decreases |a|
  {
    if a != [] {
      assert (a + b)[0] == a[0];
      assert (a + b)[1..] == a[1..] + b;
      SalesOfConcat(code, a[1..], b);
    } else {
      assert a + b == b;
    }
  }

  /** Taking one file out of the middle takes its amount out of the sum. */
  lemma SalesOfRemove(code: string, b: seq<Entry>, p: nat)
    requires p < |b|
    ensures SalesOf(code, b) == RecordAmount(code, b[p]) + SalesOf(code, b[..p] + b[p + 1..])
  {
    assert b == (b[..p] + [b[p]]) + b[p + 1..];
    SalesOfConcat(code, b[..p] + [b[p]], b[p + 1..]);
    SalesOfConcat(code, b[..p], [b[p]]);
    SalesOfConcat(code, b[..p], b[p + 1..]);
  }

  /** Removing an element at one position removes one copy from the multiset. */
  lemma MultisetRemove(b: seq<Entry>, p: nat)
    requires p < |b|
    ensures multiset(b[..p] + b[p + 1..]) == multiset(b) - multiset{b[p]}
  {
    assert b == b[..p] + [b[p]] + b[p + 1..];
  }

  /** A position at which an element of the multiset occurs. */
  lemma PositionOf(b: seq<Entry>, x: Entry) returns (p: nat)
    requires x in multiset(b)
    ensures p < |b| && b[p] == x
  {
    assert x in b;
    p :| 0 <= p < |b| && b[p] == x;
  }

  /** The sum does not depend on the order of the files. */
  lemma {:induction false} SalesOfPermutation(code: string, a: seq<Entry>, b: seq<Entry>)
    requires multiset(a) == multiset(b)
    ensures SalesOf(code, a) == SalesOf(code, b)
    decreases |a|
  {
    if a == [] {
      assert |b| == |multiset(b)| == 0;
    } else {
      var x := a[0];
      var p := PositionOf(b, x);
      var rest := b[..p] + b[p + 1..];
      MultisetRemove(b, p);
      assert a == [x] + a[1..];
      assert multiset(a[1..]) == multiset(rest);
      SalesOfPermutation(code, a[1..], rest);
      SalesOfRemove(code, b, p);
    }
  }

  /** A branch no file records a sale for keeps its starting total. */
  lemma {:induction false} SalesOfUnnamed(code: string, files: seq<Entry>)
    requires forall i :: 0 <= i < |files| ==> |files[i].lines| != 2 || files[i].lines[0] != code
    ensures SalesOf(code, files) == 0
    decreases |files|
  {
    if files != [] {
      assert forall i :: 1 <= i < |files| ==> files[1..][i - 1] == files[i];
      SalesOfUnnamed(code, files[1..]);
    }
  }

  // The source's arithmetic as written: `saleAmount` is a Java `long`.

  const LongMin: int := -0x8000_0000_0000_0000
  const LongMax: int := 0x7FFF_FFFF_FFFF_FFFF

  predicate IsLong(x: int)
  {
    LongMin <= x <= LongMax
  }

  /** Addition of two Java `long` values: two's-complement wrap-around. */
  function LongAdd(a: int, b: int): (s: int)
    requires IsLong(a) && IsLong(b)
    ensures IsLong(s)
    ensures (s - (a + b)) % 0x1_0000_0000_0000_0000 == 0
  {
    var t := a + b;
    if t > LongMax then t - 0x1_0000_0000_0000_0000
    else if t < LongMin then t + 0x1_0000_0000_0000_0000
    else t
  }

  /** Lines 116-126 as written, for a record that passed the other checks: the
      parsed amount is added to the branch's `long` total and the limit test
      sees the wrapped sum. Gives the stored total and whether it was flagged. */
  function AddAmountAsWritten(total: int, fileSale: int): (r: (int, bool))
    requires IsLong(total) && IsLong(fileSale)
    ensures IsLong(r.0)
    ensures (r.0 - (total + fileSale)) % 0x1_0000_0000_0000_0000 == 0
    ensures r.1 <==> r.0 >= TotalLimit
  {
    var saleAmount := LongAdd(total, fileSale);
    (saleAmount, saleAmount >= TotalLimit)
  }

  /** A branch total of 1 and an amount line of `9223372036854775807` (which
      `Long.parseLong` accepts): the sum wraps to a negative total that the
      limit test lets through. */
  lemma AddAmountAsWrittenWraps()
    ensures IsLong(LongMax)
    ensures AddAmountAsWritten(1, LongMax) == (LongMin, false)
    ensures 1 + LongMax >= TotalLimit
  {
  }

  /** Every total the record loop reports is below the limit, so it fits a
      Java `long` and no addition on the way can have wrapped. */
  lemma TotalsBelowLimit(reg: Registry, files: seq<Entry>)
    requires reg.WellFormed() && WithinLimit(reg)
    requires AccumulateFrom(reg, files).Ok?
    ensures var final := AccumulateFrom(reg, files).value;
      forall k :: k in final.sales ==> final.sales[k] < TotalLimit && IsLong(final.sales[k])
  {
    AccumulateOutcome(reg, files);
  }

  /** Below the range of `long` the arithmetic as written agrees with the
      model's: it flags exactly the totals at or above the limit. */
  lemma AddAmountAsWrittenAgreesInRange(total: nat, fileSale: nat)
    requires total + fileSale <= LongMax
    ensures AddAmountAsWritten(total, fileSale) == (total + fileSale, total + fileSale >= TotalLimit)
  {
  }
}
