/** Small runs over a definition file with one line `code,name`. */
module Scenarios {
  import opened Text
  import opened Results
  import opened Branches
  import opened SalesFiles
  import opened Records
  import opened Summary
  import opened CalculateSales

  /** The registry of a definition file with the single line `code,name`. */
  function SingleBranch(code: string, name: string): Registry
  {
    Registry(map[code := name], map[code := 0])
  }

  lemma SingleLineLoads(code: string, name: string)
    requires IsBranchCode(code) && name != [] && ',' !in name
    ensures Load(Some([code + "," + name])) == Ok(SingleBranch(code, name))
  {
    var line := code + "," + name;
    DefinitionLineOfPair(code, name);
    assert Define(EmptyRegistry, line) == SingleBranch(code, name);
    assert [line][1..] == [];
    assert LoadFrom(EmptyRegistry, [line]) == LoadFrom(SingleBranch(code, name), []);
  }

  /** A single definition line `code,name` (say `001,Tokyo`) and no sales files
      give the one summary line `code,name,0` (`001,Tokyo,0`). */
  lemma OneBranchWithoutSales(code: string, name: string, out: seq<string>)
    requires IsBranchCode(code) && name != [] && ',' !in name
    ensures Aggregate(Some([code + "," + name]), []) == Ok(SingleBranch(code, name))
    ensures IsSummaryOf(out, SingleBranch(code, name)) <==> out == [code + "," + name + ",0"]
  {
    SingleLineLoads(code, name);
    assert Selected([]) == [];
    assert SalesFileOrder([]) == [];
    assert DecimalString(0) == "0";
    var reg := SingleBranch(code, name);
    assert LineFor(reg, code) == code + "," + name + ",0";
    if IsSummaryOf(out, reg) {
      assert |out| == 1;
      assert out[0] in out;
    }
  }

  /** A string of zeros stands for 0. */
  lemma {:induction false} DecimalValueOfZeros(s: string)
    requires forall i :: 0 <= i < |s| ==> s[i] == '0'
    ensures AllDigits(s) && DecimalValue(s) == 0
  {
    if s != [] {
      DecimalValueOfZeros(s[..|s| - 1]);
    }
  }

  /** The names `0000000d.rcd` are sales file names with serial number d. */
  lemma SmallSerial(name: string, d: char)
    requires IsDigit(d) && name == "0000000" + [d] + ".rcd"
    ensures IsSalesFileName(name) && SerialNumber(name) == DigitValue(d)
  {
    var digits := name[..8];
    assert digits == "0000000" + [d];
    assert digits[..7] == "0000000";
    DecimalValueOfZeros("0000000");
    assert name[8] == '.';
    assert name[9..] == "rcd";
  }

  function Sale(name: string, code: string, amount: string): Entry
  {
    Entry(name, true, [code, amount])
  }

  /** With a single sales file, that file is what the run reads. */
  lemma OneFileOrder(e: Entry)
    requires IsSalesFile(e)
    ensures SalesFileOrder([e]) == [e]
  {
    assert [e][..0] == [];
    assert Selected([e]) == [e];
    assert SortByName([e]) == InsertByName(e, []);
  }

  /** A record whose amount line is `abc` stops the run with the unknown error. */
  lemma AmountNotNumeric(code: string, name: string)
    requires IsBranchCode(code) && name != [] && ',' !in name
    ensures Aggregate(Some([code + "," + name]), [Sale("00000001.rcd", code, "abc")]) == Err(UnknownError)
  {
    var e := Sale("00000001.rcd", code, "abc");
    SingleLineLoads(code, name);
    SmallSerial(e.name, '1');
    OneFileOrder(e);
    assert !IsAmount("abc") by { assert !IsDigit("abc"[0]); }
    assert AddSale(SingleBranch(code, name), e) == Err(UnknownError);
  }

  /** A record for a code the definitions do not declare (such as `999`) stops
      the run with the file's name. */
  lemma UndeclaredBranch(code: string, name: string, other: string, amount: string)
    requires IsBranchCode(code) && name != [] && ',' !in name && other != code
    ensures Aggregate(Some([code + "," + name]), [Sale("00000001.rcd", other, amount)]) == Err(SalesFileInvalidCode("00000001.rcd"))
  {
    var e := Sale("00000001.rcd", other, amount);
    SingleLineLoads(code, name);
    SmallSerial(e.name, '1');
    OneFileOrder(e);
    assert AddSale(SingleBranch(code, name), e) == Err(SalesFileInvalidCode(e.name));
  }

  /** A rearrangement of two entries is one of their two orders. */
  lemma PairPermutation(s: seq<Entry>, a: Entry, b: Entry)
    requires multiset(s) == multiset([a, b])
    ensures s == [a, b] || s == [b, a]
  {
    assert |s| == |multiset(s)| == 2;
    assert s == [s[0], s[1]];
    assert multiset(s) == multiset{s[0]} + multiset{s[1]};
    assert multiset([a, b]) == multiset{a} + multiset{b};
    assert s[0] in multiset(s);
    if s[0] == a {
      assert multiset{s[1]} == multiset{b};
      assert s[1] in multiset{b};
    } else {
      assert s[0] == b;
      assert multiset{s[1]} == multiset{a};
      assert s[1] in multiset{a};
    }
  }

  /** Two sales files are read in one order or the other. */
  lemma TwoFiles(a: Entry, b: Entry)
    requires IsSalesFile(a) && IsSalesFile(b)
    ensures SalesFileOrder([a, b]) == [a, b] || SalesFileOrder([a, b]) == [b, a]
  {
    var entries := [a, b];
    assert entries[..1] == [a] && entries[1] == b && [a][..0] == [];
    assert Selected([a]) == [a];
    assert Selected(entries) == [a, b];
    PairPermutation(SalesFileOrder(entries), a, b);
  }

  /** Two sales files whose serial numbers are two apart (such as
      00000001.rcd and 00000003.rcd) leave a gap, whatever they hold. */
  lemma SerialGap(code: string, name: string, a: Entry, b: Entry)
    requires IsBranchCode(code) && name != [] && ',' !in name
    requires IsSalesFile(a) && IsSalesFile(b)
    requires SerialNumber(b.name) == SerialNumber(a.name) + 2
    ensures Aggregate(Some([code + "," + name]), [a, b]) == Err(SalesFilesNotSequential)
  {
    var entries := [a, b];
    SingleLineLoads(code, name);
    TwoFiles(a, b);
    var files := SalesFileOrder(entries);
    assert SerialNumber(files[1].name) - SerialNumber(files[0].name) != 1;
    GapStopsBeforeRecords(Some([code + "," + name]), entries);
  }

  lemma SerialGapExample(code: string, name: string, first: seq<string>, second: seq<string>)
    requires IsBranchCode(code) && name != [] && ',' !in name
    ensures Aggregate(Some([code + "," + name]), [Entry("00000001.rcd", true, first), Entry("00000003.rcd", true, second)])
      == Err(SalesFilesNotSequential)
  {
    SmallSerial("00000001.rcd", '1');
    SmallSerial("00000003.rcd", '3');
    SerialGap(code, name, Entry("00000001.rcd", true, first), Entry("00000003.rcd", true, second));
  }

  /** A single record for the one branch, of the given amount, on a fresh total:
      the run ends as that one record step does. */
  lemma OneRecord(code: string, name: string, amount: string)
    requires IsBranchCode(code) && name != [] && ',' !in name
    ensures Aggregate(Some([code + "," + name]), [Sale("00000001.rcd", code, amount)])
      == AccumulateFrom(SingleBranch(code, name), [Sale("00000001.rcd", code, amount)])
  {
    SingleLineLoads(code, name);
    SmallSerial("00000001.rcd", '1');
    OneFileOrder(Sale("00000001.rcd", code, amount));
  }

  /** The record loop over one file is that file's record step. */
  lemma SingleRecord(reg: Registry, e: Entry)
    requires reg.WellFormed()
    ensures AccumulateFrom(reg, [e]) == AddSale(reg, e)
  {
    assert [e][1..] == [];
  }

  /** A first amount of 10000000000 or more is refused, so 10000000000 itself is. */
  lemma LimitRefused(code: string, name: string, amount: nat)
    requires IsBranchCode(code) && name != [] && ',' !in name
    requires amount >= TotalLimit
    ensures Aggregate(Some([code + "," + name]), [Sale("00000001.rcd", code, DecimalString(amount))]) == Err(TotalTooLarge)
  {
    var over := Sale("00000001.rcd", code, DecimalString(amount));
    OneRecord(code, name, over.lines[1]);
    DecimalRoundTrip(amount);
    assert AddSale(SingleBranch(code, name), over) == Err(TotalTooLarge);
  }

  /** A first amount below 10000000000, up to 9999999999, becomes the branch's total. */
  lemma LimitAccepted(code: string, name: string, amount: nat)
    requires IsBranchCode(code) && name != [] && ',' !in name
    requires amount < TotalLimit
    ensures Aggregate(Some([code + "," + name]), [Sale("00000001.rcd", code, DecimalString(amount))])
      == Ok(Registry(map[code := name], map[code := amount]))
  {
    var under := Sale("00000001.rcd", code, DecimalString(amount));
    OneRecord(code, name, under.lines[1]);
    SingleRecord(SingleBranch(code, name), under);
    FirstAmount(code, name, amount);
  }

  /** The record step for a first amount below the limit. */
  lemma FirstAmount(code: string, name: string, amount: nat)
    requires IsBranchCode(code) && name != [] && ',' !in name
    requires amount < TotalLimit
    ensures AddSale(SingleBranch(code, name), Sale("00000001.rcd", code, DecimalString(amount)))
      == Ok(Registry(map[code := name], map[code := amount]))
  {
    DecimalRoundTrip(amount);
    assert SingleBranch(code, name).sales[code := 0 + amount] == map[code := amount];
  }
}
