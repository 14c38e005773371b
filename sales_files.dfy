/** Finding the sales files in the directory listing, putting them in name
    order and checking that their serial numbers have no gap (the first part
    of `main` after the definitions are loaded). */
module SalesFiles {
  import opened Text

  /** One entry of the directory listing: its name, whether `File.isFile()`
      holds of it, and the lines `readLine` would return from it. */
  datatype Entry = Entry(name: string, isFile: bool, lines: seq<string>)

  /** `name.matches("^[0-9]{8}.rcd$")`: a full match of eight ASCII digits,
      then any one character but a line terminator (the dot is not escaped),
      then `rcd`. */
  predicate IsSalesFileName(name: string)
  {
    && |name| == 12
    && AllDigits(name[..8])
    && !IsLineTerminator(name[8])
    && name[9..] == "rcd"
  }

  /** The entries the loop at the head of `main` keeps. */
  predicate IsSalesFile(e: Entry)
  {
    e.isFile && IsSalesFileName(e.name)
  }

  /** The sales files of a listing, in listing order. */
  function Selected(entries: seq<Entry>): seq<Entry>
  {
    if entries == [] then []
    else
      var last := entries[|entries| - 1];
      Selected(entries[..|entries| - 1]) + (if IsSalesFile(last) then [last] else [])
  }

  /** `rcdFiles` as the listing loop builds it: the sales files, in listing order. */
  method ListSalesFiles(files: seq<Entry>) returns (rcdFiles: seq<Entry>)
    ensures rcdFiles == Selected(files)
  {
    rcdFiles := [];
    for i := 0 to |files|
      invariant rcdFiles == Selected(files[..i])
    {
      assert files[..i + 1][..i] == files[..i];
      if files[i].isFile && IsSalesFileName(files[i].name) {
        rcdFiles := rcdFiles + [files[i]];
      }
    }
    assert files[..|files|] == files;
  }

  /** The selection keeps every sales file as often as the listing holds it
      and nothing else. */
  lemma {:induction false} SelectedCounts(entries: seq<Entry>)
    ensures forall e :: multiset(Selected(entries))[e] == if IsSalesFile(e) then multiset(entries)[e] else 0
  {
    if entries != [] {
      var init, last := entries[..|entries| - 1], entries[|entries| - 1];
      SelectedCounts(init);
      assert entries == init + [last];
    }
  }

  /** Hence an entry is selected exactly when it is listed and is a sales file. */
  lemma SelectedMembers(entries: seq<Entry>, e: Entry)
    ensures e in Selected(entries) <==> e in entries && IsSalesFile(e)
  {
    SelectedCounts(entries);
    assert e in Selected(entries) <==> multiset(Selected(entries))[e] > 0;
    assert e in entries <==> multiset(entries)[e] > 0;
  }

  /** `String.compareTo(a, b) <= 0`: character by character, a proper prefix first. */
  predicate NameLe(a: string, b: string)
    decreases |a|
  {
    if a == [] then true
    else if b == [] then false
    else if a[0] != b[0] then a[0] < b[0]
    else NameLe(a[1..], b[1..])
  }

  lemma {:induction false} NameLeTotal(a: string, b: string)
    ensures NameLe(a, b) || NameLe(b, a)
    decreases |a|
  {
    if a != [] && b != [] && a[0] == b[0] {
      NameLeTotal(a[1..], b[1..]);
    }
  }

  lemma {:induction false} NameLeTransitive(a: string, b: string, c: string)
    requires NameLe(a, b) && NameLe(b, c)
    ensures NameLe(a, c)
    decreases |a|
  {
    if a != [] && b != [] && c != [] && a[0] == b[0] == c[0] {
      NameLeTransitive(a[1..], b[1..], c[1..]);
    }
  }

  predicate SortedByName(s: seq<Entry>)
  {
    forall i, j :: 0 <= i < j < |s| ==> NameLe(s[i].name, s[j].name)
  }

  /** An entry no later than every entry of a sorted list can go in front of it. */
  lemma PrependSorted(e: Entry, s: seq<Entry>)
    requires SortedByName(s) && (s == [] || NameLe(e.name, s[0].name))
    ensures SortedByName([e] + s)
  {
    var r := [e] + s;
    forall i, j | 0 <= i < j < |r| ensures NameLe(r[i].name, r[j].name) {
      if i == 0 && j > 1 {
        NameLeTransitive(e.name, s[0].name, s[j - 1].name);
      }
    }
  }

  /** Putting one entry into its place in a sorted list. */
  function InsertByName(e: Entry, s: seq<Entry>): (r: seq<Entry>)
    requires SortedByName(s)
    ensures SortedByName(r)
    ensures multiset(r) == multiset(s) + multiset{e}
  {
    if s == [] then [e]
    else if NameLe(e.name, s[0].name) then
      PrependSorted(e, s);
      [e] + s
    else
      var tail := InsertByName(e, s[1..]);
      NameLeTotal(e.name, s[0].name);
      InsertedAfterHead(e, s, tail);
      [s[0]] + tail
  }

  /** The head of a sorted list, no later than `e`, stays in front of the
      rest with `e` inserted. */
  lemma InsertedAfterHead(e: Entry, s: seq<Entry>, tail: seq<Entry>)
    requires s != [] && SortedByName(s) && NameLe(s[0].name, e.name)
    requires SortedByName(tail) && multiset(tail) == multiset(s[1..]) + multiset{e}
    ensures SortedByName([s[0]] + tail)
    ensures multiset([s[0]] + tail) == multiset(s) + multiset{e}
  {
    assert s == [s[0]] + s[1..];
    forall j | 0 <= j < |tail| ensures NameLe(s[0].name, tail[j].name) {
      assert tail[j] in multiset(tail);
      if tail[j] != e {
        assert tail[j] in s[1..];
      }
    }
    if tail != [] {
      PrependSorted(s[0], tail);
    }
  }

  /** `Collections.sort(rcdFiles)`: the same files, in name order. */
  function SortByName(s: seq<Entry>): (r: seq<Entry>)
    ensures SortedByName(r)
    ensures multiset(r) == multiset(s)
  {
    if s == [] then []
    else
      assert s == [s[0]] + s[1..];
      InsertByName(s[0], SortByName(s[1..]))
  }

  /** The sort is stable like Java's: entries that all share one name keep
      their listing order. */
  lemma {:induction false} SortByNameKeepsEqualNames(s: seq<Entry>, n: string)
    requires forall i :: 0 <= i < |s| ==> s[i].name == n
    ensures SortByName(s) == s
  {
    if s != [] {
      SortByNameKeepsEqualNames(s[1..], n);
      assert s == [s[0]] + s[1..];
      if s[1..] != [] {
        assert s[1..][0] == s[1];
        assert NameLe(s[0].name, s[1].name) by { NameLeTotal(s[0].name, s[1].name); }
      }
    }
  }

  predicate AllSalesFileNames(files: seq<Entry>)
  {
    forall i :: 0 <= i < |files| ==> IsSalesFileName(files[i].name)
  }

  /** `Integer.parseInt(name.substring(0, 8))`; eight digits always fit an `int`. */
  function SerialNumber(name: string): (n: nat)
    requires IsSalesFileName(name)
    ensures n < 100_000_000
  {
    DecimalValueBound(name[..8]);
    assert Pow10(8) == 100_000_000;
    DecimalValue(name[..8])
  }

  /** Each file's serial number is one more than its predecessor's. */
  predicate Consecutive(files: seq<Entry>)
    requires AllSalesFileNames(files)
  {
    forall j :: 0 <= j < |files| - 1 ==> SerialNumber(files[j + 1].name) - SerialNumber(files[j].name) == 1
  }

  /** The loop that compares the serial numbers of neighbouring files. */
  method CheckSequential(rcdFiles: seq<Entry>) returns (ok: bool)
    requires AllSalesFileNames(rcdFiles)
    ensures ok <==> Consecutive(rcdFiles)
  {
    var j := 0;
    while j < |rcdFiles| - 1
      invariant 0 <= j <= if |rcdFiles| == 0 then 0 else |rcdFiles| - 1
      invariant forall k :: 0 <= k < j ==> SerialNumber(rcdFiles[k + 1].name) - SerialNumber(rcdFiles[k].name) == 1
    {
      var former: int := DecimalValue(rcdFiles[j].name[..8]);
      var latter: int := DecimalValue(rcdFiles[j + 1].name[..8]);
      if latter - former != 1 {
        return false;
      }
      j := j + 1;
    }
    return true;
  }

  /** Consecutive files carry the run of serial numbers that starts at the
      first one, and only such files are consecutive. */
  lemma {:induction false} ConsecutiveIffRun(files: seq<Entry>)
    requires AllSalesFileNames(files) && files != []
    ensures Consecutive(files) <==>
      forall k :: 0 <= k < |files| ==> SerialNumber(files[k].name) == SerialNumber(files[0].name) + k
  {
    if Consecutive(files) {
      var k := 0;
      while k < |files| - 1
        invariant 0 <= k <= |files| - 1
        invariant forall m :: 0 <= m <= k ==> SerialNumber(files[m].name) == SerialNumber(files[0].name) + m
      {
        assert SerialNumber(files[k + 1].name) - SerialNumber(files[k].name) == 1;
        k := k + 1;
      }
    }
  }
}
