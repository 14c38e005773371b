/** Writing the summary (`writeFile`): one line `code,name,total` for every
    branch of the registry. */
module Summary {
  import opened Text
  import opened Branches

  /** `key + "," + branchNames.get(key) + "," + branchSales.get(key)`. */
  function SummaryLine(code: string, name: string, total: nat): string
  {
    code + "," + name + "," + DecimalString(total)
  }

  /** The line the summary holds for branch k. */
  function LineFor(reg: Registry, k: string): string
    requires reg.names.Keys == reg.sales.Keys && k in reg.names
  {
    SummaryLine(k, reg.names[k], reg.sales[k])
  }

  /** A summary line splits back into the code, the name and the digits of the
      total, and the digits read back as the total. */
  lemma SummaryLineFields(code: string, name: string, total: nat)
    requires ',' !in code && ',' !in name
    ensures JavaSplit(SummaryLine(code, name, total), ',') == [code, name, DecimalString(total)]
    ensures DecimalValue(DecimalString(total)) == total
  {
    var digits := DecimalString(total);
    assert ',' !in digits by {
      assert forall i :: 0 <= i < |digits| ==> digits[i] != ',';
    }
    var line := SummaryLine(code, name, total);
    assert line == code + [','] + (name + [','] + digits);
    SplitOnLeadingField(code, ',', name + [','] + digits);
    SplitOnLeadingField(name, ',', digits);
    SplitOnWithoutSeparator(digits, ',');
    assert line[|code|] == ',';
    DecimalRoundTrip(total);
  }

  /** Lines of distinct branch codes differ: the code is the first three characters. */
  lemma SummaryLineInjective(c1: string, n1: string, t1: nat, c2: string, n2: string, t2: nat)
    requires IsBranchCode(c1) && IsBranchCode(c2)
    requires SummaryLine(c1, n1, t1) == SummaryLine(c2, n2, t2)
    ensures c1 == c2
  {
    assert SummaryLine(c1, n1, t1)[..3] == c1;
    assert SummaryLine(c2, n2, t2)[..3] == c2;
  }

  /** `out` holds exactly one line per branch of `reg`, in some order. */
  ghost predicate IsSummaryOf(out: seq<string>, reg: Registry)
    requires reg.names.Keys == reg.sales.Keys
  {
    && |out| == |reg.names|
    && (forall k :: k in reg.names ==> LineFor(reg, k) in out)
    && (forall i :: 0 <= i < |out| ==> exists k :: k in reg.names && out[i] == LineFor(reg, k))
    && (forall i, j :: 0 <= i < j < |out| ==> out[i] != out[j])
  }

  /** `out` holds, each once, the lines of the keys in `done` and no others;
      `keys[i]` is the key line i was written for. */
  ghost predicate Written(out: seq<string>, reg: Registry, keys: seq<string>, done: set<string>)
    requires reg.names.Keys == reg.sales.Keys && done <= reg.names.Keys
  {
    && |keys| == |out|
    && (forall i :: 0 <= i < |out| ==> keys[i] in done && out[i] == LineFor(reg, keys[i]))
    && (forall k :: k in done ==> LineFor(reg, k) in out)
    && (forall i, j :: 0 <= i < j < |out| ==> out[i] != out[j])
  }

  /** Writing the line of a key not written yet keeps `Written`. */
  lemma WrittenStep(out: seq<string>, reg: Registry, keys: seq<string>, done: set<string>, key: string)
    requires reg.WellFormed() && done <= reg.names.Keys
    requires key in reg.names && key !in done
    requires Written(out, reg, keys, done)
    ensures Written(out + [LineFor(reg, key)], reg, keys + [key], done + {key})
  {
    var line := LineFor(reg, key);
    forall i | 0 <= i < |out|
      ensures out[i] != line
    {
      var k := keys[i];
      if out[i] == line {
        SummaryLineInjective(k, reg.names[k], reg.sales[k], key, reg.names[key], reg.sales[key]);
      }
    }
    forall k | k in done + {key} ensures LineFor(reg, k) in out + [line] {
      if k in done {
        assert LineFor(reg, k) in out;
      }
    }
  }

  /** Once every key is written, the lines are a summary. */
  lemma WrittenAll(out: seq<string>, reg: Registry, keys: seq<string>)
    requires reg.names.Keys == reg.sales.Keys
    requires Written(out, reg, keys, reg.names.Keys) && |out| == |reg.names|
    ensures IsSummaryOf(out, reg)
  {
    forall i | 0 <= i < |out| ensures exists k :: k in reg.names && out[i] == LineFor(reg, k) {
      assert keys[i] in reg.names && out[i] == LineFor(reg, keys[i]);
    }
  }

  /** `writeFile`: one line per key of `branchNames`. The order of a `HashMap`'s
      keys is unspecified, so the loop takes the keys in an arbitrary order. */
  method WriteFile(reg: Registry) returns (out: seq<string>)
    requires reg.WellFormed()
    ensures IsSummaryOf(out, reg)
  {
    out := [];
    var remaining := reg.names.Keys;
    ghost var done: set<string> := {};
    ghost var keys: seq<string> := [];
    while remaining != {}
      invariant remaining <= reg.names.Keys
      invariant done == reg.names.Keys - remaining
      invariant |out| + |remaining| == |reg.names|
      invariant Written(out, reg, keys, done)
      decreases |remaining|
    {
      var key :| key in remaining;
      var line := LineFor(reg, key);
      WrittenStep(out, reg, keys, done, key);
      out := out + [line];
      keys := keys + [key];
      remaining := remaining - {key};
      done := done + {key};
    }
    assert done == reg.names.Keys;
    WrittenAll(out, reg, keys);
  }

  /** Two summaries of one registry hold the same lines, each once: they can
      differ only in order. */
  lemma SummariesAgree(out1: seq<string>, out2: seq<string>, reg: Registry)
    requires reg.names.Keys == reg.sales.Keys
    requires IsSummaryOf(out1, reg) && IsSummaryOf(out2, reg)
    ensures |out1| == |out2|
    ensures forall line :: line in out1 <==> line in out2
  {
    forall line | line in out1 ensures line in out2 {
      var i :| 0 <= i < |out1| && out1[i] == line;
      var k :| k in reg.names && out1[i] == LineFor(reg, k);
    }
    forall line | line in out2 ensures line in out1 {
      var i :| 0 <= i < |out2| && out2[i] == line;
      var k :| k in reg.names && out2[i] == LineFor(reg, k);
    }
  }
}
