/** Loading the branch definition file (`readFile`): each line `code,name`
    enters the branch-name map and seeds the branch's sales total with zero. */
module Branches {
  import opened Text
  import opened Results

  /** The two maps the program keeps, `branchNames` (code to name) and
      `branchSales` (code to running total), passed along as one value. */
  datatype Registry = Registry(names: map<string, string>, sales: map<string, nat>)
  {
    /** What loading guarantees and accumulation keeps: the two maps have the
        same keys, every key is a branch code, and no name holds a comma. */
    predicate WellFormed()
    {
      && names.Keys == sales.Keys
      && (forall k :: k in names ==> IsBranchCode(k) && ',' !in names[k])
    }
  }

  /** The registry before the definition file is read. */
  const EmptyRegistry := Registry(map[], map[])

  /** `line.split(",")`. */
  function Fields(line: string): seq<string>
  {
    JavaSplit(line, ',')
  }

  /** A definition line the loader accepts: exactly two fields, the first a
      three-digit branch code. */
  predicate IsDefinitionLine(line: string)
  {
    var items := Fields(line);
    |items| == 2 && IsBranchCode(items[0])
  }

  /** The code a definition line declares (its first field). */
  function CodeOf(line: string): string
  {
    var items := Fields(line);
    if |items| >= 1 then items[0] else ""
  }

  /** The name a definition line declares (its second field). */
  function NameOf(line: string): string
  {
    var items := Fields(line);
    if |items| >= 2 then items[1] else ""
  }

  /** Entering one accepted line: its name under its code, its total reset to 0. */
  function Define(reg: Registry, line: string): Registry
  {
    Registry(reg.names[CodeOf(line) := NameOf(line)], reg.sales[CodeOf(line) := 0])
  }

  /** Reading the remaining lines into `reg`, stopping at the first line that is
      not a definition line. */
  function LoadFrom(reg: Registry, lines: seq<string>): Result<Registry>
    decreases |lines|
  {
    if lines == [] then Ok(reg)
    else if !IsDefinitionLine(lines[0]) then Err(BranchFileInvalidFormat)
    else LoadFrom(Define(reg, lines[0]), lines[1..])
  }

  /** The whole loader: no file at all is an error of its own. */
  function Load(file: Option<seq<string>>): Result<Registry>
  {
    match file
    case None => Err(BranchFileNotFound)
    case Some(lines) => LoadFrom(EmptyRegistry, lines)
  }

  /** `readFile`: the existence check, then one pass over the lines that puts
      each accepted line into both maps.
      The source puts `items[0]` and `items[1]` into the maps before it checks the
      line's shape, so a line with fewer than two fields raises an index exception
      instead of the format message; here the check comes first and every
      malformed line ends loading with the format error. */
  method ReadFile(file: Option<seq<string>>) returns (r: Result<Registry>)
    ensures r == Load(file)
  {
    if file.None? {
      return Err(BranchFileNotFound);
    }
    var lines := file.value;
    var branchNames: map<string, string> := map[];
    var branchSales: map<string, nat> := map[];
    var i := 0;
    while i < |lines|
      invariant 0 <= i <= |lines|
      invariant LoadFrom(Registry(branchNames, branchSales), lines[i..]) == Load(file)
    {
      var items := JavaSplit(lines[i], ',');
      if |items| != 2 || !IsBranchCode(items[0]) {
        return Err(BranchFileInvalidFormat);
      }
      branchNames := branchNames[items[0] := items[1]];
      branchSales := branchSales[items[0] := 0];
      assert lines[i..][1..] == lines[i + 1..];
      i := i + 1;
    }
    return Ok(Registry(branchNames, branchSales));
  }

  /** Some line declares code k. */
  ghost predicate Declares(lines: seq<string>, k: string)
  {
    exists i :: 0 <= i < |lines| && CodeOf(lines[i]) == k
  }

  /** No line after line i declares the code line i declares. */
  predicate IsLastDeclaration(lines: seq<string>, i: nat)
    requires i < |lines|
  {
    forall j :: i < j < |lines| ==> CodeOf(lines[j]) != CodeOf(lines[i])
  }

  /** Every total is still the zero it was seeded with. */
  predicate ZeroTotals(reg: Registry)
  {
    forall k :: k in reg.sales ==> reg.sales[k] == 0
  }

  /** Loading accepts the lines exactly when every one of them is a definition line. */
  lemma {:induction false} LoadFromSucceedsIff(reg: Registry, lines: seq<string>)
    ensures LoadFrom(reg, lines).Ok? <==> forall i :: 0 <= i < |lines| ==> IsDefinitionLine(lines[i])
    decreases |lines|
  {
    if lines != [] {
      LoadFromSucceedsIff(Define(reg, lines[0]), lines[1..]);
      assert forall i :: 1 <= i < |lines| ==> lines[1..][i - 1] == lines[i];
    }
  }

  /** The definition file loads exactly when every line has two fields and a
      three-digit code; a missing file never loads. */
  lemma LoadSucceedsIff(file: Option<seq<string>>)
    ensures Load(file).Ok? <==> file.Some? && forall i :: 0 <= i < |file.value| ==> IsDefinitionLine(file.value[i])
  {
    if file.Some? {
      LoadFromSucceedsIff(EmptyRegistry, file.value);
    }
  }

  /** Some line declares k iff the first line does or one of the others does. */
  lemma DeclaresCons(lines: seq<string>, k: string)
    requires lines != []
    ensures Declares(lines, k) <==> CodeOf(lines[0]) == k || Declares(lines[1..], k)
  {
    var rest := lines[1..];
    if Declares(rest, k) {
      var j :| 0 <= j < |rest| && CodeOf(rest[j]) == k;
      assert CodeOf(lines[j + 1]) == k;
    }
    if Declares(lines, k) && CodeOf(lines[0]) != k {
      var j :| 0 <= j < |lines| && CodeOf(lines[j]) == k;
      assert CodeOf(rest[j - 1]) == k;
    }
  }

  /** The last declaration of a code is either the first line, and then no
      later line declares that code, or the last declaration among the others. */
  lemma LastDeclarationCons(lines: seq<string>, i: nat)
    requires i < |lines| && IsLastDeclaration(lines, i)
    ensures i == 0 ==> !Declares(lines[1..], CodeOf(lines[0]))
    ensures i > 0 ==> IsLastDeclaration(lines[1..], i - 1)
  {
    var rest := lines[1..];
    if i == 0 {
      forall j | 0 <= j < |rest| ensures CodeOf(rest[j]) != CodeOf(lines[0]) {
        assert rest[j] == lines[j + 1];
      }
    }
    if i > 0 {
      forall j | i - 1 < j < |rest| ensures CodeOf(rest[j]) != CodeOf(rest[i - 1]) {
        assert rest[j] == lines[j + 1] && rest[i - 1] == lines[i];
      }
    }
  }

  /** What a successful load from `reg0` produces, stated per code. */
  lemma {:induction false} LoadFromContents(reg0: Registry, lines: seq<string>)
    requires reg0.WellFormed() && ZeroTotals(reg0)
    requires LoadFrom(reg0, lines).Ok?
    ensures var reg := LoadFrom(reg0, lines).value;
      && reg.WellFormed() && ZeroTotals(reg)
      && (forall k :: k in reg.names <==> k in reg0.names || Declares(lines, k))
      && (forall k :: k in reg0.names && !Declares(lines, k) ==> reg.names[k] == reg0.names[k])
      && (forall i :: 0 <= i < |lines| && IsLastDeclaration(lines, i) ==>
            reg.names[CodeOf(lines[i])] == NameOf(lines[i]))
    decreases |lines|
  {
    if lines != [] {
      var line, rest := lines[0], lines[1..];
      var reg1 := Define(reg0, line);
      var items := Fields(line);
      assert items[0] == CodeOf(line) && items[1] == NameOf(line);
      assert ',' !in items[1];
      assert reg1.WellFormed();
      LoadFromContents(reg1, rest);
      var reg := LoadFrom(reg0, lines).value;
      assert reg == LoadFrom(reg1, rest).value;
      forall k
        ensures Declares(lines, k) <==> k == CodeOf(line) || Declares(rest, k)
      {
        DeclaresCons(lines, k);
      }
      forall i | 0 <= i < |lines| && IsLastDeclaration(lines, i)
        ensures reg.names[CodeOf(lines[i])] == NameOf(lines[i])
      {
        LastDeclarationCons(lines, i);
      }
    }
  }

  /** A successful load gives one entry per declared code, in both maps, every
      total zero, and under each code the name of the last line declaring it. */
  lemma LoadedRegistry(lines: seq<string>)
    requires Load(Some(lines)).Ok?
    ensures var reg := Load(Some(lines)).value;
      && reg.WellFormed() && ZeroTotals(reg)
      && (forall k :: k in reg.names <==> Declares(lines, k))
      && (forall i :: 0 <= i < |lines| && IsLastDeclaration(lines, i) ==>
            reg.names[CodeOf(lines[i])] == NameOf(lines[i]))
  {
    LoadFromContents(EmptyRegistry, lines);
  }

  /** The spelling of a definition line the loader accepts: code, comma, name,
      where the code has three digits and the name is non-empty and has no comma. */
  lemma DefinitionLineOfPair(code: string, name: string)
    requires IsBranchCode(code) && name != [] && ',' !in name
    ensures IsDefinitionLine(code + "," + name)
    ensures CodeOf(code + "," + name) == code && NameOf(code + "," + name) == name
  {
    assert forall i :: 0 <= i < |code| ==> code[i] != ',';
    JavaSplitPair(code, ',', name);
  }
}
