/** The assembly file, line by line: saving the table, and booting a table from any lines. */
module AssemblyFile {
  import opened CText
  import opened Scanning
  import opened AssemblySpec
  import opened Assemblies

  function LowerAll(s: string): (r: string)
    ensures |r| == |s| && forall i :: 0 <= i < |s| ==> r[i] == Lower(s[i])
  {
    seq(|s|, i requires 0 <= i < |s| => Lower(s[i]))
  }

  predicate NotSpace(c: char) { !IsSpace(c) }

  /** half_chop: the first word in lower case, and what follows it. */
  function HalfChop(s: string): (string, string) {
    var t := SkipSpaces(s);
    var n := Span(t, NotSpace);
    (LowerAll(t[..n]), SkipSpaces(t[n..]))
  }

  // ---- Saving ----

  function Flag(b: bool): string { if b then "1" else "0" }

  function VnumLine(a: Assembly, names: seq<string>): string {
    "Vnum                #"
        + (IntegerText(a.vnum) + (" " + if 0 <= a.kind < |names| then names[a.kind] else "UNDEFINED"))
  }

  function ComponentLine(c: Component): string {
    "Component           #" + (IntegerText(c.vnum) + (" " + (Flag(c.extract) + (" " + Flag(c.inRoom)))))
  }

  function ComponentLines(comps: seq<Component>): seq<string> {
    if comps == [] then [] else ComponentLines(comps[..|comps| - 1]) + [ComponentLine(comps[|comps| - 1])]
  }

  /** The lines for the first `i` assemblies; blank lines separate assemblies. */
  function SaveLines(t: seq<Assembly>, names: seq<string>, i: nat): seq<string>
    requires i <= |t|
  {
    if i == 0 then []
    else
      SaveLines(t, names, i - 1) + [VnumLine(t[i - 1], names)] + ComponentLines(t[i - 1].comps)
      + if i < |t| then [""] else []
  }

  /** assemblySaveAssemblies. */
  method Save(engine: Engine, names: seq<string>) returns (file: seq<string>)
    requires engine.Valid()
    ensures file == SaveLines(engine.Contents(), names, |engine.Contents()|)
  {
    hide VnumLine, ComponentLine;
    file := [];
    ghost var t := engine.Contents();
    var i := 0;
    while i < engine.count
      invariant i <= engine.count && file == SaveLines(t, names, i)
    {
      var a := engine.table[i];
      file := file + [VnumLine(a, names)];
      ghost var before := file;
      var j := 0;
      while j < |a.comps|
        invariant j <= |a.comps| && file == before + ComponentLines(a.comps[..j])
      {
        assert a.comps[..j + 1][..j] == a.comps[..j];
        file := file + [ComponentLine(a.comps[j])];
        j := j + 1;
      }
      assert a.comps[..j] == a.comps;
      if i < engine.count - 1 {
        file := file + [""];
      }
      i := i + 1;
    }
  }

  // ---- Booting ----

  /** sscanf with "#%ld %d %d". */
  function ScanComponent(s: string): Option<(int, int, int)> {
    if s == "" || s[0] != '#' then None
    else
      match ScanInt(s[1..])
      case NoNumber => None
      case Scanned(v, r1) =>
        match ScanInt(r1)
        case NoNumber => None
        case Scanned(x, r2) =>
          match ScanInt(r2)
          case NoNumber => None
          case Scanned(y, _) => Some((v, x, y))
  }

  /** sscanf with "#%ld %s". */
  function ScanVnum(s: string): Option<(int, string)> {
    if s == "" || s[0] != '#' then None
    else
      match ScanInt(s[1..])
      case NoNumber => None
      case Scanned(v, r1) =>
        var t := SkipSpaces(r1);
        if t == "" then None else Some((v, t[..Span(t, NotSpace)]))
  }

  /** search_block, exact, with the word made lower case; -1 if it is not there. */
  function SearchBlock(word: string, names: seq<string>): (k: int)
    ensures k == -1 || 0 <= k < |names|
  {
    if names == [] then -1
    else if LowerAll(word) == names[0] then 0
    else var k := SearchBlock(word, names[1..]); if k == -1 then -1 else k + 1
  }

  /** An int stored in a variable of type char and tested. */
  predicate CharTrue(n: int) { n % 256 != 0 }

  /** The table so far, and the assembly that component lines go to. */
  datatype BootState = BootState(table: seq<Assembly>, vnum: int)

  function BootComponent(st: BootState, protos: set<int>, rest: string): BootState {
    match ScanComponent(rest)
    case None => st
    case Some((v, x, y)) => st.(table := Add(st.table, protos, st.vnum, Component(v, CharTrue(x), CharTrue(y))).1)
  }

  function BootVnum(st: BootState, names: seq<string>, rest: string): BootState {
    match ScanVnum(rest)
    case None => st.(vnum := NOTHING)
    case Some((v, word)) =>
      var kind := SearchBlock(word, names);
      if kind < 0 then st.(vnum := NOTHING)
      else
        var (ok, t) := Create(st.table, v, kind);
        BootState(t, if ok then v else NOTHING)
  }

  /** One line of the file; get_line skips lines that start with a star. */
  function BootLine(st: BootState, protos: set<int>, names: seq<string>, line: string): BootState {
    if line != "" && line[0] == '*' then st
    else
      var (tag, rest) := HalfChop(line);
      if tag == "" then st
      else if tag == "component" then BootComponent(st, protos, rest)
      else if tag == "vnum" then BootVnum(st, names, rest)
      else st
  }

  function BootAll(st: BootState, protos: set<int>, names: seq<string>, lines: seq<string>): BootState {
    if lines == [] then st
    else BootLine(BootAll(st, protos, names, lines[..|lines| - 1]), protos, names, lines[|lines| - 1])
  }

  /** A table that creates an assembly is another one afterwards. */
  lemma CreateGrows(t: seq<Assembly>, v: int, kind: int)
    ensures var (ok, t') := Create(t, v, kind);
      && (ok <==> t' != t)
      && (ok ==> v != NOTHING)
  {
    hide IndexOf, Rank;
    var (ok, t') := Create(t, v, kind);
    if ok { assert |t'| == |t| + 1; }
  }

  /** assemblyBootAssemblies. */
  method Boot(engine: Engine, names: seq<string>, file: seq<string>)
    requires engine.Valid()
    modifies engine, engine.table
    ensures engine.Valid()
    ensures engine.Contents() == BootAll(BootState(old(engine.Contents()), NOTHING), engine.protos, names, file).table
  {
    hide HalfChop, ScanComponent, ScanVnum, SearchBlock, Create, Add;
    var vnum := NOTHING;
    var i := 0;
    ghost var st0 := BootState(engine.Contents(), NOTHING);
    while i < |file|
      invariant i <= |file| && engine.Valid()
      invariant engine.table == old(engine.table) || engine.table == null || fresh(engine.table)
      invariant BootState(engine.Contents(), vnum) == BootAll(st0, engine.protos, names, file[..i])
    {
      var line := file[i];
      assert file[..i + 1][..i] == file[..i];
      vnum := BootOne(engine, names, vnum, line);
      i := i + 1;
    }
    assert file[..i] == file;
  }

  method BootOne(engine: Engine, names: seq<string>, vnum0: int, line: string) returns (vnum: int)
    requires engine.Valid()
    modifies engine, engine.table
    ensures engine.Valid()
    ensures engine.table == old(engine.table) || engine.table == null || fresh(engine.table)
    ensures BootState(engine.Contents(), vnum)
         == BootLine(BootState(old(engine.Contents()), vnum0), engine.protos, names, line)
    ensures HalfChop(line).0 == "vnum" && line[..1] != "*" ==>
              (vnum == NOTHING <==> engine.Contents() == old(engine.Contents()))
  {
    hide HalfChop, ScanComponent, ScanVnum, SearchBlock, Create, Add;
    vnum := vnum0;
    if line != "" && line[0] == '*' {
      return;
    }
    var (tag, rest) := HalfChop(line);
    if tag == "" {
    } else if tag == "component" {
      var parts := ScanComponent(rest);
      if parts.Some? {
        var ok := engine.AddComponent(vnum, Component(parts.value.0, CharTrue(parts.value.1), CharTrue(parts.value.2)));
      }
    } else if tag == "vnum" {
      var parts := ScanVnum(rest);
      if parts == None {
        vnum := NOTHING;
      } else {
        vnum := parts.value.0;
        var kind := SearchBlock(parts.value.1, names);
        if kind < 0 {
          vnum := NOTHING;
        } else {
          CreateGrows(engine.Contents(), vnum, kind);
          var ok := engine.Create(vnum, kind);
          if !ok {
            vnum := NOTHING;
          }
        }
      }
    }
  }
}
