/** What booting makes of assembly files: of any lines, of rejected lines, and of saved tables. */
module AssemblyReboot {
  import opened CText
  import opened Scanning
  import opened AssemblySpec
  import opened AssemblyFile
  import opened Sequences

  // ---- Rejected lines ----

  lemma BootLineOk(st: BootState, protos: set<int>, names: seq<string>, line: string)
    requires ValidTable(st.table)
    ensures ValidTable(BootLine(st, protos, names, line).table)
  {
    hide HalfChop, ScanVnum, ScanComponent, Create, Add, ValidTable, ToMap;
    var (tag, rest) := HalfChop(line);
    if tag == "component" {
      match ScanComponent(rest)
      case None =>
      case Some((v, x, y)) => AddOnMap(st.table, protos, st.vnum, Component(v, CharTrue(x), CharTrue(y)));
    } else if tag == "vnum" {
      match ScanVnum(rest)
      case None =>
      case Some((v, word)) => CreateOnMap(st.table, v, SearchBlock(word, names));
    }
  }

  /** Any file at all, however malformed, boots to a valid table. */
  lemma {:induction false} BootAllOk(st: BootState, protos: set<int>, names: seq<string>, lines: seq<string>)
    requires ValidTable(st.table)
    ensures ValidTable(BootAll(st, protos, names, lines).table)
  {
    if lines != [] {
      hide BootLine, ValidTable;
      var n := |lines| - 1;
      BootAllOk(st, protos, names, lines[..n]);
      BootLineOk(BootAll(st, protos, names, lines[..n]), protos, names, lines[n]);
    }
  }

  /** A Vnum line either leaves the table as it is, and then no assembly is current, or it makes the assembly that is
      current from then on, which was not there before. */
  lemma RejectedVnum(st: BootState, protos: set<int>, names: seq<string>, line: string)
    requires HalfChop(line).0 == "vnum"
    ensures var after := BootLine(st, protos, names, line);
      && (after.table == st.table <==> after.vnum == NOTHING)
      && (after.table != st.table ==>
            after.vnum !in Vnums(st.table) && Vnums(after.table) == Vnums(st.table) + {after.vnum})
  {
    hide HalfChop, ScanVnum, SearchBlock, IndexOf, Rank;
    if line == "" || line[0] == '*' { StarTag(line); }
    var after := BootLine(st, protos, names, line);
    if after.table != st.table {
      VnumListed(st.table, after.vnum);
      var p := Rank(st.table, after.vnum);
      assert forall i :: 0 <= i < |st.table| ==> st.table[i] == after.table[if i < p then i else i + 1];
      assert after.table[p].vnum == after.vnum;
    }
  }

  /** It is refused for exactly these reasons: the fields cannot be read, there is no such type, the vnum is out of
      range, or the table has that vnum already. */
  lemma RefusedIff(st: BootState, protos: set<int>, names: seq<string>, line: string)
    requires HalfChop(line).0 == "vnum"
    ensures BootLine(st, protos, names, line).vnum == NOTHING <==>
      match ScanVnum(HalfChop(line).1)
      case None => true
      case Some((v, word)) =>
        || v < 0 || v in Vnums(st.table)
        || LowerAll(word) !in names[..if |names| < 10 then |names| else 10]
  {
    hide HalfChop, ScanVnum, IndexOf, Rank;
    if line == "" || line[0] == '*' { StarTag(line); }
    match ScanVnum(HalfChop(line).1)
    case None =>
    case Some((v, word)) =>
      SearchFound(word, names);
      VnumListed(st.table, v);
      var k := SearchBlock(word, names);
      var first := names[..if |names| < 10 then |names| else 10];
      if LowerAll(word) in first {
        var i :| 0 <= i < |first| && first[i] == LowerAll(word);
        assert names[i] == LowerAll(word);
      }
      if 0 <= k < 10 { assert first[k] == LowerAll(word); }
  }

  /** The vnums that a table has. */
  function Vnums(t: seq<Assembly>): set<int> { set a | a in t :: a.vnum }

  lemma VnumListed(t: seq<Assembly>, v: int)
    ensures IndexOf(t, v) == -1 <==> v !in Vnums(t)
  {
    if v in Vnums(t) {
      var a :| a in t && a.vnum == v;
      var i :| 0 <= i < |t| && t[i] == a;
    } else {
      assert forall i :: 0 <= i < |t| ==> t[i] in t;
    }
  }

  /** A line that starts with a star, a blank one, and one with any other tag have no effect. */
  lemma OtherLine(st: BootState, protos: set<int>, names: seq<string>, line: string)
    requires (line != "" && line[0] == '*') || HalfChop(line).0 !in {"vnum", "component"}
    ensures BootLine(st, protos, names, line) == st
  {
    hide HalfChop, BootComponent, BootVnum;
  }

  /** A component line with three numbers adds its component to the current assembly, others have no effect. Flags are
      stored in variables of type char: a number whose last eight bits are zero counts as no. */
  lemma ComponentRead(line: string, st: BootState, protos: set<int>, names: seq<string>)
    requires HalfChop(line).0 == "component"
    ensures match ScanComponent(HalfChop(line).1)
            case None => BootLine(st, protos, names, line) == st
            case Some((v, x, y)) =>
              0 <= x < 512 && 0 <= y < 512 ==>
                BootLine(st, protos, names, line) ==
                st.(table := Add(st.table, protos, st.vnum, Component(v, x !in {0, 256}, y !in {0, 256})).1)
  {
    hide HalfChop, ScanComponent, Add;
    if line == "" || line[0] == '*' { StarTag(line); }
  }

  /** With no current assembly, a component line has no effect. */
  lemma OrphanComponent(st: BootState, protos: set<int>, rest: string)
    requires ValidTable(st.table) && st.vnum == NOTHING
    ensures BootComponent(st, protos, rest) == st
  {
    hide ScanComponent;
    forall i | 0 <= i < |st.table| ensures st.table[i].vnum != NOTHING {
      assert Good(st.table[i]);
    }
  }

  /** After a rejected Vnum line, whatever follows it up to the next Vnum line attaches to no assembly. */
  lemma {:induction false} RejectedBlock(st: BootState, protos: set<int>, names: seq<string>, bad: string,
      lines: seq<string>)
    requires ValidTable(st.table) && HalfChop(bad).0 == "vnum"
    requires BootLine(st, protos, names, bad).table == st.table
    requires forall i :: 0 <= i < |lines| ==> HalfChop(lines[i]).0 != "vnum"
    ensures BootAll(st, protos, names, [bad] + lines) == st.(vnum := NOTHING)
    decreases |lines|
  {
    hide HalfChop, BootVnum, BootComponent, ValidTable;
    if lines == [] {
      assert [bad] + lines == [bad] && [bad][..0] == [];
      RejectedVnum(st, protos, names, bad);
    } else {
      var n := |lines| - 1;
      assert ([bad] + lines)[..|[bad] + lines| - 1] == [bad] + lines[..n];
      RejectedBlock(st, protos, names, bad, lines[..n]);
      OrphanComponent(st.(vnum := NOTHING), protos, HalfChop(lines[n]).1);
    }
  }

  lemma StarTag(line: string)
    requires line == "" || line[0] == '*'
    ensures HalfChop(line).0 !in {"vnum", "component"}
  {
    SkipSpacesIs("", line);
    assert "" + line == line;
    hide SkipSpaces, IsSpace;
    var (tag, rest) := HalfChop(line);
    assert line != "" ==> tag != "" && tag[0] == '*';
  }

  // ---- Reading single lines ----

  lemma BootConcat(st: BootState, protos: set<int>, names: seq<string>, a: seq<string>, b: seq<string>)
    ensures BootAll(st, protos, names, a + b) == BootAll(BootAll(st, protos, names, a), protos, names, b)
  {
    hide BootLine;
    if b == [] {
      assert a + b == a;
    } else {
      var n := |a + b| - 1;
      assert (a + b)[..n] == a + b[..|b| - 1];
      BootConcat(st, protos, names, a, b[..|b| - 1]);
    }
  }

  /** Half-chopping a saved line gives its tag and the fields. */
  lemma ChopTag(tag: string, spaces: string, rest: string)
    requires tag != "" && spaces != "" && rest != "" && !IsSpace(rest[0])
    requires forall i :: 0 <= i < |tag| ==> NotSpace(tag[i])
    requires forall i :: 0 <= i < |spaces| ==> IsSpace(spaces[i])
    ensures HalfChop(tag + (spaces + rest)) == (LowerAll(tag), rest)
  {
    hide LowerAll, Span, SkipSpaces;
    var s := tag + (spaces + rest);
    SkipSpacesIs("", s);
    assert "" + s == s;
    SpanIs(s, NotSpace, |tag|);
    assert s[..|tag|] == tag && s[|tag|..] == spaces + rest;
    SkipSpacesIs(spaces, rest);
  }

  lemma NumberStarts(n: int, rest: string)
    ensures var s := "#" + (IntegerText(n) + rest);
      s != "" && s[0] == '#' && s[1..] == IntegerText(n) + rest && "" + s[1..] == s[1..]
  {
  }

  lemma ComponentLineRead(c: Component)
    ensures ComponentLine(c) != "" && ComponentLine(c)[0] != '*'
    ensures HalfChop(ComponentLine(c)).0 == "component"
    ensures ScanComponent(HalfChop(ComponentLine(c)).1) ==
        Some((c.vnum, if c.extract then 1 else 0, if c.inRoom then 1 else 0))
  {
    hide HalfChop, Span, ScanInt, IntegerText, SkipSpaces;
    var r2 := " " + Flag(c.inRoom);
    var r1 := " " + (Flag(c.extract) + r2);
    var rest := "#" + (IntegerText(c.vnum) + r1);
    var spaces := "           ";
    assert ComponentLine(c) == "Component" + (spaces + rest);
    ChopTag("Component", spaces, rest);
    assert LowerAll("Component") == "component";
    NumberStarts(c.vnum, r1);
    ScanIntegerText("", c.vnum, r1);
    FlagText(c.extract);
    FlagText(c.inRoom);
    ScanIntegerText(" ", if c.extract then 1 else 0, r2);
    ScanIntegerText(" ", if c.inRoom then 1 else 0, "");
    assert Flag(c.inRoom) + "" == Flag(c.inRoom);
  }

  lemma FlagText(b: bool)
    ensures Flag(b) == IntegerText(if b then 1 else 0)
  {
  }

  lemma SearchName(names: seq<string>, k: nat)
    requires k < |names| && LowerAll(names[k]) == names[k]
    requires forall i, j :: 0 <= i < j < |names| ==> names[i] != names[j]
    ensures SearchBlock(names[k], names) == k
  {
    if k > 0 { SearchName(names[1..], k - 1); }
  }

  lemma SearchFound(word: string, names: seq<string>)
    ensures var k := SearchBlock(word, names);
      && (k != -1 ==> LowerAll(word) == names[k])
      && forall i :: 0 <= i < (if k == -1 then |names| else k) ==> names[i] != LowerAll(word)
  {
  }

  /** What is written for a type, and the first word of it that is read. */
  function TypeName(kind: int, names: seq<string>): string {
    if 0 <= kind < |names| then names[kind] else "UNDEFINED"
  }

  function FirstWord(s: string): string {
    var t := SkipSpaces(s); t[..Span(t, NotSpace)]
  }

  /** The type that is read back; negative if the line is rejected. */
  function KindRead(kind: int, names: seq<string>): int {
    if FirstWord(TypeName(kind, names)) == "" then -1 else SearchBlock(FirstWord(TypeName(kind, names)), names)
  }

  lemma SpaceSkipped(s: string)
    ensures SkipSpaces(" " + s) == SkipSpaces(s)
    ensures FirstWord(s) == "" <==> SkipSpaces(s) == ""
  {
    var n := Span(s, IsSpace);
    SpanIs(" " + s, IsSpace, n + 1);
    assert (" " + s)[n + 1..] == s[n..];
  }

  /** A written vnum line is read as its vnum and the first word of its type name. */
  lemma VnumLineScan(a: Assembly, names: seq<string>)
    ensures VnumLine(a, names) != "" && VnumLine(a, names)[0] != '*'
    ensures HalfChop(VnumLine(a, names)).0 == "vnum"
    ensures var word := FirstWord(TypeName(a.kind, names));
      ScanVnum(HalfChop(VnumLine(a, names)).1) == if word == "" then None else Some((a.vnum, word))
  {
    hide HalfChop, Span, ScanInt, IntegerText, SkipSpaces, FirstWord;
    var name := TypeName(a.kind, names);
    var r1 := " " + name;
    var rest := "#" + (IntegerText(a.vnum) + r1);
    var spaces := "                ";
    assert VnumLine(a, names) == "Vnum" + (spaces + rest);
    ChopTag("Vnum", spaces, rest);
    assert LowerAll("Vnum") == "vnum";
    NumberStarts(a.vnum, r1);
    ScanIntegerText("", a.vnum, r1);
    SpaceSkipped(name);
    ScanWord(a.vnum, rest, r1, name);
  }

  lemma ScanWord(v: int, rest: string, r1: string, name: string)
    requires rest != "" && rest[0] == '#'
    ensures ScanInt(rest[1..]) == Scanned(v, r1) && SkipSpaces(r1) == SkipSpaces(name) &&
            (FirstWord(name) == "" <==> SkipSpaces(name) == "") ==>
              ScanVnum(rest) == if FirstWord(name) == "" then None else Some((v, FirstWord(name)))
  {
    hide ScanInt, SkipSpaces, Span;
  }

  /** A type is read back as it was exactly when its name is one word that the search finds at its own place. */
  lemma KindReadIff(kind: int, names: seq<string>)
    requires kind >= 0
    ensures KindRead(kind, names) == kind <==>
      && kind < |names| && names[kind] != "" && (forall i :: 0 <= i < |names[kind]| ==> NotSpace(names[kind][i]))
      && SearchBlock(names[kind], names) == kind
  {
    var name := TypeName(kind, names);
    var word := FirstWord(name);
    SearchFound(word, names);
    if KindRead(kind, names) == kind {
      forall i | 0 <= i < |names[kind]| ensures NotSpace(names[kind][i]) {
        assert NotSpace(word[i]) && names[kind][i] == Lower(word[i]);
      }
    }
    if kind < |names| && name != "" && forall i :: 0 <= i < |name| ==> NotSpace(name[i]) {
      SkipSpacesIs("", name);
      assert "" + name == name;
      SpanIs(name, NotSpace, |name|);
      assert name[..|name|] == name;
    }
  }

  // ---- Tables and their lines ----

  /** Whether `a` may follow the table `t`. */
  predicate Above(t: seq<Assembly>, v: int) {
    forall i :: 0 <= i < |t| ==> t[i].vnum < v
  }

  lemma CreateAbove(t: seq<Assembly>, a: Assembly)
    requires Above(t, a.vnum) && Good(a)
    ensures Create(t, a.vnum, a.kind) == (true, t + [a.(comps := [])])
  {
    RankAbove(t, a.vnum);
    hide Rank;
    var b := a.(comps := []);
    assert InsertAt(t, |t|, b) == t + [b];
  }

  lemma RankAbove(t: seq<Assembly>, v: int)
    requires Above(t, v)
    ensures Rank(t, v) == |t| && IndexOf(t, v) == -1
  {
    if t != [] {
      assert Above(t[1..], v);
      RankAbove(t[1..], v);
    }
  }

  lemma IndexOfLast(t: seq<Assembly>, a: Assembly)
    requires Above(t, a.vnum)
    ensures IndexOf(t + [a], a.vnum) == |t|
  {
    assert (t + [a])[|t|] == a;
    assert forall k :: 0 <= k < |t| ==> (t + [a])[k].vnum < a.vnum;
  }

  /** A vnum line creates its assembly with the type that is read back, or is rejected. */
  lemma BootVnumLine(st: BootState, protos: set<int>, names: seq<string>, a: Assembly)
    requires Good(a) && Above(st.table, a.vnum)
    ensures var kind := KindRead(a.kind, names);
      BootLine(st, protos, names, VnumLine(a, names)) ==
      if 0 <= kind < MAX_ASSM then BootState(st.table + [Assembly(a.vnum, kind, [])], a.vnum) else st.(vnum := NOTHING)
  {
    hide HalfChop, ScanVnum, Create, VnumLine, SearchBlock, FirstWord;
    VnumLineScan(a, names);
    var kind := KindRead(a.kind, names);
    if 0 <= kind < MAX_ASSM {
      assert !Duplicates([]);
      CreateAbove(st.table, Assembly(a.vnum, kind, []));
    } else {
      BadKind(st.table, a.vnum, kind);
    }
  }

  lemma BadKind(t: seq<Assembly>, v: int, kind: int)
    requires !(0 <= kind < MAX_ASSM)
    ensures Create(t, v, kind) == (false, t)
  {
  }

  /** A component line adds its component if it has a prototype and is not there yet. */
  lemma BootComponentLine(t: seq<Assembly>, a: Assembly, protos: set<int>, names: seq<string>, c: Component)
    requires Above(t, a.vnum)
    ensures BootLine(BootState(t + [a], a.vnum), protos, names, ComponentLine(c)) ==
            if c.vnum in protos && ComponentIndex(a.comps, c.vnum) == -1
            then BootState(t + [a.(comps := a.comps + [c])], a.vnum)
            else BootState(t + [a], a.vnum)
  {
    hide HalfChop, ScanComponent, ComponentLine, IndexOf, ComponentIndex;
    ComponentLineRead(c);
    IndexOfLast(t, a);
    assert (t + [a])[|t| := a.(comps := a.comps + [c])] == t + [a.(comps := a.comps + [c])];
  }

  lemma {:induction false} BootComponentLines(t: seq<Assembly>, a: Assembly, protos: set<int>, names: seq<string>,
                                              comps: seq<Component>)
    requires Above(t, a.vnum) && a.comps == []
    ensures BootAll(BootState(t + [a], a.vnum), protos, names, ComponentLines(comps)) ==
            BootState(t + [a.(comps := Kept(protos, comps, |comps|))], a.vnum)
  {
    hide BootLine, ComponentLine, ComponentIndex;
    if comps != [] {
      var n := |comps| - 1;
      BootComponentLines(t, a, protos, names, comps[..n]);
      assert ComponentLines(comps)[..|ComponentLines(comps)| - 1] == ComponentLines(comps[..n]);
      KeptPrefix(protos, comps, n, n);
      KeptVnums(protos, comps, n, comps[n].vnum);
      BootComponentLine(t, a.(comps := Kept(protos, comps, n)), protos, names, comps[n]);
    } else {
      assert a.(comps := []) == a;
    }
  }

  lemma BootBlankLine(st: BootState, protos: set<int>, names: seq<string>)
    ensures HalfChop("").0 == "" && BootLine(st, protos, names, "") == st
  {
  }

  lemma {:induction false} ComponentTags(comps: seq<Component>)
    ensures forall i :: 0 <= i < |ComponentLines(comps)| ==> HalfChop(ComponentLines(comps)[i]).0 == "component"
  {
    hide HalfChop, ComponentLine;
    if comps != [] {
      ComponentTags(comps[..|comps| - 1]);
      ComponentLineRead(comps[|comps| - 1]);
    }
  }

  /** What the lines of one assembly bring back. */
  function RowRead(a: Assembly, protos: set<int>, names: seq<string>): seq<Assembly> {
    var kind := KindRead(a.kind, names);
    if 0 <= kind < MAX_ASSM then [Assembly(a.vnum, kind, Kept(protos, a.comps, |a.comps|))] else []
  }

  lemma BootBlock(st: BootState, protos: set<int>, names: seq<string>, a: Assembly, tail: seq<string>)
    requires ValidTable(st.table) && Good(a) && Above(st.table, a.vnum) && (tail == [] || tail == [""])
    ensures BootAll(st, protos, names, [VnumLine(a, names)] + ComponentLines(a.comps) + tail).table ==
            st.table + RowRead(a, protos, names)
  {
    hide BootLine, BootAll, VnumLine, ComponentLines, Above, KindRead, HalfChop, ValidTable, Kept;
    BootVnumLine(st, protos, names, a);
    if 0 <= KindRead(a.kind, names) < MAX_ASSM {
      CreatedBlock(st, protos, names, a, KindRead(a.kind, names), tail);
    } else {
      RefusedBlock(st, protos, names, a, tail);
    }
  }

  lemma CreatedBlock(st: BootState, protos: set<int>, names: seq<string>, a: Assembly, kind: int, tail: seq<string>)
    requires Above(st.table, a.vnum) && (tail == [] || tail == [""])
    ensures BootLine(st, protos, names, VnumLine(a, names)) ==
            BootState(st.table + [Assembly(a.vnum, kind, [])], a.vnum) ==>
              BootAll(st, protos, names, [VnumLine(a, names)] + ComponentLines(a.comps) + tail) ==
              BootState(st.table + [Assembly(a.vnum, kind, Kept(protos, a.comps, |a.comps|))], a.vnum)
  {
    hide BootLine, VnumLine, ComponentLines, Above, Kept;
    var line, lines := VnumLine(a, names), ComponentLines(a.comps);
    var b := Assembly(a.vnum, kind, []);
    BootComponentLines(st.table, b, protos, names, a.comps);
    BootBlankLine(BootState(st.table + [b.(comps := Kept(protos, a.comps, |a.comps|))], a.vnum), protos, names);
    BootConcat(st, protos, names, [line], lines);
    BootConcat(st, protos, names, [line] + lines, tail);
    assert [line][..0] == [] && [""][..0] == [];
  }

  lemma RefusedBlock(st: BootState, protos: set<int>, names: seq<string>, a: Assembly, tail: seq<string>)
    requires ValidTable(st.table) && (tail == [] || tail == [""])
    requires BootLine(st, protos, names, VnumLine(a, names)) == st.(vnum := NOTHING)
    ensures BootAll(st, protos, names, [VnumLine(a, names)] + ComponentLines(a.comps) + tail).table == st.table + []
  {
    hide BootLine, BootAll, VnumLine, ComponentLines, HalfChop, ValidTable;
    var line, lines := VnumLine(a, names), ComponentLines(a.comps);
    VnumLineScan(a, names);
    ComponentTags(a.comps);
    BootBlankLine(st, protos, names);
    assert [line] + lines + tail == [line] + (lines + tail);
    RejectedBlock(st, protos, names, line, lines + tail);
    assert st.table + [] == st.table;
  }

  lemma SaveLinesStep(t: seq<Assembly>, names: seq<string>, i: nat)
    requires 0 < i <= |t|
    ensures SaveLines(t, names, i) == SaveLines(t, names, i - 1)
      + ([VnumLine(t[i - 1], names)] + ComponentLines(t[i - 1].comps) + if i < |t| then [""] else [])
  {
    hide VnumLine, ComponentLines;
  }

  /** What the saved lines of the first `i` assemblies bring back. */
  function Rebuilt(t: seq<Assembly>, protos: set<int>, names: seq<string>, i: nat): seq<Assembly>
    requires i <= |t|
  {
    if i == 0 then [] else Rebuilt(t, protos, names, i - 1) + RowRead(t[i - 1], protos, names)
  }

  lemma {:induction false} RebuiltAbove(t: seq<Assembly>, protos: set<int>, names: seq<string>, i: nat)
    requires ValidTable(t) && i <= |t|
    ensures |Rebuilt(t, protos, names, i)| <= i
    ensures forall j :: i <= j < |t| ==> Above(Rebuilt(t, protos, names, i), t[j].vnum)
  {
    hide KindRead;
    if i > 0 { RebuiltAbove(t, protos, names, i - 1); }
  }

  /** Booting the saved lines of any valid table, with any type names: exactly this comes back. */
  lemma {:induction false} BootSavedLines(t: seq<Assembly>, protos: set<int>, names: seq<string>, i: nat)
    requires ValidTable(t) && i <= |t|
    ensures BootAll(BootState([], NOTHING), protos, names, SaveLines(t, names, i)).table == Rebuilt(t, protos, names, i)
  {
    hide BootLine, VnumLine, ComponentLines, BootAll, Above, ValidTable, SaveLines, RowRead, Good;
    NothingSaved(t, protos, names);
    if i > 0 {
      BootSavedLines(t, protos, names, i - 1);
      RebuiltAbove(t, protos, names, i - 1);
      BootNext(t, protos, names, i - 1);
    }
  }

  lemma BootNext(t: seq<Assembly>, protos: set<int>, names: seq<string>, i: nat)
    requires ValidTable(t) && i < |t|
    requires Above(BootAll(BootState([], NOTHING), protos, names, SaveLines(t, names, i)).table, t[i].vnum)
    ensures var st := BootAll(BootState([], NOTHING), protos, names, SaveLines(t, names, i));
      BootAll(BootState([], NOTHING), protos, names, SaveLines(t, names, i + 1)).table ==
      st.table + RowRead(t[i], protos, names)
  {
    hide BootLine, VnumLine, ComponentLines, BootAll, Above, ValidTable, SaveLines, RowRead, Good;
    var start, before := BootState([], NOTHING), SaveLines(t, names, i);
    var tail := if i + 1 < |t| then [""] else [];
    var block := [VnumLine(t[i], names)] + ComponentLines(t[i].comps) + tail;
    RowIsGood(t, i);
    EmptyValid();
    BootAllOk(start, protos, names, before);
    SaveLinesStep(t, names, i + 1);
    BootBlock(BootAll(start, protos, names, before), protos, names, t[i], tail);
    BootConcat(start, protos, names, before, block);
  }

  lemma NothingSaved(t: seq<Assembly>, protos: set<int>, names: seq<string>)
    ensures SaveLines(t, names, 0) == [] && BootAll(BootState([], NOTHING), protos, names, []) == BootState([], NOTHING)
  {
  }

  /** One assembly comes back as it was. */
  ghost predicate RowOk(a: Assembly, protos: set<int>, names: seq<string>) {
    KindRead(a.kind, names) == a.kind && forall j :: 0 <= j < |a.comps| ==> a.comps[j].vnum in protos
  }

  lemma RowReadIff(a: Assembly, protos: set<int>, names: seq<string>)
    requires Good(a)
    ensures RowRead(a, protos, names) == [a] <==> RowOk(a, protos, names)
  {
    hide KindRead;
    KeptAllIff(protos, a.comps);
    var b := Assembly(a.vnum, KindRead(a.kind, names), Kept(protos, a.comps, |a.comps|));
    assert [b][0] == b && [a][0] == a;
  }

  lemma {:induction false} RebuiltIff(t: seq<Assembly>, protos: set<int>, names: seq<string>, i: nat)
    requires ValidTable(t) && i <= |t|
    ensures Rebuilt(t, protos, names, i) == t[..i] <==> forall k :: 0 <= k < i ==> RowOk(t[k], protos, names)
  {
    hide ValidTable, Above, RowRead, RowOk, Good;
    if i > 0 {
      RebuiltAbove(t, protos, names, i - 1);
      RebuiltIff(t, protos, names, i - 1);
      RowIsGood(t, i - 1);
      RowReadIff(t[i - 1], protos, names);
      RowLength(t[i - 1], protos, names);
      assert t[..i] == t[..i - 1] + [t[i - 1]];
      SnocIff(Rebuilt(t, protos, names, i - 1), RowRead(t[i - 1], protos, names), t[..i - 1], t[i - 1]);
    }
  }

  lemma EmptyValid()
    ensures ValidTable([])
  {
  }

  lemma RowIsGood(t: seq<Assembly>, i: nat)
    requires ValidTable(t) && i < |t|
    ensures Good(t[i])
  {
  }

  lemma RowLength(a: Assembly, protos: set<int>, names: seq<string>)
    ensures |RowRead(a, protos, names)| <= 1
  {
    hide KindRead;
  }

  lemma SnocIff<T>(front: seq<T>, last: seq<T>, s: seq<T>, x: T)
    requires |front| <= |s| && |last| <= 1
    ensures front + last == s + [x] <==> front == s && last == [x]
  {
    if front + last == s + [x] {
      assert (front + last)[..|s|] == front && (s + [x])[..|s|] == s;
      assert (front + last)[|s|..] == last && (s + [x])[|s|..] == [x];
    }
  }

  /** Booting what was saved rebuilds the same table exactly when every type in it is one word that the search finds
      at its own place and every component has a prototype. */
  lemma SaveBootIff(t: seq<Assembly>, protos: set<int>, names: seq<string>)
    requires ValidTable(t)
    ensures BootAll(BootState([], NOTHING), protos, names, SaveLines(t, names, |t|)).table == t <==>
            forall k :: 0 <= k < |t| ==> RowOk(t[k], protos, names)
  {
    hide BootAll, SaveLines, Rebuilt, RowOk;
    BootSavedLines(t, protos, names, |t|);
    RebuiltIff(t, protos, names, |t|);
    assert t[..|t|] == t;
  }

  /** Type names that can be written and found again: lower-case words, all different. */
  predicate NamesOk(names: seq<string>) {
    && |names| == MAX_ASSM
    && (forall i :: 0 <= i < |names| ==> names[i] != "" && LowerAll(names[i]) == names[i])
    && (forall i, j :: 0 <= i < |names| && 0 <= j < |names[i]| ==> NotSpace(names[i][j]))
    && (forall i, j :: 0 <= i < j < |names| ==> names[i] != names[j])
  }

  /** In particular it does for ten distinct lower-case words. */
  lemma SaveBootRoundTrip(t: seq<Assembly>, protos: set<int>, names: seq<string>)
    requires ValidTable(t) && NamesOk(names)
    requires forall k, j :: 0 <= k < |t| && 0 <= j < |t[k].comps| ==> t[k].comps[j].vnum in protos
    ensures BootAll(BootState([], NOTHING), protos, names, SaveLines(t, names, |t|)).table == t
  {
    hide BootAll, SaveLines;
    SaveBootIff(t, protos, names);
    forall k | 0 <= k < |t| ensures RowOk(t[k], protos, names) {
      assert Good(t[k]);
      SearchName(names, t[k].kind);
      KindReadIff(t[k].kind, names);
    }
  }

  /** A type name with a capital letter: the assembly is written and not read back. */
  lemma CapitalLost()
    ensures var t := [Assembly(1, 0, [])];
      && ValidTable(t) && BootAll(BootState([], NOTHING), {}, ["Sword"], SaveLines(t, ["Sword"], 1)).table != t
  {
    hide BootAll, SaveLines;
    var t := [Assembly(1, 0, [])];
    assert LowerAll("Sword")[0] == 's';
    SearchFound("Sword", ["Sword"]);
    KindReadIff(0, ["Sword"]);
    assert !RowOk(t[0], {}, ["Sword"]);
    SaveBootIff(t, {}, ["Sword"]);
  }

  /** A saved file, as it is written. */
  lemma SavedSample()
    ensures var t := [Assembly(5, 0, [Component(7, true, false)]), Assembly(12, 3, [])];
      SaveLines(t, ["club"], 2) ==
      ["Vnum                #5 club", "Component           #7 1 0", "", "Vnum                #12 UNDEFINED"]
  {
    var a, b := Assembly(5, 0, [Component(7, true, false)]), Assembly(12, 3, []);
    assert IntegerText(12) == "12" by {
      assert 12 / 10 == 1 && 12 % 10 == 2;
    }
    assert VnumLine(a, ["club"]) == "Vnum                #5 club";
    assert ComponentLine(a.comps[0]) == "Component           #7 1 0";
    assert VnumLine(b, ["club"]) == "Vnum                #12 UNDEFINED";
    hide VnumLine, ComponentLine;
    assert ComponentLines(a.comps) == [] + [ComponentLine(a.comps[0])];
    SaveLinesStep([a, b], ["club"], 2);
    SaveLinesStep([a, b], ["club"], 1);
  }
}
