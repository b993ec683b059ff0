/** The assembly editor: a working copy that quitting writes back by destroying the assembly,
    creating it again and adding the components one by one. */
module AssemblyEditor {
  import opened AssemblySpec
  import opened Assemblies
  import opened Sequences

  /** Add the components in turn; the engine refuses duplicates and unknown prototypes. */
  function AddAll(t: seq<Assembly>, protos: set<int>, v: int, comps: seq<Component>): seq<Assembly> {
    if comps == [] then t
    else Add(AddAll(t, protos, v, comps[..|comps| - 1]), protos, v, comps[|comps| - 1]).1
  }

  function QuitTable(t: seq<Assembly>, protos: set<int>, v: int, kind: int, comps: seq<Component>): seq<Assembly> {
    AddAll(Create(Destroy(t, v).1, v, kind).1, protos, v, comps)
  }

  class Session {
    var vnum: int
    var kind: int
    var comps: seq<Component>

    constructor (vnum: int, kind: int, comps: seq<Component>)
      ensures this.vnum == vnum && this.kind == kind && this.comps == comps
    {
      this.vnum, this.kind, this.comps := vnum, kind, comps;
    }

    /** A new component is extracted and in the inventory; a namesake does not stop it. */
    method AddComponent(protos: set<int>, part: int)
      modifies this
      ensures vnum == old(vnum) && kind == old(kind)
      ensures comps == old(comps) + if part in protos then [Component(part, true, false)] else []
    {
      if part !in protos {
        return;
      }
      var i := 0;
      while i < |comps| && comps[i].vnum != part
        invariant i <= |comps|
      {
        i := i + 1;
      }
      comps := comps + [Component(part, true, false)];
    }

    method DeleteComponent(pos: nat)
      requires pos < |comps|
      modifies this
      ensures vnum == old(vnum) && kind == old(kind) && comps == Without(old(comps), pos)
    {
      comps := comps[..pos] + comps[pos + 1..];
    }

    /** The type menu: its range test accepts any number, which is then cut to an unsigned char. */
    method SetType(choice: int)
      modifies this
      ensures vnum == old(vnum) && comps == old(comps) && kind == (choice - 1) % 256
    {
      var pos := choice - 1;
      if pos >= 0 || pos < MAX_ASSM {
        kind := pos % 256;
      }
    }

    method SetFlags(pos: nat, extract: bool, inRoom: bool)
      requires pos < |comps|
      modifies this
      ensures vnum == old(vnum) && kind == old(kind)
      ensures comps == old(comps)[pos := Component(old(comps)[pos].vnum, extract, inRoom)]
    {
      comps := comps[pos := comps[pos].(extract := extract)];
      comps := comps[pos := comps[pos].(inRoom := inRoom)];
    }

    method Quit(engine: Engine)
      requires engine.Valid()
      modifies engine, engine.table
      ensures engine.Valid()
      ensures engine.Contents() == QuitTable(old(engine.Contents()), engine.protos, vnum, kind, comps)
    {
      hide AssemblySpec.Destroy, AssemblySpec.Create, Add, ValidTable;
      var _ := engine.Destroy(vnum);
      var _ := engine.Create(vnum, kind);
      ghost var t := engine.Contents();
      var i := 0;
      while i < |comps|
        invariant i <= |comps| && engine.Valid()
        invariant engine.table == old(engine.table) || engine.table == null || fresh(engine.table)
        invariant engine.Contents() == AddAll(t, engine.protos, vnum, comps[..i])
      {
        assert comps[..i + 1][..i] == comps[..i];
        var _ := engine.AddComponent(vnum, comps[i]);
        i := i + 1;
      }
      assert comps[..i] == comps;
    }
  }

  /** assedit_setup: a working copy of the assembly, unless it or its prototype does not exist. */
  method Setup(engine: Engine, number: int) returns (s: Session?)
    requires engine.Valid()
    ensures s != null <==> IndexOf(engine.Contents(), number) != -1 && number in engine.protos
    ensures s != null ==>
        fresh(s) && Assembly(s.vnum, s.kind, s.comps) == engine.Contents()[IndexOf(engine.Contents(), number)]
  {
    var k := engine.GetPtr(number);
    if k < 0 {
      return null;
    }
    var a := engine.table[k];
    if a.vnum !in engine.protos {
      return null;
    }
    s := new Session(a.vnum, a.kind, a.comps);
  }

  // ---- What quitting does ----

  /** Adding one by one keeps the first occurrences. */
  lemma {:induction false} AddAllKeeps(t: seq<Assembly>, protos: set<int>, v: int, comps: seq<Component>)
    requires ValidTable(t) && v in ToMap(t) && ToMap(t)[v].1 == []
    ensures ValidTable(AddAll(t, protos, v, comps))
    ensures ToMap(AddAll(t, protos, v, comps)) == ToMap(t)[v := (ToMap(t)[v].0, Kept(protos, comps, |comps|))]
  {
    hide Add, ToMap, ValidTable, ComponentIndex, FirstOccurrence, IndexOf, Ascending, Kept;
    assert Kept(protos, comps, 0) == [] by { KeptNone(protos, comps); }
    assert ValidTable(t) ==> Ascending(t) by { ValidIsAscending(t); }
    if comps != [] {
      var n := |comps| - 1;
      AddAllKeeps(t, protos, v, comps[..n]);
      KeptPrefix(protos, comps, n, n);
      AddKeeps(AddAll(t, protos, v, comps[..n]), protos, v, comps, n);
    }
  }

  lemma ValidIsAscending(t: seq<Assembly>)
    requires ValidTable(t)
    ensures Ascending(t)
  {
  }

  lemma AddKeeps(t: seq<Assembly>, protos: set<int>, v: int, comps: seq<Component>, n: nat)
    requires ValidTable(t) && v in ToMap(t) && n < |comps| && ToMap(t)[v].1 == Kept(protos, comps, n)
    ensures var t' := Add(t, protos, v, comps[n]).1;
      ValidTable(t') && ToMap(t') == ToMap(t)[v := (ToMap(t)[v].0, Kept(protos, comps, n + 1))]
  {
    hide Add, ToMap;
    var kept := Kept(protos, comps, n);
    AddOnMap(t, protos, v, comps[n]);
    KeptVnums(protos, comps, n, comps[n].vnum);
    hide ValidTable;
    assert ComponentIndex(kept, comps[n].vnum) == -1 <==> forall i :: 0 <= i < |kept| ==> kept[i].vnum != comps[n].vnum;
  }

  lemma {:induction false} AddAllNowhere(t: seq<Assembly>, protos: set<int>, v: int, comps: seq<Component>)
    requires IndexOf(t, v) == -1
    ensures AddAll(t, protos, v, comps) == t
  {
    if comps != [] { AddAllNowhere(t, protos, v, comps[..|comps| - 1]); }
  }

  /** Quitting leaves every other assembly alone. It stores the working copy, with later duplicates and
      components without prototype dropped, exactly when the type is one of the ten; with any other type,
      which the type menu accepts, the assembly is lost. */
  lemma QuitOnMap(t: seq<Assembly>, protos: set<int>, v: int, kind: int, comps: seq<Component>)
    requires ValidTable(t) && v >= 0
    ensures var t' := QuitTable(t, protos, v, kind, comps);
      && ValidTable(t')
      && ToMap(t') ==
         (if 0 <= kind < MAX_ASSM then ToMap(t)[v := (kind, Kept(protos, comps, |comps|))] else ToMap(t) - {v})
      && (v in ToMap(t') <==> 0 <= kind < MAX_ASSM)
  {
    hide Destroy, Create, Add, ToMap, Good;
    DestroyOnMap(t, v);
    var t1 := Destroy(t, v).1;
    CreateOnMap(t1, v, kind);
    var t2 := Create(t1, v, kind).1;
    if 0 <= kind < MAX_ASSM {
      AddAllKeeps(t2, protos, v, comps);
    } else {
      KeyIn(t2, v);
      AddAllNowhere(t2, protos, v, comps);
    }
  }

  /** A session without edits changes nothing exactly when all the components have prototypes. */
  lemma QuitUnedited(t: seq<Assembly>, protos: set<int>, k: nat)
    requires ValidTable(t) && k < |t|
    ensures QuitTable(t, protos, t[k].vnum, t[k].kind, t[k].comps) == t <==>
            forall i :: 0 <= i < |t[k].comps| ==> t[k].comps[i].vnum in protos
  {
    hide QuitTable, ToMap;
    var a := t[k];
    assert Good(a);
    QuitOnMap(t, protos, a.vnum, a.kind, a.comps);
    KeptAllIff(protos, a.comps);
    if Kept(protos, a.comps, |a.comps|) == a.comps {
      MapDeterminesTable(QuitTable(t, protos, a.vnum, a.kind, a.comps), t);
    }
  }

  /** The menu answer 11 is accepted as a type, and quitting then loses the assembly. */
  lemma TypeElevenLoses(protos: set<int>, comps: seq<Component>)
    ensures (11 - 1) % 256 == 10 && QuitTable([Assembly(1, 0, [])], protos, 1, 10, comps) == []
  {
    hide QuitTable;
    var t := [Assembly(1, 0, [])];
    QuitOnMap(t, protos, 1, 10, comps);
    assert forall v :: v in ToMap(t) ==> v == 1 by {
      forall v | v in ToMap(t) ensures v == 1 {
        KeyIn(t, v);
      }
    }
    EmptyMap(QuitTable(t, protos, 1, 10, comps));
  }
}
