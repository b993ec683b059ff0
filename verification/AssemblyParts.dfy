/** assemblyCheckComponents: collecting the components of an assembly from a room and an inventory. */
module AssemblyParts {
  import opened CText
  import opened AssemblySpec
  import opened Assemblies

  datatype Obj = Obj(id: nat, vnum: int)

  /** get_obj_in_list_num: the first object of the list with this vnum. */
  function First(list: seq<Obj>, v: int): Option<Obj> {
    if list == [] then None else if list[0].vnum == v then Some(list[0]) else First(list[1..], v)
  }

  /** The list without its first object of this vnum. */
  function WithoutFirst(list: seq<Obj>, v: int): seq<Obj> {
    if list == [] then [] else if list[0].vnum == v then list[1..] else [list[0]] + WithoutFirst(list[1..], v)
  }

  /** Where component `c` has to be. */
  function Place(c: Component, room: seq<Obj>, inventory: seq<Obj>): seq<Obj> {
    if c.inRoom then room else inventory
  }

  /** Every component has a prototype and lies where it has to be. */
  predicate AllPresent(comps: seq<Component>, protos: set<int>, room: seq<Obj>, inventory: seq<Obj>) {
    forall i :: 0 <= i < |comps| ==>
        comps[i].vnum in protos && First(Place(comps[i], room, inventory), comps[i].vnum).Some?
  }

  /** The objects that components at a place use up or only need, taken from the original list. */
  function Taken(comps: seq<Component>, list: seq<Obj>, inRoom: bool, onlyExtract: bool): multiset<Obj> {
    if comps == [] then multiset{}
    else
      var n := |comps| - 1;
      var c := comps[n];
      var rest := Taken(comps[..n], list, inRoom, onlyExtract);
      if c.inRoom == inRoom && (onlyExtract ==> c.extract) && First(list, c.vnum).Some?
      then rest + multiset{First(list, c.vnum).value} else rest
  }

  lemma WithoutFirstIs(list: seq<Obj>, v: int)
    requires First(list, v).Some?
    ensures First(list, v).value.vnum == v
    ensures multiset(list) == multiset(WithoutFirst(list, v)) + multiset{First(list, v).value}
  {
    assert list == [list[0]] + list[1..];
    if list[0].vnum != v {
      WithoutFirstIs(list[1..], v);
    }
  }

  /** The object found is the first of its vnum, and taking it out leaves the others in their order; none is found
      exactly when none has that vnum. */
  lemma {:induction false} FirstIs(list: seq<Obj>, v: int) returns (k: nat)
    ensures match First(list, v)
            case None => (forall o :: o in list ==> o.vnum != v) && WithoutFirst(list, v) == list
            case Some(o) =>
              && k < |list| && list[k] == o && o.vnum == v && (forall i :: 0 <= i < k ==> list[i].vnum != v)
              && WithoutFirst(list, v) == list[..k] + list[k + 1..]
  {
    k := 0;
    if list != [] && list[0].vnum != v {
      var n := FirstIs(list[1..], v);
      k := n + 1;
    }
  }

  /** Of a duplicate-free list, exactly the first objects of the vnums of the components at this place are taken, each
      once. */
  lemma {:induction false} TakenIs(comps: seq<Component>, list: seq<Obj>, inRoom: bool, onlyExtract: bool, o: Obj)
    requires !Duplicates(comps)
    ensures Taken(comps, list, inRoom, onlyExtract)[o] ==
            if First(list, o.vnum) == Some(o) && Names(comps, inRoom, onlyExtract, o.vnum) then 1 else 0
  {
    if comps != [] {
      var n := |comps| - 1;
      TakenIs(comps[..n], list, inRoom, onlyExtract, o);
      var k := FirstIs(list, comps[n].vnum);
      NamesStep(comps, inRoom, onlyExtract, o.vnum);
    }
  }

  /** Some component of vnum `v` has to lie at this place, and is used up if only those count. */
  predicate Names(comps: seq<Component>, inRoom: bool, onlyExtract: bool, v: int) {
    exists c :: c in comps && c.vnum == v && c.inRoom == inRoom && (onlyExtract ==> c.extract)
  }

  lemma NamesStep(comps: seq<Component>, inRoom: bool, onlyExtract: bool, v: int)
    requires comps != [] && !Duplicates(comps)
    ensures var n := |comps| - 1; var c := comps[n];
      && !Duplicates(comps[..n]) && (c.vnum == v ==> !Names(comps[..n], inRoom, onlyExtract, v))
      && var last := c.vnum == v && c.inRoom == inRoom && (onlyExtract ==> c.extract);
      && (Names(comps, inRoom, onlyExtract, v) <==> Names(comps[..n], inRoom, onlyExtract, v) || last)
  {
    var n := |comps| - 1;
    assert comps == comps[..n] + [comps[n]];
    assert forall c :: c in comps[..n] ==> exists i :: 0 <= i < n && comps[i] == c;
  }

  /** Taking an object of one vnum does not change which object of another vnum comes first. */
  lemma FirstUnchanged(list: seq<Obj>, v: int, w: int)
    requires v != w
    ensures First(WithoutFirst(list, v), w) == First(list, w)
  {
    if list != [] && list[0].vnum != v {
      FirstUnchanged(list[1..], v, w);
      assert ([list[0]] + WithoutFirst(list[1..], v))[1..] == WithoutFirst(list[1..], v);
    }
  }

  /** The contents of a room, or what a character carries. */
  class Holder {
    var objs: seq<Obj>

    constructor (objs: seq<Obj>)
      ensures this.objs == objs
    {
      this.objs := objs;
    }

    /** Take the first object of vnum `v` out, if there is one. */
    method Take(v: int) returns (o: Option<Obj>)
      modifies this
      ensures o == First(old(objs), v)
      ensures objs == if o.Some? then WithoutFirst(old(objs), v) else old(objs)
    {
      o := First(objs, v);
      if o.Some? {
        objs := WithoutFirst(objs, v);
      }
    }

    /** obj_to_room and obj_to_char put the object in front. */
    method Put(o: Obj)
      modifies this
      ensures objs == [o] + old(objs)
    {
      objs := [o] + objs;
    }
  }

  /** The first `n` components are collected from the original lists, the later ones not touched. */
  ghost predicate Collected(comps: seq<Component>, n: nat, found: seq<Option<Obj>>, room0: seq<Obj>, inv0: seq<Obj>,
                            room: seq<Obj>, inv: seq<Obj>)
    requires n <= |comps| == |found|
  {
    && (forall j :: 0 <= j < |comps| ==>
          found[j] == if j < n then First(Place(comps[j], room0, inv0), comps[j].vnum) else None)
    && (forall j :: 0 <= j < n ==> found[j].Some?)
    && (forall j :: n <= j < |comps| ==>
          First(Place(comps[j], room, inv), comps[j].vnum) == First(Place(comps[j], room0, inv0), comps[j].vnum))
    && multiset(room) + Taken(comps[..n], room0, true, false) == multiset(room0)
    && multiset(inv) + Taken(comps[..n], inv0, false, false) == multiset(inv0)
  }

  lemma TakenStep(comps: seq<Component>, n: nat, list: seq<Obj>, inRoom: bool, onlyExtract: bool)
    requires n < |comps|
    ensures var rest := Taken(comps[..n], list, inRoom, onlyExtract);
      Taken(comps[..n + 1], list, inRoom, onlyExtract) ==
      if comps[n].inRoom == inRoom && (onlyExtract ==> comps[n].extract) && First(list, comps[n].vnum).Some?
      then rest + multiset{First(list, comps[n].vnum).value} else rest
  {
    assert comps[..n + 1][..n] == comps[..n];
  }

  /** Taking the next component. */
  lemma CollectStep(comps: seq<Component>, n: nat, found: seq<Option<Obj>>, room0: seq<Obj>, inv0: seq<Obj>,
                    room: seq<Obj>, inv: seq<Obj>)
    requires n < |comps| == |found| && !Duplicates(comps)
    requires Collected(comps, n, found, room0, inv0, room, inv)
    requires First(Place(comps[n], room, inv), comps[n].vnum).Some?
    ensures var c := comps[n]; var o := First(Place(c, room, inv), c.vnum);
      Collected(comps, n + 1, found[n := o], room0, inv0,
                if c.inRoom then WithoutFirst(room, c.vnum) else room,
                if c.inRoom then inv else WithoutFirst(inv, c.vnum))
  {
    hide Taken, First, WithoutFirst, Duplicates;
    var c := comps[n];
    BalanceStep(comps, n, room0, room, true);
    BalanceStep(comps, n, inv0, inv, false);
    LaterUnchanged(comps, n, Place(c, room, inv));
  }

  lemma LaterUnchanged(comps: seq<Component>, n: nat, list: seq<Obj>)
    requires n < |comps| && !Duplicates(comps)
    ensures forall j :: n < j < |comps| ==>
              First(WithoutFirst(list, comps[n].vnum), comps[j].vnum) == First(list, comps[j].vnum)
  {
    forall j | n < j < |comps|
      ensures First(WithoutFirst(list, comps[n].vnum), comps[j].vnum) == First(list, comps[j].vnum)
    {
      FirstUnchanged(list, comps[n].vnum, comps[j].vnum);
    }
  }

  /** What is left and what was taken still make up the original list. */
  lemma BalanceStep(comps: seq<Component>, n: nat, list0: seq<Obj>, list: seq<Obj>, inRoom: bool)
    requires n < |comps| && multiset(list) + Taken(comps[..n], list0, inRoom, false) == multiset(list0)
    requires comps[n].inRoom == inRoom ==> First(list, comps[n].vnum) == First(list0, comps[n].vnum) != None
    ensures multiset(if comps[n].inRoom == inRoom then WithoutFirst(list, comps[n].vnum) else list)
            + Taken(comps[..n + 1], list0, inRoom, false) == multiset(list0)
  {
    TakenStep(comps, n, list0, inRoom, false);
    if comps[n].inRoom == inRoom {
      WithoutFirstIs(list, comps[n].vnum);
    }
    hide Taken, First, WithoutFirst;
  }

  /** The first loop: take components until one is missing. `n` counts those taken. */
  method Collect(comps: seq<Component>, protos: set<int>, room: Holder, who: Holder, found: array<Option<Obj>>)
    returns (ok: bool, ghost n: nat)
    requires room != who && !Duplicates(comps) && found.Length == |comps|
    requires forall j :: 0 <= j < found.Length ==> found[j] == None
    modifies room, who, found
    ensures n <= |comps| && Collected(comps, n, found[..], old(room.objs), old(who.objs), room.objs, who.objs)
    ensures ok <==> AllPresent(comps, protos, old(room.objs), old(who.objs))
    ensures ok ==> n == |comps|
  {
    hide First, WithoutFirst, Taken, Collected, Duplicates;
    ghost var room0, inv0 := room.objs, who.objs;
    ok, n := true, 0;
    CollectedNone(comps, found[..], room0, inv0);
    var i := 0;
    while i < |comps| && ok
      invariant n <= i <= |comps| && (ok ==> i == n)
      invariant Collected(comps, n, found[..], room0, inv0, room.objs, who.objs)
      invariant forall j :: 0 <= j < n ==>
          comps[j].vnum in protos && First(Place(comps[j], room0, inv0), comps[j].vnum).Some?
      invariant !ok ==> !AllPresent(comps, protos, room0, inv0)
    {
      var c := comps[i];
      ghost var room1, inv1, found1 := room.objs, who.objs, found[..];
      CollectedNext(comps, n, found[..], room0, inv0, room1, inv1);
      if c.vnum !in protos {
        ok := false;
      } else {
        var o := None;
        if c.inRoom {
          o := room.Take(c.vnum);
        } else {
          o := who.Take(c.vnum);
        }
        if o == None {
          ok := false;
        } else {
          CollectStep(comps, n, found1, room0, inv0, room1, inv1);
          found[i] := o;
          assert found[..] == found1[n := o];
          n := n + 1;
        }
      }
      i := i + 1;
    }
  }

  lemma CollectedNone(comps: seq<Component>, found: seq<Option<Obj>>, room: seq<Obj>, inv: seq<Obj>)
    requires |found| == |comps| && forall j :: 0 <= j < |found| ==> found[j] == None
    ensures Collected(comps, 0, found, room, inv, room, inv)
  {
  }

  lemma CollectedNext(comps: seq<Component>, n: nat, found: seq<Option<Obj>>, room0: seq<Obj>, inv0: seq<Obj>,
                      room: seq<Obj>, inv: seq<Obj>)
    requires n < |comps| == |found| && Collected(comps, n, found, room0, inv0, room, inv)
    ensures First(Place(comps[n], room, inv), comps[n].vnum) == First(Place(comps[n], room0, inv0), comps[n].vnum)
    ensures found[n] == None
  {
  }

  /** Balance of the second loop at one place after `i` of the `n` collected components: what lies there,
      plus what was taken, plus what is used up, is what lay there plus what has been dealt with. */
  ghost predicate Settled(comps: seq<Component>, n: nat, i: nat, ok: bool, list0: seq<Obj>, list: seq<Obj>,
      inRoom: bool)
    requires n <= |comps| && i <= n
  {
    multiset(list) + Taken(comps[..n], list0, inRoom, false)
      + (if ok then Taken(comps[..i], list0, inRoom, true) else multiset{})
    == multiset(list0) + Taken(comps[..i], list0, inRoom, false)
  }

  /** One turn of the second loop at one place. */
  lemma SettleStep(comps: seq<Component>, n: nat, i: nat, ok: bool, list0: seq<Obj>, list: seq<Obj>, inRoom: bool)
    requires n <= |comps| && i < n && Settled(comps, n, i, ok, list0, list, inRoom)
    requires comps[i].inRoom == inRoom ==> First(list0, comps[i].vnum).Some?
    ensures Settled(comps, n, i + 1, ok, list0,
      if comps[i].inRoom == inRoom && !(comps[i].extract && ok)
      then [First(list0, comps[i].vnum).value] + list
      else list,
      inRoom)
  {
    hide Taken, First;
    TakenStep(comps, i, list0, inRoom, false);
    TakenStep(comps, i, list0, inRoom, true);
    if comps[i].inRoom == inRoom {
      var o := First(list0, comps[i].vnum).value;
      assert multiset([o] + list) == multiset{o} + multiset(list);
      var l, t := multiset(list), Taken(comps[..n], list0, inRoom, false);
      var e := if ok then Taken(comps[..i], list0, inRoom, true) else multiset{};
      var m := multiset{o};
      assert (m + l) + t + e == (l + t + e) + m;
      assert l + t + (e + m) == (l + t + e) + m;
      assert multiset(list0) + (Taken(comps[..i], list0, inRoom, false) + m)
          == (multiset(list0) + Taken(comps[..i], list0, inRoom, false)) + m;
    }
  }

  /** At the end the two sides balance without the components that were only needed. */
  lemma SettledAll(comps: seq<Component>, n: nat, ok: bool, list0: seq<Obj>, list: seq<Obj>, inRoom: bool)
    requires n <= |comps| && Settled(comps, n, n, ok, list0, list, inRoom)
    ensures multiset(list) + (if ok then Taken(comps[..n], list0, inRoom, true) else multiset{}) == multiset(list0)
  {
    hide Taken;
    Cancel(multiset(list) + (if ok then Taken(comps[..n], list0, inRoom, true) else multiset{}), multiset(list0),
           Taken(comps[..n], list0, inRoom, false));
  }

  lemma Cancel(a: multiset<Obj>, b: multiset<Obj>, t: multiset<Obj>)
    requires a + t == b + t
    ensures a == b
  {
    forall o: Obj ensures a[o] == b[o] {
      assert (a + t)[o] == (b + t)[o];
    }
  }

  /** The second loop: objects that are used up go, the others go back where they were. */
  method Settle(comps: seq<Component>, room: Holder, who: Holder, found: array<Option<Obj>>, ok: bool, ghost n: nat,
                ghost room0: seq<Obj>, ghost inv0: seq<Obj>)
    requires room != who && found.Length == |comps| && n <= |comps| && (ok ==> n == |comps|)
    requires Collected(comps, n, found[..], room0, inv0, room.objs, who.objs)
    modifies room, who
    ensures Settled(comps, n, n, ok, room0, room.objs, true)
    ensures Settled(comps, n, n, ok, inv0, who.objs, false)
  {
    var i := 0;
    ghost var parts := found[..];
    FoundIs(comps, n, parts, room0, inv0, room.objs, who.objs, ok);
    hide Taken, First, WithoutFirst, Collected, Settled;
    ghost var m := 0;
    while i < |comps|
      invariant i <= |comps| && found[..] == parts && m == if i < n then i else n
      invariant Settled(comps, n, m, ok, room0, room.objs, true)
      invariant Settled(comps, n, m, ok, inv0, who.objs, false)
    {
      assert found[i] == parts[i];
      if found[i] != None {
        var o := found[i].value;
        m := i + 1;
        SettleStep(comps, n, i, ok, room0, room.objs, true);
        SettleStep(comps, n, i, ok, inv0, who.objs, false);
        PutBack(comps[i], o, ok, room, who);
      }
      i := i + 1;
    }
  }

  /** A component that is used up is gone; another one is put back where it was. */
  method PutBack(c: Component, o: Obj, ok: bool, room: Holder, who: Holder)
    requires room != who
    modifies room, who
    ensures room.objs == if c.inRoom && !(c.extract && ok) then [o] + old(room.objs) else old(room.objs)
    ensures who.objs == if !c.inRoom && !(c.extract && ok) then [o] + old(who.objs) else old(who.objs)
  {
    if c.extract && ok {
    } else if c.inRoom {
      room.Put(o);
    } else {
      who.Put(o);
    }
  }

  lemma FoundIs(comps: seq<Component>, n: nat, found: seq<Option<Obj>>, room0: seq<Obj>, inv0: seq<Obj>,
                room: seq<Obj>, inv: seq<Obj>, ok: bool)
    requires n <= |comps| == |found| && Collected(comps, n, found, room0, inv0, room, inv)
    ensures Settled(comps, n, 0, ok, room0, room, true) && Settled(comps, n, 0, ok, inv0, inv, false)
    ensures forall j :: 0 <= j < |comps| ==> (found[j].Some? <==> j < n)
    ensures forall j :: 0 <= j < n ==> found[j] == First(Place(comps[j], room0, inv0), comps[j].vnum)
  {
  }

  function ComponentsOf(t: seq<Assembly>, v: int): seq<Component> {
    var k := IndexOf(t, v);
    if k == -1 then [] else t[k].comps
  }

  /** There are components, all have prototypes, and an object of each lies where it has to be. */
  ghost predicate Complete(comps: seq<Component>, protos: set<int>, room: seq<Obj>, inventory: seq<Obj>) {
    comps != [] && forall c :: c in comps ==>
        && c.vnum in protos
        && exists o: Obj :: o.vnum == c.vnum && o in if c.inRoom then room else inventory
  }

  lemma PresentIff(comps: seq<Component>, protos: set<int>, room: seq<Obj>, inventory: seq<Obj>)
    ensures Complete(comps, protos, room, inventory) <==> comps != [] && AllPresent(comps, protos, room, inventory)
  {
    hide First;
    forall i | 0 <= i < |comps|
      ensures First(Place(comps[i], room, inventory), comps[i].vnum).Some? <==>
              exists o: Obj :: o.vnum == comps[i].vnum && o in Place(comps[i], room, inventory)
    {
      var k := FirstIs(Place(comps[i], room, inventory), comps[i].vnum);
    }
  }

  /** One object is gone for each component that is used up at this place: the first of its vnum. The others, as
      many as there were, are still there. */
  ghost predicate UsedUp(comps: seq<Component>, before: seq<Obj>, after: seq<Obj>, inRoom: bool) {
    forall o: Obj ::
      multiset(after)[o] == multiset(before)[o] -
        if (exists c :: c in comps && c.vnum == o.vnum && c.inRoom == inRoom && c.extract) && FirstOfVnum(before, o)
        then 1 else 0
  }

  ghost predicate FirstOfVnum(list: seq<Obj>, o: Obj) {
    exists k :: 0 <= k < |list| && list[k] == o && forall i :: 0 <= i < k ==> list[i].vnum != o.vnum
  }

  lemma UsedUpIs(comps: seq<Component>, before: seq<Obj>, after: seq<Obj>, inRoom: bool)
    requires !Duplicates(comps)
    requires multiset(after) + Taken(comps, before, inRoom, true) == multiset(before)
    ensures UsedUp(comps, before, after, inRoom)
  {
    hide Taken, First, Duplicates;
    forall o: Obj
      ensures First(before, o.vnum) == Some(o) <==> FirstOfVnum(before, o)
      ensures multiset(after)[o] == multiset(before)[o] - Taken(comps, before, inRoom, true)[o]
      ensures Taken(comps, before, inRoom, true)[o] ==
              if First(before, o.vnum) == Some(o) && Names(comps, inRoom, true, o.vnum) then 1 else 0
    {
      var k := FirstIs(before, o.vnum);
      TakenIs(comps, before, inRoom, true, o);
      assert (multiset(after) + Taken(comps, before, inRoom, true))[o] == multiset(before)[o];
    }
  }

  /** All or nothing: it succeeds exactly when there are components and every one is present in its place.
      On failure room and inventory hold the same objects; on success exactly the used-up objects are gone. */
  method CheckComponents(engine: Engine, v: int, room: Holder, who: Holder) returns (ok: bool)
    requires engine.Valid() && room != who
    modifies room, who
    ensures var comps := ComponentsOf(engine.Contents(), v);
      && (ok <==> comps != [] && AllPresent(comps, engine.protos, old(room.objs), old(who.objs)))
      && (!ok ==> multiset(room.objs) == multiset(old(room.objs)) && multiset(who.objs) == multiset(old(who.objs)))
      && (ok ==> multiset(room.objs) + Taken(comps, old(room.objs), true, true) == multiset(old(room.objs)))
      && (ok ==> multiset(who.objs) + Taken(comps, old(who.objs), false, true) == multiset(old(who.objs)))
    ensures ok <==> Complete(ComponentsOf(engine.Contents(), v), engine.protos, old(room.objs), old(who.objs))
    ensures ok ==> UsedUp(ComponentsOf(engine.Contents(), v), old(room.objs), room.objs, true)
    ensures ok ==> UsedUp(ComponentsOf(engine.Contents(), v), old(who.objs), who.objs, false)
  {
    hide IndexOf, Taken, First, Collected;
    var k := engine.GetPtr(v);
    if k < 0 {
      return false;
    }
    var comps := engine.table[k].comps;
    if |comps| <= 0 {
      return false;
    }
    assert Good(engine.Contents()[k]);
    var found := new Option<Obj>[|comps|](_ => None);
    ghost var room0, inv0 := room.objs, who.objs;
    ghost var n;
    ok, n := Collect(comps, engine.protos, room, who, found);
    Settle(comps, room, who, found, ok, n, room0, inv0);
    SettledAll(comps, n, ok, room0, room.objs, true);
    SettledAll(comps, n, ok, inv0, who.objs, false);
    assert comps[..|comps|] == comps;
    PresentIff(comps, engine.protos, room0, inv0);
    if ok {
      UsedUpIs(comps, room0, room.objs, true);
      UsedUpIs(comps, inv0, who.objs, false);
    }
  }
}
