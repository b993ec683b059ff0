/** The assembly table as a sequence sorted by vnum, its operations, and the finite map it stands for. */
module AssemblySpec {
  import opened Sequences

  const MAX_ASSM: int := 10
  const NOTHING: int := -1

  datatype Component = Component(vnum: int, extract: bool, inRoom: bool)

  datatype Assembly = Assembly(vnum: int, kind: int, comps: seq<Component>)

  predicate Ascending(t: seq<Assembly>) {
    forall i, j :: 0 <= i < j < |t| ==> t[i].vnum < t[j].vnum
  }

  predicate Duplicates(comps: seq<Component>) {
    exists i, j :: 0 <= i < j < |comps| && comps[i].vnum == comps[j].vnum
  }

  predicate Good(a: Assembly) {
    a.vnum >= 0 && 0 <= a.kind < MAX_ASSM && !Duplicates(a.comps)
  }

  predicate ValidTable(t: seq<Assembly>) {
    Ascending(t) && forall i :: 0 <= i < |t| ==> Good(t[i])
  }

  /** Linear search by vnum, in a table or in a list of components. */
  function IndexBy<T>(s: seq<T>, vnum: T -> int, v: int): (k: int)
    ensures k == -1 ==> forall i :: 0 <= i < |s| ==> vnum(s[i]) != v
    ensures k != -1 ==> 0 <= k < |s| && vnum(s[k]) == v && forall i :: 0 <= i < k ==> vnum(s[i]) != v
  {
    if s == [] then -1
    else if vnum(s[0]) == v then 0
    else var k := IndexBy(s[1..], vnum, v); if k == -1 then -1 else k + 1
  }

  function IndexOf(t: seq<Assembly>, v: int): (k: int)
    ensures k == -1 ==> forall i :: 0 <= i < |t| ==> t[i].vnum != v
    ensures k != -1 ==> 0 <= k < |t| && t[k].vnum == v && forall i :: 0 <= i < k ==> t[i].vnum != v
  {
    IndexBy(t, (a: Assembly) => a.vnum, v)
  }

  function ComponentIndex(comps: seq<Component>, v: int): (k: int)
    ensures k == -1 ==> forall i :: 0 <= i < |comps| ==> comps[i].vnum != v
    ensures k != -1 ==> 0 <= k < |comps| && comps[k].vnum == v && forall i :: 0 <= i < k ==> comps[i].vnum != v
  {
    IndexBy(comps, (c: Component) => c.vnum, v)
  }

  /** How many assemblies of an ascending table lie below `v`. */
  function Rank(t: seq<Assembly>, v: int): (r: nat)
    ensures r <= |t|
  {
    if t == [] || t[0].vnum >= v then 0 else 1 + Rank(t[1..], v)
  }

  function Create(t: seq<Assembly>, v: int, kind: int): (bool, seq<Assembly>) {
    if v < 0 || kind < 0 || kind >= MAX_ASSM || IndexOf(t, v) != -1 then (false, t)
    else
      var p := Rank(t, v);
      (true, InsertAt(t, p, Assembly(v, kind, [])))
  }

  function Destroy(t: seq<Assembly>, v: int): (bool, seq<Assembly>) {
    var k := IndexOf(t, v);
    if k == -1 then (false, t) else (true, Without(t, k))
  }

  /** `protos` holds the vnums that real_object knows. */
  function Add(t: seq<Assembly>, protos: set<int>, v: int, c: Component): (bool, seq<Assembly>) {
    var k := IndexOf(t, v);
    if k == -1 || c.vnum !in protos || ComponentIndex(t[k].comps, c.vnum) != -1 then (false, t)
    else (true, t[k := t[k].(comps := t[k].comps + [c])])
  }

  function Remove(t: seq<Assembly>, v: int, part: int): (bool, seq<Assembly>) {
    var k := IndexOf(t, v);
    if k == -1 then (false, t)
    else
      var j := ComponentIndex(t[k].comps, part);
      if j == -1 then (false, t)
      else (true, t[k := t[k].(comps := Without(t[k].comps, j))])
  }

  // ---- The finite map ----

  type Table = map<int, (int, seq<Component>)>

  function ToMap(t: seq<Assembly>): (m: Table)
    requires Ascending(t)
    ensures forall i :: 0 <= i < |t| ==> t[i].vnum in m && m[t[i].vnum] == (t[i].kind, t[i].comps)
    ensures forall v :: v in m ==> IndexOf(t, v) != -1
  {
    map i | 0 <= i < |t| :: t[i].vnum := (t[i].kind, t[i].comps)
  }

  lemma IndexUnique(t: seq<Assembly>, i: nat)
    requires Ascending(t) && i < |t|
    ensures IndexOf(t, t[i].vnum) == i
  {
  }

  lemma RankSplits(t: seq<Assembly>, v: int)
    requires Ascending(t)
    ensures forall i :: 0 <= i < Rank(t, v) ==> t[i].vnum < v
    ensures forall i :: Rank(t, v) <= i < |t| ==> t[i].vnum >= v
  {
    if t != [] && t[0].vnum < v {
      RankSplits(t[1..], v);
    }
  }

  /** `m` is the map of a table if it agrees on every row and every key is in some row. */
  lemma MapIs(t: seq<Assembly>, m: Table)
    requires Ascending(t)
    requires forall i :: 0 <= i < |t| ==> t[i].vnum in m && m[t[i].vnum] == (t[i].kind, t[i].comps)
    requires forall v :: v in m ==> exists i :: 0 <= i < |t| && t[i].vnum == v
    ensures ToMap(t) == m
  {
    forall v | v in m ensures v in ToMap(t) && ToMap(t)[v] == m[v] {
      var i :| 0 <= i < |t| && t[i].vnum == v;
    }
  }

  /** The table is determined by its map: there is one right place for every assembly. */
  lemma {:induction false} MapDeterminesTable(t: seq<Assembly>, u: seq<Assembly>)
    requires Ascending(t) && Ascending(u) && ToMap(t) == ToMap(u)
    ensures t == u
    decreases |t|
  {
    EmptyMap(t);
    EmptyMap(u);
    if t != [] {
      assert t[0].vnum in ToMap(u);
      var k := IndexOf(u, t[0].vnum);
      assert u[0].vnum in ToMap(t);
      var j := IndexOf(t, u[0].vnum);
      assert k == 0 && j == 0;
      assert t[0] == u[0] by { assert ToMap(t)[t[0].vnum] == ToMap(u)[u[0].vnum]; }
      ToMapTail(t);
      ToMapTail(u);
      MapDeterminesTable(t[1..], u[1..]);
    }
  }

  lemma EmptyMap(t: seq<Assembly>)
    requires Ascending(t)
    ensures ToMap(t) == map[] <==> t == []
  {
    if t != [] { assert t[0].vnum in ToMap(t); }
  }

  lemma ToMapTail(t: seq<Assembly>)
    requires Ascending(t) && t != []
    ensures ToMap(t[1..]) == ToMap(t) - {t[0].vnum}
  {
    var m := ToMap(t) - {t[0].vnum};
    assert forall i :: 0 <= i < |t[1..]| ==> t[1..][i] == t[i + 1];
    forall v | v in m ensures exists i :: 0 <= i < |t[1..]| && t[1..][i].vnum == v {
      var k := IndexOf(t, v);
      assert t[1..][k - 1].vnum == v;
    }
    hide ToMap;
    MapIs(t[1..], m);
  }

  // ---- Operations on the map ----

  /** Linear search finds exactly the keys of the map. */
  lemma KeyIn(t: seq<Assembly>, v: int)
    requires Ascending(t)
    ensures v in ToMap(t) <==> IndexOf(t, v) != -1
    ensures v in ToMap(t) ==> ToMap(t)[v] == (t[IndexOf(t, v)].kind, t[IndexOf(t, v)].comps)
  {
  }

  lemma InsertMap(t: seq<Assembly>, p: nat, a: Assembly)
    requires Ascending(t) && p <= |t| && Ascending(InsertAt(t, p, a))
    requires forall i :: 0 <= i < |t| ==> t[i].vnum != a.vnum
    ensures ToMap(InsertAt(t, p, a)) == ToMap(t)[a.vnum := (a.kind, a.comps)]
  {
    hide ToMap, Ascending;
    var t' := InsertAt(t, p, a);
    var m := ToMap(t)[a.vnum := (a.kind, a.comps)];
    forall w | w in m ensures exists i :: 0 <= i < |t'| && t'[i].vnum == w {
      if w == a.vnum {
        assert t'[p].vnum == w;
      } else {
        var k := IndexOf(t, w);
        assert t'[if k < p then k else k + 1].vnum == w;
      }
    }
    forall i | 0 <= i < |t'| ensures t'[i].vnum in m && m[t'[i].vnum] == (t'[i].kind, t'[i].comps) {
      if i != p {
        var j := if i < p then i else i - 1;
        assert t'[i] == t[j];
      }
    }
    MapIs(t', m);
  }

  lemma CreateOnMap(t: seq<Assembly>, v: int, kind: int)
    requires ValidTable(t)
    ensures var (ok, t') := Create(t, v, kind);
      && ValidTable(t')
      && (ok <==> v >= 0 && 0 <= kind < MAX_ASSM && v !in ToMap(t))
      && ToMap(t') == if ok then ToMap(t)[v := (kind, [])] else ToMap(t)
  {
    var (ok, t') := Create(t, v, kind);
    if ok {
      var p := Rank(t, v);
      RankSplits(t, v);
      hide Rank;
      var a := Assembly(v, kind, []);
      hide InsertAt;
      assert ValidTable(t');
      InsertMap(t, p, a);
    }
  }

  lemma DestroyOnMap(t: seq<Assembly>, v: int)
    requires ValidTable(t)
    ensures var (ok, t') := Destroy(t, v);
      && ValidTable(t')
      && (ok <==> v in ToMap(t))
      && ToMap(t') == ToMap(t) - {v}
  {
    hide ToMap, IndexOf, Good, Ascending, Without;
    KeyIn(t, v);
    if Destroy(t, v).0 {
      CutMap(t, IndexOf(t, v));
    } else {
      MinusAbsent(ToMap(t), v);
    }
  }

  lemma MinusAbsent(m: Table, v: int)
    requires v !in m
    ensures m - {v} == m
  {
  }

  lemma CutMap(t: seq<Assembly>, k: nat)
    requires ValidTable(t) && k < |t|
    ensures ValidTable(Without(t, k)) && ToMap(Without(t, k)) == ToMap(t) - {t[k].vnum}
  {
    hide ToMap, Good, Ascending, Without;
    var t' := Without(t, k);
    CutAscending(t, k);
    var m := ToMap(t) - {t[k].vnum};
    forall w | w in m ensures exists i :: 0 <= i < |t'| && t'[i].vnum == w {
      var j := IndexOf(t, w);
      assert t'[if j < k then j else j - 1].vnum == w;
    }
    MapIs(t', m);
  }

  lemma CutAscending(t: seq<Assembly>, k: nat)
    requires Ascending(t) && k < |t|
    ensures Ascending(Without(t, k))
    ensures forall i :: 0 <= i < |t| && i != k ==> t[i].vnum != t[k].vnum
  {
    hide Without;
  }

  lemma UpdateValid(t: seq<Assembly>, k: nat, comps: seq<Component>)
    requires ValidTable(t) && k < |t| && !Duplicates(comps)
    ensures ValidTable(t[k := t[k].(comps := comps)])
    ensures forall i :: 0 <= i < |t| && i != k ==> t[i].vnum != t[k].vnum
  {
    hide Duplicates;
    assert Good(t[k]);
  }

  lemma UpdateOnMap(t: seq<Assembly>, k: nat, comps: seq<Component>)
    requires ValidTable(t) && k < |t| && !Duplicates(comps)
    ensures var t' := t[k := t[k].(comps := comps)];
      ValidTable(t') && ToMap(t') == ToMap(t)[t[k].vnum := (t[k].kind, comps)]
  {
    var t' := t[k := t[k].(comps := comps)];
    hide ToMap, Good, Ascending, Duplicates, IndexOf;
    UpdateValid(t, k, comps);
    var m := ToMap(t)[t[k].vnum := (t[k].kind, comps)];
    forall w | w in m ensures exists i :: 0 <= i < |t'| && t'[i].vnum == w {
      assert t'[if w == t[k].vnum then k else IndexOf(t, w)].vnum == w;
    }
    forall i | 0 <= i < |t'| ensures t'[i].vnum in m && m[t'[i].vnum] == (t'[i].kind, t'[i].comps) {
      assert t'[i].vnum == t[i].vnum && (i != k ==> t'[i] == t[i]);
    }
    MapIs(t', m);
  }

  lemma AddOnMap(t: seq<Assembly>, protos: set<int>, v: int, c: Component)
    requires ValidTable(t)
    ensures var (ok, t') := Add(t, protos, v, c); var m := ToMap(t);
      && ValidTable(t')
      && (ok <==> v in m && c.vnum in protos && forall i :: 0 <= i < |m[v].1| ==> m[v].1[i].vnum != c.vnum)
      && ToMap(t') == if ok then m[v := (m[v].0, m[v].1 + [c])] else m
  {
    KeyIn(t, v);
    hide ToMap, IndexOf, Ascending;
    var k := IndexOf(t, v);
    if Add(t, protos, v, c).0 {
      assert Good(t[k]);
      SnocNoDuplicates(t[k].comps, c);
      UpdateOnMap(t, k, t[k].comps + [c]);
    }
  }

  lemma SnocNoDuplicates(comps: seq<Component>, c: Component)
    requires !Duplicates(comps) && ComponentIndex(comps, c.vnum) == -1
    ensures !Duplicates(comps + [c])
  {
  }

  lemma CutNoDuplicates(comps: seq<Component>, j: nat)
    requires !Duplicates(comps) && j < |comps|
    ensures !Duplicates(Without(comps, j))
  {
    hide Without;
  }

  lemma RemoveOnMap(t: seq<Assembly>, v: int, part: int)
    requires ValidTable(t)
    ensures var (ok, t') := Remove(t, v, part); var m := ToMap(t);
      && ValidTable(t')
      && (ok <==> v in m && ComponentIndex(m[v].1, part) != -1)
      && ToMap(t') == if ok then
                        var j := ComponentIndex(m[v].1, part);
                        m[v := (m[v].0, Without(m[v].1, j))]
                      else m
  {
    KeyIn(t, v);
    hide ToMap, IndexOf, Ascending;
    var k := IndexOf(t, v);
    if Remove(t, v, part).0 {
      assert Good(t[k]);
      var j := ComponentIndex(t[k].comps, part);
      hide ComponentIndex;
      CutNoDuplicates(t[k].comps, j);
      hide Duplicates;
      UpdateOnMap(t, k, Without(t[k].comps, j));
    }
  }

  datatype Op =
    | OpCreate(v: int, kind: int)
    | OpDestroy(v: int)
    | OpAdd(v: int, c: Component)
    | OpRemove(v: int, part: int)

  function Step(t: seq<Assembly>, protos: set<int>, op: Op): seq<Assembly> {
    match op
    case OpCreate(v, kind) => Create(t, v, kind).1
    case OpDestroy(v) => Destroy(t, v).1
    case OpAdd(v, c) => Add(t, protos, v, c).1
    case OpRemove(v, part) => Remove(t, v, part).1
  }

  /** The same operation on the map, with the refusals of the engine. */
  function StepMap(m: Table, protos: set<int>, op: Op): Table {
    match op
    case OpCreate(v, kind) => if v >= 0 && 0 <= kind < MAX_ASSM && v !in m then m[v := (kind, [])] else m
    case OpDestroy(v) => m - {v}
    case OpAdd(v, c) =>
      if v in m && c.vnum in protos && (forall i :: 0 <= i < |m[v].1| ==> m[v].1[i].vnum != c.vnum)
      then m[v := (m[v].0, m[v].1 + [c])] else m
    case OpRemove(v, part) =>
      if v in m && ComponentIndex(m[v].1, part) != -1
      then var j := ComponentIndex(m[v].1, part); m[v := (m[v].0, Without(m[v].1, j))] else m
  }

  function Run(t: seq<Assembly>, protos: set<int>, ops: seq<Op>): seq<Assembly>
    decreases |ops|
  {
    if |ops| == 0 then t else Run(Step(t, protos, ops[0]), protos, ops[1..])
  }

  function RunMap(m: Table, protos: set<int>, ops: seq<Op>): Table
    decreases |ops|
  {
    if |ops| == 0 then m else RunMap(StepMap(m, protos, ops[0]), protos, ops[1..])
  }

  lemma StepOnMap(t: seq<Assembly>, protos: set<int>, op: Op)
    requires ValidTable(t)
    ensures ValidTable(Step(t, protos, op)) && ToMap(Step(t, protos, op)) == StepMap(ToMap(t), protos, op)
  {
    hide Create, Destroy, Add, Remove, ToMap, ValidTable;
    match op
    case OpCreate(v, kind) => CreateOnMap(t, v, kind);
    case OpDestroy(v) => DestroyOnMap(t, v);
    case OpAdd(v, c) => AddOnMap(t, protos, v, c);
    case OpRemove(v, part) => RemoveOnMap(t, v, part);
  }

  /** After any run the table is strictly ascending, its component lists have no duplicates, and it
      stands for the map that the same run makes. */
  lemma {:induction false} RunOnMap(t: seq<Assembly>, protos: set<int>, ops: seq<Op>)
    requires ValidTable(t)
    ensures ValidTable(Run(t, protos, ops)) && ToMap(Run(t, protos, ops)) == RunMap(ToMap(t), protos, ops)
    decreases |ops|
  {
    if |ops| > 0 {
      hide Step, StepMap, ToMap, ValidTable;
      StepOnMap(t, protos, ops[0]);
      RunOnMap(Step(t, protos, ops[0]), protos, ops[1..]);
    }
  }

  // ---- Adding components one by one ----

  predicate FirstOccurrence(comps: seq<Component>, i: nat)
    requires i < |comps|
  {
    forall j :: 0 <= j < i ==> comps[j].vnum != comps[i].vnum
  }

  /** Among the first `n` components, those with a prototype and no earlier namesake, in order. */
  function Kept(protos: set<int>, comps: seq<Component>, n: nat): seq<Component>
    requires n <= |comps|
  {
    if n == 0 then []
    else if comps[n - 1].vnum in protos && FirstOccurrence(comps, n - 1)
    then Kept(protos, comps, n - 1) + [comps[n - 1]]
    else Kept(protos, comps, n - 1)
  }

  lemma IndexSnoc(comps: seq<Component>, c: Component, v: int)
    ensures ComponentIndex(comps + [c], v) == -1 <==> ComponentIndex(comps, v) == -1 && c.vnum != v
  {
    var all := comps + [c];
    assert all[|comps|] == c && forall i :: 0 <= i < |comps| ==> all[i] == comps[i];
    hide ComponentIndex;
  }

  /** A vnum is missing from what is kept exactly when it has no prototype or was never there. */
  lemma {:induction false} KeptVnums(protos: set<int>, comps: seq<Component>, n: nat, v: int)
    requires n <= |comps|
    ensures ComponentIndex(Kept(protos, comps, n), v) == -1 <==>
            v !in protos || forall j :: 0 <= j < n ==> comps[j].vnum != v
  {
    if n > 0 {
      KeptVnums(protos, comps, n - 1, v);
      IndexSnoc(Kept(protos, comps, n - 1), comps[n - 1], v);
    }
  }

  lemma {:induction false} KeptPrefix(protos: set<int>, comps: seq<Component>, m: nat, n: nat)
    requires n <= m <= |comps|
    ensures Kept(protos, comps[..m], n) == Kept(protos, comps, n)
  {
    if n > 0 {
      KeptPrefix(protos, comps, m, n - 1);
      assert FirstOccurrence(comps[..m], n - 1) <==> FirstOccurrence(comps, n - 1);
    }
  }

  lemma {:induction false} KeptAll(protos: set<int>, comps: seq<Component>, n: nat)
    requires n <= |comps| && !Duplicates(comps) && forall i :: 0 <= i < |comps| ==> comps[i].vnum in protos
    ensures Kept(protos, comps, n) == comps[..n]
  {
    if n > 0 {
      KeptAll(protos, comps, n - 1);
      assert FirstOccurrence(comps, n - 1);
      assert comps[..n] == comps[..n - 1] + [comps[n - 1]];
    }
  }

  lemma KeptNone(protos: set<int>, comps: seq<Component>)
    ensures Kept(protos, comps, 0) == []
  {
  }

  lemma {:induction false} KeptProtos(protos: set<int>, comps: seq<Component>, n: nat)
    requires n <= |comps|
    ensures forall c :: c in Kept(protos, comps, n) ==> c.vnum in protos
  {
    if n > 0 { KeptProtos(protos, comps, n - 1); }
  }

  /** Of components without duplicates all are kept exactly when all have prototypes. */
  lemma KeptAllIff(protos: set<int>, comps: seq<Component>)
    requires !Duplicates(comps)
    ensures Kept(protos, comps, |comps|) == comps <==> forall i :: 0 <= i < |comps| ==> comps[i].vnum in protos
  {
    hide Kept, Duplicates;
    KeptProtos(protos, comps, |comps|);
    if forall i :: 0 <= i < |comps| ==> comps[i].vnum in protos {
      KeptAll(protos, comps, |comps|);
      assert comps[..|comps|] == comps;
    }
  }
}
