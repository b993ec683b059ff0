/** The assembly engine: a table that is reallocated on every change and searched by bisection. */
module Assemblies {
  import opened CText
  import opened AssemblySpec
  import opened Sequences

  class Engine {
    const protos: set<int>
    var table: array?<Assembly>
    var count: nat

    /** The rows of the table; there is no table exactly when there are no assemblies. */
    ghost function Contents(): seq<Assembly>
      reads this, table
    {
      if table == null then [] else table[..]
    }

    ghost predicate Valid()
      reads this, table
    {
      && (table == null <==> count == 0)
      && (table != null ==> table.Length == count)
      && ValidTable(Contents())
    }

    constructor (protos: set<int>)
      ensures Valid() && Contents() == [] && this.protos == protos
    {
      this.protos, table, count := protos, null, 0;
    }

    /** memmove of `n` rows. */
    static method Move(src: array<Assembly>, from: nat, dst: array<Assembly>, to: nat, n: nat)
      requires src != dst && from + n <= src.Length && to + n <= dst.Length
      modifies dst
      ensures dst[..to] == old(dst[..to]) && dst[to..to + n] == src[from..from + n]
          && dst[to + n..] == old(dst[to + n..])
    {
      var k := 0;
      while k < n
        invariant k <= n
        invariant dst[..to] == old(dst[..to]) && dst[to..to + k] == src[from..from + k]
            && dst[to + k..] == old(dst[to + k..])
      {
        dst[to + k] := src[from + k];
        k := k + 1;
      }
    }

    /** assemblyGetAssemblyIndex. The bounds may cross; halving then truncates toward zero, which
        keeps the probe inside the table. */
    method GetIndex(v: int) returns (k: int)
      requires Valid() && table != null
      ensures k == IndexOf(Contents(), v)
    {
      var bottom, top := 0, count - 1;
      while true
        invariant 0 <= bottom <= top + 1 <= count && bottom <= count - 1
        invariant forall i :: 0 <= i < bottom ==> table[i].vnum < v
        invariant forall i :: top < i < count ==> table[i].vnum > v
        decreases top - bottom + 1
      {
        var middle := Half(bottom + top);
        if table[middle].vnum == v {
          IndexUnique(Contents(), middle);
          return middle;
        } else if bottom >= top {
          return -1;
        } else if table[middle].vnum > v {
          top := middle - 1;
        } else {
          bottom := middle + 1;
        }
      }
    }

    /** assemblyGetAssemblyPtr, as a row number; -1 for a null pointer. */
    method GetPtr(v: int) returns (k: int)
      requires Valid()
      ensures k == IndexOf(Contents(), v)
    {
      if table == null {
        return -1;
      }
      k := GetIndex(v);
    }

    /** The search loop of assemblyCreate: where the new row goes, or None if the vnum is taken. */
    method FindPlace(v: int) returns (place: Option<nat>)
      requires Valid() && table != null
      ensures place == None <==> IndexOf(Contents(), v) != -1
      ensures place.Some? ==> place.value == Rank(Contents(), v)
    {
      var bottom, top, middle := 0, count - 1, 0;
      while true
        invariant 0 <= bottom <= top + 1 <= count && bottom <= count - 1
        invariant forall i :: 0 <= i < bottom ==> table[i].vnum < v
        invariant forall i :: top < i < count ==> table[i].vnum > v
        decreases top - bottom + 1
      {
        middle := Half(bottom + top);
        if table[middle].vnum == v {
          return None;
        } else if bottom >= top {
          break;
        } else if table[middle].vnum > v {
          top := middle - 1;
        } else {
          bottom := middle + 1;
        }
      }
      if table[middle].vnum <= v {
        middle := middle + 1;
      }
      RankIs(Contents(), v, middle);
      return Some(middle);
    }

    method Create(v: int, kind: int) returns (ok: bool)
      requires Valid()
      modifies this, table
      ensures table == old(table) || table == null || fresh(table)
      ensures Valid() && (ok, Contents()) == AssemblySpec.Create(old(Contents()), v, kind)
    {
      hide IndexOf, Rank, ToMap, ValidTable, InsertAt;
      CreateOnMap(Contents(), v, kind);
      if v < 0 || kind < 0 || kind >= MAX_ASSM {
        return false;
      }
      var middle := 0;
      if table == null {
        table := new Assembly[1](_ => Assembly(0, 0, []));
        count := 1;
      } else {
        var place := FindPlace(v);
        if place == None {
          return false;
        }
        middle := place.value;
        Grow(middle);
      }
      table[middle] := Assembly(v, kind, []);
      InsertAtIs(old(Contents()), middle, Assembly(v, kind, []), Contents());
      return true;
    }

    /** A new table with a gap at `middle`. */
    method Grow(middle: nat)
      requires table != null && table.Length == count && middle <= count
      modifies this
      ensures table != null && fresh(table) && table.Length == count == old(count) + 1
      ensures table[..middle] == old(table[..middle]) && table[middle + 1..] == old(table[middle..])
    {
      var newTable := new Assembly[count + 1](_ => Assembly(0, 0, []));
      Move(table, 0, newTable, 0, middle);
      ghost var first := newTable[..];
      assert first[..middle] == first[0..middle] == table[0..middle];
      Move(table, middle, newTable, middle + 1, count - middle);
      SamePrefix(newTable[..], first, middle);
      assert newTable[middle + 1..] == newTable[middle + 1..middle + 1 + (count - middle)];
      assert table[middle..] == table[middle..middle + (count - middle)];
      table, count := newTable, count + 1;
    }

    /** A copy of the table without row `index`. */
    method CopyWithout(index: nat) returns (rows: array<Assembly>)
      requires table != null && table.Length == count && index < count
      ensures fresh(rows) && rows[..] == Without(table[..], index)
    {
      rows := new Assembly[count - 1](_ => Assembly(0, 0, []));
      Move(table, 0, rows, 0, index);
      ghost var first := rows[..];
      Move(table, index + 1, rows, index, count - index - 1);
      assert rows[..index] == first[..index] == first[0..index] == table[0..index];
      assert rows[index..] == rows[index..count - 1] == table[index + 1..count];
      WithoutIs(table[..], index, rows[..]);
    }

    method Destroy(v: int) returns (ok: bool)
      requires Valid()
      modifies this
      ensures table == old(table) || table == null || fresh(table)
      ensures Valid() && (ok, Contents()) == AssemblySpec.Destroy(old(Contents()), v)
    {
      hide IndexOf, ToMap, Without, ValidTable;
      DestroyOnMap(Contents(), v);
      if table == null {
        return false;
      }
      var index := GetIndex(v);
      if index < 0 {
        return false;
      }
      var newTable: array?<Assembly> := null;
      if count > 1 {
        newTable := CopyWithout(index);
      }
      count := count - 1;
      table := newTable;
      assert Contents() == Without(old(Contents()), index);
      return true;
    }

    /** assemblyGetComponentIndex. */
    static method FindComponent(comps: seq<Component>, part: int) returns (j: int)
      ensures j == ComponentIndex(comps, part)
    {
      var i := 0;
      while i < |comps|
        invariant i <= |comps| && forall k :: 0 <= k < i ==> comps[k].vnum != part
      {
        if comps[i].vnum == part {
          return i;
        }
        i := i + 1;
      }
      return -1;
    }

    method AddComponent(v: int, c: Component) returns (ok: bool)
      requires Valid()
      modifies table
      ensures Valid() && (ok, Contents()) == Add(old(Contents()), protos, v, c)
    {
      hide IndexOf, ComponentIndex, ToMap;
      AddOnMap(Contents(), protos, v, c);
      var k := GetPtr(v);
      if k < 0 {
        return false;
      }
      if c.vnum !in protos {
        return false;
      }
      var j := FindComponent(table[k].comps, c.vnum);
      if j >= 0 {
        return false;
      }
      table[k] := table[k].(comps := table[k].comps + [c]);
      return true;
    }

    method RemoveComponent(v: int, part: int) returns (ok: bool)
      requires Valid()
      modifies table
      ensures Valid() && (ok, Contents()) == Remove(old(Contents()), v, part)
    {
      hide IndexOf, ComponentIndex, ToMap;
      RemoveOnMap(Contents(), v, part);
      var k := GetPtr(v);
      if k < 0 {
        return false;
      }
      var j := FindComponent(table[k].comps, part);
      if j < 0 {
        return false;
      }
      table[k] := table[k].(comps := table[k].comps[..j] + table[k].comps[j + 1..]);
      return true;
    }

    /** Any operations in turn are a run on the table. */
    method Obey(ops: seq<Op>)
      requires Valid()
      modifies this, table
      ensures table == old(table) || table == null || fresh(table)
      ensures Valid() && Contents() == Run(old(Contents()), protos, ops)
      decreases |ops|
    {
      hide AssemblySpec.Create, AssemblySpec.Destroy, Add, Remove, Valid, Contents;
      if |ops| > 0 {
        match ops[0] {
          case OpCreate(v, kind) => var _ := Create(v, kind);
          case OpDestroy(v) => var _ := Destroy(v);
          case OpAdd(v, c) => var _ := AddComponent(v, c);
          case OpRemove(v, part) => var _ := RemoveComponent(v, part);
        }
        Obey(ops[1..]);
      }
    }
  }

  lemma SamePrefix(a: seq<Assembly>, b: seq<Assembly>, k: nat)
    requires k < |a| && k < |b| && a[..k + 1] == b[..k + 1]
    ensures a[..k] == b[..k]
  {
    assert a[..k + 1][..k] == a[..k] && b[..k + 1][..k] == b[..k];
  }

  lemma InsertAtIs(t: seq<Assembly>, p: nat, a: Assembly, r: seq<Assembly>)
    requires p <= |t| && |r| == |t| + 1 && r[..p] == t[..p] && r[p] == a && r[p + 1..] == t[p..]
    ensures r == InsertAt(t, p, a)
  {
    assert r == r[..p] + [r[p]] + r[p + 1..];
  }

  lemma WithoutIs(t: seq<Assembly>, k: nat, r: seq<Assembly>)
    requires k < |t| && |r| == |t| - 1 && r[..k] == t[..k] && r[k..] == t[k + 1..]
    ensures r == Without(t, k)
  {
    assert r == r[..k] + r[k..];
  }

  lemma RankIs(t: seq<Assembly>, v: int, p: nat)
    requires Ascending(t) && p <= |t|
    requires forall i :: 0 <= i < p ==> t[i].vnum < v
    requires forall i :: p <= i < |t| ==> t[i].vnum > v
    ensures Rank(t, v) == p
  {
    if p > 0 { RankIs(t[1..], v, p - 1); }
  }
}
