/** The slot allocator that all boards share: which slots the live posts hold, and how the
    bookkeeping changes when a slot is handed out or freed. */
module BoardSlots {
  import opened CText
  import opened BoardSpec

  function Range(n: nat): (r: set<int>)
    ensures forall s :: s in r <==> 0 <= s < n
    ensures |r| == n
  {
    if n == 0 then {} else Range(n - 1) + {n - 1}
  }

  ghost predicate Injective(m: map<nat, int>) {
    forall x, y :: x in m && y in m && m[x] == m[y] ==> x == y
  }

  lemma ValuesSize(m: map<nat, int>)
    requires Injective(m)
    ensures |m.Values| == |m|
  {
    if m != map[] {
      var k :| k in m;
      var rest := m - {k};
      ValuesSize(rest);
      assert m.Values == rest.Values + {m[k]} by {
        forall v | v in m.Values ensures v in rest.Values + {m[k]} {
          var x :| x in m && m[x] == v;
          assert x != k ==> x in rest && rest[x] == v;
        }
      }
      assert m[k] !in rest.Values;
      SizeMinus(m, k);
    }
  }

  /** Live posts (by id) hold distinct slots, abandoned writes hold others, and exactly these are
      marked taken; a slot that is not taken holds no text. */
  ghost predicate SlotsOk(slotOf: map<nat, int>, orphans: set<int>, taken: seq<bool>, storage: seq<Option<string>>) {
    && |taken| == |storage| == INDEX_SIZE
    && Injective(slotOf)
    && (forall id :: id in slotOf ==> 0 <= slotOf[id] < INDEX_SIZE && slotOf[id] !in orphans && taken[slotOf[id]])
    && (forall s :: s in orphans ==> 0 <= s < INDEX_SIZE && taken[s])
    && (forall s :: 0 <= s < INDEX_SIZE && taken[s] ==> s in slotOf.Values || s in orphans)
    && (forall s :: 0 <= s < INDEX_SIZE && !taken[s] ==> storage[s] == None)
  }

  predicate AllTaken(taken: seq<bool>) {
    forall s :: 0 <= s < |taken| ==> taken[s]
  }

  /** No slot is free exactly when live posts and abandoned writes fill the table. */
  lemma TakenCount(slotOf: map<nat, int>, orphans: set<int>, taken: seq<bool>, storage: seq<Option<string>>)
    requires SlotsOk(slotOf, orphans, taken, storage)
    ensures |slotOf| + |orphans| <= INDEX_SIZE
    ensures AllTaken(taken) <==> |slotOf| + |orphans| == INDEX_SIZE
  {
    ValuesSize(slotOf);
    SizesInRange(slotOf.Values, orphans, INDEX_SIZE);
    hide Injective;
    forall s | 0 <= s < INDEX_SIZE ensures taken[s] <==> s in slotOf.Values + orphans {
    }
  }

  lemma SizesInRange(a: set<int>, b: set<int>, n: nat)
    requires a !! b && forall s :: s in a + b ==> 0 <= s < n
    ensures |a| + |b| <= n
    ensures |a| + |b| == n <==> forall s :: 0 <= s < n ==> s in a + b
  {
    hide Range;
    Subset(a + b, Range(n));
    assert (forall s :: 0 <= s < n ==> s in a + b) <==> a + b == Range(n);
  }

  lemma Subset(a: set<int>, b: set<int>)
    requires a <= b
    ensures |a| <= |b| && (a != b ==> |a| < |b|)
  {
    assert b == a + (b - a) && a !! (b - a);
    if a != b { assert b - a != {}; }
  }

  /** The loop of find_slot. */
  function FirstFree(taken: seq<bool>): (s: int)
    ensures s == -1 ==> AllTaken(taken)
    ensures s != -1 ==> 0 <= s < |taken| && !taken[s] && forall t :: 0 <= t < s ==> taken[t]
  {
    FirstFreeFrom(taken, 0)
  }

  function FirstFreeFrom(taken: seq<bool>, i: nat): (s: int)
    requires i <= |taken| && forall t :: 0 <= t < i ==> taken[t]
    ensures s == -1 ==> AllTaken(taken)
    ensures s != -1 ==> i <= s < |taken| && !taken[s] && forall t :: 0 <= t < s ==> taken[t]
    decreases |taken| - i
  {
    if i == |taken| then -1 else if !taken[i] then i else FirstFreeFrom(taken, i + 1)
  }

  /** A free slot goes to a new post. */
  lemma SlotToPost(slotOf: map<nat, int>, orphans: set<int>, taken: seq<bool>, storage: seq<Option<string>>, s: int,
      id: nat, t: Option<string>)
    requires SlotsOk(slotOf, orphans, taken, storage) && 0 <= s < INDEX_SIZE && !taken[s] && id !in slotOf
    ensures SlotsOk(slotOf[id := s], orphans, taken[s := true], storage[s := t])
  {
    var m := slotOf[id := s];
    assert forall x :: x in m <==> x in slotOf || x == id;
    assert forall x :: x in slotOf ==> m[x] == slotOf[x] != s;
    assert Injective(m);
    hide Injective;
    forall u | 0 <= u < INDEX_SIZE && taken[s := true][u] ensures u in m.Values || u in orphans {
      if u == s {
        assert m[id] == s;
      } else if u in slotOf.Values {
        var x :| x in slotOf && slotOf[x] == u;
        assert m[x] == u;
      }
    }
  }

  /** A free slot is lost to a write without headline. */
  lemma SlotLost(slotOf: map<nat, int>, orphans: set<int>, taken: seq<bool>, storage: seq<Option<string>>, s: int)
    requires SlotsOk(slotOf, orphans, taken, storage) && 0 <= s < INDEX_SIZE && !taken[s]
    ensures SlotsOk(slotOf, orphans + {s}, taken[s := true], storage)
    ensures |orphans + {s}| == |orphans| + 1
  {
  }

  lemma SizePlus(m: map<nat, int>, id: nat, s: int)
    requires id !in m
    ensures |m[id := s]| == |m| + 1
  {
    assert m[id := s].Keys == m.Keys + {id};
    assert |m[id := s]| == |m[id := s].Keys| && |m| == |m.Keys|;
  }

  lemma SizeMinus(m: map<nat, int>, id: nat)
    requires id in m
    ensures |m - {id}| == |m| - 1
  {
    assert m.Keys == (m - {id}).Keys + {id};
    assert |m - {id}| == |(m - {id}).Keys| && |m| == |m.Keys|;
  }

  /** A removed post gives its slot back, without its text. */
  lemma SlotFreed(slotOf: map<nat, int>, orphans: set<int>, taken: seq<bool>, storage: seq<Option<string>>, id: nat)
    requires SlotsOk(slotOf, orphans, taken, storage) && id in slotOf
    ensures SlotsOk(slotOf - {id}, orphans, taken[slotOf[id] := false], storage[slotOf[id] := None])
  {
    var m, s := slotOf - {id}, slotOf[id];
    assert forall x :: x in m <==> x in slotOf && x != id;
    assert forall x :: x in m ==> m[x] == slotOf[x] != s;
    assert Injective(m);
    hide Injective;
    forall u | 0 <= u < INDEX_SIZE && u != s && taken[u] ensures u in m.Values || u in orphans {
      if u in slotOf.Values {
        var x :| x in slotOf && slotOf[x] == u;
        assert m[x] == u;
      }
    }
  }

  lemma SlotText(slotOf: map<nat, int>, orphans: set<int>, taken: seq<bool>, storage: seq<Option<string>>, id: nat,
      t: string)
    requires SlotsOk(slotOf, orphans, taken, storage) && id in slotOf
    ensures SlotsOk(slotOf, orphans, taken, storage[slotOf[id] := Some(t)])
  {
  }
}
