/** The introductions a player remembers: an array of names that behaves as a list of bounded
    length, the most recently refreshed last. */
module Introductions {
  import opened CText
  import opened Collation
  import opened Sequences

  const MAX_INTROS: nat := 30

  /** Whom a player has met: a name and an introduction number. */
  datatype Intro = Intro(name: CString, num: int)

  /** The source compares names without regard to letter case. */
  predicate Same(a: Intro, b: Intro) { StrCmp(a.name, b.name) == 0 && a.num == b.num }

  predicate Member(list: seq<Intro>, k: Intro) {
    exists i :: 0 <= i < |list| && Same(list[i], k)
  }

  predicate Distinct(list: seq<Intro>) {
    forall i, j :: 0 <= i < j < |list| ==> !Same(list[i], list[j])
  }

  /** The list without its entries for `k`, the others in order. */
  function Others(list: seq<Intro>, k: Intro): seq<Intro> {
    if list == [] then [] else (if Same(list[0], k) then [] else [list[0]]) + Others(list[1..], k)
  }

  /** A new entry at the recent end; a full list loses its oldest entry. */
  function Push(list: seq<Intro>, k: Intro): seq<Intro> {
    if |list| < MAX_INTROS then list + [k] else list[1..] + [k]
  }

  // ---- What greeting and introducing mean for the list of one player ----

  /** The list after pop_off_intro. Its search goes on one place after the entry it has just taken out, so of two
      neighbouring entries for `k` it overlooks the second. */
  function Popped(list: seq<Intro>, k: Intro): seq<Intro> {
    if list == [] then []
    else if !Same(list[0], k) then [list[0]] + Popped(list[1..], k)
    else if |list| == 1 then []
    else [list[1]] + Popped(list[2..], k)
  }

  /** `always` covers the cases that do not look at the list: immortals, and a player and himself. */
  function Greet(list: seq<Intro>, k: Intro, always: bool): seq<Intro> {
    if always || Member(list, k) then Push(Popped(list, k), k) else list
  }

  function Introduce(list: seq<Intro>, k: Intro, always: bool): seq<Intro> {
    if always || Member(list, k) then list else Push(list, k)
  }

  /** An introduction by a mobile, whom nobody is ever found to know, is always added. */
  datatype Op = OpGreet(k: Intro, always: bool) | OpIntroduce(k: Intro, always: bool) | OpMobile(k: Intro)

  function Step(list: seq<Intro>, op: Op): seq<Intro> {
    match op
    case OpGreet(k, always) => Greet(list, k, always)
    case OpIntroduce(k, always) => Introduce(list, k, always)
    case OpMobile(k) => Push(list, k)
  }

  function Run(list: seq<Intro>, ops: seq<Op>): seq<Intro>
    decreases |ops|
  {
    if |ops| == 0 then list else Run(Step(list, ops[0]), ops[1..])
  }

  lemma SameEquivalence(a: Intro, b: Intro, c: Intro)
    ensures Same(a, a)
    ensures Same(a, b) ==> Same(b, a)
    ensures Same(a, b) && Same(b, c) ==> Same(a, c)
  {
    hide StrCmp;
    StrCmpSwap(a.name, a.name);
    StrCmpSwap(a.name, b.name);
    StrCmpSwap(b.name, c.name);
    StrCmpSwap(a.name, c.name);
    if StrCmp(a.name, b.name) == 0 && StrCmp(b.name, c.name) == 0 {
      StrCmpTransitive(a.name, b.name, c.name);
      StrCmpTransitive(c.name, b.name, a.name);
    }
  }

  /** Two entries are the same when the numbers are, and the names letter by letter, case aside. */
  lemma SameIff(a: Intro, b: Intro)
    ensures Same(a, b) <==>
      && a.num == b.num && |a.name| == |b.name|
      && forall i :: 0 <= i < |a.name| ==> Lower(a.name[i]) == Lower(b.name[i])
  {
    hide StrCmp;
    EqualIff(a.name, b.name);
  }

  /** The thirty most recent entries. */
  function LastThirty(l: seq<Intro>): seq<Intro> {
    if |l| > 30 then l[|l| - 30..] else l
  }

  /** Leaving out the entries for `k` goes through a list from front to back. */
  lemma {:induction false} OthersConcat(x: seq<Intro>, y: seq<Intro>, k: Intro)
    ensures Others(x + y, k) == Others(x, k) + Others(y, k)
    ensures |x| == 1 ==> Others(x, k) == if Same(x[0], k) then [] else x
  {
    hide Same;
    if x == [] {
      assert x + y == y;
    } else {
      assert (x + y)[1..] == x[1..] + y;
      OthersConcat(x[1..], y, k);
    }
  }

  lemma {:induction false} OthersFacts(list: seq<Intro>, k: Intro)
    ensures !Member(Others(list, k), k) && |Others(list, k)| <= |list|
    ensures Member(list, k) ==> |Others(list, k)| < |list|
    ensures !Member(list, k) ==> Others(list, k) == list
    ensures forall x :: x in Others(list, k) ==> x in list
    ensures Distinct(list) ==> Distinct(Others(list, k))
  {
    hide Same;
    if list != [] {
      var rest := list[1..];
      OthersFacts(rest, k);
      assert forall i :: 0 <= i < |rest| ==> rest[i] == list[i + 1];
      if Distinct(list) {
        assert Distinct(rest);
        assert forall x :: x in Others(rest, k) ==> !Same(list[0], x);
      }
      if Member(rest, k) {
        var i :| 0 <= i < |rest| && Same(rest[i], k);
        assert Same(list[i + 1], k);
      }
    }
  }

  /** Two neighbouring entries for `k`. */
  predicate Twins(list: seq<Intro>, k: Intro) {
    exists i :: 0 <= i < |list| - 1 && Same(list[i], k) && Same(list[i + 1], k)
  }

  lemma TwinsTail(list: seq<Intro>, k: Intro, n: nat)
    requires n <= |list|
    ensures Twins(list[n..], k) ==> Twins(list, k)
    ensures (forall i :: 0 <= i < n && i < |list| - 1 ==> !Same(list[i], k) || !Same(list[i + 1], k)) ==>
              Twins(list, k) ==> Twins(list[n..], k)
  {
    hide Same;
    if Twins(list[n..], k) {
      var i :| 0 <= i < |list[n..]| - 1 && Same(list[n..][i], k) && Same(list[n..][i + 1], k);
      assert Same(list[n + i], k) && Same(list[n + i + 1], k);
    }
    if Twins(list, k) {
      var i :| 0 <= i < |list| - 1 && Same(list[i], k) && Same(list[i + 1], k);
      if i >= n {
        assert Same(list[n..][i - n], k) && Same(list[n..][i - n + 1], k);
      }
    }
  }

  lemma {:induction false} PoppedWithoutTwins(list: seq<Intro>, k: Intro)
    requires !Twins(list, k)
    ensures Popped(list, k) == Others(list, k)
  {
    hide Same;
    if list == [] {
    } else if !Same(list[0], k) || |list| == 1 {
      TwinsTail(list, k, 1);
      PoppedWithoutTwins(list[1..], k);
    } else {
      TwinsTail(list, k, 2);
      PoppedWithoutTwins(list[2..], k);
      assert list[1..][1..] == list[2..];
      assert Others(list[1..], k) == [list[1]] + Others(list[2..], k);
    }
  }

  lemma {:induction false} PoppedWithTwins(list: seq<Intro>, k: Intro)
    requires Twins(list, k)
    ensures Member(Popped(list, k), k)
  {
    hide Same;
    var n := if Same(list[0], k) then 2 else 1;
    var head := if Same(list[0], k) then list[1] else list[0];
    assert Popped(list, k) == [head] + Popped(list[n..], k);
    if Same(head, k) {
      assert Same(Popped(list, k)[0], k);
    } else {
      TwinsTail(list, k, n);
      PoppedWithTwins(list[n..], k);
      var i :| 0 <= i < |Popped(list[n..], k)| && Same(Popped(list[n..], k)[i], k);
      assert Same(Popped(list, k)[i + 1], k);
    }
  }

  /** Taking someone out leaves exactly the others unless two of his entries are neighbours. */
  lemma PoppedIff(list: seq<Intro>, k: Intro)
    ensures Popped(list, k) == Others(list, k) <==> !Twins(list, k)
    ensures Distinct(list) ==> !Twins(list, k)
  {
    hide Same;
    OthersFacts(list, k);
    if Twins(list, k) {
      PoppedWithTwins(list, k);
      var i :| 0 <= i < |list| - 1 && Same(list[i], k) && Same(list[i + 1], k);
      SameEquivalence(list[i + 1], k, k);
      SameEquivalence(list[i], k, list[i + 1]);
    } else {
      PoppedWithoutTwins(list, k);
    }
  }

  /** Of a run of neighbouring entries for `k` every second one stays, and the search goes on after the run. */
  lemma {:induction false} EverySecondStays(twins: seq<Intro>, rest: seq<Intro>, k: Intro)
    requires forall i :: 0 <= i < |twins| ==> Same(twins[i], k)
    requires rest != [] ==> !Same(rest[0], k)
    ensures Popped(twins + rest, k) ==
            seq(|twins| / 2, i requires 0 <= i < |twins| / 2 => twins[2 * i + 1]) + Popped(rest, k)
    ensures rest != [] ==> Popped(rest, k) == [rest[0]] + Popped(rest[1..], k)
    decreases |twins|
  {
    hide Same;
    var s := twins + rest;
    if |twins| >= 2 {
      assert s[2..] == twins[2..] + rest && s[1] == twins[1];
      EverySecondStays(twins[2..], rest, k);
    } else if |twins| == 1 {
      assert s[1..] == rest;
      if rest != [] { assert s[2..] == rest[1..]; }
    } else {
      assert s == rest;
    }
  }

  /** Of two neighbouring entries one stays. */
  lemma TwinStays(k: Intro)
    ensures Popped([k, k], k) == [k] && Others([k, k], k) == []
  {
    hide Same;
    SameEquivalence(k, k, k);
    assert [k, k][1..] == [k] && [k, k][2..] == [] && [k][1..] == [];
    assert Others([k], k) == [] + Others([], k);
  }

  lemma {:induction false} PoppedShorter(list: seq<Intro>, k: Intro)
    ensures |Popped(list, k)| <= |list|
  {
    hide Same;
    if list != [] {
      PoppedShorter(list[1..], k);
      if |list| > 1 { PoppedShorter(list[2..], k); }
    }
  }

  /** What a full list keeps when something is added. */
  function Room(list: seq<Intro>): seq<Intro> {
    if |list| < MAX_INTROS then list else list[1..]
  }

  /** Adding an entry makes a duplicate exactly when what the list keeps has one already or knows the entry. */
  lemma PushDistinctIff(list: seq<Intro>, k: Intro)
    requires |list| <= MAX_INTROS
    ensures Push(list, k) == Room(list) + [k] == LastThirty(list + [k]) && |Push(list, k)| <= MAX_INTROS
    ensures Distinct(Push(list, k)) <==> Distinct(Room(list)) && !Member(Room(list), k)
  {
    hide Same;
    var room, all := Room(list), Push(list, k);
    assert forall i :: 0 <= i < |room| ==> all[i] == room[i];
    if Distinct(all) {
      assert forall i :: 0 <= i < |room| ==> !Same(all[i], all[|room|]);
    }
  }

  lemma RoomKeeps(list: seq<Intro>, k: Intro)
    requires |list| <= MAX_INTROS
    ensures Distinct(list) ==> Distinct(Room(list))
    ensures Member(Room(list), k) ==> Member(list, k)
  {
    hide Same;
    assert forall i :: 0 <= i < |Room(list)| ==> Room(list)[i] == list[if |list| < MAX_INTROS then i else i + 1];
  }

  /** A refreshed entry moves to the recent end and the others keep their order. Nobody is forgotten when the
      entry was in the list; otherwise a full list forgets only the oldest. */
  lemma GreetMoves(list: seq<Intro>, k: Intro, always: bool)
    requires |list| <= MAX_INTROS && Distinct(list)
    ensures var list' := Greet(list, k, always);
      && |list'| <= MAX_INTROS && Distinct(list')
      && (Member(list, k) ==> list' == Others(list, k) + [k])
      && (!Member(list, k) && always ==> list' == LastThirty(list + [k]))
      && (!Member(list, k) && !always ==> list' == list)
  {
    hide Same, Distinct, Member, Twins, Others, Popped;
    OthersFacts(list, k);
    PoppedIff(list, k);
    PushDistinctIff(Others(list, k), k);
    RoomKeeps(Others(list, k), k);
  }

  lemma IntroduceAppends(list: seq<Intro>, k: Intro, always: bool)
    requires |list| <= MAX_INTROS && Distinct(list)
    ensures |Introduce(list, k, always)| <= MAX_INTROS && Distinct(Introduce(list, k, always))
    ensures always || Member(Introduce(list, k, always), k)
    ensures Introduce(list, k, always) == if always || Member(list, k) then list else LastThirty(list + [k])
  {
    hide Distinct;
    PushDistinctIff(list, k);
    RoomKeeps(list, k);
    SameEquivalence(k, k, k);
    var list' := Introduce(list, k, always);
    if !always && !Member(list, k) {
      assert Same(list'[|list'| - 1], k);
    }
  }

  /** A mobile introduces itself to someone whose list, as far as it is kept, knows it: the guards for players
      prevent this, but nobody is ever found to know a mobile. */
  predicate Repeats(list: seq<Intro>, op: Op) {
    op.OpMobile? && Member(Room(list), op.k)
  }

  /** A step leaves a list free of duplicates exactly when it is not such a repetition. */
  lemma StepDistinctIff(list: seq<Intro>, op: Op)
    requires |list| <= MAX_INTROS
    ensures |Step(list, op)| <= MAX_INTROS
    ensures Distinct(list) ==> (Distinct(Step(list, op)) <==> !Repeats(list, op))
  {
    hide Distinct, Popped, Others, Same;
    PoppedShorter(list, op.k);
    PushDistinctIff(list, op.k);
    PushDistinctIff(Popped(list, op.k), op.k);
    if Distinct(list) {
      RoomKeeps(list, op.k);
      if !op.OpMobile? {
        GreetMoves(list, op.k, op.always);
        IntroduceAppends(list, op.k, op.always);
      }
    }
  }

  lemma {:induction false} RunSnoc(list: seq<Intro>, ops: seq<Op>, n: nat)
    requires n < |ops|
    ensures Run(list, ops[..n + 1]) == Step(Run(list, ops[..n]), ops[n])
    decreases n
  {
    hide Step;
    assert ops[..n + 1][0] == ops[0];
    if n > 0 {
      RunSnoc(Step(list, ops[0]), ops[1..], n - 1);
      assert ops[..n + 1][1..] == ops[1..][..n] && ops[..n][1..] == ops[1..][..n - 1];
    } else {
      assert ops[..1][1..] == [] && ops[..0] == [];
    }
  }

  lemma {:induction false} RunBounded(list: seq<Intro>, ops: seq<Op>, n: nat)
    requires |list| <= MAX_INTROS && n <= |ops|
    ensures |Run(list, ops[..n])| <= MAX_INTROS
  {
    hide Step;
    if n > 0 {
      RunBounded(list, ops, n - 1);
      RunSnoc(list, ops, n - 1);
      StepDistinctIff(Run(list, ops[..n - 1]), ops[n - 1]);
    }
  }

  /** Every run keeps the list within bounds. It is free of duplicates all along the run exactly when it is so at the
      start and no mobile repeats itself; without mobiles, always. */
  lemma RunDistinctIff(list: seq<Intro>, ops: seq<Op>)
    requires |list| <= MAX_INTROS
    ensures forall n :: 0 <= n <= |ops| ==> |Run(list, ops[..n])| <= MAX_INTROS
    ensures (forall n :: 0 <= n <= |ops| ==> Distinct(Run(list, ops[..n]))) <==>
            Distinct(list) && forall n :: 0 <= n < |ops| ==> !Repeats(Run(list, ops[..n]), ops[n])
    ensures Distinct(list) && (forall n :: 0 <= n < |ops| ==> !ops[n].OpMobile?) ==> Distinct(Run(list, ops))
  {
    hide Step, Distinct, Run;
    forall n | 0 <= n <= |ops| ensures |Run(list, ops[..n])| <= MAX_INTROS {
      RunBounded(list, ops, n);
    }
    RunNothing(list, ops);
    if forall n :: 0 <= n <= |ops| ==> Distinct(Run(list, ops[..n])) {
      forall n | 0 <= n < |ops| ensures !Repeats(Run(list, ops[..n]), ops[n]) {
        RunSnoc(list, ops, n);
        StepDistinctIff(Run(list, ops[..n]), ops[n]);
        assert Distinct(Run(list, ops[..n + 1]));
      }
    }
    if Distinct(list) && forall n :: 0 <= n < |ops| ==> !Repeats(Run(list, ops[..n]), ops[n]) {
      forall n | 0 <= n <= |ops| ensures Distinct(Run(list, ops[..n])) {
        RunStaysDistinct(list, ops, n);
      }
    }
  }

  lemma RunNothing(list: seq<Intro>, ops: seq<Op>)
    ensures Run(list, ops[..0]) == list && ops[..|ops|] == ops
  {
  }

  lemma {:induction false} RunStaysDistinct(list: seq<Intro>, ops: seq<Op>, n: nat)
    requires |list| <= MAX_INTROS && Distinct(list) && n <= |ops|
    requires forall m :: 0 <= m < n ==> !Repeats(Run(list, ops[..m]), ops[m])
    ensures Distinct(Run(list, ops[..n]))
  {
    hide Step, Distinct, Run, Repeats;
    RunNothing(list, ops);
    if n > 0 {
      RunStaysDistinct(list, ops, n - 1);
      RunBounded(list, ops, n - 1);
      RunSnoc(list, ops, n - 1);
      StepDistinctIff(Run(list, ops[..n - 1]), ops[n - 1]);
    }
  }

  /** A mobile that introduces itself twice to someone who knows nobody. */
  lemma MobileTwice(k: Intro)
    ensures Run([], [OpMobile(k), OpMobile(k)]) == [k, k] && !Distinct([k, k])
  {
    hide Same;
    SameEquivalence(k, k, k);
    var ops := [OpMobile(k), OpMobile(k)];
    assert ops[1..] == [OpMobile(k)] && [OpMobile(k)][1..] == [];
    assert Step([], ops[0]) == [k] && Step([k], OpMobile(k)) == [k, k];
    assert Run([k], [OpMobile(k)]) == Run([k, k], []);
    var twice := [k, k];
    assert Same(twice[0], twice[1]);
  }

  // ---- The array ----

  /** The list that the search of pop_off_intro still leads to, from place `i` on. */
  function PoppedFrom(list: seq<Intro>, i: nat, k: Intro): seq<Intro> {
    if i <= |list| then list[..i] + Popped(list[i..], k) else list
  }

  lemma PoppedStep(list: seq<Intro>, i: nat, k: Intro)
    requires i < |list|
    ensures PoppedFrom(list, i, k) == PoppedFrom(if Same(list[i], k) then Without(list, i) else list, i + 1, k)
  {
    hide Same;
    assert list[i..][1..] == list[i + 1..];
    if Same(list[i], k) && i + 1 < |list| {
      assert list[i..][2..] == list[i + 2..] == Without(list, i)[i + 1..];
      assert Without(list, i)[..i + 1] == list[..i] + [list[i + 1]];
    }
  }

  lemma PoppedStart(list: seq<Intro>, k: Intro)
    ensures PoppedFrom(list, 0, k) == Popped(list, k)
  {
    assert list[0..] == list;
  }

  lemma PoppedEnd(list: seq<Intro>, i: nat, k: Intro)
    requires |list| <= i
    ensures PoppedFrom(list, i, k) == list
  {
  }

  class IntroArray {
    const names: array<CString>
    const nums: array<int>
    ghost var list: seq<Intro>

    /** The list fills the front of the array without gaps; the rest is empty names. */
    ghost predicate Shows(l: seq<Intro>)
      reads names, nums
    {
      && names.Length == nums.Length == MAX_INTROS && |l| <= MAX_INTROS
      && (forall i :: 0 <= i < |l| ==> names[i] != "" && names[i] == l[i].name && nums[i] == l[i].num)
      && (forall i :: |l| <= i < MAX_INTROS ==> names[i] == "")
    }

    ghost predicate Valid()
      reads this, names, nums
    {
      Shows(list)
    }

    constructor ()
      ensures Valid() && list == [] && fresh(names) && fresh(nums)
    {
      names := new CString[MAX_INTROS](_ => "");
      nums := new int[MAX_INTROS](_ => 0);
      list := [];
    }

    /** The search of known_player. */
    method Find(k: Intro) returns (found: bool)
      requires Valid() && k.name != ""
      ensures found == Member(list, k)
    {
      var i := 0;
      while i < MAX_INTROS
        invariant i <= MAX_INTROS && forall x :: 0 <= x < i && x < |list| ==> !Same(list[x], k)
      {
        EmptyDiffers(k);
        if StrCmp(names[i], k.name) == 0 && nums[i] == k.num {
          assert Same(list[i], k);
          return true;
        }
        i := i + 1;
      }
      return false;
    }

    /** The inner loop of pop_off_intro: the entries after place `i` move down one place. */
    method ShiftDown(i: nat)
      requires Shows(list) && i < |list|
      modifies this, names, nums
      ensures Shows(list) && list == Without(old(list), i)
    {
      hide Without;
      ghost var l := list;
      var j := i + 1;
      while j < MAX_INTROS && names[j - 1] != ""
        invariant i < j <= MAX_INTROS && j - 1 <= |l|
        invariant forall x :: 0 <= x < MAX_INTROS ==>
          names[x] == (if i <= x < j - 1 then old(names[x + 1]) else old(names[x])) &&
          nums[x] == (if i <= x < j - 1 then old(nums[x + 1]) else old(nums[x]))
      {
        names[j - 1], nums[j - 1] := names[j], nums[j];
        j := j + 1;
      }
      if j == MAX_INTROS {
        names[MAX_INTROS - 1], nums[MAX_INTROS - 1] := "", 0;
      }
      list := Without(l, i);
    }

    /** One turn of the outer loop of pop_off_intro. */
    method Visit(i: nat, k: Intro)
      requires Valid() && k.name != "" && i < MAX_INTROS
      modifies this, names, nums
      ensures Valid() && PoppedFrom(list, i + 1, k) == PoppedFrom(old(list), i, k)
    {
      hide Same, Popped, PoppedFrom, Without;
      EmptyDiffers(k);
      if i < |list| {
        SameNames(list[i], k);
        PoppedStep(list, i, k);
      } else {
        PoppedEnd(list, i, k);
        PoppedEnd(list, i + 1, k);
      }
      if StrCmp(names[i], k.name) == 0 && nums[i] == k.num {
        ShiftDown(i);
      }
    }

    /** pop_off_intro, for someone who is known. */
    method Pop(k: Intro)
      requires Valid() && k.name != ""
      modifies this, names, nums
      ensures Valid() && list == Popped(old(list), k)
    {
      hide Same, Popped, PoppedFrom;
      PoppedStart(list, k);
      var i := 0;
      while i < MAX_INTROS
        invariant i <= MAX_INTROS && Valid() && PoppedFrom(list, i, k) == Popped(old(list), k)
      {
        Visit(i, k);
        i := i + 1;
      }
      PoppedEnd(list, i, k);
    }

    /** add_to_intro: the first empty place, or the last one after everything has moved down. */
    method Add(k: Intro)
      requires Valid() && k.name != ""
      modifies this, names, nums
      ensures Valid() && list == Push(old(list), k)
    {
      hide Push;
      PushMeans(list, k);
      ghost var l := list;
      var i := 0;
      while i < MAX_INTROS
        invariant i <= |l| && Shows(l) && list == l
      {
        if names[i] == "" {
          names[i], nums[i] := k.name, k.num;
          list := l + [k];
          return;
        }
        i := i + 1;
      }
      MakeRoom(k);
    }

    /** A full list loses its oldest entry. */
    method MakeRoom(k: Intro)
      requires Valid() && k.name != "" && |list| == MAX_INTROS
      modifies this, names, nums
      ensures Valid() && list == old(list)[1..] + [k]
    {
      ghost var l := list;
      var i := 0;
      while i < MAX_INTROS - 1
        invariant i <= MAX_INTROS - 1
        invariant forall x :: 0 <= x < MAX_INTROS ==>
          names[x] == (if x < i then old(names[x + 1]) else old(names[x])) &&
          nums[x] == (if x < i then old(nums[x + 1]) else old(nums[x]))
      {
        names[i], nums[i] := names[i + 1], nums[i + 1];
        i := i + 1;
      }
      names[MAX_INTROS - 1], nums[MAX_INTROS - 1] := k.name, k.num;
      list := l[1..] + [k];
    }
  }

  lemma PushMeans(list: seq<Intro>, k: Intro)
    ensures Push(list, k) == if |list| < MAX_INTROS then list + [k] else list[1..] + [k]
  {
  }

  const LVL_IMMORT: int := 31

  class Player {
    const name: CString
    const charNum: int
    const level: int
    const npc: bool
    const accepts: bool
    const intros: IntroArray

    constructor (name: CString, charNum: int, level: int, npc: bool, accepts: bool, intros: IntroArray)
    {
      this.name, this.charNum, this.level := name, charNum, level;
      this.npc, this.accepts, this.intros := npc, accepts, intros;
    }

    function Key(): Intro { Intro(name, charNum) }

    /** The part of known_player that does not look at the list. */
    predicate Always(who: Player) {
      this == who || level >= LVL_IMMORT || who.level >= LVL_IMMORT
    }

    /** known_player. */
    method Knows(who: Player) returns (known: bool)
      requires intros.Valid() && who.name != ""
      ensures known == (!npc && !who.npc && (Always(who) || Member(intros.list, who.Key())))
      ensures known <==> && !npc && !who.npc
                         && (this == who || level >= 31 || who.level >= 31 ||
                             exists i :: 0 <= i < |intros.list| &&
                               StrCmp(intros.list[i].name, who.name) == 0 && intros.list[i].num == who.charNum)
    {
      if npc || who.npc {
        return false;
      }
      if Always(who) {
        return true;
      }
      known := intros.Find(who.Key());
    }
  }

  /** act_greet: `vict` refreshes the memory of `ch`. */
  method ActGreet(ch: Player, vict: Player)
    requires vict.intros.Valid() && ch.name != ""
    modifies vict.intros, vict.intros.names, vict.intros.nums
    ensures vict.intros.Valid()
    ensures vict.intros.list == if ch.npc || vict.npc then old(vict.intros.list)
                                else Greet(old(vict.intros.list), ch.Key(), vict.Always(ch))
  {
    hide Same, Popped;
    var known := vict.Knows(ch);
    if known {
      vict.intros.Pop(ch.Key());
      vict.intros.Add(ch.Key());
    }
  }

  /** act_intro: `ch` introduces himself to `vict`. If they have met, it is `vict` who becomes recent in the
      list of `ch`: the call passes its arguments the other way round. Mobiles share one record. */
  method ActIntro(ch: Player, vict: Player)
    requires vict.intros.Valid() && ch.intros.Valid() && ch.name != "" && vict.name != ""
    requires ch.intros == vict.intros || (ch.intros.names != vict.intros.names && ch.intros.nums != vict.intros.nums)
    requires !ch.npc && !vict.npc ==> ch.intros != vict.intros
    modifies vict.intros, vict.intros.names, vict.intros.nums, ch.intros, ch.intros.names, ch.intros.nums
    ensures vict.intros.Valid() && ch.intros.Valid()
    ensures ch.npc || vict.npc ==>
              && vict.intros.list == (if vict.accepts then Push(old(vict.intros.list), ch.Key())
                                      else old(vict.intros.list))
              && (ch.intros != vict.intros ==> ch.intros.list == old(ch.intros.list))
    ensures !ch.npc && !vict.npc ==>
              && vict.intros.list == (if vict.accepts then Introduce(old(vict.intros.list), ch.Key(), vict.Always(ch))
                                      else old(vict.intros.list))
              && ch.intros.list == (if vict.accepts && (vict.Always(ch) || Member(old(vict.intros.list), ch.Key()))
                                    then Greet(old(ch.intros.list), vict.Key(), ch.Always(vict))
                                    else old(ch.intros.list))
  {
    hide Same, Popped, Member;
    if !vict.accepts {
      return;
    }
    var known := vict.Knows(ch);
    if !known {
      vict.intros.Add(ch.Key());
    } else {
      ActGreet(vict, ch);
    }
  }

  lemma EmptyDiffers(k: Intro)
    requires k.name != ""
    ensures StrCmp("", k.name) != 0
  {
    LowerNotNul(k.name[0]);
  }

  lemma SameNames(a: Intro, b: Intro)
    ensures Same(a, b) <==> StrCmp(a.name, b.name) == 0 && a.num == b.num
  {
  }
}
