/** The complete command list: socials sorted, then merged into the built-in commands, each
    social remembering its place; and the bisection that finds a social by that place. */
module CommandList {
  import opened CText
  import opened Collation

  const RESERVE_CMDS: nat := 11

  /** An entry of a command table. `isAction` tells do_action from the other command functions. */
  datatype Entry = Entry(command: CString, sortAs: Option<CString>, position: int, isAction: bool, level: int,
      subcmd: int)

  datatype Social = Social(command: CString, sortAs: CString, position: int, level: int, actNr: int)

  /** The command table ends at the first entry whose name starts with a newline. */
  predicate IsSentinel(e: Entry) { e.command != "" && e.command[0] == '\n' }

  predicate CommandTable(cmds: seq<Entry>) {
    cmds != [] && IsSentinel(cmds[|cmds| - 1]) && forall i :: 0 <= i < |cmds| - 1 ==> !IsSentinel(cmds[i])
  }

  /** str_cmp reports a null pointer as equality. */
  function CmpSort(a: Option<CString>, b: CString): int {
    if a.None? then 0 else StrCmp(a.value, b)
  }

  // ---- Sorting the socials ----

  ghost predicate SortedSocials(s: seq<Social>) {
    forall i, j :: 0 <= i < j < |s| ==> StrCmp(s[i].sortAs, s[j].sortAs) <= 0
  }

  /** No social from place `j` on sorts before the one at `k`. */
  ghost predicate LeastFrom(s: seq<Social>, j: nat, k: nat, end: nat)
    requires k < |s| && end <= |s|
  {
    forall b :: j <= b < end ==> StrCmp(s[k].sortAs, s[b].sortAs) <= 0
  }

  /** The first `j` socials are sorted and none of the others sorts before any of them. */
  ghost predicate SortedUpto(s: seq<Social>, j: nat)
    requires j <= |s|
  {
    forall a, b :: 0 <= a < j && a < b < |s| ==> StrCmp(s[a].sortAs, s[b].sortAs) <= 0
  }

  method FindLeast(socials: array<Social>, j: nat) returns (k: nat)
    requires j < socials.Length
    ensures j <= k < socials.Length && LeastFrom(socials[..], j, k, socials.Length)
  {
    hide StrCmp;
    k := j;
    var i := j + 1;
    SameCompare(socials[j].sortAs);
    while i < socials.Length
      invariant j <= k < i <= socials.Length && LeastFrom(socials[..], j, k, i)
    {
      if StrCmp(socials[i].sortAs, socials[k].sortAs) < 0 {
        LessThanAll(socials[..], socials[i].sortAs, k, j, i);
        SameCompare(socials[i].sortAs);
        k := i;
      } else {
        StrCmpSwap(socials[i].sortAs, socials[k].sortAs);
      }
      i := i + 1;
    }
  }

  /** A selection sort. */
  method SortSocials(socials: array<Social>)
    modifies socials
    ensures SortedSocials(socials[..]) && multiset(socials[..]) == multiset(old(socials[..]))
  {
    hide StrCmp, LeastFrom, SortedUpto, SortedSocials;
    SortedStart(socials[..]);
    var j := 0;
    while j < socials.Length - 1
      invariant 0 <= j <= socials.Length && SortedUpto(socials[..], j)
      invariant multiset(socials[..]) == multiset(old(socials[..]))
      invariant j >= socials.Length - 1 || j < socials.Length
    {
      var k := FindLeast(socials, j);
      ghost var s := socials[..];
      SwapSorted(s, j, k);
      if j != k {
        socials[j], socials[k] := socials[k], socials[j];
      }
      assert socials[..] == s[j := s[k]][k := s[j]];
      j := j + 1;
    }
    SortedEnd(socials[..], j);
  }

  lemma SortedStart(s: seq<Social>)
    ensures SortedUpto(s, 0)
  {
  }

  lemma SortedEnd(s: seq<Social>, j: nat)
    requires |s| - 1 <= j <= |s| && SortedUpto(s, j)
    ensures SortedSocials(s)
  {
    hide StrCmp;
  }

  lemma SwapSorted(s: seq<Social>, j: nat, k: nat)
    requires j <= k < |s| && SortedUpto(s, j) && LeastFrom(s, j, k, |s|)
    ensures SortedUpto(s[j := s[k]][k := s[j]], j + 1)
  {
    hide StrCmp;
  }

  lemma SameCompare(a: CString)
    ensures StrCmp(a, a) == 0
  {
    StrCmpSwap(a, a);
  }

  lemma LessThanAll(s: seq<Social>, x: CString, k: nat, lo: nat, hi: nat)
    requires lo <= k < hi <= |s| && StrCmp(x, s[k].sortAs) < 0 && LeastFrom(s, lo, k, hi)
    ensures forall b :: lo <= b < hi ==> StrCmp(x, s[b].sortAs) <= 0
  {
    hide StrCmp;
    forall b | lo <= b < hi ensures StrCmp(x, s[b].sortAs) <= 0 {
      StrCmpTransitive(x, s[k].sortAs, s[b].sortAs);
    }
  }

  // ---- The merge ----

  /** Where an entry of the merged list comes from. */
  datatype Source = FromCommand(i: nat) | FromSocial(j: nat)

  /** The choice at one step: entry `i` of the commands against social `j`. */
  predicate TakeCommand(cmds: seq<Entry>, socials: seq<Social>, i: nat, j: nat)
    requires i < |cmds| && j <= |socials|
  {
    i < RESERVE_CMDS || j == |socials| || CmpSort(cmds[i].sortAs, socials[j].sortAs) < 1
  }

  /** The merge from command `i` and social `j` on; None when it copies the sentinel while socials
      remain and so runs past the end of the command table. */
  function Merge(cmds: seq<Entry>, socials: seq<Social>, i: nat, j: nat): Option<seq<Source>>
    requires i < |cmds| && j <= |socials|
    decreases |cmds| - i, |socials| - j
  {
    if i == |cmds| - 1 && j == |socials| then Some([])
    else if TakeCommand(cmds, socials, i, j) then
      if i == |cmds| - 1 then None
      else
        var rest := Merge(cmds, socials, i + 1, j);
        if rest == None then None else Some([FromCommand(i)] + rest.value)
    else
      var rest := Merge(cmds, socials, i, j + 1);
      if rest == None then None else Some([FromSocial(j)] + rest.value)
  }

  /** Numbers of the commands, and of the socials, in the order they appear. */
  function CommandsIn(r: seq<Source>): seq<nat> {
    if r == [] then [] else (if r[0].FromCommand? then [r[0].i] else []) + CommandsIn(r[1..])
  }

  function SocialsIn(r: seq<Source>): seq<nat> {
    if r == [] then [] else (if r[0].FromSocial? then [r[0].j] else []) + SocialsIn(r[1..])
  }

  function Upto(a: nat, b: nat): seq<nat>
    requires a <= b
    decreases b - a
  {
    if a == b then [] else [a] + Upto(a + 1, b)
  }

  /** The merged list is an order-preserving interleaving: every command and every social, once. */
  lemma {:induction false} MergeInterleaves(cmds: seq<Entry>, socials: seq<Social>, i: nat, j: nat)
    requires i < |cmds| && j <= |socials| && Merge(cmds, socials, i, j).Some?
    ensures var r := Merge(cmds, socials, i, j).value;
      && CommandsIn(r) == Upto(i, |cmds| - 1)
      && SocialsIn(r) == Upto(j, |socials|)
      && |r| == (|cmds| - 1 - i) + (|socials| - j)
    decreases |cmds| - i, |socials| - j
  {
    hide TakeCommand;
    var r := Merge(cmds, socials, i, j).value;
    if i == |cmds| - 1 && j == |socials| {
    } else if TakeCommand(cmds, socials, i, j) {
      MergeInterleaves(cmds, socials, i + 1, j);
      assert r[1..] == Merge(cmds, socials, i + 1, j).value;
    } else {
      assert j < |socials| by { TakeLast(cmds, socials, i); }
      MergeInterleaves(cmds, socials, i, j + 1);
      assert r[1..] == Merge(cmds, socials, i, j + 1).value;
    }
  }

  lemma TakeLast(cmds: seq<Entry>, socials: seq<Social>, i: nat)
    requires i < |cmds|
    ensures TakeCommand(cmds, socials, i, |socials|)
  {
  }

  // ---- Where the socials stand ----

  /** No command from `i` up to `c`, the reserved ones aside, sorts after social `s`. */
  ghost predicate NoneAfter(cmds: seq<Entry>, socials: seq<Social>, i: nat, c: nat, s: nat)
    requires c < |cmds| && s < |socials|
  {
    forall x :: i <= x <= c && RESERVE_CMDS <= x ==> CmpSort(cmds[x].sortAs, socials[s].sortAs) <= 0
  }

  ghost predicate Between(cmds: seq<Entry>, socials: seq<Social>, i: nat, j: nat, r: seq<Source>) {
    forall k :: 0 <= k < |r| ==>
        if r[k].FromCommand? then i <= r[k].i < |cmds| - 1 else j <= r[k].j < |socials|
  }

  /** A command stands before a social exactly when neither it nor any command before it, the reserved ones aside, sorts
      after that social. */
  ghost predicate Stands(cmds: seq<Entry>, socials: seq<Social>, i: nat, r: seq<Source>)
    requires Between(cmds, socials, 0, 0, r)
  {
    forall k, l :: 0 <= k < |r| && 0 <= l < |r| && r[k].FromCommand? && r[l].FromSocial? ==>
        (k < l <==> NoneAfter(cmds, socials, i, r[k].i, r[l].j))
  }

  lemma {:induction false} MergeBetween(cmds: seq<Entry>, socials: seq<Social>, i: nat, j: nat)
    requires i < |cmds| && j <= |socials| && Merge(cmds, socials, i, j).Some?
    ensures Between(cmds, socials, i, j, Merge(cmds, socials, i, j).value)
    decreases |cmds| - i, |socials| - j
  {
    hide TakeCommand;
    if i == |cmds| - 1 && j == |socials| {
    } else if TakeCommand(cmds, socials, i, j) {
      MergeBetween(cmds, socials, i + 1, j);
    } else {
      assert j < |socials| by { TakeLast(cmds, socials, i); }
      MergeBetween(cmds, socials, i, j + 1);
    }
  }

  /** With sorted socials this says where every social stands. */
  lemma {:induction false} MergeStands(cmds: seq<Entry>, socials: seq<Social>, i: nat, j: nat)
    requires i < |cmds| && j <= |socials| && SortedSocials(socials) && Merge(cmds, socials, i, j).Some?
    ensures Between(cmds, socials, 0, 0, Merge(cmds, socials, i, j).value)
    ensures Stands(cmds, socials, i, Merge(cmds, socials, i, j).value)
    decreases |cmds| - i, |socials| - j
  {
    hide TakeCommand, SortedSocials, NoneAfter, CmpSort;
    var r := Merge(cmds, socials, i, j).value;
    MergeBetween(cmds, socials, i, j);
    if i == |cmds| - 1 && j == |socials| {
    } else if TakeCommand(cmds, socials, i, j) {
      MergeStands(cmds, socials, i + 1, j);
      var r' := Merge(cmds, socials, i + 1, j).value;
      CommandStands(cmds, socials, i, j);
      forall k, l | 0 <= k < |r| && 0 <= l < |r| && r[k].FromCommand? && r[l].FromSocial?
        ensures k < l <==> NoneAfter(cmds, socials, i, r[k].i, r[l].j)
      {
        assert r[l] == r'[l - 1] && (k > 0 ==> r[k] == r'[k - 1]);
        FirstAside(cmds, socials, i, r[k].i, r[l].j);
      }
    } else {
      assert j < |socials| by { TakeLast(cmds, socials, i); }
      MergeStands(cmds, socials, i, j + 1);
      var r' := Merge(cmds, socials, i, j + 1).value;
      forall k, l | 0 <= k < |r| && 0 <= l < |r| && r[k].FromCommand? && r[l].FromSocial?
        ensures k < l <==> NoneAfter(cmds, socials, i, r[k].i, r[l].j)
      {
        assert r[k] == r'[k - 1] && (l > 0 ==> r[l] == r'[l - 1]);
        if l == 0 { SocialStands(cmds, socials, i, j, r[k].i); }
      }
    }
  }

  /** A command that is taken does not sort after any social to come. */
  lemma CommandStands(cmds: seq<Entry>, socials: seq<Social>, i: nat, j: nat)
    requires i < |cmds| && j <= |socials| && SortedSocials(socials) && TakeCommand(cmds, socials, i, j)
    ensures forall s :: j <= s < |socials| ==> NoneAfter(cmds, socials, i, i, s)
  {
    hide StrCmp;
    forall s | j <= s < |socials| ensures NoneAfter(cmds, socials, i, i, s) {
      if RESERVE_CMDS <= i && cmds[i].sortAs.Some? && j < s {
        StrCmpTransitive(cmds[i].sortAs.value, socials[j].sortAs, socials[s].sortAs);
      }
    }
  }

  lemma SocialStands(cmds: seq<Entry>, socials: seq<Social>, i: nat, j: nat, c: nat)
    requires i <= c < |cmds| && j < |socials| && !TakeCommand(cmds, socials, i, j)
    ensures !NoneAfter(cmds, socials, i, c, j)
  {
    hide CmpSort;
  }

  lemma FirstAside(cmds: seq<Entry>, socials: seq<Social>, i: nat, c: nat, s: nat)
    requires i <= c < |cmds| && s < |socials| && NoneAfter(cmds, socials, i, i, s)
    ensures NoneAfter(cmds, socials, i, c, s) <==> NoneAfter(cmds, socials, i + 1, c, s)
  {
    hide CmpSort;
  }

  /** Reserved commands keep the numbers they have. */
  lemma {:induction false} ReservedFirst(cmds: seq<Entry>, socials: seq<Social>, i: nat, j: nat)
    requires i < |cmds| && j <= |socials| && Merge(cmds, socials, i, j).Some?
    ensures var r := Merge(cmds, socials, i, j).value;
      forall k :: 0 <= k < |r| && r[k].FromCommand? && r[k].i < RESERVE_CMDS ==> r[k].i == i + k
    decreases |cmds| - i, |socials| - j
  {
    MergeBetween(cmds, socials, i, j);
    if i == |cmds| - 1 && j == |socials| {
    } else if i < RESERVE_CMDS {
      ReservedFirst(cmds, socials, i + 1, j);
    }
  }

  /** The commands past the reserved ones have sort keys, and are in their order. */
  ghost predicate SortedCommands(cmds: seq<Entry>) {
    && (forall c :: RESERVE_CMDS <= c < |cmds| ==> cmds[c].sortAs.Some?)
    && forall c, d :: RESERVE_CMDS <= c < d < |cmds| ==> StrCmp(cmds[c].sortAs.value, cmds[d].sortAs.value) <= 0
  }

  lemma {:induction false} CommandsAscend(cmds: seq<Entry>, socials: seq<Social>, i: nat, j: nat)
    requires i < |cmds| && j <= |socials| && Merge(cmds, socials, i, j).Some?
    ensures Ascend(Merge(cmds, socials, i, j).value)
    decreases |cmds| - i, |socials| - j
  {
    hide TakeCommand;
    MergeBetween(cmds, socials, i, j);
    if i == |cmds| - 1 && j == |socials| {
    } else if TakeCommand(cmds, socials, i, j) {
      MergeBetween(cmds, socials, i + 1, j);
      CommandsAscend(cmds, socials, i + 1, j);
    } else {
      assert j < |socials| by { TakeLast(cmds, socials, i); }
      MergeBetween(cmds, socials, i, j + 1);
      CommandsAscend(cmds, socials, i, j + 1);
    }
  }

  ghost predicate Ascend(r: seq<Source>) {
    forall k, l :: 0 <= k < l < |r| ==>
        && (r[k].FromCommand? && r[l].FromCommand? ==> r[k].i < r[l].i)
        && (r[k].FromSocial? && r[l].FromSocial? ==> r[k].j < r[l].j)
  }

  /** The sort key of an entry. */
  function KeyOf(cmds: seq<Entry>, socials: seq<Social>, x: Source): Option<CString>
    requires if x.FromCommand? then x.i < |cmds| else x.j < |socials|
  {
    if x.FromCommand? then cmds[x.i].sortAs else Some(socials[x.j].sortAs)
  }

  lemma KeyPast(cmds: seq<Entry>, socials: seq<Social>, k: nat)
    requires cmds != [] && SortedCommands(cmds[..|cmds| - 1]) && Merge(cmds, socials, 0, 0).Some?
    requires RESERVE_CMDS <= k < |Merge(cmds, socials, 0, 0).value|
    ensures var r := Merge(cmds, socials, 0, 0).value;
      Between(cmds, socials, 0, 0, r) && KeyOf(cmds, socials, r[k]).Some?
  {
    hide StrCmp, Merge;
    MergeBetween(cmds, socials, 0, 0);
    ReservedFirst(cmds, socials, 0, 0);
  }

  /** Past the reserved commands, the merge of two sorted lists is sorted. */
  lemma MergeSorted(cmds: seq<Entry>, socials: seq<Social>, k: nat, l: nat)
    requires cmds != [] && SortedCommands(cmds[..|cmds| - 1]) && SortedSocials(socials)
    requires Merge(cmds, socials, 0, 0).Some?
    requires RESERVE_CMDS <= k < l < |Merge(cmds, socials, 0, 0).value|
    ensures var r := Merge(cmds, socials, 0, 0).value;
      && Between(cmds, socials, 0, 0, r)
      && KeyOf(cmds, socials, r[k]).Some? && KeyOf(cmds, socials, r[l]).Some?
      && StrCmp(KeyOf(cmds, socials, r[k]).value, KeyOf(cmds, socials, r[l]).value) <= 0
  {
    hide StrCmp, Merge;
    var r := Merge(cmds, socials, 0, 0).value;
    MergeStands(cmds, socials, 0, 0);
    ReservedFirst(cmds, socials, 0, 0);
    CommandsAscend(cmds, socials, 0, 0);
    if r[k].FromSocial? && r[l].FromCommand? {
      var c, s := r[l].i, r[k].j;
      var x :| 0 <= x <= c && RESERVE_CMDS <= x && CmpSort(cmds[x].sortAs, socials[s].sortAs) > 0;
      StrCmpSwap(cmds[x].sortAs.value, socials[s].sortAs);
      if x < c {
        StrCmpTransitive(socials[s].sortAs, cmds[x].sortAs.value, cmds[c].sortAs.value);
      }
    }
  }

  /** Some command outside the reserved ones, the sentinel included, sorts after the last social. */
  ghost predicate OutlastsSocials(cmds: seq<Entry>, socials: seq<Social>, i: nat) {
    socials == [] || exists k ::
        i <= k < |cmds| && RESERVE_CMDS <= k && CmpSort(cmds[k].sortAs, socials[|socials| - 1].sortAs) > 0
  }

  /** With sorted socials, the merge stays inside the command table exactly when, if socials remain, some
      command still to come outside the reserved ones sorts after the last social. */
  lemma {:induction false} MergeStaysInside(cmds: seq<Entry>, socials: seq<Social>, i: nat, j: nat)
    requires i < |cmds| && j <= |socials| && SortedSocials(socials)
    ensures Merge(cmds, socials, i, j).Some? <==> j == |socials| || OutlastsSocials(cmds, socials, i)
    decreases |cmds| - i, |socials| - j
  {
    hide StrCmp, SortedSocials, TakeCommand, CmpSort;
    if j == |socials| {
      TakeLast(cmds, socials, i);
      if i < |cmds| - 1 { MergeStaysInside(cmds, socials, i + 1, j); }
    } else if TakeCommand(cmds, socials, i, j) {
      NotAfterLast(cmds, socials, i, j);
      if i < |cmds| - 1 { MergeStaysInside(cmds, socials, i + 1, j); }
    } else {
      MergeStaysInside(cmds, socials, i, j + 1);
      if j == |socials| - 1 { AfterLast(cmds, socials, i); }
    }
  }

  lemma NotAfterLast(cmds: seq<Entry>, socials: seq<Social>, i: nat, j: nat)
    requires i < |cmds| && j < |socials| && SortedSocials(socials) && TakeCommand(cmds, socials, i, j)
    ensures RESERVE_CMDS <= i ==> CmpSort(cmds[i].sortAs, socials[|socials| - 1].sortAs) <= 0
  {
    hide StrCmp;
    var last := |socials| - 1;
    if RESERVE_CMDS <= i && cmds[i].sortAs.Some? && j < last {
      StrCmpTransitive(cmds[i].sortAs.value, socials[j].sortAs, socials[last].sortAs);
    }
  }

  lemma AfterLast(cmds: seq<Entry>, socials: seq<Social>, i: nat)
    requires i < |cmds| && socials != [] && !TakeCommand(cmds, socials, i, |socials| - 1)
    ensures RESERVE_CMDS <= i && CmpSort(cmds[i].sortAs, socials[|socials| - 1].sortAs) > 0
  {
  }

  /** One social that sorts after every command, with a sentinel that has no sort key: the merge overruns the table. */
  lemma LateSocialOverruns()
    ensures var look, end := Entry("look", Some("look"), 0, false, 0, 0), Entry("\n", None, 0, false, 0, 0);
      var cmds := seq(RESERVE_CMDS, _ => look) + [look, end];
      var socials := [Social("zap", "zap", 0, 0, 0)];
      CommandTable(cmds) && SortedSocials(socials) && Merge(cmds, socials, 0, 0) == None
  {
    hide Merge;
    var look, end := Entry("look", Some("look"), 0, false, 0, 0), Entry("\n", None, 0, false, 0, 0);
    var cmds := seq(RESERVE_CMDS, _ => look) + [look, end];
    var socials := [Social("zap", "zap", 0, 0, 0)];
    assert StrCmp("look", "zap") < 0;
    assert !OutlastsSocials(cmds, socials, 0);
    MergeStaysInside(cmds, socials, 0, 0);
  }

  /** The entry that a source contributes. */
  function EntryOf(cmds: seq<Entry>, socials: seq<Social>, x: Source): Entry
    requires if x.FromCommand? then x.i < |cmds| else x.j < |socials|
  {
    if x.FromCommand? then cmds[x.i]
    else var s := socials[x.j]; Entry(s.command, Some(s.sortAs), s.position, true, s.level, 0)
  }

  /** A command is taken over as it is; a social runs do_action under its own name, for its own position and level. */
  predicate EntryIs(e: Entry, cmds: seq<Entry>, socials: seq<Social>, x: Source) {
    match x
    case FromCommand(i) => i < |cmds| && e == cmds[i]
    case FromSocial(j) =>
      && j < |socials| && e.command == socials[j].command && e.sortAs == Some(socials[j].sortAs)
      && e.position == socials[j].position && e.level == socials[j].level && e.isAction && e.subcmd == 0
  }

  const LAST: Entry := Entry("\n", Some("zzzzzzz"), 0, false, 0, 0)

  ghost predicate InRange(r: seq<Source>, i: nat, j: nat) {
    forall k :: 0 <= k < |r| ==> if r[k].FromCommand? then r[k].i < i else r[k].j < j
  }

  /** Every social so far remembers its own place in the list, places ascending. */
  ghost predicate Placed(r: seq<Source>, socials: seq<Social>, j: nat)
    requires j <= |socials|
  {
    && (forall x :: 0 <= x < j ==> 0 <= socials[x].actNr < |r| && r[socials[x].actNr] == FromSocial(x))
    && (forall k :: 0 <= k < |r| && r[k].FromSocial? ==> r[k].j < j && socials[r[k].j].actNr == k)
    && (forall x, y :: 0 <= x < y < j ==> socials[x].actNr < socials[y].actNr)
  }

  /** Socials are the same but for their places. */
  ghost predicate SameSocials(a: seq<Social>, b: seq<Social>) {
    |a| == |b| && forall x :: 0 <= x < |a| ==> a[x] == b[x].(actNr := a[x].actNr)
  }

  ghost predicate Continues(whole: Option<seq<Source>>, done: seq<Source>, rest: Option<seq<Source>>) {
    if rest == None then whole == None else whole == Some(done + rest.value)
  }

  /** The list holds the entries of the sources so far. */
  ghost predicate Filled(list: seq<Entry>, cmds: seq<Entry>, socials: seq<Social>, r: seq<Source>) {
    && |r| <= |list| && InRange(r, |cmds|, |socials|)
    && forall k :: 0 <= k < |r| ==> list[k] == EntryOf(cmds, socials, r[k])
  }

  lemma FilledMeans(list: seq<Entry>, cmds: seq<Entry>, socials: seq<Social>, r: seq<Source>)
    requires Filled(list, cmds, socials, r)
    ensures |r| <= |list| && InRange(r, |cmds|, |socials|)
    ensures forall k :: 0 <= k < |r| ==> (if r[k].FromCommand? then r[k].i < |cmds| else r[k].j < |socials|)
    ensures forall k :: 0 <= k < |r| ==> list[k] == EntryOf(cmds, socials, r[k])
  {
  }

  lemma FillNext(list: seq<Entry>, cmds: seq<Entry>, socials: seq<Social>, r: seq<Source>, x: Source)
    requires Filled(list, cmds, socials, r) && |r| < |list|
    requires if x.FromCommand? then x.i < |cmds| else x.j < |socials|
    ensures Filled(list[|r| := EntryOf(cmds, socials, x)], cmds, socials, r + [x])
  {
  }

  lemma StartPlaced(list: seq<Entry>, cmds: seq<Entry>, socials: seq<Social>)
    requires cmds != []
    ensures SameSocials(socials, socials) && Placed([], socials, 0) && InRange([], 0, 0)
        && Filled(list, cmds, socials, [])
    ensures Continues(Merge(cmds, socials, 0, 0), [], Merge(cmds, socials, 0, 0))
  {
    hide Merge;
    var m := Merge(cmds, socials, 0, 0);
    if m.Some? { assert [] + m.value == m.value; }
  }

  /** The places recorded do not influence the choice. */
  lemma SameChoice(cmds: seq<Entry>, a: seq<Social>, b: seq<Social>, i: nat, j: nat)
    requires SameSocials(a, b) && i < |cmds| && j <= |a|
    ensures TakeCommand(cmds, a, i, j) <==> TakeCommand(cmds, b, i, j)
  {
  }

  lemma MergeCommand(cmds: seq<Entry>, socials: seq<Social>, i: nat, j: nat, r: seq<Source>)
    requires i < |cmds| && j <= |socials| && TakeCommand(cmds, socials, i, j) && !(i == |cmds| - 1 && j == |socials|)
    requires Continues(Merge(cmds, socials, 0, 0), r, Merge(cmds, socials, i, j))
    ensures i == |cmds| - 1 ==> Merge(cmds, socials, 0, 0) == None
    ensures i < |cmds| - 1 ==>
        Continues(Merge(cmds, socials, 0, 0), r + [FromCommand(i)], Merge(cmds, socials, i + 1, j))
  {
    hide TakeCommand;
    if i < |cmds| - 1 {
      var rest := Merge(cmds, socials, i + 1, j);
      if rest.Some? { assert r + ([FromCommand(i)] + rest.value) == r + [FromCommand(i)] + rest.value; }
    }
  }

  lemma MergeSocial(cmds: seq<Entry>, socials: seq<Social>, i: nat, j: nat, r: seq<Source>)
    requires i < |cmds| && j < |socials| && !TakeCommand(cmds, socials, i, j)
    requires Continues(Merge(cmds, socials, 0, 0), r, Merge(cmds, socials, i, j))
    ensures Continues(Merge(cmds, socials, 0, 0), r + [FromSocial(j)], Merge(cmds, socials, i, j + 1))
  {
    hide TakeCommand;
    var rest := Merge(cmds, socials, i, j + 1);
    if rest.Some? { assert r + ([FromSocial(j)] + rest.value) == r + [FromSocial(j)] + rest.value; }
  }

  lemma MergeDone(cmds: seq<Entry>, socials: seq<Social>, r: seq<Source>)
    requires cmds != [] && Continues(Merge(cmds, socials, 0, 0), r, Merge(cmds, socials, |cmds| - 1, |socials|))
    ensures Merge(cmds, socials, 0, 0) == Some(r)
  {
    assert r + [] == r;
  }

  lemma PlaceCommand(r: seq<Source>, socials: seq<Social>, i: nat, j: nat)
    requires j <= |socials| && Placed(r, socials, j) && InRange(r, i, j)
    ensures Placed(r + [FromCommand(i)], socials, j) && InRange(r + [FromCommand(i)], i + 1, j)
  {
  }

  lemma PlaceSocial(r: seq<Source>, socials: seq<Social>, i: nat, j: nat)
    requires j < |socials| && Placed(r, socials, j) && InRange(r, i, j)
    ensures Placed(r + [FromSocial(j)], socials[j := socials[j].(actNr := |r|)], j + 1)
        && InRange(r + [FromSocial(j)], i, j + 1)
  {
  }

  /** The merge loop. It succeeds exactly when the reference merge stays inside the command table, and
      then the list is the reference list, closed by a sentinel, with every social's place recorded. */
  method MergeLists(cmds: seq<Entry>, socials: array<Social>)
      returns (ok: bool, complete: array<Entry>, ghost r: seq<Source>)
    requires CommandTable(cmds)
    modifies socials
    ensures SameSocials(socials[..], old(socials[..]))
    ensures ok <==> Merge(cmds, old(socials[..]), 0, 0).Some?
    ensures ok ==> Merge(cmds, old(socials[..]), 0, 0) == Some(r) && Placed(r, socials[..], socials.Length)
    ensures ok ==> InRange(r, |cmds|, socials.Length) && complete.Length > |r| && complete[|r|] == LAST
    ensures ok ==> forall k :: 0 <= k < |r| ==> complete[k] == EntryOf(cmds, old(socials[..]), r[k])
  {
    hide TakeCommand, Merge, Placed, InRange, Filled, Continues;
    var list := new Entry[socials.Length + |cmds| + 1](_ => LAST);
    complete := list;
    ghost var s0 := socials[..];
    r := [];
    StartPlaced(list[..], cmds, s0);
    var i, j, k := 0, 0, 0;
    while !IsSentinel(cmds[i]) || j < socials.Length
      invariant i < |cmds| && j <= socials.Length && k == i + j == |r| && complete == list
      invariant SameSocials(socials[..], s0) && Placed(r, socials[..], j) && InRange(r, i, j)
      invariant Continues(Merge(cmds, s0, 0, 0), r, Merge(cmds, s0, i, j))
      invariant Filled(list[..], cmds, s0, r)
      decreases |cmds| - i, socials.Length - j
    {
      SameChoice(cmds, socials[..], s0, i, j);
      if TakeCommand(cmds, socials[..], i, j) {
        MergeCommand(cmds, s0, i, j, r);
        if i == |cmds| - 1 {
          return false, complete, r;
        }
        PlaceCommand(r, socials[..], i, j);
        FillNext(list[..], cmds, s0, r, FromCommand(i));
        list[k] := cmds[i];
        r := r + [FromCommand(i)];
        k, i := k + 1, i + 1;
      } else {
        TakeLast(cmds, socials[..], i);
        MergeSocial(cmds, s0, i, j, r);
        PlaceSocial(r, socials[..], i, j);
        FillNext(list[..], cmds, s0, r, FromSocial(j));
        ghost var s1 := socials[..];
        socials[j] := socials[j].(actNr := k);
        assert socials[..] == s1[j := s1[j].(actNr := k)];
        list[k] := Entry(socials[j].command, Some(socials[j].sortAs), socials[j].position, true, socials[j].level, 0);
        r := r + [FromSocial(j)];
        k, j := k + 1, j + 1;
      }
    }
    MergeDone(cmds, s0, r);
    FilledMeans(list[..], cmds, s0, r);
    list[k] := LAST;
    return true, complete, r;
  }

  /** create_command_list: sort the socials, then merge. It stays inside the command table exactly when there
      are no socials or some command outside the reserved ones, the sentinel included, sorts after the last
      social; then the list is an order-preserving interleaving of all commands and all socials, a social standing
      before exactly those commands up to which some command that is not reserved sorts after it. */
  method CreateCommandList(cmds: seq<Entry>, socials: array<Social>)
    returns (ok: bool, complete: array<Entry>, ghost sorted: seq<Social>, ghost r: seq<Source>)
    requires CommandTable(cmds)
    modifies socials
    ensures SortedSocials(sorted) && multiset(sorted) == multiset(old(socials[..])) && SameSocials(socials[..], sorted)
    ensures ok <==> OutlastsSocials(cmds, sorted, 0)
    ensures ok ==> CommandsIn(r) == Upto(0, |cmds| - 1) && SocialsIn(r) == Upto(0, |sorted|)
    ensures ok ==> Placed(r, socials[..], socials.Length) && InRange(r, |cmds|, |sorted|)
    ensures ok ==> complete.Length > |r| && complete[|r|] == LAST
    ensures ok ==> forall k :: 0 <= k < |r| ==> complete[k] == EntryOf(cmds, sorted, r[k])
    ensures ok ==> forall k, l :: 0 <= k < |r| && 0 <= l < |r| && r[k].FromCommand? && r[l].FromSocial? ==>
              (k < l <==> NoneAfter(cmds, sorted, 0, r[k].i, r[l].j))
    ensures ok && SortedCommands(cmds[..|cmds| - 1]) ==> SortedCommands(complete[..|r|])
    ensures ok ==> forall k :: 0 <= k < |r| ==> EntryIs(complete[k], cmds, sorted, r[k])
    ensures ok && (forall j :: 0 <= j < |sorted| ==> sorted[j].command == "" || sorted[j].command[0] != '\n') ==>
              CommandTable(complete[..|r| + 1])
  {
    hide Merge, Placed, SortedSocials, OutlastsSocials, CommandsIn, SocialsIn, Upto, EntryOf, NoneAfter, StrCmp;
    SortSocials(socials);
    sorted := socials[..];
    MergeStaysInside(cmds, sorted, 0, 0);
    NoSocials(cmds, sorted);
    ok, complete, r := MergeLists(cmds, socials);
    if ok {
      MergeInterleaves(cmds, sorted, 0, 0);
      MergeStands(cmds, sorted, 0, 0);
      EntriesAre(cmds, sorted, r);
      if SortedCommands(cmds[..|cmds| - 1]) {
        assert Filled(complete[..|r|], cmds, sorted, r);
        SortedList(cmds, sorted, complete[..|r|]);
      }
    }
  }

  lemma EntriesAre(cmds: seq<Entry>, socials: seq<Social>, r: seq<Source>)
    requires InRange(r, |cmds|, |socials|) && cmds != [] && Between(cmds, socials, 0, 0, r)
    ensures forall k :: 0 <= k < |r| ==>
        && EntryIs(EntryOf(cmds, socials, r[k]), cmds, socials, r[k])
        && EntryOf(cmds, socials, r[k]).sortAs == KeyOf(cmds, socials, r[k])
  {
  }

  lemma SortedList(cmds: seq<Entry>, socials: seq<Social>, list: seq<Entry>)
    requires cmds != [] && SortedCommands(cmds[..|cmds| - 1]) && SortedSocials(socials)
    requires Merge(cmds, socials, 0, 0).Some?
    requires Filled(list, cmds, socials, Merge(cmds, socials, 0, 0).value)
    requires |list| == |Merge(cmds, socials, 0, 0).value|
    ensures SortedCommands(list)
  {
    hide StrCmp, Merge, SortedSocials;
    var r := Merge(cmds, socials, 0, 0).value;
    forall k | RESERVE_CMDS <= k < |list| ensures list[k].sortAs.Some? {
      KeyPast(cmds, socials, k);
    }
    forall k, l | RESERVE_CMDS <= k < l < |list|
      ensures StrCmp(list[k].sortAs.value, list[l].sortAs.value) <= 0
    {
      MergeSorted(cmds, socials, k, l);
      assert list[k] == EntryOf(cmds, socials, r[k]) && list[l] == EntryOf(cmds, socials, r[l]);
    }
  }

  lemma NoSocials(cmds: seq<Entry>, socials: seq<Social>)
    ensures socials == [] ==> OutlastsSocials(cmds, socials, 0)
  {
  }

  // ---- Finding a social by its command number ----

  /** find_action finds a social with this number, or there is none. The numbers only have to ascend, wherever they
      come from. */
  method FindAction(socials: array<Social>, cmd: int) returns (found: int)
    requires forall x, y :: 0 <= x < y < socials.Length ==> socials[x].actNr <= socials[y].actNr
    ensures found != -1 ==> 0 <= found < socials.Length && socials[found].actNr == cmd
    ensures found == -1 ==> forall x :: 0 <= x < socials.Length ==> socials[x].actNr != cmd
  {
    var bot, top := 0, socials.Length - 1;
    if top < 0 {
      return -1;
    }
    ghost var s := socials[..];
    while true
      invariant 0 <= bot <= top + 1 <= socials.Length && bot < socials.Length && socials[..] == s
      invariant forall x :: 0 <= x < bot ==> s[x].actNr < cmd
      invariant forall x :: top < x < socials.Length ==> s[x].actNr > cmd
      decreases top - bot + 1
    {
      var mid := Half(bot + top);
      assert s[mid] == socials[mid];
      if socials[mid].actNr == cmd {
        return mid;
      }
      if bot >= top {
        assert forall x :: 0 <= x < socials.Length ==> s[x].actNr != cmd;
        return -1;
      }
      if socials[mid].actNr > cmd {
        mid := mid - 1;
        top := mid;
      } else {
        mid := mid + 1;
        bot := mid;
      }
    }
  }

  /** After a merge, what find_action finds is, for every command number, the social that made that entry of the list,
      and -1 when the entry is a command or there is no such entry. */
  lemma FoundIsSource(r: seq<Source>, socials: seq<Social>, cmd: int, found: int)
    requires Placed(r, socials, |socials|)
    requires found != -1 ==> 0 <= found < |socials| && socials[found].actNr == cmd
    requires found == -1 ==> forall x :: 0 <= x < |socials| ==> socials[x].actNr != cmd
    ensures found == if 0 <= cmd < |r| && r[cmd].FromSocial? then r[cmd].j else -1
  {
    if found != -1 {
      assert r[socials[found].actNr] == FromSocial(found);
    }
  }

  /** find_action on the list just merged. */
  method FindMerged(socials: array<Social>, cmd: int, ghost r: seq<Source>) returns (found: int)
    requires Placed(r, socials[..], socials.Length)
    ensures found == if 0 <= cmd < |r| && r[cmd].FromSocial? then r[cmd].j else -1
  {
    assert forall x :: 0 <= x < socials.Length ==> socials[x] == socials[..][x];
    found := FindAction(socials, cmd);
    FoundIsSource(r, socials[..], cmd, found);
  }
}
