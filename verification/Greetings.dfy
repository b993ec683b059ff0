/** Greetings and introductions among any number of players and mobiles, over their arrays. */
module Greetings {
  import opened Introductions

  /** Who does what to whom, by their numbers in the list of characters. */
  datatype Deed = Greets(ch: nat, vict: nat) | Introduces(ch: nat, vict: nat)

  /** Every character has a name and a record of introductions. Players have records of their own; mobiles share one. */
  ghost predicate Settled(players: seq<Player>, records: seq<IntroArray>, home: seq<nat>) {
    && |home| == |players|
    && (forall i :: 0 <= i < |players| ==>
          home[i] < |records| && players[i].intros == records[home[i]] && players[i].name != "")
    && (forall i, j :: 0 <= i < |players| && 0 <= j < |players| && i != j ==>
          players[i] != players[j] && (!players[i].npc ==> home[i] != home[j]))
    && (forall k, l :: 0 <= k < |records| && 0 <= l < |records| && k != l ==>
          records[k] != records[l] && records[k].names != records[l].names && records[k].nums != records[l].nums)
  }

  predicate Known(players: seq<Player>, d: Deed) {
    d.ch < |players| && d.vict < |players|
  }

  /** What a deed means for record `k`. Socials on oneself and socials of immortals touch no record. */
  function OpsOf(players: seq<Player>, home: seq<nat>, lists: seq<seq<Intro>>, d: Deed, k: nat): (r: seq<Op>)
    requires |home| == |players| && Known(players, d) && forall i :: 0 <= i < |home| ==> home[i] < |lists|
    ensures |r| <= 1
  {
    var ch, vict := players[d.ch], players[d.vict];
    if d.ch == d.vict || ch.level >= LVL_IMMORT then []
    else
      match d
      case Greets(_, _) =>
        if home[d.vict] == k && !ch.npc && !vict.npc then [OpGreet(ch.Key(), vict.Always(ch))] else []
      case Introduces(_, _) =>
        if !vict.accepts then []
        else if ch.npc || vict.npc then
          if home[d.vict] == k then [OpMobile(ch.Key())] else []
        else if home[d.vict] == k then [OpIntroduce(ch.Key(), vict.Always(ch))]
        else if home[d.ch] == k && (vict.Always(ch) || Member(lists[home[d.vict]], ch.Key())) then
          [OpGreet(vict.Key(), ch.Always(vict))]
        else []
  }

  function StepAll(players: seq<Player>, home: seq<nat>, lists: seq<seq<Intro>>, d: Deed): (r: seq<seq<Intro>>)
    requires |home| == |players| && Known(players, d) && forall i :: 0 <= i < |home| ==> home[i] < |lists|
    ensures |r| == |lists|
  {
    seq(|lists|, k requires 0 <= k < |lists| => Run(lists[k], OpsOf(players, home, lists, d, k)))
  }

  // ---- What one deed does, spelled out ----

  /** A social on oneself, and any social of an immortal, changes no record. */
  lemma NobodyMet(players: seq<Player>, home: seq<nat>, lists: seq<seq<Intro>>, d: Deed)
    requires |home| == |players| && Known(players, d) && forall i :: 0 <= i < |home| ==> home[i] < |lists|
    requires d.ch == d.vict || players[d.ch].level >= 31
    ensures StepAll(players, home, lists, d) == lists
  {
    forall k | 0 <= k < |lists| ensures StepAll(players, home, lists, d)[k] == lists[k] {
      RunShort(lists[k], OpMobile(Intro("", 0)));
    }
  }

  /** A greeting concerns the record of the one greeted and no other: whoever greets moves to its recent end if that one
      knows him or is an immortal. Mobiles neither greet nor are greeted. */
  lemma GreetsMeans(players: seq<Player>, home: seq<nat>, lists: seq<seq<Intro>>, d: Deed)
    requires |home| == |players| && Known(players, d) && forall i :: 0 <= i < |home| ==> home[i] < |lists|
    requires d.Greets? && d.ch != d.vict && players[d.ch].level < 31 && players[d.ch] != players[d.vict]
    requires |lists[home[d.vict]]| <= MAX_INTROS && Distinct(lists[home[d.vict]])
    ensures var ch, vict, v := players[d.ch], players[d.vict], home[d.vict]; var list := lists[v];
      StepAll(players, home, lists, d) ==
      if !ch.npc && !vict.npc && (vict.level >= 31 || Member(list, ch.Key()))
      then lists[v := LastThirty(Others(list, ch.Key()) + [ch.Key()])] else lists
  {
    hide Same, Others, Popped, Member, Distinct, Run, Greet;
    var ch, vict, v := players[d.ch], players[d.vict], home[d.vict];
    var list := lists[v];
    OthersFacts(list, ch.Key());
    GreetMoves(list, ch.Key(), vict.Always(ch));
    forall k | 0 <= k < |lists|
      ensures StepAll(players, home, lists, d)[k] ==
        if k == v && !ch.npc && !vict.npc && (vict.level >= 31 || Member(list, ch.Key()))
        then LastThirty(Others(list, ch.Key()) + [ch.Key()]) else lists[k]
    {
      RunShort(lists[k], OpGreet(ch.Key(), vict.Always(ch)));
    }
  }

  /** An introduction that is accepted: a mobile, and a player who is not known yet, is added at the recent end. When
      the other one knows him already, or is an immortal, it is the other one who moves to the recent end of the
      speaker's own record, if the speaker knows him or he is an immortal. */
  lemma IntroducesMeans(players: seq<Player>, home: seq<nat>, lists: seq<seq<Intro>>, d: Deed)
    requires |home| == |players| && Known(players, d) && forall i :: 0 <= i < |home| ==> home[i] < |lists|
    requires d.Introduces? && d.ch != d.vict && players[d.ch].level < 31 && players[d.ch] != players[d.vict]
    requires !players[d.ch].npc ==> home[d.ch] != home[d.vict]
    requires forall k :: 0 <= k < |lists| ==> |lists[k]| <= MAX_INTROS && Distinct(lists[k])
    ensures var ch, vict, c, v := players[d.ch], players[d.vict], home[d.ch], home[d.vict];
      StepAll(players, home, lists, d) ==
      if !vict.accepts then lists
      else if ch.npc || vict.npc || (vict.level < 31 && !Member(lists[v], ch.Key()))
      then lists[v := LastThirty(lists[v] + [ch.Key()])]
      else if vict.level >= 31 || Member(lists[c], vict.Key())
      then lists[c := LastThirty(Others(lists[c], vict.Key()) + [vict.Key()])]
      else lists
  {
    hide Same, Others, Popped, Member, Distinct, Run, Greet, Introduce, Push;
    var ch, vict, c, v := players[d.ch], players[d.vict], home[d.ch], home[d.vict];
    PushDistinctIff(lists[v], ch.Key());
    IntroduceAppends(lists[v], ch.Key(), vict.Always(ch));
    OthersFacts(lists[c], vict.Key());
    GreetMoves(lists[c], vict.Key(), ch.Always(vict));
    var added := vict.accepts && (ch.npc || vict.npc || (vict.level < 31 && !Member(lists[v], ch.Key())));
    var back := vict.accepts && !added && (vict.level >= 31 || Member(lists[c], vict.Key()));
    forall k | 0 <= k < |lists|
      ensures StepAll(players, home, lists, d)[k] ==
        if added && k == v then LastThirty(lists[v] + [ch.Key()])
        else if back && k == c then LastThirty(Others(lists[c], vict.Key()) + [vict.Key()])
        else lists[k]
    {
      RunShort(lists[k], OpMobile(ch.Key()));
      RunShort(lists[k], OpIntroduce(ch.Key(), vict.Always(ch)));
      RunShort(lists[k], OpGreet(vict.Key(), ch.Always(vict)));
    }
  }

  /** The operations that concern record `k`, in turn. */
  function OpsAlong(players: seq<Player>, home: seq<nat>, lists: seq<seq<Intro>>, ds: seq<Deed>, k: nat): seq<Op>
    requires |home| == |players| && (forall i :: 0 <= i < |home| ==> home[i] < |lists|)
    requires forall d :: d in ds ==> Known(players, d)
    decreases |ds|
  {
    if ds == [] then []
    else
      OpsOf(players, home, lists, ds[0], k)
      + OpsAlong(players, home, StepAll(players, home, lists, ds[0]), ds[1..], k)
  }

  /** At most one operation, and then a run. */
  lemma RunFirst(list: seq<Intro>, first: seq<Op>, ops: seq<Op>)
    requires |first| <= 1
    ensures Run(list, first + ops) == Run(Run(list, first), ops)
  {
    hide Step;
    if first == [] {
      assert first + ops == ops;
    } else {
      assert (first + ops)[1..] == ops && first[1..] == [];
    }
  }

  lemma RunShort(list: seq<Intro>, op: Op)
    ensures Run(list, []) == list && Run(list, [op]) == Step(list, op)
  {
    hide Step;
    assert [op][1..] == [];
  }

  ghost function Lists(records: seq<IntroArray>): (ls: seq<seq<Intro>>)
    reads records
    ensures |ls| == |records| && forall k :: 0 <= k < |records| ==> ls[k] == records[k].list
  {
    seq(|records|, k requires 0 <= k < |records| reads records => records[k].list)
  }

  ghost predicate AllValid(records: seq<IntroArray>)
    reads records, set r | r in records :: r.names, set r | r in records :: r.nums
  {
    forall k :: 0 <= k < |records| ==> records[k].Valid()
  }

  /** One deed, guarded as in do_action. */
  method Perform(players: seq<Player>, ghost records: seq<IntroArray>, ghost home: seq<nat>, d: Deed)
    requires Settled(players, records, home) && AllValid(records) && Known(players, d)
    modifies records, set r | r in records :: r.names, set r | r in records :: r.nums
    ensures AllValid(records) && Lists(records) == StepAll(players, home, old(Lists(records)), d)
  {
    hide Run, Greet, Introduce, Push, Same;
    var ch, vict := players[d.ch], players[d.vict];
    ghost var lists := Lists(records);
    if ch != vict && ch.level < LVL_IMMORT {
      match d {
        case Greets(_, _) => ActGreet(ch, vict);
        case Introduces(_, _) => ActIntro(ch, vict);
      }
    }
    forall k | 0 <= k < |records|
      ensures records[k].Valid() && records[k].list == Run(lists[k], OpsOf(players, home, lists, d, k))
    {
      RunShort(lists[k], OpMobile(ch.Key()));
      RunShort(lists[k], OpGreet(ch.Key(), vict.Always(ch)));
      RunShort(lists[k], OpIntroduce(ch.Key(), vict.Always(ch)));
      RunShort(lists[k], OpGreet(vict.Key(), ch.Always(vict)));
    }
    assert Lists(records) == StepAll(players, home, lists, d);
  }

  /** Any deeds of anyone in turn: every record goes through the run of the operations that concern it. */
  method PerformAll(players: seq<Player>, ghost records: seq<IntroArray>, ghost home: seq<nat>, ds: seq<Deed>)
    requires Settled(players, records, home) && AllValid(records) && forall d :: d in ds ==> Known(players, d)
    modifies records, set r | r in records :: r.names, set r | r in records :: r.nums
    ensures AllValid(records)
    ensures Lists(records) == RunAll(players, home, old(Lists(records)), ds)
    decreases |ds|
  {
    hide RunAll, AllValid, Lists, StepAll;
    RunAllStep(players, home, Lists(records), ds);
    if ds != [] {
      Perform(players, records, home, ds[0]);
      PerformAll(players, records, home, ds[1..]);
    }
  }

  ghost function RunAll(players: seq<Player>, home: seq<nat>, lists: seq<seq<Intro>>,
      ds: seq<Deed>): (r: seq<seq<Intro>>)
    requires |home| == |players| && (forall i :: 0 <= i < |home| ==> home[i] < |lists|)
    requires forall d :: d in ds ==> Known(players, d)
    ensures |r| == |lists|
  {
    seq(|lists|, k requires 0 <= k < |lists| => Run(lists[k], OpsAlong(players, home, lists, ds, k)))
  }

  lemma RunAllStep(players: seq<Player>, home: seq<nat>, lists: seq<seq<Intro>>, ds: seq<Deed>)
    requires |home| == |players| && (forall i :: 0 <= i < |home| ==> home[i] < |lists|)
    requires forall d :: d in ds ==> Known(players, d)
    ensures RunAll(players, home, lists, ds) ==
            if ds == [] then lists else RunAll(players, home, StepAll(players, home, lists, ds[0]), ds[1..])
  {
    hide Run, OpsOf;
    if ds == [] {
      forall k | 0 <= k < |lists| ensures Run(lists[k], OpsAlong(players, home, lists, ds, k)) == lists[k] {
        RunShort(lists[k], OpMobile(Intro("", 0)));
      }
    } else {
      var next := StepAll(players, home, lists, ds[0]);
      forall k | 0 <= k < |lists|
        ensures Run(lists[k], OpsAlong(players, home, lists, ds, k)) ==
            Run(next[k], OpsAlong(players, home, next, ds[1..], k))
      {
        RunFirst(lists[k], OpsOf(players, home, lists, ds[0], k), OpsAlong(players, home, next, ds[1..], k));
      }
    }
  }

  predicate ByPlayers(ops: seq<Op>) {
    forall n :: 0 <= n < |ops| ==> !ops[n].OpMobile?
  }

  /** Without mobiles there are no introductions by mobiles. */
  lemma {:induction false} NoMobiles(players: seq<Player>, home: seq<nat>, lists: seq<seq<Intro>>, ds: seq<Deed>,
      k: nat)
    requires |home| == |players| && (forall i :: 0 <= i < |home| ==> home[i] < |lists|)
    requires (forall d :: d in ds ==> Known(players, d)) && forall i :: 0 <= i < |players| ==> !players[i].npc
    ensures ByPlayers(OpsAlong(players, home, lists, ds, k))
    decreases |ds|
  {
    hide StepAll, Same;
    if ds != [] {
      var first, next := OpsOf(players, home, lists, ds[0], k), StepAll(players, home, lists, ds[0]);
      NoMobiles(players, home, next, ds[1..], k);
      assert OpsAlong(players, home, lists, ds, k) == first + OpsAlong(players, home, next, ds[1..], k);
    }
  }

  /** Among players alone no record ever gets a duplicate or grows too long. */
  lemma PlayersStayDistinct(players: seq<Player>, home: seq<nat>, lists: seq<seq<Intro>>, ds: seq<Deed>, k: nat)
    requires |home| == |players| && (forall i :: 0 <= i < |home| ==> home[i] < |lists|) && k < |lists|
    requires (forall d :: d in ds ==> Known(players, d)) && forall i :: 0 <= i < |players| ==> !players[i].npc
    requires |lists[k]| <= MAX_INTROS && Distinct(lists[k])
    ensures Distinct(RunAll(players, home, lists, ds)[k]) && |RunAll(players, home, lists, ds)[k]| <= MAX_INTROS
  {
    hide Step, Distinct;
    var ops := OpsAlong(players, home, lists, ds, k);
    NoMobiles(players, home, lists, ds, k);
    RunDistinctIff(lists[k], ops);
    assert ops[..|ops|] == ops;
    assert |Run(lists[k], ops[..|ops|])| <= MAX_INTROS && Distinct(Run(lists[k], ops));
    assert RunAll(players, home, lists, ds)[k] == Run(lists[k], ops);
  }
}
