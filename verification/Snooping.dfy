/** Descriptors and bodies: who snoops whom, and who has switched into what. */
module Snooping {

  class Character {
    var desc: Descriptor?
    const level: int
    const npc: bool

    constructor (level: int, npc: bool)
      ensures desc == null
    {
      this.level, this.npc, desc := level, npc, null;
    }
  }

  class Descriptor {
    var character: Character?
    var original: Character?
    var snooping: Descriptor?
    var snoopBy: Descriptor?
    var disconnect: bool

    constructor ()
      ensures character == null && original == null && snooping == null && snoopBy == null && !disconnect
    {
      character, original, snooping, snoopBy, disconnect := null, null, null, null, false;
    }
  }

  const LVL_IMPL: int := 38

  /** The body that someone has by rights: the one he has left, or else the one he plays. */
  function OwnBody(d: Descriptor): Character?
    reads d
  {
    if d.original != null then d.original else d.character
  }

  // ---- The links as values ----

  /** Who snoops whom. */
  datatype Snoops = Snoops(snooping: map<Descriptor, Descriptor?>, snoopBy: map<Descriptor, Descriptor?>)

  /** Who plays whom, and whom he has left for that. */
  datatype Bodies = Bodies(character: map<Descriptor, Character?>, original: map<Descriptor, Character?>,
                           desc: map<Character, Descriptor?>, disconnect: map<Descriptor, bool>)

  ghost function SnoopsOf(ds: set<Descriptor>): Snoops
    reads ds`snooping, ds`snoopBy
  {
    Snoops(map d | d in ds :: d.snooping, map d | d in ds :: d.snoopBy)
  }

  ghost function BodiesOf(ds: set<Descriptor>, cs: set<Character>): Bodies
    reads ds`character, ds`original, ds`disconnect, cs`desc
  {
    Bodies(map d | d in ds :: d.character, map d | d in ds :: d.original, map c | c in cs :: c.desc,
           map d | d in ds :: d.disconnect)
  }

  /** `d` snoops `e` exactly when `e` is snooped by `d`; nobody snoops himself or his own snooper. */
  ghost predicate SnoopLinks(s: Snoops) {
    && s.snooping.Keys == s.snoopBy.Keys
    && (forall d :: d in s.snooping && s.snooping[d] != null ==>
          s.snooping[d] in s.snoopBy && s.snoopBy[s.snooping[d]] == d)
    && (forall d :: d in s.snoopBy && s.snoopBy[d] != null ==>
          s.snoopBy[d] in s.snooping && s.snooping[s.snoopBy[d]] == d)
    && (forall d :: d in s.snooping && s.snooping[d] != null ==>
          s.snooping[d] != d && s.snooping[s.snooping[d]] != d)
  }

  /** `d` plays `c` exactly when `c` is played by `d`; a body is never its own original. */
  ghost predicate BodyLinks(b: Bodies) {
    && b.character.Keys == b.original.Keys == b.disconnect.Keys
    && (forall d :: d in b.character && b.character[d] != null ==>
          b.character[d] in b.desc && b.desc[b.character[d]] == d)
    && (forall c :: c in b.desc && b.desc[c] != null ==>
          b.desc[c] in b.character && b.character[b.desc[c]] == c)
    && (forall d :: d in b.original && b.original[d] != null ==>
          b.original[d] in b.desc && b.original[d] != b.character[d])
  }

  /** No body is the original of two descriptors, and whoever plays someone's original body has himself switched. */
  ghost predicate SwitchLinks(b: Bodies)
    requires b.character.Keys == b.original.Keys
  {
    && (forall d, e :: d in b.original && e in b.original && b.original[d] != null && b.original[d] == b.original[e] ==>
          d == e)
    && (forall d, e ::
          d in b.original && e in b.original && b.original[d] != null && b.character[e] == b.original[d] ==>
          b.original[e] != null)
  }

  ghost predicate Consistent(ds: set<Descriptor>, cs: set<Character>)
    reads ds, cs
  {
    SnoopLinks(SnoopsOf(ds)) && BodyLinks(BodiesOf(ds, cs)) && SwitchLinks(BodiesOf(ds, cs))
  }

  // ---- What the commands do to the links ----

  ghost function Stopped(s: Snoops, d: Descriptor): Snoops
    requires d in s.snooping
  {
    if s.snooping[d] == null then s
    else Snoops(s.snooping[d := null], s.snoopBy[s.snooping[d] := null])
  }

  ghost function Begun(s: Snoops, d: Descriptor, e: Descriptor): Snoops
    requires d in s.snooping
  {
    Snoops(s.snooping[d := e], Stopped(s, d).snoopBy[e := d])
  }

  ghost function Switched(b: Bodies, ch: Character, d: Descriptor, victim: Character): Bodies {
    b.(character := b.character[d := victim], original := b.original[d := ch], desc := b.desc[victim := d][ch := null])
  }

  /** Whoever plays the body that `d` goes back to plays nothing from then on. */
  ghost function Returned(b: Bodies, ch: Character, d: Descriptor, body: Character): Bodies
    requires body in b.desc
  {
    var x := b.desc[body];
    var left := if x == null then b.character else b.character[x := null];
    Bodies(left[d := body], b.original[d := null], b.desc[body := d][ch := null],
           if x == null then b.disconnect else b.disconnect[x := true])
  }

  // What these functions say of each descriptor and each body.

  lemma StoppedAt(s: Snoops, d: Descriptor)
    requires d in s.snooping && s.snooping.Keys == s.snoopBy.Keys
        && (s.snooping[d] != null ==> s.snooping[d] in s.snoopBy)
    ensures var t := Stopped(s, d);
      && t.snooping.Keys == t.snoopBy.Keys == s.snooping.Keys
      && (forall x :: x in s.snooping ==> t.snooping[x] == if x == d then null else s.snooping[x])
      && (forall x :: x in s.snooping ==> t.snoopBy[x] == if x == s.snooping[d] then null else s.snoopBy[x])
  {
  }

  lemma BegunAt(s: Snoops, d: Descriptor, e: Descriptor)
    requires d in s.snooping && e in s.snooping && s.snooping.Keys == s.snoopBy.Keys
    requires s.snooping[d] != null ==> s.snooping[d] in s.snoopBy
    ensures var t := Begun(s, d, e);
      && t.snooping.Keys == t.snoopBy.Keys == s.snooping.Keys
      && (forall x :: x in s.snooping ==> t.snooping[x] == if x == d then e else s.snooping[x])
      && (forall x :: x in s.snooping ==>
            t.snoopBy[x] == if x == e then d else if x == s.snooping[d] then null else s.snoopBy[x])
  {
  }

  lemma SwitchedAt(b: Bodies, ch: Character, d: Descriptor, victim: Character)
    requires b.character.Keys == b.original.Keys == b.disconnect.Keys && d in b.character && ch in b.desc
        && victim in b.desc
    ensures var t := Switched(b, ch, d, victim);
      && t.character.Keys == t.original.Keys == t.disconnect.Keys == b.character.Keys && t.desc.Keys == b.desc.Keys
      && (forall x :: x in b.character ==> t.character[x] == if x == d then victim else b.character[x])
      && (forall x :: x in b.character ==> t.original[x] == if x == d then ch else b.original[x])
      && (forall x :: x in b.character ==> t.disconnect[x] == b.disconnect[x])
      && (forall c :: c in b.desc ==> t.desc[c] == if c == ch then null else if c == victim then d else b.desc[c])
  {
  }

  lemma ReturnedAt(b: Bodies, ch: Character, d: Descriptor, body: Character)
    requires b.character.Keys == b.original.Keys == b.disconnect.Keys && d in b.character && ch in b.desc
        && body in b.desc
    requires b.desc[body] != null ==> b.desc[body] in b.character
    ensures var t := Returned(b, ch, d, body); var out := b.desc[body];
      && t.character.Keys == t.original.Keys == t.disconnect.Keys == b.character.Keys && t.desc.Keys == b.desc.Keys
      && (forall x :: x in b.character ==>
            t.character[x] == if x == d then body else if x == out then null else b.character[x])
      && (forall x :: x in b.character ==> t.original[x] == if x == d then null else b.original[x])
      && (forall x :: x in b.character ==> t.disconnect[x] == (x == out || b.disconnect[x]))
      && (forall c :: c in b.desc ==> t.desc[c] == if c == ch then null else if c == body then d else b.desc[c])
  {
  }

  lemma StoppedKeeps(s: Snoops, d: Descriptor)
    requires SnoopLinks(s) && d in s.snooping
    ensures SnoopLinks(Stopped(s, d))
  {
  }

  lemma BegunKeeps(s: Snoops, d: Descriptor, e: Descriptor)
    requires SnoopLinks(s) && d in s.snooping && e in s.snooping
    requires d != e && s.snoopBy[e] == null && s.snooping[e] != d
    ensures SnoopLinks(Begun(s, d, e))
  {
  }

  lemma SwitchedKeeps(b: Bodies, ch: Character, d: Descriptor, victim: Character)
    requires BodyLinks(b) && SwitchLinks(b) && ch in b.desc && b.desc[ch] == d && victim in b.desc
    requires victim != ch && b.desc[victim] == null && b.original[d] == null
    ensures BodyLinks(Switched(b, ch, d, victim)) && SwitchLinks(Switched(b, ch, d, victim))
  {
  }

  /** Whoever is thrown out of a body had himself switched into it. */
  lemma ThrownOut(b: Bodies, ch: Character, d: Descriptor, body: Character)
    requires BodyLinks(b) && SwitchLinks(b) && ch in b.desc && b.desc[ch] == d && b.original[d] == body
    ensures body in b.desc && body != ch
    ensures b.desc[body] != null ==> b.desc[body] in b.original && b.desc[body] != d && b.original[b.desc[body]] != null
  {
  }

  lemma ReturnedBodies(b: Bodies, ch: Character, d: Descriptor, body: Character)
    requires BodyLinks(b) && ch in b.desc && b.desc[ch] == d && b.original[d] == body
    requires body in b.desc && body != ch && b.desc[body] != d
    ensures BodyLinks(Returned(b, ch, d, body))
  {
    hide Returned;
    ReturnedAt(b, ch, d, body);
  }

  lemma ReturnedSwitches(b: Bodies, ch: Character, d: Descriptor, body: Character)
    requires BodyLinks(b) && SwitchLinks(b) && ch in b.desc && b.desc[ch] == d && b.original[d] == body
    requires body in b.desc && body != ch && b.desc[body] != d
    ensures var r := Returned(b, ch, d, body); r.character.Keys == r.original.Keys && SwitchLinks(r)
  {
    hide Returned;
    ReturnedAt(b, ch, d, body);
  }

  lemma ReturnedKeeps(b: Bodies, ch: Character, d: Descriptor, body: Character)
    requires BodyLinks(b) && SwitchLinks(b) && ch in b.desc && b.desc[ch] == d && b.original[d] == body
    ensures body in b.desc && BodyLinks(Returned(b, ch, d, body)) && SwitchLinks(Returned(b, ch, d, body))
  {
    hide BodyLinks, SwitchLinks, Returned;
    ThrownOut(b, ch, d, body);
    ReturnedBodies(b, ch, d, body);
    ReturnedSwitches(b, ch, d, body);
  }

  // ---- The commands ----

  lemma SnoopsIs(ds: set<Descriptor>, s: Snoops)
    requires s.snooping.Keys == s.snoopBy.Keys == ds
    requires forall d :: d in ds ==> s.snooping[d] == d.snooping && s.snoopBy[d] == d.snoopBy
    ensures SnoopsOf(ds) == s
  {
  }

  lemma BodiesIs(ds: set<Descriptor>, cs: set<Character>, b: Bodies)
    requires b.character.Keys == b.original.Keys == b.disconnect.Keys == ds && b.desc.Keys == cs
    requires forall d :: d in ds ==>
               b.character[d] == d.character && b.original[d] == d.original && b.disconnect[d] == d.disconnect
    requires forall c :: c in cs ==> b.desc[c] == c.desc
    ensures BodiesOf(ds, cs) == b
  {
  }

  lemma SnoopsAt(ds: set<Descriptor>)
    ensures var s := SnoopsOf(ds);
      && s.snooping.Keys == s.snoopBy.Keys == ds
      && forall d :: d in ds ==> s.snooping[d] == d.snooping && s.snoopBy[d] == d.snoopBy
  {
  }

  lemma BodiesAt(ds: set<Descriptor>, cs: set<Character>)
    ensures var b := BodiesOf(ds, cs);
      && b.character.Keys == b.original.Keys == b.disconnect.Keys == ds && b.desc.Keys == cs
      && (forall d :: d in ds ==>
            b.character[d] == d.character && b.original[d] == d.original && b.disconnect[d] == d.disconnect)
      && (forall c :: c in cs ==> b.desc[c] == c.desc)
  {
  }

  lemma PlayedBy(ds: set<Descriptor>, cs: set<Character>, c: Character)
    requires Consistent(ds, cs) && c in cs && c.desc != null
    ensures c.desc in ds && c.desc.character == c
  {
    assert BodiesOf(ds, cs).desc[c] == c.desc;
  }

  method StopSnooping(ghost ds: set<Descriptor>, ghost cs: set<Character>, ch: Character)
    requires Consistent(ds, cs) && ch in cs && ch.desc != null
    modifies ds`snooping, ds`snoopBy
    ensures Consistent(ds, cs) && ch.desc != null && ch.desc in ds && ch.desc.snooping == null
    ensures SnoopsOf(ds) == Stopped(old(SnoopsOf(ds)), ch.desc) && BodiesOf(ds, cs) == old(BodiesOf(ds, cs))
  {
    hide SnoopLinks, BodyLinks, SwitchLinks, SnoopsOf, BodiesOf, Stopped;
    SnoopsAt(ds);
    PlayedBy(ds, cs, ch);
    var d := ch.desc;
    StoppedKeeps(SnoopsOf(ds), d);
    SnoopedKnown(ds, d);
    StoppedAt(SnoopsOf(ds), d);
    DropSnoop(ds, d);
    SnoopsIs(ds, Stopped(old(SnoopsOf(ds)), d));
  }

  method DropSnoop(ghost ds: set<Descriptor>, d: Descriptor)
    requires d in ds && (d.snooping != null ==> d.snooping in ds)
    modifies ds`snooping, ds`snoopBy
    ensures forall x :: x in ds ==> x.snooping == if x == d then null else old(x.snooping)
    ensures forall x :: x in ds ==> x.snoopBy == if x == old(d.snooping) then null else old(x.snoopBy)
  {
    if d.snooping != null {
      d.snooping.snoopBy := null;
      d.snooping := null;
    }
  }

  lemma SnoopedKnown(ds: set<Descriptor>, d: Descriptor)
    requires SnoopLinks(SnoopsOf(ds)) && d in ds
    ensures d.snooping != null ==> d.snooping in ds
  {
    assert SnoopsOf(ds).snooping[d] == d.snooping;
  }

  datatype Outcome = NoLink | Stop | NobodyThere | VictimNoLink | Busy | Stupid | CannotSnoop | Begin

  /** What do_snoop answers. `named` tells whether an argument was given; `victim` is who it names, if anyone. */
  ghost function SnoopOutcome(s: Snoops, b: Bodies, ch: Character, named: bool, victim: Character?): Outcome
    requires SnoopLinks(s) && BodyLinks(b) && s.snooping.Keys == b.character.Keys
    requires ch in b.desc && (victim != null ==> victim in b.desc)
  {
    if b.desc[ch] == null then NoLink
    else if !named then Stop
    else if victim == null then NobodyThere
    else if b.desc[victim] == null then VictimNoLink
    else if victim == ch then Stop
    else if s.snoopBy[b.desc[victim]] != null then Busy
    else if s.snooping[b.desc[victim]] == b.desc[ch] then Stupid
    else
      var self := b.original[b.desc[victim]];
      if (if self != null then self.level else victim.level) > ch.level then CannotSnoop else Begin
  }

  /** When someone may begin to snoop another: that one is linked and not snooped yet, does not snoop him, and has a
      body of his own of no higher level. */
  ghost predicate MayBegin(ch: Character, named: bool, victim: Character?)
    reads *
  {
    && ch.desc != null && named && victim != null && victim != ch && victim.desc != null
    && victim.desc.snoopBy == null && victim.desc.snooping != ch.desc
    && OwnBody(victim.desc) != null && OwnBody(victim.desc).level <= ch.level
  }

  /** do_snoop. */
  method Snoop(ghost ds: set<Descriptor>, ghost cs: set<Character>, ch: Character, named: bool, victim: Character?)
    returns (outcome: Outcome)
    requires Consistent(ds, cs) && ch in cs && (victim != null ==> victim in cs)
    modifies ds`snooping, ds`snoopBy
    ensures Consistent(ds, cs) && BodiesOf(ds, cs) == old(BodiesOf(ds, cs))
    ensures outcome == SnoopOutcome(old(SnoopsOf(ds)), BodiesOf(ds, cs), ch, named, victim)
    ensures outcome == Stop ==> ch.desc in ds && SnoopsOf(ds) == Stopped(old(SnoopsOf(ds)), ch.desc)
    ensures outcome == Begin ==>
              ch.desc in ds && victim.desc in ds && SnoopsOf(ds) == Begun(old(SnoopsOf(ds)), ch.desc, victim.desc)
    ensures outcome != Stop && outcome != Begin ==> SnoopsOf(ds) == old(SnoopsOf(ds))
    ensures outcome == Stop <==> ch.desc != null && (!named || victim == ch)
    ensures outcome == Begin <==> old(MayBegin(ch, named, victim))
    ensures outcome in {VictimNoLink, Busy, Stupid, CannotSnoop} ==> named && victim != null && victim != ch
    ensures match outcome
            case NoLink => ch.desc == null
            case NobodyThere => named && victim == null
            case VictimNoLink => victim.desc == null
            case Busy => old(victim.desc.snoopBy) != null
            case Stupid => old(victim.desc.snooping) == ch.desc
            case CannotSnoop => OwnBody(victim.desc) != null && OwnBody(victim.desc).level > ch.level
            case Stop => ch.desc.snooping == null
            case Begin => ch.desc.snooping == victim.desc && victim.desc.snoopBy == ch.desc
    ensures forall d :: d in ds ==> OwnBody(d) == old(OwnBody(d))
  {
    hide SnoopLinks, SwitchLinks, Stopped, Begun;
    if ch.desc == null {
      return NoLink;
    }
    PlayedBy(ds, cs, ch);
    if !named {
      StopSnooping(ds, cs, ch);
      return Stop;
    } else if victim == null {
      return NobodyThere;
    } else if victim.desc == null {
      return VictimNoLink;
    } else if victim == ch {
      StopSnooping(ds, cs, ch);
      return Stop;
    }
    PlayedBy(ds, cs, victim);
    if victim.desc.snoopBy != null {
      return Busy;
    } else if victim.desc.snooping == ch.desc {
      return Stupid;
    }
    var tch := if victim.desc.original != null then victim.desc.original else victim;
    if tch.level > ch.level {
      return CannotSnoop;
    }
    BeginSnooping(ds, cs, ch.desc, victim.desc);
    return Begin;
  }

  /** `d` drops whom it snoops and snoops `e` instead. */
  method BeginSnooping(ghost ds: set<Descriptor>, ghost cs: set<Character>, d: Descriptor, e: Descriptor)
    requires Consistent(ds, cs) && d in ds && e in ds && d != e && e.snoopBy == null && e.snooping != d
    modifies ds`snooping, ds`snoopBy
    ensures Consistent(ds, cs) && d.snooping == e && e.snoopBy == d
    ensures SnoopsOf(ds) == Begun(old(SnoopsOf(ds)), d, e) && BodiesOf(ds, cs) == old(BodiesOf(ds, cs))
  {
    hide SnoopLinks, BodyLinks, SwitchLinks, SnoopsOf, BodiesOf, Begun;
    SnoopsAt(ds);
    BegunKeeps(SnoopsOf(ds), d, e);
    SnoopedKnown(ds, d);
    BegunAt(SnoopsOf(ds), d, e);
    MoveSnoop(ds, d, e);
    SnoopsIs(ds, Begun(old(SnoopsOf(ds)), d, e));
  }

  method MoveSnoop(ghost ds: set<Descriptor>, d: Descriptor, e: Descriptor)
    requires d in ds && e in ds && (d.snooping != null ==> d.snooping in ds)
    modifies ds`snooping, ds`snoopBy
    ensures forall x :: x in ds ==> x.snooping == if x == d then e else old(x.snooping)
    ensures forall x :: x in ds ==>
              x.snoopBy == if x == e then d else if x == old(d.snooping) then null else old(x.snoopBy)
  {
    if d.snooping != null {
      d.snooping.snoopBy := null;
    }
    d.snooping := e;
    e.snoopBy := d;
  }

  /** When a switch succeeds. */
  ghost predicate CanSwitch(b: Bodies, ch: Character, victim: Character?)
    requires BodyLinks(b) && ch in b.desc && b.desc[ch] != null && (victim != null ==> victim in b.desc)
  {
    && b.original[b.desc[ch]] == null && victim != null && victim != ch && b.desc[victim] == null
    && (ch.level >= LVL_IMPL || victim.npc)
  }

  /** do_switch, for a body that someone plays: the source reads the descriptor unconditionally. */
  method Switch(ghost ds: set<Descriptor>, ghost cs: set<Character>, ch: Character, victim: Character?)
      returns (ok: bool)
    requires Consistent(ds, cs) && ch in cs && ch.desc != null && (victim != null ==> victim in cs)
    modifies ds`character, ds`original, cs`desc
    ensures Consistent(ds, cs) && SnoopsOf(ds) == old(SnoopsOf(ds))
    ensures ok <==> CanSwitch(old(BodiesOf(ds, cs)), ch, victim)
    ensures BodiesOf(ds, cs) ==
            if ok then Switched(old(BodiesOf(ds, cs)), ch, old(ch.desc), victim) else old(BodiesOf(ds, cs))
    ensures ok <==> && old(ch.desc.original) == null && victim != null && victim != ch && old(victim.desc) == null
                    && (ch.level >= 38 || victim.npc)
    ensures ok ==> old(ch.desc).character == victim && old(ch.desc).original == ch && ch.desc == null
    ensures forall d :: d in ds ==> OwnBody(d) == old(OwnBody(d))
  {
    hide SnoopLinks, BodyLinks, SwitchLinks, SnoopsOf, BodiesOf, Switched;
    ghost var b := BodiesOf(ds, cs);
    BodiesAt(ds, cs);
    PlayedBy(ds, cs, ch);
    if ch.desc.original != null || victim == null || ch == victim || victim.desc != null {
      return false;
    }
    if ch.level < LVL_IMPL && !victim.npc {
      return false;
    }
    SwitchedKeeps(b, ch, ch.desc, victim);
    SwitchedAt(b, ch, ch.desc, victim);
    TakeBody(ds, cs, ch, victim);
    BodiesIs(ds, cs, Switched(b, ch, old(ch.desc), victim));
    return true;
  }

  method TakeBody(ghost ds: set<Descriptor>, ghost cs: set<Character>, ch: Character, victim: Character)
    requires ch in cs && victim in cs && ch != victim && ch.desc != null && ch.desc in ds
    modifies ds`character, ds`original, cs`desc
    ensures forall d :: d in ds ==> d.character == if d == old(ch.desc) then victim else old(d.character)
    ensures forall d :: d in ds ==> d.original == if d == old(ch.desc) then ch else old(d.original)
    ensures forall c :: c in cs ==>
        c.desc == if c == ch then null else if c == victim then old(ch.desc) else old(c.desc)
  {
    ch.desc.character := victim;
    ch.desc.original := ch;
    victim.desc := ch.desc;
    ch.desc := null;
  }

  /** do_return. Whoever has switched into the original body meanwhile loses it and is disconnected; he has a body of
      his own to go back to. */
  method Return(ghost ds: set<Descriptor>, ghost cs: set<Character>, ch: Character) returns (ok: bool)
    requires Consistent(ds, cs) && ch in cs
    modifies ds`character, ds`original, ds`disconnect, cs`desc
    ensures Consistent(ds, cs) && SnoopsOf(ds) == old(SnoopsOf(ds))
    ensures ok <==> old(ch.desc) != null && old(ch.desc.original) != null
    ensures ok ==> old(ch.desc.original) in cs &&
                   BodiesOf(ds, cs) == Returned(old(BodiesOf(ds, cs)), ch, old(ch.desc), old(ch.desc.original))
    ensures ok && old(ch.desc.original.desc) != null ==> old(ch.desc.original.desc.original) != null
    ensures !ok ==> BodiesOf(ds, cs) == old(BodiesOf(ds, cs))
    ensures ok ==> old(ch.desc).character == old(ch.desc.original) && old(ch.desc).original == null
    ensures forall d :: d in ds ==> OwnBody(d) == old(OwnBody(d))
  {
    hide SnoopLinks, BodyLinks, SwitchLinks, SnoopsOf, BodiesOf, Returned;
    ghost var b := BodiesOf(ds, cs);
    BodiesAt(ds, cs);
    if ch.desc == null || ch.desc.original == null {
      return false;
    }
    PlayedBy(ds, cs, ch);
    var d, body := ch.desc, ch.desc.original;
    ReturnedKeeps(b, ch, d, body);
    ThrownOut(b, ch, d, body);
    if body.desc != null {
      PlayedBy(ds, cs, body);
    }
    ReturnedAt(b, ch, d, body);
    GiveBack(ds, cs, ch);
    BodiesIs(ds, cs, Returned(b, ch, d, body));
    return true;
  }

  method GiveBack(ghost ds: set<Descriptor>, ghost cs: set<Character>, ch: Character)
    requires ch in cs && ch.desc != null && ch.desc in ds && ch.desc.original != null && ch.desc.original in cs
    requires ch.desc.original != ch && ch.desc.original.desc != ch.desc
    requires ch.desc.original.desc != null ==> ch.desc.original.desc in ds
    modifies ds`character, ds`original, ds`disconnect, cs`desc
    ensures var d0 := old(ch.desc); var body := old(ch.desc.original); var out := old(ch.desc.original.desc);
      && (forall d :: d in ds ==>
            d.character == if d == d0 then body else if d == out then null else old(d.character))
      && (forall d :: d in ds ==> d.original == if d == d0 then null else old(d.original))
      && (forall d :: d in ds ==> d.disconnect == (d == out || old(d.disconnect)))
      && (forall c :: c in cs ==> c.desc == if c == ch then null else if c == body then d0 else old(c.desc))
  {
    if ch.desc.original.desc != null {
      ch.desc.original.desc.character := null;
      ch.desc.original.desc.disconnect := true;
    }
    ch.desc.character := ch.desc.original;
    ch.desc.original := null;
    ch.desc.character.desc := ch.desc;
    ch.desc := null;
  }

  datatype Command =
    | CmdSnoop(ch: Character, named: bool, victim: Character?)
    | CmdSwitch(ch: Character, victim: Character?)
    | CmdReturn(ch: Character)

  /** Every run of the commands keeps all links consistent, and leaves everyone the body that is his by rights. A switch
      of a body that nobody plays is skipped. */
  method Run(ghost ds: set<Descriptor>, ghost cs: set<Character>, cmds: seq<Command>)
    requires Consistent(ds, cs)
    requires forall i :: 0 <= i < |cmds| ==>
               cmds[i].ch in cs && (!cmds[i].CmdReturn? && cmds[i].victim != null ==> cmds[i].victim in cs)
    modifies ds, cs
    ensures Consistent(ds, cs)
    ensures forall d :: d in ds ==> OwnBody(d) == old(OwnBody(d))
  {
    hide Consistent;
    var i := 0;
    while i < |cmds|
      invariant i <= |cmds| && Consistent(ds, cs)
      invariant forall d :: d in ds ==> OwnBody(d) == old(OwnBody(d))
    {
      match cmds[i] {
        case CmdSnoop(ch, named, victim) => var _ := Snoop(ds, cs, ch, named, victim);
        case CmdSwitch(ch, victim) =>
          if ch.desc != null {
            var _ := Switch(ds, cs, ch, victim);
          }
        case CmdReturn(ch) => var _ := Return(ds, cs, ch);
      }
      i := i + 1;
    }
  }
}
