/** Doors between rooms, and containers: what the door commands do, and what a run of them keeps. */
module DoorSpec {

  const NUM_OF_DIRS: nat := 10
  const NOWHERE: int := -1
  const LVL_GOD: int := 34

  datatype SubCmd = Open | Close | Unlock | Lock | Pick

  /** What a door and a container have in common; `openable` says it is a door, or a container that closes. */
  datatype Latch = Latch(openable: bool, closed: bool, locked: bool, pickproof: bool, key: int)

  datatype Exit = NoExit | Exit(toRoom: int, latch: Latch)

  datatype Site = AtExit(room: nat, door: nat) | AtBox(box: nat)

  datatype State = State(rooms: seq<seq<Exit>>, boxes: seq<Latch>)

  /** One command: who has the key, is a god or would pick the lock is settled beforehand. */
  datatype Command = Command(site: Site, cmd: SubCmd, keyed: bool, skilled: bool)

  function RevDir(d: nat): (r: nat)
    requires d < NUM_OF_DIRS
    ensures r < NUM_OF_DIRS
  {
    [2, 3, 0, 1, 5, 4, 9, 8, 7, 6][d]
  }

  lemma RevDirInvolution(d: nat)
    requires d < NUM_OF_DIRS
    ensures RevDir(RevDir(d)) == d && RevDir(d) != d
  {
  }

  /** Where each direction leads: east, north and up. */
  function Offset(d: nat): (int, int, int)
    requires d < NUM_OF_DIRS
  {
    [(0, 1, 0), (1, 0, 0), (0, -1, 0), (-1, 0, 0), (0, 0, 1),
     (0, 0, -1), (-1, 1, 0), (1, 1, 0), (-1, -1, 0), (1, -1, 0)][d]
  }

  /** The reverse of a direction is the one that leads the opposite way. */
  lemma RevDirOpposite(d: nat, e: nat)
    requires d < NUM_OF_DIRS && e < NUM_OF_DIRS
    ensures RevDir(d) == e <==>
            Offset(e).0 == -Offset(d).0 && Offset(e).1 == -Offset(d).1 && Offset(e).2 == -Offset(d).2
  {
  }

  /** Every room has ten directions, and every exit leads nowhere or to a room. */
  ghost predicate Shaped(rooms: seq<seq<Exit>>) {
    && (forall r :: 0 <= r < |rooms| ==> |rooms[r]| == NUM_OF_DIRS)
    && (forall r, d :: 0 <= r < |rooms| && 0 <= d < NUM_OF_DIRS && rooms[r][d].Exit? ==>
         rooms[r][d].toRoom == NOWHERE || 0 <= rooms[r][d].toRoom < |rooms|)
  }

  ghost predicate SiteOk(s: State, site: Site)
    requires Shaped(s.rooms)
  {
    match site
    case AtExit(r, d) => r < |s.rooms| && d < NUM_OF_DIRS && s.rooms[r][d].Exit?
    case AtBox(b) => b < |s.boxes|
  }

  ghost function LatchAt(s: State, site: Site): Latch
    requires Shaped(s.rooms) && SiteOk(s, site)
  {
    match site
    case AtExit(r, d) => s.rooms[r][d].latch
    case AtBox(b) => s.boxes[b]
  }

  /** The two exits lead to each other's rooms in opposite directions. */
  ghost predicate Mates(rooms: seq<seq<Exit>>, a: Site, b: Site)
    requires Shaped(rooms)
  {
    && a.AtExit? && b.AtExit? && a.room < |rooms| && b.room < |rooms|
    && a.door < NUM_OF_DIRS && b.door == RevDir(a.door)
    && rooms[a.room][a.door].Exit? && rooms[a.room][a.door].toRoom == b.room
    && rooms[b.room][b.door].Exit? && rooms[b.room][b.door].toRoom == a.room
  }

  lemma MatesBothWays(rooms: seq<seq<Exit>>, a: Site, b: Site, c: Site)
    requires Shaped(rooms) && Mates(rooms, a, b)
    ensures Mates(rooms, b, a) && a != b
    ensures Mates(rooms, a, c) ==> c == b
    ensures Mates(rooms, c, a) ==> c == b
  {
    RevDirInvolution(a.door);
    if Mates(rooms, c, a) {
      RevDirInvolution(c.door);
    }
  }

  /** A command on `acted` reaches `site`: the place itself, or the exit that leads back. */
  ghost predicate Reaches(rooms: seq<seq<Exit>>, acted: Site, site: Site)
    requires Shaped(rooms)
  {
    site == acted || Mates(rooms, acted, site)
  }

  /** Opening and closing turn the door; the other commands turn the lock. */
  function Turn(l: Latch, cmd: SubCmd): Latch {
    if cmd.Open? || cmd.Close? then l.(closed := !l.closed) else l.(locked := !l.locked)
  }

  function TurnExit(e: Exit, cmd: SubCmd): Exit {
    if e.Exit? then e.(latch := Turn(e.latch, cmd)) else e
  }

  /** When a command succeeds. */
  predicate Permitted(l: Latch, c: Command) {
    && l.openable
    && match c.cmd
       case Open => l.closed && !l.locked
       case Close => !l.closed
       case Lock => l.closed && !l.locked && c.keyed
       case Unlock => l.closed && l.locked && c.keyed
       case Pick => l.closed && l.locked && l.key >= 0 && !l.pickproof && c.skilled
  }

  ghost function TurnedExit(rooms: seq<seq<Exit>>, acted: Site, cmd: SubCmd, r: nat, d: nat): Exit
    requires Shaped(rooms) && r < |rooms| && d < NUM_OF_DIRS
  {
    if Reaches(rooms, acted, AtExit(r, d)) then TurnExit(rooms[r][d], cmd) else rooms[r][d]
  }

  /** The state after the latch has been turned wherever the command reaches. */
  ghost function Turned(s: State, acted: Site, cmd: SubCmd): (t: State)
    requires Shaped(s.rooms) && SiteOk(s, acted)
    ensures Shaped(t.rooms) && |t.rooms| == |s.rooms| && |t.boxes| == |s.boxes|
    ensures forall r, d :: 0 <= r < |s.rooms| && 0 <= d < NUM_OF_DIRS ==>
        t.rooms[r][d] == TurnedExit(s.rooms, acted, cmd, r, d)
    ensures forall b :: 0 <= b < |s.boxes| ==>
        t.boxes[b] == if acted == AtBox(b) then Turn(s.boxes[b], cmd) else s.boxes[b]
  {
    State(
      seq(|s.rooms|, r requires 0 <= r < |s.rooms| =>
        seq(NUM_OF_DIRS, d requires 0 <= d < NUM_OF_DIRS => TurnedExit(s.rooms, acted, cmd, r, d))),
      seq(|s.boxes|, b requires 0 <= b < |s.boxes| => if acted == AtBox(b) then Turn(s.boxes[b], cmd) else s.boxes[b]))
  }

  ghost function Step(s: State, c: Command): (t: State)
    requires Shaped(s.rooms) && SiteOk(s, c.site)
    ensures Shaped(t.rooms)
  {
    if Permitted(LatchAt(s, c.site), c) then Turned(s, c.site, c.cmd) else s
  }

  /** Exactly the places reached are turned; where exits lead never changes. */
  lemma TurnedAt(s: State, acted: Site, cmd: SubCmd, site: Site)
    requires Shaped(s.rooms) && SiteOk(s, acted)
    ensures SiteOk(Turned(s, acted, cmd), site) <==> SiteOk(s, site)
    ensures SiteOk(s, site) ==>
              LatchAt(Turned(s, acted, cmd), site) ==
                  if Reaches(s.rooms, acted, site) then Turn(LatchAt(s, site), cmd) else LatchAt(s, site)
  {
    if site.AtExit? && site.room < |s.rooms| && site.door < NUM_OF_DIRS {
      var e := TurnedExit(s.rooms, acted, cmd, site.room, site.door);
      assert Turned(s, acted, cmd).rooms[site.room][site.door] == e;
    }
  }

  lemma GraphKept(s: State, acted: Site, cmd: SubCmd, a: Site, b: Site)
    requires Shaped(s.rooms) && SiteOk(s, acted)
    ensures Mates(Turned(s, acted, cmd).rooms, a, b) <==> Mates(s.rooms, a, b)
  {
    if a.AtExit? && b.AtExit? && a.room < |s.rooms| && b.room < |s.rooms| && a.door < NUM_OF_DIRS
        && b.door < NUM_OF_DIRS {
      assert Turned(s, acted, cmd).rooms[a.room][a.door] == TurnedExit(s.rooms, acted, cmd, a.room, a.door);
      assert Turned(s, acted, cmd).rooms[b.room][b.door] == TurnedExit(s.rooms, acted, cmd, b.room, b.door);
    }
  }

  lemma StepGraph(s: State, c: Command, a: Site, b: Site)
    requires Shaped(s.rooms) && SiteOk(s, c.site)
    ensures Mates(Step(s, c).rooms, a, b) <==> Mates(s.rooms, a, b)
    ensures SiteOk(Step(s, c), a) <==> SiteOk(s, a)
  {
    GraphKept(s, c.site, c.cmd, a, b);
    TurnedAt(s, c.site, c.cmd, a);
  }

  /** A command turns both of two mates or neither, so it neither mends nor breaks their agreement. */
  lemma AgreementConserved(s: State, c: Command, a: Site, b: Site)
    requires Shaped(s.rooms) && SiteOk(s, c.site) && Mates(s.rooms, a, b)
    ensures SiteOk(Step(s, c), a) && SiteOk(Step(s, c), b)
    ensures var t := Step(s, c);
            && (LatchAt(t, a).closed == LatchAt(t, b).closed <==> LatchAt(s, a).closed == LatchAt(s, b).closed)
            && (LatchAt(t, a).locked == LatchAt(t, b).locked <==> LatchAt(s, a).locked == LatchAt(s, b).locked)
  {
    TurnedAt(s, c.site, c.cmd, a);
    TurnedAt(s, c.site, c.cmd, b);
    MatesBothWays(s.rooms, a, b, c.site);
    MatesBothWays(s.rooms, b, a, c.site);
  }

  /** Mates are both open or both closed, and both locked or both unlocked. */
  ghost predicate Agreed(s: State)
    requires Shaped(s.rooms)
  {
    forall a, b :: Mates(s.rooms, a, b) ==>
        LatchAt(s, a).closed == LatchAt(s, b).closed && LatchAt(s, a).locked == LatchAt(s, b).locked
  }

  /** Nothing is locked while open. */
  ghost predicate LockSound(s: State)
    requires Shaped(s.rooms)
  {
    forall a :: SiteOk(s, a) && LatchAt(s, a).locked ==> LatchAt(s, a).closed
  }

  lemma StepAgreed(s: State, c: Command)
    requires Shaped(s.rooms) && SiteOk(s, c.site)
    ensures Agreed(Step(s, c)) <==> Agreed(s)
  {
    forall a, b | Mates(s.rooms, a, b)
      ensures Mates(Step(s, c).rooms, a, b)
      ensures SiteOk(Step(s, c), a) && SiteOk(Step(s, c), b)
      ensures var t := Step(s, c);
              && (LatchAt(t, a).closed == LatchAt(t, b).closed <==> LatchAt(s, a).closed == LatchAt(s, b).closed)
              && (LatchAt(t, a).locked == LatchAt(t, b).locked <==> LatchAt(s, a).locked == LatchAt(s, b).locked)
    {
      StepGraph(s, c, a, b);
      AgreementConserved(s, c, a, b);
    }
    forall a, b | Mates(Step(s, c).rooms, a, b) ensures Mates(s.rooms, a, b) {
      StepGraph(s, c, a, b);
    }
  }

  /** Turning the latch leaves it sound: a lock stays closed, and only what is closed gets locked. */
  predicate Allows(l: Latch, cmd: SubCmd) {
    if cmd.Open? || cmd.Close? then !l.locked else l.closed
  }

  /** The far side of the door, where the guards never look, allows the command too. */
  ghost predicate FarSideAllows(s: State, c: Command)
    requires Shaped(s.rooms) && SiteOk(s, c.site)
  {
    forall b :: Mates(s.rooms, c.site, b) ==> Allows(s.rooms[b.room][b.door].latch, c.cmd)
  }

  /** A permitted command leaves nothing locked while open exactly when the far side allows it. */
  lemma LockSoundIff(s: State, c: Command)
    requires Shaped(s.rooms) && SiteOk(s, c.site) && LockSound(s) && Permitted(LatchAt(s, c.site), c)
    ensures LockSound(Step(s, c)) <==> FarSideAllows(s, c)
  {
    var t := Step(s, c);
    if FarSideAllows(s, c) {
      forall a | SiteOk(t, a) && LatchAt(t, a).locked ensures LatchAt(t, a).closed {
        TurnedAt(s, c.site, c.cmd, a);
        assert LatchAt(s, a).locked ==> LatchAt(s, a).closed;
      }
    } else {
      var b :| Mates(s.rooms, c.site, b) && !Allows(s.rooms[b.room][b.door].latch, c.cmd);
      TurnedAt(s, c.site, c.cmd, b);
      assert LatchAt(s, b).locked ==> LatchAt(s, b).closed;
      assert LatchAt(t, b).locked && !LatchAt(t, b).closed;
    }
  }

  lemma AgreementAllows(s: State, c: Command)
    requires Shaped(s.rooms) && SiteOk(s, c.site) && LockSound(s) && Agreed(s) && Permitted(LatchAt(s, c.site), c)
    ensures FarSideAllows(s, c)
  {
    forall b | Mates(s.rooms, c.site, b)
      ensures Allows(s.rooms[b.room][b.door].latch, c.cmd)
    {
      assert LatchAt(s, c.site).closed == LatchAt(s, b).closed && LatchAt(s, c.site).locked == LatchAt(s, b).locked;
      assert LatchAt(s, c.site).locked ==> LatchAt(s, c.site).closed;
    }
  }

  ghost predicate SitesOk(s: State, cs: seq<Command>)
    requires Shaped(s.rooms)
  {
    forall c :: c in cs ==> SiteOk(s, c.site)
  }

  lemma StepSitesOk(s: State, c: Command, cs: seq<Command>)
    requires Shaped(s.rooms) && SiteOk(s, c.site) && SitesOk(s, cs)
    ensures SitesOk(Step(s, c), cs)
  {
    forall c' | c' in cs ensures SiteOk(Step(s, c), c'.site) {
      StepGraph(s, c, c'.site, c'.site);
    }
  }

  ghost function Run(s: State, cs: seq<Command>): (t: State)
    requires Shaped(s.rooms) && SitesOk(s, cs)
    ensures Shaped(t.rooms)
    decreases |cs|
  {
    if cs == [] then s
    else
      StepSitesOk(s, cs[0], cs[1..]);
      Run(Step(s, cs[0]), cs[1..])
  }

  /** Doors whose two sides agree agree for ever, and then nothing is ever locked while open. */
  lemma {:induction false} RunKeepsDoors(s: State, cs: seq<Command>)
    requires Shaped(s.rooms) && SitesOk(s, cs)
    ensures Agreed(Run(s, cs)) <==> Agreed(s)
    ensures Agreed(s) && LockSound(s) ==> LockSound(Run(s, cs))
    decreases |cs|
  {
    if cs == [] {
    } else {
      StepSitesOk(s, cs[0], cs[1..]);
      StepAgreed(s, cs[0]);
      if Agreed(s) && LockSound(s) && Permitted(LatchAt(s, cs[0].site), cs[0]) {
        AgreementAllows(s, cs[0]);
        LockSoundIff(s, cs[0]);
      }
      RunKeepsDoors(Step(s, cs[0]), cs[1..]);
    }
  }

  /** Turning twice puts everything back, on both sides of the door. */
  lemma TurnedTwice(s: State, acted: Site, cmd: SubCmd, back: SubCmd)
    requires Shaped(s.rooms) && SiteOk(s, acted)
    requires (cmd.Open? || cmd.Close?) <==> (back.Open? || back.Close?)
    ensures SiteOk(Turned(s, acted, cmd), acted)
    ensures Turned(Turned(s, acted, cmd), acted, back) == s
  {
    var t := Turned(s, acted, cmd);
    TurnedAt(s, acted, cmd, acted);
    var u := Turned(t, acted, back);
    forall r, d | 0 <= r < |s.rooms| && 0 <= d < NUM_OF_DIRS ensures u.rooms[r][d] == s.rooms[r][d] {
      assert t.rooms[r][d] == TurnedExit(s.rooms, acted, cmd, r, d);
      GraphKept(s, acted, cmd, acted, AtExit(r, d));
      assert u.rooms[r][d] == TurnedExit(t.rooms, acted, back, r, d);
    }
    forall r | 0 <= r < |s.rooms| ensures u.rooms[r] == s.rooms[r] {
    }
    assert u.rooms == s.rooms && u.boxes == s.boxes;
  }

  /** Opening then closing, or unlocking then locking with the same key, restores the whole world. */
  lemma UndoneByOpposite(s: State, c: Command, back: SubCmd)
    requires Shaped(s.rooms) && SiteOk(s, c.site) && Permitted(LatchAt(s, c.site), c)
    requires match c.cmd
             case Open => back == Close
             case Close => back == Open && !LatchAt(s, c.site).locked
             case Lock => back == Unlock
             case Unlock => back == Lock
             case Pick => back == Lock && c.keyed
    ensures SiteOk(Step(s, c), c.site)
    ensures Step(Step(s, c), c.(cmd := back)) == s
  {
    TurnedAt(s, c.site, c.cmd, c.site);
    TurnedTwice(s, c.site, c.cmd, back);
  }

  // ---- What it takes to change a latch ----

  /** A door is opened only if it is closed and unlocked, closed only if it is open, locked and unlocked only if it is
      closed; and no command does the opposite of its name. */
  lemma NamesHold(s: State, c: Command)
    requires Shaped(s.rooms) && SiteOk(s, c.site)
    ensures SiteOk(Step(s, c), c.site)
    ensures var l, m := LatchAt(s, c.site), LatchAt(Step(s, c), c.site);
      && (m == l <==> Step(s, c) == s)
      && (m != l ==> l.openable && match c.cmd
          case Open => l.closed && !l.locked && m == l.(closed := false)
          case Close => !l.closed && m == l.(closed := true)
          case Lock => l.closed && !l.locked && m == l.(locked := true)
          case Unlock => l.closed && l.locked && m == l.(locked := false)
          case Pick => l.closed && l.locked && m == l.(locked := false))
  {
    TurnedAt(s, c.site, c.cmd, c.site);
  }

  /** A lock changes only for someone with its key, or for a successful picker of a lock that has a keyhole and is not
      pickproof. */
  lemma LockNeedsKey(s: State, c: Command, site: Site)
    requires Shaped(s.rooms) && SiteOk(s, c.site) && SiteOk(s, site)
    ensures SiteOk(Step(s, c), site)
    ensures LatchAt(Step(s, c), site).locked != LatchAt(s, site).locked ==>
              var l := LatchAt(s, c.site);
              && Reaches(s.rooms, c.site, site) && l.openable && l.closed
              && (c.keyed || (c.cmd.Pick? && c.skilled && l.key >= 0 && !l.pickproof))
  {
    TurnedAt(s, c.site, c.cmd, site);
  }

  /** The command cannot turn a lock: no key, and no success at picking this one. */
  ghost predicate Keyless(s: State, c: Command)
    requires Shaped(s.rooms) && SiteOk(s, c.site)
  {
    var l := LatchAt(s, c.site);
    !c.keyed && !(c.cmd.Pick? && c.skilled && l.key >= 0 && !l.pickproof)
  }

  ghost predicate AllKeyless(s: State, cs: seq<Command>, site: Site)
    requires Shaped(s.rooms) && SitesOk(s, cs)
  {
    forall c :: c in cs && Reaches(s.rooms, c.site, site) ==> Keyless(s, c)
  }

  /** Which commands have no key does not depend on the commands before them. */
  lemma KeylessKept(s: State, c: Command, cs: seq<Command>, site: Site)
    requires Shaped(s.rooms) && SiteOk(s, c.site) && SitesOk(s, cs) && AllKeyless(s, cs, site)
    ensures SitesOk(Step(s, c), cs) && AllKeyless(Step(s, c), cs, site)
  {
    StepSitesOk(s, c, cs);
    forall c' | c' in cs && Reaches(Step(s, c).rooms, c'.site, site) ensures Keyless(Step(s, c), c') {
      StepGraph(s, c, c'.site, site);
      TurnedAt(s, c.site, c.cmd, c'.site);
    }
  }

  /** Over any run a lock stays as it is if nobody with the key, and nobody who can pick it, works at either side. */
  lemma {:induction false} LockHolds(s: State, cs: seq<Command>, site: Site)
    requires Shaped(s.rooms) && SitesOk(s, cs) && SiteOk(s, site) && AllKeyless(s, cs, site)
    ensures SiteOk(Run(s, cs), site) && LatchAt(Run(s, cs), site).locked == LatchAt(s, site).locked
    decreases |cs|
  {
    if cs != [] {
      LockNeedsKey(s, cs[0], site);
      KeylessKept(s, cs[0], cs[1..], site);
      LockHolds(Step(s, cs[0]), cs[1..], site);
    }
  }

  /** A door locked on its far side only: opening it here leaves the far side locked and open. */
  lemma OneSidedLock()
    ensures exists s: State, c: Command ::
              && Shaped(s.rooms) && SiteOk(s, c.site) && LockSound(s) && Permitted(LatchAt(s, c.site), c)
              && !LockSound(Step(s, c))
  {
    var near := Exit(1, Latch(true, true, false, false, -1));
    var far := Exit(0, Latch(true, true, true, false, -1));
    var room0 := seq(NUM_OF_DIRS, d => if d == 0 then near else NoExit);
    var room1 := seq(NUM_OF_DIRS, d => if d == 2 then far else NoExit);
    var s := State([room0, room1], []);
    var c := Command(AtExit(0, 0), Open, false, false);
    assert Shaped(s.rooms);
    assert Mates(s.rooms, c.site, AtExit(1, 2));
    assert s.rooms[1][2].latch.locked;
    assert !FarSideAllows(s, c);
    LockSoundIff(s, c);
  }
}
