/** The door commands, on the exits and containers they change in place. */
module Doors {
  import opened CText
  import opened DoorSpec

  const NEED_OPEN: bv4 := 1
  const NEED_CLOSED: bv4 := 2
  const NEED_UNLOCKED: bv4 := 4
  const NEED_LOCKED: bv4 := 8

  function FlagsDoor(cmd: SubCmd): bv4 {
    match cmd
    case Open => NEED_CLOSED | NEED_UNLOCKED
    case Close => NEED_OPEN
    case Unlock => NEED_CLOSED | NEED_LOCKED
    case Lock => NEED_CLOSED | NEED_UNLOCKED
    case Pick => NEED_CLOSED | NEED_LOCKED
  }

  predicate Needs(cmd: SubCmd, flag: bv4) {
    FlagsDoor(cmd) & flag != 0
  }

  lemma NeedsIs(cmd: SubCmd)
    ensures Needs(cmd, NEED_OPEN) <==> cmd.Close?
    ensures Needs(cmd, NEED_CLOSED) <==> !cmd.Close?
    ensures Needs(cmd, NEED_UNLOCKED) <==> cmd.Open? || cmd.Lock?
    ensures Needs(cmd, NEED_LOCKED) <==> cmd.Unlock? || cmd.Pick?
  {
  }

  /** Someone using a door: what he carries and holds, and whether his picking would succeed. */
  datatype Actor = Actor(carrying: seq<int>, held: Option<int>, level: int, skilled: bool)

  ghost predicate Holds(ch: Actor, key: int) {
    key in ch.carrying || ch.held == Some(key)
  }

  method HasKey(ch: Actor, key: int) returns (found: bool)
    ensures found <==> Holds(ch, key)
  {
    for i := 0 to |ch.carrying|
      invariant key !in ch.carrying[..i]
    {
      if ch.carrying[i] == key {
        return true;
      }
    }
    return ch.held == Some(key);
  }

  method OkPick(ch: Actor, key: int, pickproof: bool, cmd: SubCmd) returns (ok: bool)
    ensures ok <==> cmd != Pick || (key >= 0 && !pickproof && ch.skilled)
  {
    if cmd == Pick {
      if key < 0 {
        return false;
      } else if pickproof {
        return false;
      } else if !ch.skilled {
        return false;
      }
    }
    return true;
  }

  /** The command as an actor gives it; gods need no key. */
  ghost function CommandOf(ch: Actor, site: Site, cmd: SubCmd, key: int): Command {
    Command(site, cmd, Holds(ch, key) || ch.level >= LVL_GOD, ch.skilled)
  }

  datatype Request = Request(ch: Actor, site: Site, cmd: SubCmd)

  ghost predicate RequestsOk(s: State, rs: seq<Request>)
    requires Shaped(s.rooms)
  {
    forall r :: r in rs ==> SiteOk(s, r.site)
  }

  ghost function CommandsOf(s: State, rs: seq<Request>): (cs: seq<Command>)
    requires Shaped(s.rooms) && RequestsOk(s, rs)
    ensures SitesOk(s, cs)
  {
    if rs == [] then []
    else [CommandOf(rs[0].ch, rs[0].site, rs[0].cmd, LatchAt(s, rs[0].site).key)] + CommandsOf(s, rs[1..])
  }

  /** Which commands the requests stand for does not depend on the commands before them. */
  lemma {:induction false} CommandsKept(s: State, c: Command, rs: seq<Request>)
    requires Shaped(s.rooms) && SiteOk(s, c.site) && RequestsOk(s, rs)
    ensures RequestsOk(Step(s, c), rs) && CommandsOf(Step(s, c), rs) == CommandsOf(s, rs)
  {
    forall r | r in rs ensures SiteOk(Step(s, c), r.site) {
      StepGraph(s, c, r.site, r.site);
    }
    if rs == [] {
    } else {
      TurnedAt(s, c.site, c.cmd, rs[0].site);
      CommandsKept(s, c, rs[1..]);
    }
  }

  /** Someone without the key, below the gods, who cannot pick this lock. */
  ghost predicate Stranger(s: State, r: Request)
    requires Shaped(s.rooms) && SiteOk(s, r.site)
  {
    var l := LatchAt(s, r.site);
    !Holds(r.ch, l.key) && r.ch.level < 34 && (!r.ch.skilled || l.key < 0 || l.pickproof || r.cmd != Pick)
  }

  /** Whatever strangers ask for at either side of a door, and anyone elsewhere, its lock stays as it is. */
  lemma StrangersTurnNoLock(s: State, rs: seq<Request>, site: Site)
    requires Shaped(s.rooms) && RequestsOk(s, rs) && SiteOk(s, site)
    requires forall r :: r in rs && Reaches(s.rooms, r.site, site) ==> Stranger(s, r)
    ensures var t := Run(s, CommandsOf(s, rs));
      SiteOk(t, site) && LatchAt(t, site).locked == LatchAt(s, site).locked
  {
    forall c | c in CommandsOf(s, rs) && Reaches(s.rooms, c.site, site) ensures Keyless(s, c) {
      var r := RequestOf(s, rs, c);
    }
    LockHolds(s, CommandsOf(s, rs), site);
  }

  lemma RequestOf(s: State, rs: seq<Request>, c: Command) returns (r: Request)
    requires Shaped(s.rooms) && RequestsOk(s, rs) && c in CommandsOf(s, rs)
    ensures r in rs && c == CommandOf(r.ch, r.site, r.cmd, LatchAt(s, r.site).key)
  {
    r := rs[0];
    if c != CommandsOf(s, rs)[0] { r := RequestOf(s, rs[1..], c); }
  }

  class World {
    const exits: array2<Exit>
    const boxes: array<Latch>

    constructor (exits: array2<Exit>, boxes: array<Latch>)
      ensures this.exits == exits && this.boxes == boxes
    {
      this.exits, this.boxes := exits, boxes;
    }

    ghost function Rooms(): (rs: seq<seq<Exit>>)
      reads exits
      ensures |rs| == exits.Length0
      ensures forall r :: 0 <= r < |rs| ==> |rs[r]| == exits.Length1
      ensures forall r, d :: 0 <= r < |rs| && 0 <= d < exits.Length1 ==> rs[r][d] == exits[r, d]
    {
      seq(exits.Length0, r requires 0 <= r < exits.Length0 reads exits =>
        seq(exits.Length1, d requires 0 <= d < exits.Length1 reads exits => exits[r, d]))
    }

    ghost function View(): (s: State)
      reads exits, boxes
    {
      State(Rooms(), boxes[..])
    }

    ghost predicate Valid()
      reads exits, boxes
    {
      exits.Length1 == NUM_OF_DIRS && Shaped(Rooms())
    }

    lemma ViewIs(t: State)
      requires |t.rooms| == exits.Length0 && |t.boxes| == boxes.Length
      requires forall r :: 0 <= r < |t.rooms| ==> |t.rooms[r]| == exits.Length1
      requires forall r, d :: 0 <= r < |t.rooms| && 0 <= d < exits.Length1 ==> t.rooms[r][d] == exits[r, d]
      requires forall b :: 0 <= b < |t.boxes| ==> t.boxes[b] == boxes[b]
      ensures View() == t
    {
      forall r | 0 <= r < |t.rooms| ensures Rooms()[r] == t.rooms[r] {
      }
      assert Rooms() == t.rooms;
      assert boxes[..] == t.boxes;
    }

    function LatchOf(site: Site): (l: Latch)
      requires Valid() && SiteOk(View(), site)
      reads exits, boxes
      ensures l == LatchAt(View(), site)
    {
      match site
      case AtExit(r, d) => exits[r, d].latch
      case AtBox(b) => boxes[b]
    }

    /** OPEN_DOOR or LOCK_DOOR, whichever the command calls for. */
    method Toggle(site: Site, cmd: SubCmd)
      requires Valid() && SiteOk(View(), site)
      modifies exits, boxes
      ensures forall r, d :: 0 <= r < exits.Length0 && 0 <= d < exits.Length1 ==>
                exits[r, d] == if site == AtExit(r, d) then TurnExit(old(exits[r, d]), cmd) else old(exits[r, d])
      ensures forall b :: 0 <= b < boxes.Length ==>
                boxes[b] == if site == AtBox(b) then Turn(old(boxes[b]), cmd) else old(boxes[b])
    {
      match site
      case AtExit(r, d) =>
        var e := exits[r, d];
        match cmd {
          case Open | Close => exits[r, d] := e.(latch := e.latch.(closed := !e.latch.closed));
          case Unlock | Lock | Pick => exits[r, d] := e.(latch := e.latch.(locked := !e.latch.locked));
        }
      case AtBox(b) =>
        var l := boxes[b];
        match cmd {
          case Open | Close => boxes[b] := l.(closed := !l.closed);
          case Unlock | Lock | Pick => boxes[b] := l.(locked := !l.locked);
        }
    }

    /** The exit that leads back, if the one beyond the door does. */
    method FindBack(site: Site) returns (back: Option<Site>)
      requires Valid() && SiteOk(View(), site)
      ensures forall b :: Mates(Rooms(), site, b) <==> back == Some(b)
    {
      match site
      case AtBox(_) => return None;
      case AtExit(r, d) =>
        var other := exits[r, d].toRoom;
        if other != NOWHERE {
          var e := exits[other, RevDir(d)];
          if e.Exit? && e.toRoom == r {
            return Some(AtExit(other, RevDir(d)));
          }
        }
        return None;
    }

    method DoDoorCmd(site: Site, cmd: SubCmd)
      requires Valid() && SiteOk(View(), site)
      modifies exits, boxes
      ensures Valid() && View() == Turned(old(View()), site, cmd)
    {
      ghost var s := View();
      var back := FindBack(site);
      Toggle(site, cmd);
      if back.Some? {
        BackStillThere(s, site, back.value);
        Toggle(back.value, cmd);
      }
      TurnedIs(s, site, back, cmd);
    }

    /** The other exit is still where it was once the first has been turned. */
    lemma BackStillThere(s: State, site: Site, back: Site)
      requires Shaped(s.rooms) && |s.rooms| == exits.Length0 && exits.Length1 == NUM_OF_DIRS
          && |s.boxes| == boxes.Length
      requires Mates(s.rooms, site, back)
      requires forall r, d :: 0 <= r < exits.Length0 && 0 <= d < NUM_OF_DIRS ==>
                 exits[r, d] == s.rooms[r][d] || (exits[r, d].Exit? && s.rooms[r][d].Exit?
                     && exits[r, d].toRoom == s.rooms[r][d].toRoom)
      ensures Valid() && SiteOk(View(), back) && site != back
    {
      MatesBothWays(s.rooms, site, back, site);
    }

    lemma TurnedIs(s: State, site: Site, back: Option<Site>, cmd: SubCmd)
      requires Shaped(s.rooms) && SiteOk(s, site) && |s.rooms| == exits.Length0 && exits.Length1 == NUM_OF_DIRS
          && |s.boxes| == boxes.Length
      requires forall b :: Mates(s.rooms, site, b) <==> back == Some(b)
      requires forall r, d :: 0 <= r < exits.Length0 && 0 <= d < NUM_OF_DIRS ==>
                 exits[r, d] ==
                 if site == AtExit(r, d) || back == Some(AtExit(r, d)) then TurnExit(s.rooms[r][d], cmd)
                 else s.rooms[r][d]
      requires forall b :: 0 <= b < boxes.Length ==>
          boxes[b] == if site == AtBox(b) then Turn(s.boxes[b], cmd) else s.boxes[b]
      ensures Valid() && View() == Turned(s, site, cmd)
    {
      var t := Turned(s, site, cmd);
      forall r, d | 0 <= r < |t.rooms| && 0 <= d < NUM_OF_DIRS ensures t.rooms[r][d] == exits[r, d] {
        assert t.rooms[r][d] == TurnedExit(s.rooms, site, cmd, r, d);
      }
      ViewIs(t);
    }

    /** One door command: it succeeds exactly when permitted, and otherwise changes nothing. */
    method GenDoor(ch: Actor, site: Site, cmd: SubCmd)
      returns (done: bool)
      requires Valid() && SiteOk(View(), site)
      modifies exits, boxes
      ensures Valid()
      ensures var c := CommandOf(ch, site, cmd, old(LatchOf(site)).key);
              done == Permitted(old(LatchOf(site)), c) && View() == Step(old(View()), c)
      ensures var l := old(LatchOf(site));
              done <==>
              && l.openable && (l.closed <==> cmd != Close)
              && (cmd in {Open, Lock} ==> !l.locked) && (cmd in {Unlock, Pick} ==> l.locked)
              && (cmd in {Lock, Unlock} ==> Holds(ch, l.key) || ch.level >= 34)
              && (cmd == Pick ==> l.key >= 0 && !l.pickproof && ch.skilled)
      ensures !done ==> View() == old(View())
      ensures SiteOk(View(), site)
      ensures var l := old(LatchOf(site));
              done ==> LatchOf(site) ==
                       if cmd in {Open, Close} then l.(closed := cmd == Close) else l.(locked := cmd == Lock)
    {
      NamesHold(View(), CommandOf(ch, site, cmd, LatchOf(site).key));
      NeedsIs(cmd);
      var l := LatchOf(site);
      var keyed := HasKey(ch, l.key);
      if !l.openable {
        return false;
      } else if l.closed && Needs(cmd, NEED_OPEN) {
        return false;
      } else if !l.closed && Needs(cmd, NEED_CLOSED) {
        return false;
      } else if !l.locked && Needs(cmd, NEED_LOCKED) {
        return false;
      } else if l.locked && Needs(cmd, NEED_UNLOCKED) {
        return false;
      } else if !keyed && ch.level < LVL_GOD && (cmd == Lock || cmd == Unlock) {
        return false;
      }
      done := OkPick(ch, l.key, l.pickproof, cmd);
      if done {
        DoDoorCmd(site, cmd);
      }
    }

    /** Any number of people working doors one after another. */
    method Obey(rs: seq<Request>)
      requires Valid() && RequestsOk(View(), rs)
      modifies exits, boxes
      ensures Valid() && View() == Run(old(View()), old(CommandsOf(View(), rs)))
      ensures old(Agreed(View())) <==> Agreed(View())
      ensures old(Agreed(View()) && LockSound(View())) ==> LockSound(View())
      decreases |rs|
    {
      RunKeepsDoors(View(), CommandsOf(View(), rs));
      if rs != [] {
        ghost var s := View();
        CommandsKept(s, CommandsOf(s, rs)[0], rs[1..]);
        var _ := GenDoor(rs[0].ch, rs[0].site, rs[0].cmd);
        Obey(rs[1..]);
        assert CommandsOf(s, rs)[1..] == CommandsOf(s, rs[1..]);
      }
    }
  }
}
