/** Which messages the board files hold after a run, and so which survive a restart. */
module BoardDisk {
  import opened CText
  import opened Sequences
  import opened BoardSpec
  import opened BoardRuns
  import opened BoardFiles

  /** What a file shows of one message. */
  type Row = (string, int, Option<string>)

  function RowOf(p: Post): Row { (p.heading, p.level, p.text) }

  /** The board that an operation writes to disk. */
  function SavedBoard(st: BoardState, op: Op): Option<nat> {
    match op
    case OpFinish(d) => if d in st.editing then Some(st.editing[d].board) else None
    case OpRemove(b, msg) => if b < |st.boards| && RemoveOutcome(st, b, msg) == Removed then Some(b) else None
    case _ => None
  }

  predicate SavesAs(st: BoardState, op: Op, names: seq<string>, name: string) {
    var b := SavedBoard(st, op);
    b.Some? && b.value < |names| && b.value < |Step(st, op).boards| && names[b.value] == name
  }

  /** What the file of a name shows after one operation, if it showed `rows` before. */
  function StepFile(st: BoardState, op: Op, names: seq<string>, name: string, rows: seq<Row>): seq<Row> {
    if SavesAs(st, op, names, name) then Visible(Step(st, op).boards[SavedBoard(st, op).value]) else rows
  }

  function FileAfter(st: BoardState, ops: seq<Op>, names: seq<string>, name: string, rows: seq<Row>): seq<Row>
    decreases |ops|
  {
    if |ops| == 0 then rows
    else FileAfter(Step(st, ops[0]), ops[1..], names, name, StepFile(st, ops[0], names, name, rows))
  }

  /** The last operation that writes the file of a name, and the board it writes. */
  function LastSaved(st: BoardState, ops: seq<Op>, names: seq<string>, name: string): (r: Option<(nat, nat)>)
    decreases |ops|
    ensures r.Some? ==> r.value.1 < |ops|
  {
    if |ops| == 0 then None
    else
      var later := LastSaved(Step(st, ops[0]), ops[1..], names, name);
      if later.Some? then Some((later.value.0, later.value.1 + 1))
      else if SavesAs(st, ops[0], names, name) then Some((SavedBoard(st, ops[0]).value, 0))
      else None
  }

  /** The file shows the board that was saved to it last, as it was then. */
  lemma {:induction false} LastSaveShows(st: BoardState, ops: seq<Op>, names: seq<string>, name: string, rows: seq<Row>)
    ensures match LastSaved(st, ops, names, name)
            case None => FileAfter(st, ops, names, name, rows) == rows
            case Some((c, n)) =>
              && c < |names| && names[c] == name && c < |Run(st, ops[..n + 1]).boards|
              && FileAfter(st, ops, names, name, rows) == Visible(Run(st, ops[..n + 1]).boards[c])
    decreases |ops|
  {
    hide Step, Visible, SavedBoard;
    if |ops| > 0 {
      LastSaveShows(Step(st, ops[0]), ops[1..], names, name, StepFile(st, ops[0], names, name, rows));
      match LastSaved(st, ops, names, name)
      case None =>
      case Some((c, n)) => RunPrefix(st, ops, n);
    }
  }

  lemma RunPrefix(st: BoardState, ops: seq<Op>, n: nat)
    requires n < |ops|
    ensures Run(st, ops[..n + 1]) == Run(Step(st, ops[0]), ops[1..][..n])
    ensures Run(st, ops[..0]) == st
  {
    hide Step;
    assert ops[..n + 1][1..] == ops[1..][..n];
  }

  // ---- Messages that are finished ----

  /** The message is on the board, and nobody is writing it. */
  predicate Settled(st: BoardState, b: nat, p: Post) {
    b < |st.boards| && p in st.boards[b] && !BeingWritten(st, p.id)
  }

  ghost predicate Absent(st: BoardState, b: nat, id: nat) {
    b < |st.boards| ==> forall i :: 0 <= i < |st.boards[b]| ==> st.boards[b][i].id != id
  }

  /** A finished message stays as it is or goes for good. */
  lemma SettledStep(st: BoardState, op: Op, b: nat, p: Post)
    requires Inv(st) && Settled(st, b, p)
    ensures Settled(Step(st, op), b, p) || (Absent(Step(st, op), b, p.id) && p.id < st.nextId)
  {
    hide Total, IdsBelow, Headline, On;
    var i :| 0 <= i < |st.boards[b]| && st.boards[b][i] == p;
    assert p.id < st.nextId by { Below(st, b, i); }
    match op
    case OpWrite(d, c, stamp, arg, level) =>
      if c < |st.boards| && d !in st.editing {
        assert Step(st, op).boards[b][i] == p;
      }
    case OpEdit(d, t) =>
      if d in st.editing {
        assert SetTextOn(st.boards, st.editing[d].id, t)[b][i] == p;
      }
    case OpFinish(d) =>
      if d in st.editing {
        assert SetTextOn(st.boards, st.editing[d].id, FinalText(st.editing[d].text))[b][i] == p;
      }
    case OpHangup(d) =>
    case OpRemove(c, msg) =>
      if c < |st.boards| && RemoveOutcome(st, c, msg) == Removed && c == b {
        RemovedOrKept(st, b, msg - 1, i);
      }
  }

  lemma Below(st: BoardState, b: nat, i: nat)
    requires Inv(st) && b < |st.boards| && i < |st.boards[b]|
    ensures st.boards[b][i].id < st.nextId
  {
  }

  lemma RemovedOrKept(st: BoardState, b: nat, k: nat, i: nat)
    requires Inv(st) && b < |st.boards| && k < |st.boards[b]| && i < |st.boards[b]|
    ensures st.boards[b][i] in Without(st.boards[b], k) ||
            forall j :: 0 <= j < |Without(st.boards[b], k)| ==> Without(st.boards[b], k)[j].id != st.boards[b][i].id
  {
    hide Total, IdsBelow, On, DraftsLive;
    if i < k {
      assert Without(st.boards[b], k)[i] == st.boards[b][i];
    } else if i > k {
      assert Without(st.boards[b], k)[i - 1] == st.boards[b][i];
    }
  }

  lemma AbsentStep(st: BoardState, op: Op, b: nat, id: nat)
    requires Inv(st) && b < |st.boards| && Absent(st, b, id) && id < st.nextId
    ensures Absent(Step(st, op), b, id) && id < Step(st, op).nextId
  {
    hide Total, IdsBelow, IdsDistinct, Headline, DraftsLive;
  }

  lemma {:induction false} AbsentRun(st: BoardState, ops: seq<Op>, b: nat, id: nat)
    requires Inv(st) && b < NUM_OF_BOARDS && Absent(st, b, id) && id < st.nextId
    ensures Absent(Run(st, ops), b, id)
    decreases |ops|
  {
    hide Step, IdsBelow, IdsDistinct, DraftsLive, Total, Absent;
    if |ops| > 0 {
      AbsentStep(st, ops[0], b, id);
      StepKeepsInv(st, ops[0]);
      AbsentRun(Step(st, ops[0]), ops[1..], b, id);
    }
  }

  /** A finished message that is there at the end of a run was there all along, as it is. */
  lemma {:induction false} ThereAllAlong(st: BoardState, ops: seq<Op>, b: nat, p: Post, m: nat)
    requires Inv(st) && Settled(st, b, p) && !Absent(Run(st, ops), b, p.id) && m <= |ops|
    ensures Settled(Run(st, ops[..m]), b, p)
    decreases m
  {
    hide Step, IdsBelow, IdsDistinct, DraftsLive, Total, Absent, Settled;
    if m > 0 {
      SettledStep(st, ops[0], b, p);
      StepKeepsInv(st, ops[0]);
      SettledOn(st, b, p);
      if Absent(Step(st, ops[0]), b, p.id) && !Settled(Step(st, ops[0]), b, p) {
        NextGrows(st, ops[0]);
        AbsentRun(Step(st, ops[0]), ops[1..], b, p.id);
      }
      ThereAllAlong(Step(st, ops[0]), ops[1..], b, p, m - 1);
      RunPrefix(st, ops, m - 1);
    } else {
      assert ops[..0] == [];
    }
  }

  lemma SettledOn(st: BoardState, b: nat, p: Post)
    requires Inv(st) && Settled(st, b, p)
    ensures b < NUM_OF_BOARDS
  {
  }

  lemma NextGrows(st: BoardState, op: Op)
    ensures st.nextId <= Step(st, op).nextId
  {
    hide Headline, Total;
  }

  lemma VisibleHas(posts: seq<Post>, p: Post)
    requires p in posts
    ensures RowOf(p) in Visible(posts)
  {
    var i :| 0 <= i < |posts| && posts[i] == p;
    assert Visible(posts)[i] == RowOf(p);
  }

  /** A finished message that its file shows, and that is still on its board at the end of a run, is then shown by the
      file exactly when the file was last written for its own board, or for another one of that name that showed the
      very same row. */
  lemma ShownIff(st: BoardState, ops: seq<Op>, names: seq<string>, b: nat, p: Post, rows: seq<Row>)
    requires Inv(st) && |names| == NUM_OF_BOARDS && Settled(st, b, p) && RowOf(p) in rows
    requires !Absent(Run(st, ops), b, p.id)
    ensures b < |names|
    ensures RowOf(p) in FileAfter(st, ops, names, names[b], rows) <==>
            match LastSaved(st, ops, names, names[b])
            case None => true
            case Some((c, n)) =>
              c == b || (c < |Run(st, ops[..n + 1]).boards| && RowOf(p) in Visible(Run(st, ops[..n + 1]).boards[c]))
  {
    hide Run, FileAfter, LastSaved, Visible, Inv;
    SettledOn(st, b, p);
    LastSaveShows(st, ops, names, names[b], rows);
    match LastSaved(st, ops, names, names[b])
    case None =>
    case Some((c, n)) =>
      if c == b {
        ThereAllAlong(st, ops, b, p, n + 1);
        VisibleHas(Run(st, ops[..n + 1]).boards[b], p);
      }
  }

  /** Finishing a message settles it and shows it in its file. */
  lemma FinishShows(st: BoardState, d: nat, names: seq<string>, rows: seq<Row>) returns (p: Post)
    requires Inv(st) && |names| == NUM_OF_BOARDS && d in st.editing
    ensures var b := st.editing[d].board;
      && b < NUM_OF_BOARDS && p.id == st.editing[d].id && p.text == Some(FinalText(st.editing[d].text))
      && b < |st.boards| && p.(text := st.editing[d].text) in st.boards[b]
      && Settled(Finish(st, d), b, p) && RowOf(p) in StepFile(st, OpFinish(d), names, names[b], rows)
  {
    hide Total, IdsBelow, IdsDistinct, Visible;
    var b, id, t := st.editing[d].board, st.editing[d].id, FinalText(st.editing[d].text);
    assert On(st.boards, b, id, st.editing[d].text);
    var i :| 0 <= i < |st.boards[b]| && st.boards[b][i].id == id && st.boards[b][i].text == st.editing[d].text;
    p := st.boards[b][i].(text := Some(t));
    assert SetTextOn(st.boards, id, t)[b][i] == p;
    VisibleHas(Finish(st, d).boards[b], p);
  }

  /** On a board with a file name of its own, a finished message survives: as long as it has not been removed, the file
      shows it, whatever else has happened. */
  lemma FinishedSurvives(st: BoardState, d: nat, ops: seq<Op>, names: seq<string>, rows: seq<Row>) returns (p: Post)
    requires Inv(st) && |names| == NUM_OF_BOARDS && d in st.editing && st.editing[d].board < NUM_OF_BOARDS
    requires forall c :: 0 <= c < NUM_OF_BOARDS && names[c] == names[st.editing[d].board] ==> c == st.editing[d].board
    ensures var b := st.editing[d].board;
      && p.id == st.editing[d].id && p.text == Some(FinalText(st.editing[d].text))
      && b < |st.boards| && p.(text := st.editing[d].text) in st.boards[b]
      && (!Absent(Run(st, [OpFinish(d)] + ops), b, p.id) ==>
            RowOf(p) in FileAfter(st, [OpFinish(d)] + ops, names, names[b], rows))
  {
    hide Inv, StepFile, Absent, LastSaved, Settled, Visible, SetTextOn;
    p := FinishShows(st, d, names, rows);
    var b, finish, after := st.editing[d].board, OpFinish(d), Finish(st, d);
    assert ([finish] + ops)[1..] == ops;
    assert Run(st, [finish] + ops) == Run(after, ops);
    StepKeepsInv(st, finish);
    var now := StepFile(st, finish, names, names[b], rows);
    assert FileAfter(st, [finish] + ops, names, names[b], rows) == FileAfter(after, ops, names, names[b], now);
    if !Absent(Run(after, ops), b, p.id) {
      ShownIff(after, ops, names, b, p, now);
      LastSaveShows(after, ops, names, names[b], now);
    }
  }

  /** The rows that a start-up takes. */
  predicate Bootable(rows: seq<Row>) {
    |rows| <= MAX_BOARD_MESSAGES && forall i :: 0 <= i < |rows| ==> rows[i].2.Some?
  }

  lemma BootableFile(disk: map<string, seq<Record>>, name: string)
    requires Bootable(FileView(disk, name)) && (name in disk ==> disk[name] != [])
    ensures FileOk(disk, name)
  {
    if name in disk {
      assert forall i :: 0 <= i < |disk[name]| ==> Visible(Posts(disk[name], 0))[i].2 == disk[name][i].text;
    }
  }
}
