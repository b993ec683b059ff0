/** When the slots that all boards share run out. */
module BoardLimits {
  import opened BoardSpec
  import opened BoardRuns

  lemma TotalBound(boards: seq<seq<Post>>, b: nat)
    requires b < |boards| && |boards[b]| < MAX_BOARD_MESSAGES
    requires forall c :: 0 <= c < |boards| ==> |boards[c]| <= MAX_BOARD_MESSAGES
    ensures Total(boards) < |boards| * MAX_BOARD_MESSAGES
  {
    TotalAtMost(boards[1..]);
    if b > 0 { TotalBound(boards[1..], b - 1); }
  }

  lemma TotalAtMost(boards: seq<seq<Post>>)
    requires forall c :: 0 <= c < |boards| ==> |boards[c]| <= MAX_BOARD_MESSAGES
    ensures Total(boards) <= |boards| * MAX_BOARD_MESSAGES
  {
  }

  /** With at most five abandoned writes, a headline on a board that is not full always starts a post. */
  lemma NonFullWriteStarts(st: BoardState, b: nat, arg: string)
    requires Inv(st) && b < NUM_OF_BOARDS && |st.boards[b]| < MAX_BOARD_MESSAGES
    requires st.abandoned <= 5 && Headline(arg) != ""
    ensures WriteOutcome(st, b, arg) == Started
  {
    TotalBound(st.boards, b);
  }

  /** Beyond that the boards can run out of slots even when all of them are empty: blank headlines keep theirs. */
  lemma {:induction false} BlankWritesExhaust(n: nat)
    requires n <= INDEX_SIZE
    ensures Run(EmptyBoards(), seq(n, _ => OpWrite(0, 0, "", "", 0))) == EmptyBoards().(abandoned := n)
    ensures n == INDEX_SIZE ==> forall arg :: WriteOutcome(EmptyBoards().(abandoned := n), 0, arg) == NoSlot
  {
    BlankWritesFrom(0, n);
    TotalEmpty(EmptyBoards().boards);
    assert EmptyBoards().(abandoned := 0) == EmptyBoards();
  }

  lemma {:induction false} BlankWritesFrom(k: nat, n: nat)
    requires k + n <= INDEX_SIZE
    ensures Run(EmptyBoards().(abandoned := k), seq(n, _ => OpWrite(0, 0, "", "", 0))) ==
        EmptyBoards().(abandoned := k + n)
    decreases n
  {
    hide Total, EmptyBoards;
    if n > 0 {
      var ops := seq(n, _ => OpWrite(0, 0, "", "", 0));
      assert ops[1..] == seq(n - 1, _ => OpWrite(0, 0, "", "", 0));
      BlankWrite(k);
      assert Step(EmptyBoards().(abandoned := k), ops[0]) == EmptyBoards().(abandoned := k + 1);
      BlankWritesFrom(k + 1, n - 1);
    }
  }

  lemma BlankWrite(k: nat)
    requires k < INDEX_SIZE
    ensures 0 < |EmptyBoards().boards| && EmptyBoards().editing == map[]
    ensures Write(EmptyBoards().(abandoned := k), 0, 0, "", "", 0) == EmptyBoards().(abandoned := k + 1)
  {
    assert Headline("") == "";
    TotalEmpty(EmptyBoards().boards);
    hide Total, Headline;
  }

  ghost predicate RefusesAll(st: BoardState, b: nat)
    requires b < |st.boards|
  {
    forall arg :: WriteOutcome(st, b, arg) == NoSlot
  }

  /** The bound is sharp: with six abandoned writes and one place left on all the boards together, no slot is left
      for it. */
  lemma SixAbandonedStop(st: BoardState, b: nat)
    requires |st.boards| == NUM_OF_BOARDS && b < NUM_OF_BOARDS && |st.boards[b]| == MAX_BOARD_MESSAGES - 1
    requires forall c :: 0 <= c < NUM_OF_BOARDS && c != b ==> |st.boards[c]| == MAX_BOARD_MESSAGES
    requires st.abandoned == 6
    ensures RefusesAll(st, b)
  {
    TotalBut(st.boards, b);
  }

  lemma TotalBut(boards: seq<seq<Post>>, b: nat)
    requires b < |boards| && |boards[b]| == MAX_BOARD_MESSAGES - 1
    requires forall c :: 0 <= c < |boards| && c != b ==> |boards[c]| == MAX_BOARD_MESSAGES
    ensures Total(boards) == |boards| * MAX_BOARD_MESSAGES - 1
  {
    if b > 0 { TotalBut(boards[1..], b - 1); } else { TotalFull(boards[1..]); }
  }

  lemma TotalFull(boards: seq<seq<Post>>)
    requires forall c :: 0 <= c < |boards| ==> |boards[c]| == MAX_BOARD_MESSAGES
    ensures Total(boards) == |boards| * MAX_BOARD_MESSAGES
  {
  }

  lemma {:induction false} RunConcat(st: BoardState, a: seq<Op>, b: seq<Op>)
    ensures Run(st, a + b) == Run(Run(st, a), b)
    decreases |a|
  {
    hide Step;
    if a == [] {
      assert a + b == b;
    } else {
      assert (a + b)[1..] == a[1..] + b;
      RunConcat(Step(st, a[0]), a[1..], b);
    }
  }

  /** Nobody is writing as descriptor 0, and `n` more messages have gone to board `b`. */
  ghost predicate Grown(st: BoardState, st': BoardState, b: nat, n: nat) {
    && Inv(st) && Inv(st') && 0 !in st'.editing && st'.abandoned == st.abandoned
    && Total(st'.boards) == Total(st.boards) + n
    && forall c :: 0 <= c < NUM_OF_BOARDS ==> |st'.boards[c]| == |st.boards[c]| + if c == b then n else 0
  }

  /** One message, whose author loses his link. */
  lemma WriteOne(st: BoardState, b: nat) returns (ops: seq<Op>)
    requires Inv(st) && 0 !in st.editing && b < NUM_OF_BOARDS && |st.boards[b]| < MAX_BOARD_MESSAGES
    requires Total(st.boards) + st.abandoned < INDEX_SIZE
    ensures Grown(st, Run(st, ops), b, 1)
  {
    hide Total, Write, IdsBelow, IdsDistinct, DraftsLive, Run;
    var write, hangup := OpWrite(0, b, "", "x", 0), OpHangup(0);
    ops := [write, hangup];
    RunTwo(st, write, hangup);
    WriteGrows(st, b);
    assert Run(st, ops) == Hangup(Write(st, 0, b, "", "x", 0), 0);
    EditKeepsInv(Write(st, 0, b, "", "x", 0), 0, "");
  }

  lemma WriteGrows(st: BoardState, b: nat)
    requires Inv(st) && 0 !in st.editing && b < NUM_OF_BOARDS && |st.boards[b]| < MAX_BOARD_MESSAGES
    requires Total(st.boards) + st.abandoned < INDEX_SIZE
    ensures var mid := Write(st, 0, b, "", "x", 0);
      && Inv(mid) && mid.abandoned == st.abandoned && Total(mid.boards) == Total(st.boards) + 1
      && forall c :: 0 <= c < NUM_OF_BOARDS ==> |mid.boards[c]| == |st.boards[c]| + if c == b then 1 else 0
  {
    WriteKeepsInv(st, 0, b, "", "x", 0);
    assert Headline("x") == "x";
    hide Total, IdsBelow, IdsDistinct, DraftsLive, Headline;
    var mid := Write(st, 0, b, "", "x", 0);
    TotalUpdate(st.boards, b, mid.boards[b]);
  }

  lemma {:induction false} FillBoard(st: BoardState, b: nat, n: nat) returns (ops: seq<Op>)
    requires Inv(st) && 0 !in st.editing && b < NUM_OF_BOARDS && |st.boards[b]| + n <= MAX_BOARD_MESSAGES
    requires Total(st.boards) + st.abandoned + n <= INDEX_SIZE
    ensures Grown(st, Run(st, ops), b, n)
    decreases n
  {
    hide Total, Inv;
    if n == 0 {
      return [];
    }
    var one := WriteOne(st, b);
    var rest := FillBoard(Run(st, one), b, n - 1);
    RunConcat(st, one, rest);
    return one + rest;
  }

  /** Six blank headlines, then the first `k` boards filled. */
  lemma {:induction false} FillBoards(k: nat) returns (ops: seq<Op>)
    requires k < NUM_OF_BOARDS
    ensures var st := Run(EmptyBoards(), ops);
      && Inv(st) && 0 !in st.editing && st.abandoned == 6 && Total(st.boards) == k * MAX_BOARD_MESSAGES
      && forall c :: 0 <= c < NUM_OF_BOARDS ==> |st.boards[c]| == if c < k then MAX_BOARD_MESSAGES else 0
    decreases k
  {
    hide Total, Inv;
    if k == 0 {
      ops := seq(6, _ => OpWrite(0, 0, "", "", 0));
      BlankWritesExhaust(6);
      EmptyBoardsInv();
      RunKeepsInv(EmptyBoards(), ops);
      TotalEmpty(EmptyBoards().boards);
    } else {
      var before := FillBoards(k - 1);
      var more := FillBoard(Run(EmptyBoards(), before), k - 1, MAX_BOARD_MESSAGES);
      RunConcat(EmptyBoards(), before, more);
      return before + more;
    }
  }

  /** That situation is reached from empty boards: a board with room refuses a headline after six abandoned writes. */
  lemma SixAbandonedReached() returns (ops: seq<Op>)
    ensures var st := Run(EmptyBoards(), ops);
      && |st.boards| == NUM_OF_BOARDS && st.abandoned == 6
      && |st.boards[NUM_OF_BOARDS - 1]| == MAX_BOARD_MESSAGES - 1
      && RefusesAll(st, NUM_OF_BOARDS - 1)
  {
    var last := NUM_OF_BOARDS - 1;
    var before := FillBoards(last);
    var more := FillBoard(Run(EmptyBoards(), before), last, MAX_BOARD_MESSAGES - 1);
    RunConcat(EmptyBoards(), before, more);
    hide Total, Run;
    ops := before + more;
    var st := Run(EmptyBoards(), ops);
    assert |st.boards| == NUM_OF_BOARDS;
    SixAbandonedStop(st, last);
  }
}
