/** Properties of every interleaving of board operations. */
module BoardRuns {
  import opened CText
  import opened BoardSpec
  import opened Sequences

  lemma TotalUpdate(boards: seq<seq<Post>>, b: nat, posts: seq<Post>)
    requires b < |boards|
    ensures Total(boards[b := posts]) == Total(boards) - |boards[b]| + |posts|
  {
    if b == 0 {
      assert boards[b := posts][1..] == boards[1..];
    } else {
      assert boards[b := posts][1..] == boards[1..][b - 1 := posts];
      TotalUpdate(boards[1..], b - 1, posts);
    }
  }

  lemma TotalByLengths(x: seq<seq<Post>>, y: seq<seq<Post>>)
    requires |x| == |y| && forall b :: 0 <= b < |x| ==> |x[b]| == |y[b]|
    ensures Total(x) == Total(y)
  {
    if x != [] { TotalByLengths(x[1..], y[1..]); }
  }

  function Append(boards: seq<seq<Post>>, b: nat, post: Post): seq<seq<Post>>
    requires b < |boards|
  {
    boards[b := boards[b] + [post]]
  }

  lemma AppendKeeps(boards: seq<seq<Post>>, b: nat, post: Post)
    requires b < |boards| && IdsBelow(boards, post.id) && IdsDistinct(boards)
    ensures IdsBelow(Append(boards, b, post), post.id + 1) && IdsDistinct(Append(boards, b, post))
    ensures Total(Append(boards, b, post)) == Total(boards) + 1
  {
    hide Total;
    TotalUpdate(boards, b, boards[b] + [post]);
    AppendIds(boards, b, post);
    hide Append;
    var boards': seq<seq<Post>> := Append(boards, b, post);
    forall c, i, e, j |
      0 <= c < |boards'| && 0 <= i < |boards'[c]| && 0 <= e < |boards'| && 0 <= j < |boards'[e]| &&
      boards'[c][i].id == boards'[e][j].id
      ensures c == e && i == j
    {
    }
  }

  lemma AppendIds(boards: seq<seq<Post>>, b: nat, post: Post)
    requires b < |boards|
    ensures |Append(boards, b, post)| == |boards|
    ensures forall c :: 0 <= c < |boards| ==> |Append(boards, b, post)[c]| == |boards[c]| + if c == b then 1 else 0
    ensures forall c, i :: 0 <= c < |boards| && 0 <= i < |Append(boards, b, post)[c]| ==>
              Append(boards, b, post)[c][i].id == if c == b && i == |boards[b]| then post.id else boards[c][i].id
  {
  }

  lemma AppendKeepsOn(boards: seq<seq<Post>>, b: nat, post: Post, c: nat, id: nat, t: Option<string>)
    requires b < |boards| && On(boards, c, id, t)
    ensures On(Append(boards, b, post), c, id, t)
  {
    var i :| 0 <= i < |boards[c]| && boards[c][i].id == id && boards[c][i].text == t;
    assert Append(boards, b, post)[c][i] == boards[c][i];
  }

  lemma WriteKeepsInv(st: BoardState, d: nat, b: nat, stamp: string, arg: string, level: int)
    requires Inv(st) && b < |st.boards| && d !in st.editing
    ensures Inv(Write(st, d, b, stamp, arg, level))
  {
    hide Headline, Total, On, IdsDistinct, IdsBelow;
    var st' := Write(st, d, b, stamp, arg, level);
    if WriteOutcome(st, b, arg) == Started {
      var post := Post(st.nextId, stamp + Headline(arg), level, None);
      AppendKeeps(st.boards, b, post);
      NewPostOn(st.boards, b, post);
      forall e | e in st.editing
        ensures On(st'.boards, st.editing[e].board, st.editing[e].id, st.editing[e].text)
            && st.editing[e].id != st.nextId
      {
        AppendKeepsOn(st.boards, b, post, st.editing[e].board, st.editing[e].id, st.editing[e].text);
        OnBelow(st.boards, st.nextId, st.editing[e].board, st.editing[e].id, st.editing[e].text);
      }
    }
  }

  lemma NewPostOn(boards: seq<seq<Post>>, b: nat, post: Post)
    requires b < |boards|
    ensures On(Append(boards, b, post), b, post.id, post.text)
  {
    assert Append(boards, b, post)[b][|boards[b]|] == post;
  }

  lemma OnBelow(boards: seq<seq<Post>>, n: nat, b: nat, id: nat, t: Option<string>)
    requires IdsBelow(boards, n) && On(boards, b, id, t)
    ensures id < n
  {
  }

  lemma SetTextKeeps(boards: seq<seq<Post>>, id: nat, t: string, n: nat)
    requires IdsBelow(boards, n) && IdsDistinct(boards)
    ensures IdsBelow(SetTextOn(boards, id, t), n) && IdsDistinct(SetTextOn(boards, id, t))
    ensures Total(SetTextOn(boards, id, t)) == Total(boards)
  {
    TotalByLengths(SetTextOn(boards, id, t), boards);
    var boards': seq<seq<Post>> := SetTextOn(boards, id, t);
    assert forall b: nat, i: nat :: b < |boards'| && i < |boards'[b]| ==> boards'[b][i].id == boards[b][i].id;
  }

  /** Setting the text of one post leaves the other posts and their texts in place. */
  lemma SetTextOnKeepsOn(boards: seq<seq<Post>>, id: nat, t: string, b: nat, other: nat, u: Option<string>)
    requires On(boards, b, other, u)
    ensures On(SetTextOn(boards, id, t), b, other, if other == id then Some(t) else u)
  {
    var i :| 0 <= i < |boards[b]| && boards[b][i].id == other && boards[b][i].text == u;
    assert SetTextOn(boards, id, t)[b][i].id == other;
  }

  /** The text of a draft may change; dropping the draft is harmless too. */
  lemma SetTextInv(st: BoardState, d: nat, t: string)
    requires Inv(st) && d in st.editing
    ensures var boards := SetTextOn(st.boards, st.editing[d].id, t);
      && Inv(st.(boards := boards, editing := st.editing[d := st.editing[d].(text := Some(t))]))
      && Inv(st.(boards := boards, editing := st.editing - {d}))
  {
    var id := st.editing[d].id;
    SetTextKeeps(st.boards, id, t, st.nextId);
    assert forall b :: 0 <= b < NUM_OF_BOARDS ==> |SetTextOn(st.boards, id, t)[b]| == |st.boards[b]|;
    hide Total, On, IdsBelow, IdsDistinct, SetTextOn;
    forall e | e in st.editing
      ensures On(SetTextOn(st.boards, id, t), st.editing[e].board, st.editing[e].id,
                 if e == d then Some(t) else st.editing[e].text)
    {
      SetTextOnKeepsOn(st.boards, id, t, st.editing[e].board, st.editing[e].id, st.editing[e].text);
    }
  }

  lemma EditKeepsInv(st: BoardState, d: nat, t: string)
    requires Inv(st)
    ensures Inv(Edit(st, d, t)) && Inv(Finish(st, d)) && Inv(Hangup(st, d))
  {
    hide Total, On, IdsBelow, IdsDistinct, SetTextOn;
    if d in st.editing {
      SetTextInv(st, d, t);
      SetTextInv(st, d, FinalText(st.editing[d].text));
    }
  }

  lemma RemovalKeeps(boards: seq<seq<Post>>, b: nat, k: nat, n: nat)
    requires b < |boards| && k < |boards[b]| && IdsBelow(boards, n) && IdsDistinct(boards)
    ensures var boards' := boards[b := Without(boards[b], k)];
      IdsBelow(boards', n) && IdsDistinct(boards') && Total(boards') == Total(boards) - 1
  {
    hide Total;
    TotalUpdate(boards, b, Without(boards[b], k));
    var boards': seq<seq<Post>> := boards[b := Without(boards[b], k)];
    hide Without;
    assert forall c, i :: 0 <= c < |boards'| && 0 <= i < |boards'[c]| ==>
        boards'[c][i] == boards[c][if c == b && i >= k then i + 1 else i];
    forall c, i, e, j |
      0 <= c < |boards'| && 0 <= i < |boards'[c]| && 0 <= e < |boards'| && 0 <= j < |boards'[e]| &&
      boards'[c][i].id == boards'[e][j].id
      ensures c == e && i == j
    {
    }
  }

  /** Removing one post leaves every other post on its board. */
  lemma RemovalKeepsOn(boards: seq<seq<Post>>, b: nat, k: nat, c: nat, id: nat, t: Option<string>)
    requires b < |boards| && k < |boards[b]| && On(boards, c, id, t) && boards[b][k].id != id
    ensures On(boards[b := Without(boards[b], k)], c, id, t)
  {
    var i :| 0 <= i < |boards[c]| && boards[c][i].id == id && boards[c][i].text == t;
    var j := if c == b && i > k then i - 1 else i;
    assert boards[b := Without(boards[b], k)][c][j] == boards[c][i];
  }

  lemma RemoveKeepsInv(st: BoardState, b: nat, msg: int)
    requires Inv(st) && b < |st.boards|
    ensures Inv(Remove(st, b, msg))
  {
    hide Total, On, IdsDistinct, IdsBelow;
    if RemoveOutcome(st, b, msg) == Removed {
      RemovalKeeps(st.boards, b, msg - 1, st.nextId);
      forall e | e in st.editing
        ensures On(Remove(st, b, msg).boards, st.editing[e].board, st.editing[e].id, st.editing[e].text)
      {
        RemovalKeepsOn(st.boards, b, msg - 1, st.editing[e].board, st.editing[e].id, st.editing[e].text);
      }
    }
  }

  lemma StepKeepsInv(st: BoardState, op: Op)
    requires Inv(st)
    ensures Inv(Step(st, op))
  {
    hide Inv, Write, Edit, Finish, Hangup, Remove;
    match op
    case OpWrite(d, b, stamp, arg, level) =>
      if b < |st.boards| && d !in st.editing { WriteKeepsInv(st, d, b, stamp, arg, level); }
    case OpEdit(d, t) => EditKeepsInv(st, d, t);
    case OpFinish(d) => EditKeepsInv(st, d, "");
    case OpHangup(d) => EditKeepsInv(st, d, "");
    case OpRemove(b, msg) =>
      if b < |st.boards| { RemoveKeepsInv(st, b, msg); }
  }

  /** Every interleaving, from any good state, keeps ids apart, boards within bounds, and every
      post under edit on its board. */
  lemma {:induction false} RunKeepsInv(st: BoardState, ops: seq<Op>)
    requires Inv(st)
    ensures Inv(Run(st, ops))
    decreases |ops|
  {
    if |ops| > 0 {
      StepKeepsInv(st, ops[0]);
      RunKeepsInv(Step(st, ops[0]), ops[1..]);
    }
  }

  lemma EmptyBoardsInv()
    ensures Inv(EmptyBoards())
  {
    TotalEmpty(EmptyBoards().boards);
  }

  lemma TotalEmpty(boards: seq<seq<Post>>)
    requires forall b :: 0 <= b < |boards| ==> boards[b] == []
    ensures Total(boards) == 0
  {
  }

  // ---- Text that arrives late ----

  /** The post `id` on board `b`, as far as removals of other posts cannot touch it. */
  predicate Kept(boards: seq<seq<Post>>, b: nat, id: nat, heading: string, level: int) {
    b < |boards| && exists i | 0 <= i < |boards[b]| ::
      boards[b][i].id == id && boards[b][i].heading == heading && boards[b][i].level == level
  }

  predicate ByOthers(op: Op, d: nat) {
    !(op.OpFinish? && op.d == d) && !(op.OpHangup? && op.d == d)
  }

  /** While `d` is writing a post, no operation of anyone else takes it away or changes its heading. */
  lemma StepKeepsDraft(st: BoardState, op: Op, d: nat, heading: string, level: int)
    requires Inv(st) && d in st.editing && ByOthers(op, d)
    requires Kept(st.boards, st.editing[d].board, st.editing[d].id, heading, level)
    ensures var st' := Step(st, op);
      && d in st'.editing
      && st'.editing[d] == Draft(st.editing[d].id, st.editing[d].board,
                                 if op.OpEdit? && op.d == d then Some(op.t) else st.editing[d].text)
      && Kept(st'.boards, st.editing[d].board, st.editing[d].id, heading, level)
  {
    hide Headline, Total, Inv;
    var st' := Step(st, op);
    var b, id := st.editing[d].board, st.editing[d].id;
    var i :| 0 <= i < |st.boards[b]| && st.boards[b][i].id == id
      && st.boards[b][i].heading == heading && st.boards[b][i].level == level;
    var j := if op.OpRemove? && op.b == b && st' != st && i > op.msg - 1 then i - 1 else i;
    assert |st'.boards| == |st.boards|;
    assert j < |st'.boards[b]| && st'.boards[b][j].id == id
      && st'.boards[b][j].heading == heading && st'.boards[b][j].level == level;
  }

  /** What `d` has typed after `ops`, starting from `t`. */
  function Typed(ops: seq<Op>, d: nat, t: Option<string>): Option<string>
    decreases |ops|
  {
    if |ops| == 0 then t
    else Typed(ops[1..], d, if ops[0].OpEdit? && ops[0].d == d then Some(ops[0].t) else t)
  }

  lemma {:induction false} RunKeepsDraft(st: BoardState, ops: seq<Op>, d: nat, heading: string, level: int)
    requires Inv(st) && d in st.editing
    requires forall i :: 0 <= i < |ops| ==> ByOthers(ops[i], d)
    requires Kept(st.boards, st.editing[d].board, st.editing[d].id, heading, level)
    ensures var st' := Run(st, ops);
      && Inv(st') && d in st'.editing
      && st'.editing[d] == Draft(st.editing[d].id, st.editing[d].board, Typed(ops, d, st.editing[d].text))
      && Kept(st'.boards, st.editing[d].board, st.editing[d].id, heading, level)
    decreases |ops|
  {
    if |ops| > 0 {
      hide Inv, Kept, Step;
      StepKeepsInv(st, ops[0]);
      StepKeepsDraft(st, ops[0], d, heading, level);
      RunKeepsDraft(Step(st, ops[0]), ops[1..], d, heading, level);
    }
  }

  /** A post started on board `b` and finished after any operations of others ends up on that board
      exactly once, with its own heading and level and the text its author typed, although removals
      may have shifted it. */
  lemma LateTextLands(st: BoardState, d: nat, b: nat, stamp: string, arg: string, level: int, ops: seq<Op>)
    requires Inv(st) && b < |st.boards| && d !in st.editing && WriteOutcome(st, b, arg) == Started
    requires forall i :: 0 <= i < |ops| ==> ByOthers(ops[i], d)
    ensures var posts := Finish(Run(Write(st, d, b, stamp, arg, level), ops), d).boards;
      && b < |posts|
      && (exists i :: 0 <= i < |posts[b]| &&
            posts[b][i] == Post(st.nextId, stamp + Headline(arg), level, Some(FinalText(Typed(ops, d, None)))))
      && (forall c, i :: 0 <= c < |posts| && 0 <= i < |posts[c]| && posts[c][i].id == st.nextId ==> c == b)
      && IdsDistinct(posts)
  {
    hide Headline, Total, Typed, Run;
    var st1 := Write(st, d, b, stamp, arg, level);
    WriteKeepsInv(st, d, b, stamp, arg, level);
    var n := |st.boards[b]|;
    assert st1.boards[b][n] == Post(st.nextId, stamp + Headline(arg), level, None);
    RunKeepsDraft(st1, ops, d, stamp + Headline(arg), level);
    var st2 := Run(st1, ops);
    EditKeepsInv(st2, d, "");
    var st3 := Finish(st2, d);
    var i :| 0 <= i < |st2.boards[b]| && st2.boards[b][i].id == st.nextId
      && st2.boards[b][i].heading == stamp + Headline(arg) && st2.boards[b][i].level == level;
    assert st3.boards[b][i] == Post(st.nextId, stamp + Headline(arg), level, Some(FinalText(Typed(ops, d, None))));
  }

  // ---- Short runs ----

  lemma RunTwo(st: BoardState, x: Op, y: Op)
    ensures Run(st, [x, y]) == Step(Step(st, x), y)
  {
    hide Step;
    assert [x, y][1..] == [y] && [y][1..] == [];
    assert Run(st, [x, y]) == Run(Step(st, x), [y]);
    assert Run(Step(st, x), [y]) == Run(Step(Step(st, x), y), []);
  }

  lemma RunThree(st: BoardState, x: Op, y: Op, z: Op)
    ensures Run(st, [x, y, z]) == Step(Step(Step(st, x), y), z)
  {
    hide Step;
    assert [x, y, z][1..] == [y, z];
    RunTwo(Step(st, x), y, z);
  }
}
