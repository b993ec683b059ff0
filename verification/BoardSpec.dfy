/** Bulletin boards as plain sequences of posts, and the interleaving of writers, editors
    and removers on them.  Slots do not appear here, only how many are in use. */
module BoardSpec {
  import opened CText
  import opened Sequences

  const NUM_OF_BOARDS: nat := 39
  const MAX_BOARD_MESSAGES: nat := 60
  const INDEX_SIZE: nat := NUM_OF_BOARDS * MAX_BOARD_MESSAGES + 5

  /** `id` tells apart posts that look alike; it is never shown. */
  datatype Post = Post(id: nat, heading: string, level: int, text: Option<string>)

  /** The post a descriptor is writing, the board it will save when done, and the text so far. */
  datatype Draft = Draft(id: nat, board: nat, text: Option<string>)

  datatype BoardState = BoardState(boards: seq<seq<Post>>, editing: map<nat, Draft>, nextId: nat, abandoned: nat)

  datatype Outcome = Started | Full | NoSlot | NoHeadline

  function Total(boards: seq<seq<Post>>): nat {
    if boards == [] then 0 else |boards[0]| + Total(boards[1..])
  }

  function DeleteDoubleDollar(s: string): string {
    if s == "" then ""
    else if s[0] == '$' && |s| > 1 && s[1] == '$' then "$" + DeleteDoubleDollar(s[2..])
    else [s[0]] + DeleteDoubleDollar(s[1..])
  }

  /** The argument of "write", as it appears in the heading. */
  function Headline(arg: string): string {
    var s := DeleteDoubleDollar(SkipSpaces(arg));
    if |s| > 81 then s[..81] else s
  }

  function WriteOutcome(st: BoardState, b: nat, arg: string): Outcome
    requires b < |st.boards|
  {
    if |st.boards[b]| >= MAX_BOARD_MESSAGES then Full
    else if Total(st.boards) + st.abandoned >= INDEX_SIZE then NoSlot
    else if Headline(arg) == "" then NoHeadline
    else Started
  }

  /** `stamp` is the date and author that precede the headline. */
  function Write(st: BoardState, d: nat, b: nat, stamp: string, arg: string, level: int): BoardState
    requires b < |st.boards|
  {
    match WriteOutcome(st, b, arg)
    case Started =>
      var post := Post(st.nextId, stamp + Headline(arg), level, None);
      st.(boards := st.boards[b := st.boards[b] + [post]], editing := st.editing[d := Draft(st.nextId, b, None)],
          nextId := st.nextId + 1)
    case NoHeadline => st.(abandoned := st.abandoned + 1)
    case _ => st
  }

  function SetText(posts: seq<Post>, id: nat, t: string): seq<Post> {
    seq(|posts|, i requires 0 <= i < |posts| => if posts[i].id == id then posts[i].(text := Some(t)) else posts[i])
  }

  function SetTextOn(boards: seq<seq<Post>>, id: nat, t: string): seq<seq<Post>> {
    seq(|boards|, b requires 0 <= b < |boards| => SetText(boards[b], id, t))
  }

  /** The editor stores `t` as the text of the post being written. */
  function Edit(st: BoardState, d: nat, t: string): BoardState {
    if d in st.editing then
      st.(boards := SetTextOn(st.boards, st.editing[d].id, t),
          editing := st.editing[d := st.editing[d].(text := Some(t))])
    else st
  }

  /** An empty text becomes a fixed one. */
  function FinalText(t: Option<string>): string {
    if t.None? || t.value == "" then "Nothing.\r\n" else t.value
  }

  /** The end of an edit. */
  function Finish(st: BoardState, d: nat): BoardState {
    if d in st.editing then
      st.(boards := SetTextOn(st.boards, st.editing[d].id, FinalText(st.editing[d].text)), editing := st.editing - {d})
    else st
  }

  /** A descriptor that loses its link stops editing; the post stays. */
  function Hangup(st: BoardState, d: nat): BoardState {
    st.(editing := st.editing - {d})
  }

  datatype Removal = Removed | Empty | NoSuch | Busy

  predicate BeingWritten(st: BoardState, id: nat) {
    exists d :: d in st.editing && st.editing[d].id == id
  }

  function RemoveOutcome(st: BoardState, b: nat, msg: int): Removal
    requires b < |st.boards|
  {
    if st.boards[b] == [] then Empty
    else if msg < 1 || msg > |st.boards[b]| then NoSuch
    else if BeingWritten(st, st.boards[b][msg - 1].id) then Busy
    else Removed
  }

  function Remove(st: BoardState, b: nat, msg: int): BoardState
    requires b < |st.boards|
  {
    if RemoveOutcome(st, b, msg) == Removed then st.(boards := st.boards[b := Without(st.boards[b], msg - 1)]) else st
  }

  datatype View = EmptyBoard | NotThere | NoText | Shown(heading: string, text: string)

  function Display(st: BoardState, b: nat, msg: int): View
    requires b < |st.boards|
  {
    if st.boards[b] == [] then EmptyBoard
    else if msg < 1 || msg > |st.boards[b]| then NotThere
    else if st.boards[b][msg - 1].text.None? then NoText
    else Shown(st.boards[b][msg - 1].heading, st.boards[b][msg - 1].text.value)
  }

  // ---- Runs ----

  datatype Op =
    | OpWrite(d: nat, b: nat, stamp: string, arg: string, level: int)
    | OpEdit(d: nat, t: string)
    | OpFinish(d: nat)
    | OpHangup(d: nat)
    | OpRemove(b: nat, msg: int)

  /** Input of a descriptor that is editing goes to the editor, so it starts no second write. */
  function Step(st: BoardState, op: Op): BoardState {
    match op
    case OpWrite(d, b, stamp, arg, level) =>
      if b < |st.boards| && d !in st.editing then Write(st, d, b, stamp, arg, level) else st
    case OpEdit(d, t) => Edit(st, d, t)
    case OpFinish(d) => Finish(st, d)
    case OpHangup(d) => Hangup(st, d)
    case OpRemove(b, msg) => if b < |st.boards| then Remove(st, b, msg) else st
  }

  function Run(st: BoardState, ops: seq<Op>): BoardState
    decreases |ops|
  {
    if |ops| == 0 then st else Run(Step(st, ops[0]), ops[1..])
  }

  function EmptyBoards(): BoardState {
    BoardState(seq(NUM_OF_BOARDS, _ => []), map[], 0, 0)
  }

  ghost predicate IdsDistinct(boards: seq<seq<Post>>) {
    forall b, i, c, j |
      0 <= b < |boards| && 0 <= i < |boards[b]| && 0 <= c < |boards| && 0 <= j < |boards[c]| ::
      boards[b][i].id == boards[c][j].id ==> b == c && i == j
  }

  /** Post `id` is on board `b` with text `t`. */
  predicate On(boards: seq<seq<Post>>, b: nat, id: nat, t: Option<string>) {
    b < |boards| && exists i :: 0 <= i < |boards[b]| && boards[b][i].id == id && boards[b][i].text == t
  }

  ghost predicate IdsBelow(boards: seq<seq<Post>>, n: nat) {
    forall b, i :: 0 <= b < |boards| && 0 <= i < |boards[b]| ==> boards[b][i].id < n
  }

  /** Every draft is a post on its board, and no two descriptors write the same one. */
  ghost predicate DraftsLive(st: BoardState) {
    && (forall d :: d in st.editing ==> On(st.boards, st.editing[d].board, st.editing[d].id, st.editing[d].text))
    && (forall d, e :: d in st.editing && e in st.editing && st.editing[d].id == st.editing[e].id ==> d == e)
  }

  /** What every interleaving keeps. */
  ghost predicate Inv(st: BoardState) {
    && |st.boards| == NUM_OF_BOARDS
    && (forall b :: 0 <= b < NUM_OF_BOARDS ==> |st.boards[b]| <= MAX_BOARD_MESSAGES)
    && IdsBelow(st.boards, st.nextId) && IdsDistinct(st.boards) && DraftsLive(st)
    && Total(st.boards) + st.abandoned <= INDEX_SIZE
  }
}
