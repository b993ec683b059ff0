/** The bulletin boards as they are stored: global arrays of message texts and of slots in use,
    and per board an array of entries that point into them. */
module Boards {
  import opened CText
  import opened BoardSpec
  import opened BoardSlots
  import opened BoardRuns
  import opened BoardFiles
  import opened BoardDisk
  import opened Sequences

  /** An entry of msg_index. */
  datatype MsgInfo = MsgInfo(slot: int, heading: Option<string>, level: int)

  /** What a descriptor that is writing points to: a text slot, and the board to save. */
  datatype Editor = Editor(slot: int, board: nat)

  /** Entry `m` shows post `p`. */
  ghost predicate Shows(m: MsgInfo, p: Post, slotOf: map<nat, int>) {
    p.id in slotOf && m == MsgInfo(slotOf[p.id], Some(p.heading), p.level)
  }

  ghost predicate Known(boards: seq<seq<Post>>, slotOf: map<nat, int>) {
    forall b, i :: 0 <= b < |boards| && 0 <= i < |boards[b]| ==> boards[b][i].id in slotOf
  }

  /** The texts of the posts are in their slots. */
  ghost predicate TextsOk(boards: seq<seq<Post>>, slotOf: map<nat, int>, storage: seq<Option<string>>)
    requires |storage| == INDEX_SIZE && forall id :: id in slotOf ==> 0 <= slotOf[id] < INDEX_SIZE
    requires Known(boards, slotOf)
  {
    forall b, i :: 0 <= b < |boards| && 0 <= i < |boards[b]| ==> storage[slotOf[boards[b][i].id]] == boards[b][i].text
  }

  /** Every writing descriptor points to the slot of its own post. */
  ghost predicate EditorsOk(editors: map<nat, Editor>, editing: map<nat, Draft>, slotOf: map<nat, int>,
      storage: seq<Option<string>>)
    requires |storage| == INDEX_SIZE && forall id :: id in slotOf ==> 0 <= slotOf[id] < INDEX_SIZE
  {
    && editors.Keys == editing.Keys
    && forall d :: d in editing ==>
         && editing[d].id in slotOf && editors[d] == Editor(slotOf[editing[d].id], editing[d].board)
         && storage[slotOf[editing[d].id]] == editing[d].text
  }

  /** The shared part of the state agrees with the posts. */
  ghost predicate SlotState(st: BoardState, slotOf: map<nat, int>, orphans: set<int>, editors: map<nat, Editor>,
                            taken: seq<bool>, storage: seq<Option<string>>) {
    && SlotsOk(slotOf, orphans, taken, storage)
    && |slotOf| == Total(st.boards) && |orphans| == st.abandoned
    && (forall id :: id in slotOf ==> id < st.nextId)
    && Known(st.boards, slotOf) && TextsOk(st.boards, slotOf, storage)
    && EditorsOk(editors, st.editing, slotOf, storage)
  }

  lemma InitialState(taken: seq<bool>, storage: seq<Option<string>>)
    requires |taken| == |storage| == INDEX_SIZE
    requires forall s :: 0 <= s < INDEX_SIZE ==> !taken[s] && storage[s] == None
    ensures SlotState(EmptyBoards(), map[], {}, map[], taken, storage)
    ensures |EmptyBoards().boards| == NUM_OF_BOARDS
    ensures forall b :: 0 <= b < NUM_OF_BOARDS ==> EmptyBoards().boards[b] == []
  {
    hide Total;
    TotalEmpty(EmptyBoards().boards);
  }

  lemma StateFacts(st: BoardState, slotOf: map<nat, int>, orphans: set<int>, editors: map<nat, Editor>,
                   taken: seq<bool>, storage: seq<Option<string>>)
    requires SlotState(st, slotOf, orphans, editors, taken, storage)
    ensures |taken| == |storage| == INDEX_SIZE && editors.Keys == st.editing.Keys && st.nextId !in slotOf
  {
  }

  lemma StartedState(st: BoardState, slotOf: map<nat, int>, orphans: set<int>, editors: map<nat, Editor>,
                     taken: seq<bool>, storage: seq<Option<string>>,
                     d: nat, b: nat, stamp: string, arg: string, level: int, s: int)
    requires SlotState(st, slotOf, orphans, editors, taken, storage)
    requires b < |st.boards| && WriteOutcome(st, b, arg) == Started && 0 <= s < INDEX_SIZE && !taken[s]
    ensures SlotState(Write(st, d, b, stamp, arg, level), slotOf[st.nextId := s], orphans,
                      editors[d := Editor(s, b)], taken[s := true], storage)
  {
    hide Headline, Total, Injective, Known, TextsOk;
    var post := Post(st.nextId, stamp + Headline(arg), level, None);
    SlotToPost(slotOf, orphans, taken, storage, s, st.nextId, None);
    SizePlus(slotOf, st.nextId, s);
    assert storage[s := None] == storage;
    TotalUpdate(st.boards, b, st.boards[b] + [post]);
    NewPostTexts(st.boards, b, post, slotOf, s, storage);
    assert storage[s] == None;
    hide SlotsOk;
    assert EditorsOk(editors[d := Editor(s, b)], Write(st, d, b, stamp, arg, level).editing, slotOf[st.nextId := s],
        storage);
  }

  lemma NewPostTexts(boards: seq<seq<Post>>, b: nat, post: Post, slotOf: map<nat, int>, s: int,
      storage: seq<Option<string>>)
    requires |storage| == INDEX_SIZE && forall id :: id in slotOf ==> 0 <= slotOf[id] < INDEX_SIZE
    requires b < |boards| && 0 <= s < INDEX_SIZE && post.id !in slotOf
    requires Known(boards, slotOf) && TextsOk(boards, slotOf, storage) && storage[s] == post.text
    ensures Known(Append(boards, b, post), slotOf[post.id := s])
        && TextsOk(Append(boards, b, post), slotOf[post.id := s], storage)
  {
    var boards': seq<seq<Post>> := Append(boards, b, post);
    forall c, i | 0 <= c < |boards'| && 0 <= i < |boards'[c]|
      ensures boards'[c][i] == if c == b && i == |boards[b]| then post else boards[c][i]
    {
    }
  }

  lemma LostState(st: BoardState, slotOf: map<nat, int>, orphans: set<int>, editors: map<nat, Editor>,
                  taken: seq<bool>, storage: seq<Option<string>>, s: int)
    requires SlotState(st, slotOf, orphans, editors, taken, storage) && 0 <= s < INDEX_SIZE && !taken[s]
    ensures SlotState(st.(abandoned := st.abandoned + 1), slotOf, orphans + {s}, editors, taken[s := true], storage)
  {
    SlotLost(slotOf, orphans, taken, storage, s);
  }

  /** An entry read from a file takes the first free slot. */
  lemma LoadedState(st: BoardState, slotOf: map<nat, int>, orphans: set<int>, editors: map<nat, Editor>,
                    taken: seq<bool>, storage: seq<Option<string>>, b: nat, r: Record, s: int)
    requires SlotState(st, slotOf, orphans, editors, taken, storage)
    requires b < |st.boards| && 0 <= s < INDEX_SIZE && !taken[s]
    ensures SlotState(LoadOne(st, b, r), slotOf[st.nextId := s], orphans, editors, taken[s := true],
        storage[s := r.text])
  {
    hide Total, Injective, Known, TextsOk;
    var post := Post(st.nextId, r.heading, r.level, r.text);
    SlotToPost(slotOf, orphans, taken, storage, s, st.nextId, r.text);
    SizePlus(slotOf, st.nextId, s);
    TotalUpdate(st.boards, b, st.boards[b] + [post]);
    FreeSlotText(st.boards, slotOf, editors, st.editing, orphans, taken, storage, s, r.text);
    NewPostTexts(st.boards, b, post, slotOf, s, storage[s := r.text]);
    hide SlotsOk;
    assert EditorsOk(editors, st.editing, slotOf[st.nextId := s], storage[s := r.text]);
  }

  /** Nobody looks at a free slot. */
  lemma FreeSlotText(boards: seq<seq<Post>>, slotOf: map<nat, int>, editors: map<nat, Editor>, editing: map<nat, Draft>,
                     orphans: set<int>, taken: seq<bool>, storage: seq<Option<string>>, s: int, t: Option<string>)
    requires SlotsOk(slotOf, orphans, taken, storage) && 0 <= s < INDEX_SIZE && !taken[s]
    requires Known(boards, slotOf) && TextsOk(boards, slotOf, storage) && EditorsOk(editors, editing, slotOf, storage)
    ensures TextsOk(boards, slotOf, storage[s := t]) && EditorsOk(editors, editing, slotOf, storage[s := t])
  {
    assert forall id :: id in slotOf ==> slotOf[id] != s;
    hide SlotsOk, Injective;
  }

  /** find_slot fails exactly when the specification says that no slot is left. */
  lemma NoSlotLeft(st: BoardState, slotOf: map<nat, int>, orphans: set<int>, editors: map<nat, Editor>,
                   taken: seq<bool>, storage: seq<Option<string>>)
    requires SlotState(st, slotOf, orphans, editors, taken, storage)
    ensures |taken| == INDEX_SIZE
    ensures FirstFree(taken) == -1 <==> Total(st.boards) + st.abandoned >= INDEX_SIZE
  {
    hide FirstFree, Total;
    TakenCount(slotOf, orphans, taken, storage);
  }

  lemma SetTextState(boards: seq<seq<Post>>, slotOf: map<nat, int>, storage: seq<Option<string>>, id: nat, t: string)
    requires |storage| == INDEX_SIZE && Injective(slotOf) && forall id :: id in slotOf ==> 0 <= slotOf[id] < INDEX_SIZE
    requires Known(boards, slotOf) && TextsOk(boards, slotOf, storage) && id in slotOf
    ensures Known(SetTextOn(boards, id, t), slotOf)
    ensures TextsOk(SetTextOn(boards, id, t), slotOf, storage[slotOf[id] := Some(t)])
    ensures Total(SetTextOn(boards, id, t)) == Total(boards)
  {
    TotalByLengths(SetTextOn(boards, id, t), boards);
    hide Total;
    var boards': seq<seq<Post>> := SetTextOn(boards, id, t);
    forall b, i | 0 <= b < |boards'| && 0 <= i < |boards'[b]|
      ensures boards'[b][i] == if boards[b][i].id == id then boards[b][i].(text := Some(t)) else boards[b][i]
    {
    }
  }

  /** Storing text through a descriptor's pointer changes that descriptor's post and no other. */
  lemma EditedState(st: BoardState, slotOf: map<nat, int>, orphans: set<int>, editors: map<nat, Editor>,
                    taken: seq<bool>, storage: seq<Option<string>>, d: nat, t: string)
    requires SlotState(st, slotOf, orphans, editors, taken, storage) && Inv(st) && d in st.editing
    ensures d in editors && 0 <= editors[d].slot < INDEX_SIZE == |storage|
        && storage[editors[d].slot] == st.editing[d].text
    ensures editors[d].board == st.editing[d].board
    ensures SlotState(Edit(st, d, t), slotOf, orphans, editors, taken, storage[editors[d].slot := Some(t)])
    ensures t == FinalText(st.editing[d].text) ==>
              SlotState(Finish(st, d), slotOf, orphans, editors - {d}, taken, storage[editors[d].slot := Some(t)])
  {
    hide Total, IdsBelow, IdsDistinct, On;
    var id := st.editing[d].id;
    SetTextState(st.boards, slotOf, storage, id, t);
    SlotText(slotOf, orphans, taken, storage, id, t);
    hide SlotsOk, Known, TextsOk;
    var storage' := storage[slotOf[id] := Some(t)];
    EditorsAfter(editors, st.editing, slotOf, storage, d, t);
  }

  lemma HungState(st: BoardState, slotOf: map<nat, int>, orphans: set<int>, editors: map<nat, Editor>,
                  taken: seq<bool>, storage: seq<Option<string>>, d: nat)
    requires SlotState(st, slotOf, orphans, editors, taken, storage)
    ensures SlotState(Hangup(st, d), slotOf, orphans, editors - {d}, taken, storage)
  {
    hide SlotsOk, Known, TextsOk, Total;
  }

  lemma EditorsAfter(editors: map<nat, Editor>, editing: map<nat, Draft>, slotOf: map<nat, int>,
      storage: seq<Option<string>>, d: nat, t: string)
    requires |storage| == INDEX_SIZE && Injective(slotOf) && forall id :: id in slotOf ==> 0 <= slotOf[id] < INDEX_SIZE
    requires EditorsOk(editors, editing, slotOf, storage) && d in editing
    requires forall d, e :: d in editing && e in editing && editing[d].id == editing[e].id ==> d == e
    ensures var storage' := storage[slotOf[editing[d].id] := Some(t)];
      && EditorsOk(editors, editing[d := editing[d].(text := Some(t))], slotOf, storage')
      && EditorsOk(editors - {d}, editing - {d}, slotOf, storage')
  {
  }

  lemma RemovedState(st: BoardState, slotOf: map<nat, int>, orphans: set<int>, editors: map<nat, Editor>,
                     taken: seq<bool>, storage: seq<Option<string>>, b: nat, msg: int)
    requires SlotState(st, slotOf, orphans, editors, taken, storage) && Inv(st)
    requires b < |st.boards| && RemoveOutcome(st, b, msg) == Removed && st.boards[b][msg - 1].id in slotOf
    ensures var id := st.boards[b][msg - 1].id; var s := slotOf[id];
      && 0 <= s < INDEX_SIZE == |taken| == |storage|
      && SlotState(Remove(st, b, msg), slotOf - {id}, orphans, editors, taken[s := false], storage[s := None])
  {
    var id := st.boards[b][msg - 1].id;
    SlotFreed(slotOf, orphans, taken, storage, id);
    SizeMinus(slotOf, id);
    TotalUpdate(st.boards, b, Without(st.boards[b], msg - 1));
    hide Total, On, DraftsLive, IdsBelow;
    RemovedTexts(st.boards, slotOf, storage, b, msg - 1);
    assert 0 <= slotOf[id] < INDEX_SIZE == |taken| == |storage|;
    assert forall d :: d in st.editing ==> st.editing[d].id != id;
    EditorsKept(editors, st.editing, slotOf, storage, id);
    hide SlotsOk, Known, TextsOk, IdsDistinct, EditorsOk, BeingWritten;
  }

  lemma EditorsKept(editors: map<nat, Editor>, editing: map<nat, Draft>, slotOf: map<nat, int>,
      storage: seq<Option<string>>, id: nat)
    requires |storage| == INDEX_SIZE && Injective(slotOf) && forall id :: id in slotOf ==> 0 <= slotOf[id] < INDEX_SIZE
    requires EditorsOk(editors, editing, slotOf, storage) && id in slotOf
    requires forall d :: d in editing ==> editing[d].id != id
    ensures EditorsOk(editors, editing, slotOf - {id}, storage[slotOf[id] := None])
  {
  }

  lemma RemovedTexts(boards: seq<seq<Post>>, slotOf: map<nat, int>, storage: seq<Option<string>>, b: nat, k: nat)
    requires |storage| == INDEX_SIZE && Injective(slotOf) && forall id :: id in slotOf ==> 0 <= slotOf[id] < INDEX_SIZE
    requires Known(boards, slotOf) && TextsOk(boards, slotOf, storage) && IdsDistinct(boards)
    requires b < |boards| && k < |boards[b]|
    ensures var id := boards[b][k].id; var boards' := boards[b := Without(boards[b], k)];
      Known(boards', slotOf - {id}) && TextsOk(boards', slotOf - {id}, storage[slotOf[id] := None])
  {
    var boards': seq<seq<Post>> := boards[b := Without(boards[b], k)];
    forall c, i | 0 <= c < |boards'| && 0 <= i < |boards'[c]|
      ensures boards'[c][i] == boards[c][if c == b && i >= k then i + 1 else i]
      ensures boards'[c][i].id != boards[b][k].id
    {
    }
  }

  /** The search through the descriptors finds a pointer to the slot exactly when the post is being written. */
  lemma BusySlot(st: BoardState, slotOf: map<nat, int>, orphans: set<int>, editors: map<nat, Editor>,
                 taken: seq<bool>, storage: seq<Option<string>>, id: nat)
    requires SlotState(st, slotOf, orphans, editors, taken, storage) && id in slotOf
    ensures (exists d :: d in editors && editors[d].slot == slotOf[id]) <==> BeingWritten(st, id)
  {
    hide Total, Known, TextsOk;
    if BeingWritten(st, id) {
      var d :| d in st.editing && st.editing[d].id == id;
      assert d in editors && editors[d].slot == slotOf[id];
    }
  }

  class BoardSystem {
    const filename: seq<string>
    const storage: array<Option<string>>
    const taken: array<bool>
    const num: array<nat>
    const index: array2<MsgInfo>
    var editors: map<nat, Editor>
    var disk: map<string, seq<Record>>
    ghost var st: BoardState
    ghost var slotOf: map<nat, int>
    ghost var orphans: set<int>

    ghost predicate Sizes() {
      && |filename| == num.Length == NUM_OF_BOARDS
      && storage.Length == taken.Length == INDEX_SIZE
      && index.Length0 == NUM_OF_BOARDS && index.Length1 == MAX_BOARD_MESSAGES
    }

    /** The per-board arrays show the posts. */
    ghost predicate Rows()
      requires Sizes()
      reads this, num, index
    {
      && |st.boards| == NUM_OF_BOARDS
      && (forall b :: 0 <= b < NUM_OF_BOARDS ==> num[b] == |st.boards[b]| <= MAX_BOARD_MESSAGES)
      && (forall b, i :: 0 <= b < NUM_OF_BOARDS && 0 <= i < |st.boards[b]| ==>
           Shows(index[b, i], st.boards[b][i], slotOf))
    }

    ghost predicate Valid()
      reads this, storage, taken, num, index
    {
      Sizes() && Inv(st) && Rows() && SlotState(st, slotOf, orphans, editors, taken[..], storage[..])
    }

    constructor (filename: seq<string>, disk: map<string, seq<Record>>)
      requires |filename| == NUM_OF_BOARDS
      ensures Sizes() && this.disk == disk && this.filename == filename
      ensures fresh(storage) && fresh(taken) && fresh(num) && fresh(index)
    {
      this.filename, this.disk := filename, disk;
      storage := new Option<string>[INDEX_SIZE];
      taken := new bool[INDEX_SIZE];
      num := new nat[NUM_OF_BOARDS];
      index := new MsgInfo[NUM_OF_BOARDS, MAX_BOARD_MESSAGES]((_, _) => MsgInfo(-1, None, 0));
    }

    method ClearSlots()
      requires Sizes()
      modifies storage, taken
      ensures forall s :: 0 <= s < INDEX_SIZE ==> storage[s] == None && !taken[s]
    {
      var i := 0;
      while i < INDEX_SIZE
        invariant i <= INDEX_SIZE && forall s :: 0 <= s < i ==> storage[s] == None && !taken[s]
      {
        storage[i], taken[i], i := None, false, i + 1;
      }
    }

    method ClearBoards()
      requires Sizes()
      modifies num
      ensures forall b :: 0 <= b < NUM_OF_BOARDS ==> num[b] == 0
    {
      var i := 0;
      while i < NUM_OF_BOARDS
        invariant i <= NUM_OF_BOARDS && forall b :: 0 <= b < i ==> num[b] == 0
      {
        num[i], i := 0, i + 1;
      }
    }

    /** init_boards, before any file is read. */
    method Clear()
      requires Sizes()
      modifies this, storage, taken, num
      ensures Valid() && st == EmptyBoards() && disk == old(disk)
    {
      hide Inv, SlotState, EmptyBoards;
      ClearSlots();
      ClearBoards();
      editors, st, slotOf, orphans := map[], EmptyBoards(), map[], {};
      EmptyBoardsInv();
      InitialState(taken[..], storage[..]);
    }

    /** find_slot: the first free slot, or -1. */
    method FindSlot() returns (s: int)
      requires Sizes()
      modifies taken
      ensures s == FirstFree(old(taken[..]))
      ensures taken[..] == if s == -1 then old(taken[..]) else old(taken[..])[s := true]
    {
      var i := 0;
      while i < INDEX_SIZE
        invariant 0 <= i <= INDEX_SIZE && taken[..] == old(taken[..])
        invariant forall t :: 0 <= t < i ==> taken[t]
        invariant FirstFree(taken[..]) == FirstFreeFrom(taken[..], i)
      {
        if !taken[i] {
          taken[i] := true;
          return i;
        }
        i := i + 1;
      }
      return -1;
    }

    method Write(d: nat, b: nat, stamp: string, arg: string, level: int) returns (outcome: Outcome)
      requires Valid() && b < NUM_OF_BOARDS && d !in editors
      modifies this, taken, num, index
      ensures Valid() && outcome == WriteOutcome(old(st), b, arg)
      ensures st == BoardSpec.Write(old(st), d, b, stamp, arg, level) && disk == old(disk)
    {
      hide Headline, Total, FirstFree, Inv, SlotState;
      StateFacts(st, slotOf, orphans, editors, taken[..], storage[..]);
      WriteKeepsInv(st, d, b, stamp, arg, level);
      NoSlotLeft(st, slotOf, orphans, editors, taken[..], storage[..]);
      if num[b] >= MAX_BOARD_MESSAGES {
        return Full;
      }
      var s := FindSlot();
      index[b, num[b]] := index[b, num[b]].(slot := s);
      if s == -1 {
        return NoSlot;
      }
      var headline := Headline(arg);
      if headline == "" {
        LostState(st, slotOf, orphans, editors, old(taken[..]), storage[..], s);
        st, orphans := st.(abandoned := st.abandoned + 1), orphans + {s};
        return NoHeadline;
      }
      StartedState(st, slotOf, orphans, editors, old(taken[..]), storage[..], d, b, stamp, arg, level, s);
      Start(d, b, stamp, arg, level, s);
      return Started;
    }

    /** The new entry, once it has a slot and a headline. */
    method Start(d: nat, b: nat, stamp: string, arg: string, level: int, s: int)
      requires Sizes() && b < NUM_OF_BOARDS && Inv(st) && Rows() && st.nextId !in slotOf
      requires WriteOutcome(st, b, arg) == Started && Inv(BoardSpec.Write(st, d, b, stamp, arg, level))
      requires SlotState(BoardSpec.Write(st, d, b, stamp, arg, level), slotOf[st.nextId := s], orphans,
                         editors[d := Editor(s, b)], taken[..], storage[..])
      modifies this, num, index
      ensures Valid() && st == BoardSpec.Write(old(st), d, b, stamp, arg, level) && disk == old(disk)
    {
      hide Headline, Total, Inv, SlotState;
      index[b, num[b]] := MsgInfo(s, Some(stamp + Headline(arg)), level);
      editors := editors[d := Editor(s, b)];
      num[b] := num[b] + 1;
      slotOf := slotOf[st.nextId := s];
      st := BoardSpec.Write(st, d, b, stamp, arg, level);
    }

    /** string_add while the message is being written: `t` is the text with the new input. */
    method Edit(d: nat, t: string)
      requires Valid() && d in editors
      modifies this, storage
      ensures Valid() && st == BoardSpec.Edit(old(st), d, t) && disk == old(disk)
    {
      hide Inv, SlotState;
      StateFacts(st, slotOf, orphans, editors, taken[..], storage[..]);
      EditedState(st, slotOf, orphans, editors, taken[..], storage[..], d, t);
      EditKeepsInv(st, d, t);
      EntriesKept(st, d, t);
      storage[editors[d].slot] := Some(t);
      st := BoardSpec.Edit(st, d, t);
    }

    /** string_add on the terminator: an empty text is replaced, the board is saved, the pointer is dropped. */
    method Finish(d: nat)
      requires Valid() && d in editors
      modifies this, storage
      ensures Valid() && st == BoardSpec.Finish(old(st), d)
      ensures var b := old(st).editing[d].board;
        b < NUM_OF_BOARDS && SavedOnly(old(disk), b)
    {
      hide Inv, SlotState;
      StateFacts(st, slotOf, orphans, editors, taken[..], storage[..]);
      EditedState(st, slotOf, orphans, editors, taken[..], storage[..], d, FinalText(st.editing[d].text));
      EditKeepsInv(st, d, "");
      EntriesKept(st, d, FinalText(st.editing[d].text));
      DraftBoard(st, d);
      var slot, b := editors[d].slot, editors[d].board;
      if storage[slot].None? || storage[slot].value == "" {
        storage[slot] := Some("Nothing.\r\n");
      }
      assert storage[..] == old(storage[..])[slot := Some(FinalText(st.editing[d].text))];
      editors := editors - {d};
      st := BoardSpec.Finish(st, d);
      Save(b);
    }

    /** close_socket: the pointer goes, the post stays. */
    method Hangup(d: nat)
      requires Valid()
      modifies `editors, `st
      ensures Valid() && st == BoardSpec.Hangup(old(st), d)
    {
      hide Inv, SlotState;
      EditKeepsInv(st, d, "");
      HungState(st, slotOf, orphans, editors, taken[..], storage[..], d);
      editors := editors - {d};
      st := BoardSpec.Hangup(st, d);
    }

    /** Board `b` is on disk as it stands, and no other file changed. */
    ghost predicate SavedOnly(before: map<string, seq<Record>>, b: nat)
      requires Sizes() && b < NUM_OF_BOARDS && b < |st.boards|
      reads this
    {
      && (forall i :: 0 <= i < |st.boards[b]| ==> st.boards[b][i].id in slotOf)
      && disk == if st.boards[b] == [] then before - {filename[b]}
                 else before[filename[b] := Records(st.boards[b], slotOf)]
    }

    /** Board_save_board. */
    method Save(b: nat)
      requires Valid() && b < NUM_OF_BOARDS
      modifies `disk
      ensures Valid() && SavedOnly(old(disk), b)
    {
      hide Inv;
      if num[b] == 0 {
        disk := disk - {filename[b]};
        return;
      }
      var recs: seq<Record> := [];
      var i := 0;
      while i < num[b]
        invariant i <= num[b] && Rows() && SlotState(st, slotOf, orphans, editors, taken[..], storage[..])
        invariant recs == Records(st.boards[b][..i], slotOf)
      {
        var m := index[b, i];
        recs := recs + [Record(m.slot, m.level, m.heading.value, storage[m.slot])];
        i := i + 1;
      }
      assert st.boards[b][..i] == st.boards[b];
      disk := disk[filename[b] := recs];
    }

    /** Board_load_board, for a file that a board was saved to. With all texts present the posts come
        back in fresh slots; an entry without text keeps the slot number it had when it was saved. */
    method Load(b: nat)
      requires Valid() && b < NUM_OF_BOARDS && st.boards[b] == []
      requires filename[b] in disk ==> 1 <= |disk[filename[b]]| <= MAX_BOARD_MESSAGES
      requires filename[b] in disk ==> Total(st.boards) + st.abandoned + |disk[filename[b]]| <= INDEX_SIZE
      modifies this, storage, taken, num, index
      ensures disk == old(disk)
      ensures filename[b] in disk ==> Loaded(old(st), b, old(taken[..]), disk[filename[b]])
      ensures filename[b] !in disk ==> Valid() && st == old(st)
    {
      if filename[b] in disk {
        LoadRecords(b, disk[filename[b]]);
      }
    }

    /** Board `b` holds the entries of the file, in the slots that the allocator gave. */
    ghost predicate Loaded(before: BoardState, b: nat, taken0: seq<bool>, recs: seq<Record>)
      requires b < |before.boards|
      reads this, storage, taken, num, index
    {
      && Sizes() && b < NUM_OF_BOARDS && |recs| <= MAX_BOARD_MESSAGES
      && num[b] == |recs| && taken[..] == LoadSlots(taken0, recs).1
      && (forall i :: 0 <= i < |recs| ==>
            index[b, i] == MsgInfo(LoadSlots(taken0, recs).0[i], Some(recs[i].heading), recs[i].level))
      && (AllText(recs) ==> Valid() && st == LoadAll(before, b, recs))
    }

    method LoadRecords(b: nat, recs: seq<Record>)
      requires Valid() && b < NUM_OF_BOARDS && st.boards[b] == []
      requires |recs| <= MAX_BOARD_MESSAGES && Total(st.boards) + st.abandoned + |recs| <= INDEX_SIZE
      modifies this, storage, taken, num, index
      ensures disk == old(disk) && Loaded(old(st), b, old(taken[..]), recs)
    {
      hide Inv, SlotState, Total, LoadSlots, LoadAll, LoadOne, PlaceRecord, AllText, Rows;
      assert num[b] == 0 && |st.boards| == NUM_OF_BOARDS by {
        RowSizes(b);
      }
      LoadNone(st, b, taken[..]);
      ghost var st0, taken0 := st, taken[..];
      var i := 0;
      assert recs[..0] == [];
      while i < |recs|
        invariant i <= |recs| && disk == old(disk) && Loaded(st0, b, taken0, recs[..i])
      {
        hide Valid, Loaded;
        LoadStep(st0, b, taken0, recs, i);
        LoadNext(st0, b, taken0, recs, i);
        i := i + 1;
      }
      assert recs[..i] == recs;
    }

    lemma RowSizes(b: nat)
      requires Valid() && b < NUM_OF_BOARDS
      ensures |st.boards| == NUM_OF_BOARDS && num[b] == |st.boards[b]|
    {
      hide Inv, SlotState;
    }

    /** One turn of the loop, seen from the file. */
    method LoadNext(ghost st0: BoardState, b: nat, ghost taken0: seq<bool>, recs: seq<Record>, i: nat)
      requires b < |st0.boards| && st0.boards[b] == [] && i < |recs| <= MAX_BOARD_MESSAGES
      requires Loaded(st0, b, taken0, recs[..i])
      requires LoadAll(st0, b, recs[..i + 1]) == LoadOne(LoadAll(st0, b, recs[..i]), b, recs[i])
      requires Total(LoadAll(st0, b, recs[..i]).boards) + st0.abandoned < INDEX_SIZE
      requires |LoadAll(st0, b, recs[..i]).boards[b]| == i && LoadAll(st0, b, recs[..i]).abandoned == st0.abandoned
      requires AllText(recs[..i + 1]) <==> AllText(recs[..i]) && recs[i].text.Some?
      requires var (slots, t) := LoadSlots(taken0, recs[..i]);
        LoadSlots(taken0, recs[..i + 1]) == (slots + [PlaceRecord(t, recs[i]).0], PlaceRecord(t, recs[i]).1)
      modifies this, storage, taken, num, index
      ensures disk == old(disk) && Loaded(st0, b, taken0, recs[..i + 1])
    {
      hide Inv, SlotState, Total, LoadSlots, LoadAll, LoadOne, PlaceRecord, AllText, Rows, Valid;
      LoadEntry(b, i, recs[i], AllText(recs[..i]));
    }

    /** One turn of the loop. The count of messages follows the entries read. */
    method LoadEntry(b: nat, i: nat, r: Record, ghost good: bool)
      requires Sizes() && b < NUM_OF_BOARDS && i < MAX_BOARD_MESSAGES && num[b] == i
      requires good ==> Valid() && |st.boards[b]| == i && Total(st.boards) + st.abandoned < INDEX_SIZE
      modifies this, storage, taken, num, index
      ensures Sizes() && disk == old(disk) && num[b] == i + 1 && taken[..] == PlaceRecord(old(taken[..]), r).1
      ensures forall k :: 0 <= k < i ==> index[b, k] == old(index[b, k])
      ensures index[b, i] == MsgInfo(PlaceRecord(old(taken[..]), r).0, Some(r.heading), r.level)
      ensures good && r.text.Some? ==> Valid() && st == LoadOne(old(st), b, r)
    {
      hide Inv, SlotState, Total, FirstFree;
      if good {
        StateFacts(st, slotOf, orphans, editors, taken[..], storage[..]);
        NoSlotLeft(st, slotOf, orphans, editors, taken[..], storage[..]);
        LoadOneInv(st, b, r);
      }
      var s := r.slot;
      if r.text.Some? {
        s := FindSlot();
        if s != -1 {
          storage[s] := r.text;
        }
      }
      index[b, i] := MsgInfo(s, Some(r.heading), r.level);
      num[b] := i + 1;
      if good && r.text.Some? {
        LoadedState(st, slotOf, orphans, editors, old(taken[..]), old(storage[..]), b, r, s);
        slotOf := slotOf[st.nextId := s];
        st := LoadOne(st, b, r);
      }
    }

    /** init_boards: every board shows its file, and nobody is writing. */
    method Boot()
      requires Sizes() && forall b :: 0 <= b < NUM_OF_BOARDS ==> FileOk(disk, filename[b])
      modifies this, storage, taken, num, index
      ensures Valid() && disk == old(disk) && st.editing == map[] && st.abandoned == 0 && |st.boards| == NUM_OF_BOARDS
      ensures forall b :: 0 <= b < NUM_OF_BOARDS ==> Visible(st.boards[b]) == FileView(disk, filename[b])
    {
      hide Inv, SlotState, Rows, Total, FileOk, FileView, Visible;
      Clear();
      TotalEmpty(st.boards);
      EmptyView();
      var i := 0;
      while i < NUM_OF_BOARDS
        invariant i <= NUM_OF_BOARDS && Valid() && disk == old(disk) && |st.boards| == NUM_OF_BOARDS
        invariant st.editing == map[] && st.abandoned == 0 && Total(st.boards) <= i * MAX_BOARD_MESSAGES
        invariant forall b :: 0 <= b < i ==> Visible(st.boards[b]) == FileView(disk, filename[b])
        invariant forall b :: i <= b < NUM_OF_BOARDS ==> st.boards[b] == []
      {
        BootOne(i);
        i := i + 1;
      }
    }

    /** One turn of the loop of init_boards. */
    method BootOne(i: nat)
      requires Valid() && i < NUM_OF_BOARDS && |st.boards| == NUM_OF_BOARDS && st.boards[i] == []
      requires FileOk(disk, filename[i]) && st.abandoned == 0 && Total(st.boards) <= i * MAX_BOARD_MESSAGES
      modifies this, storage, taken, num, index
      ensures Valid() && disk == old(disk) && |st.boards| == NUM_OF_BOARDS
      ensures st.editing == old(st.editing) && st.abandoned == 0
      ensures Total(st.boards) <= (i + 1) * MAX_BOARD_MESSAGES
      ensures Visible(st.boards[i]) == FileView(disk, filename[i])
      ensures forall b :: 0 <= b < NUM_OF_BOARDS && b != i ==> st.boards[b] == old(st.boards[b])
    {
      hide Inv, SlotState, Rows, Total, Visible;
      EmptyView();
      Load(i);
      if filename[i] in disk {
        ghost var recs := disk[filename[i]];
        assert Loaded(old(st), i, old(taken[..]), recs);
        ghost var posts := Posts(recs, old(st).nextId);
        SameView(recs, old(st).nextId);
        TotalUpdate(old(st).boards, i, [] + posts);
        assert st.boards[i] == posts;
      }
    }

    lemma EmptyView()
      ensures Visible([]) == []
    {
    }

    /** A board is saved and the boards start again: every board with the same file shows the same headings, levels and
        texts in the same order, and the others show their own files. */
    method SaveAndBoot(b: nat)
      requires Valid() && b < NUM_OF_BOARDS && b < |st.boards|
      requires forall i :: 0 <= i < |st.boards[b]| ==> st.boards[b][i].text.Some?
      requires forall c :: 0 <= c < NUM_OF_BOARDS && filename[c] != filename[b] ==> FileOk(disk, filename[c])
      modifies this, storage, taken, num, index
      ensures Valid() && SameRows(old(st).boards[b], b, old(disk))
    {
      hide Inv, SlotState, Total, Visible, FileView;
      ghost var posts, before := st.boards[b], disk;
      Save(b);
      SavedView(posts, b, before);
      Boot();
    }

    lemma SavedView(posts: seq<Post>, b: nat, before: map<string, seq<Record>>)
      requires Sizes() && b < NUM_OF_BOARDS && b < |st.boards| && posts == st.boards[b] && SavedOnly(before, b)
      requires |posts| <= MAX_BOARD_MESSAGES && forall i :: 0 <= i < |posts| ==> posts[i].text.Some?
      requires forall c :: 0 <= c < NUM_OF_BOARDS && filename[c] != filename[b] ==> FileOk(before, filename[c])
      ensures forall c :: 0 <= c < NUM_OF_BOARDS ==> FileOk(disk, filename[c])
      ensures forall c :: 0 <= c < NUM_OF_BOARDS ==>
                FileView(disk, filename[c]) ==
                if filename[c] == filename[b] then Visible(posts) else FileView(before, filename[c])
    {
      hide Records, Visible, AllText, Inv, SlotState;
      EmptyView();
      SaveLoadRoundTrip(posts, slotOf, 0);
    }

    ghost predicate SameRows(posts: seq<Post>, b: nat, before: map<string, seq<Record>>)
      requires Sizes() && b < NUM_OF_BOARDS
      reads this
    {
      && |st.boards| == NUM_OF_BOARDS
      && forall c :: 0 <= c < NUM_OF_BOARDS ==>
           Visible(st.boards[c]) == if filename[c] == filename[b] then Visible(posts) else FileView(before, filename[c])
    }

    /** Board_remove_msg. */
    method Remove(b: nat, msg: int) returns (outcome: Removal)
      requires Valid() && b < NUM_OF_BOARDS
      modifies this, storage, taken, num, index
      ensures Valid() && outcome == RemoveOutcome(old(st), b, msg)
      ensures st == BoardSpec.Remove(old(st), b, msg)
      ensures if outcome == Removed then SavedOnly(old(disk), b) else disk == old(disk)
    {
      hide Inv, SlotState, BeingWritten;
      if num[b] == 0 {
        return Empty;
      }
      if msg < 1 || msg > num[b] {
        return NoSuch;
      }
      var ind := msg - 1;
      ghost var id := st.boards[b][ind].id;
      var slot := index[b, ind].slot;
      assert Shows(index[b, ind], st.boards[b][ind], slotOf);
      StateFacts(st, slotOf, orphans, editors, taken[..], storage[..]);
      BusySlot(st, slotOf, orphans, editors, taken[..], storage[..], id);
      if exists d :: d in editors && editors[d].slot == slot {
        return Busy;
      }
      RemoveKeepsInv(st, b, msg);
      RemovedEntries(st, b, ind);
      RemovedState(st, slotOf, orphans, editors, taken[..], storage[..], b, msg);
      storage[slot], taken[slot] := None, false;
      Shift(b, ind);
      slotOf := slotOf - {id};
      st := BoardSpec.Remove(st, b, msg);
      Save(b);
      return Removed;
    }

    /** The entries after `k` move down one place. */
    method Shift(b: nat, k: nat)
      requires Sizes() && b < NUM_OF_BOARDS && k < num[b] <= MAX_BOARD_MESSAGES
      modifies num, index
      ensures forall c :: 0 <= c < NUM_OF_BOARDS ==> num[c] == old(num[c]) - if c == b then 1 else 0
      ensures forall c, i :: 0 <= c < NUM_OF_BOARDS && 0 <= i < MAX_BOARD_MESSAGES ==>
                index[c, i] == if c == b && k <= i < num[b] then old(index[c, i + 1]) else old(index[c, i])
    {
      var ind := k;
      while ind < num[b] - 1
        invariant k <= ind < num[b] == old(num[b])
        invariant forall c :: 0 <= c < NUM_OF_BOARDS ==> num[c] == old(num[c])
        invariant forall c, i :: 0 <= c < NUM_OF_BOARDS && 0 <= i < MAX_BOARD_MESSAGES ==>
                    index[c, i] == if c == b && k <= i < ind then old(index[c, i + 1]) else old(index[c, i])
      {
        index[b, ind] := index[b, ind + 1];
        ind := ind + 1;
      }
      num[b] := num[b] - 1;
    }

    /** Board_display_msg, after the argument has been read as a number. */
    method Display(b: nat, msg: int) returns (v: View)
      requires Valid() && b < NUM_OF_BOARDS
      ensures v == BoardSpec.Display(st, b, msg)
      ensures b < |st.boards| && var posts := st.boards[b];
              && (v == EmptyBoard <==> posts == [])
              && (v == NotThere <==> posts != [] && !(1 <= msg <= |posts|))
              && (1 <= msg <= |posts| ==>
                    v == match posts[msg - 1].text
                         case None => NoText
                         case Some(t) => Shown(posts[msg - 1].heading, t))
    {
      hide Inv;
      if num[b] == 0 {
        return EmptyBoard;
      }
      if msg < 1 || msg > num[b] {
        return NotThere;
      }
      var m := index[b, msg - 1];
      assert Shows(m, st.boards[b][msg - 1], slotOf);
      if storage[m.slot].None? {
        return NoText;
      }
      return Shown(m.heading.value, storage[m.slot].value);
    }

    /** No file is empty. */
    ghost predicate FilesHold()
      requires Sizes()
      reads `disk
    {
      forall b :: 0 <= b < NUM_OF_BOARDS && filename[b] in disk ==> disk[filename[b]] != []
    }

    /** Every file shows what the operation makes of it. */
    ghost predicate FilesAre(before: BoardState, op: Op, files: map<string, seq<Record>>)
      requires Sizes()
      reads `disk
    {
      forall b :: 0 <= b < NUM_OF_BOARDS ==>
        FileView(disk, filename[b]) ==
        StepFile(before, op, filename, filename[b], FileView(files, filename[b]))
    }

    lemma SavedFiles(before: BoardState, op: Op, files: map<string, seq<Record>>, b: nat)
      requires Valid() && SavedBoard(before, op) == Some(b) && b < NUM_OF_BOARDS && st == Step(before, op)
      requires |st.boards| == NUM_OF_BOARDS && SavedOnly(files, b)
      ensures FilesAre(before, op, files)
      ensures (forall c :: 0 <= c < NUM_OF_BOARDS && filename[c] in files ==> files[filename[c]] != []) ==> FilesHold()
    {
      hide Inv, SlotState, Rows, Step, SavedBoard, Visible, Records, AllText;
      EmptyView();
      SaveLoadRoundTrip(st.boards[b], slotOf, 0);
    }

    lemma SameFiles(before: BoardState, op: Op)
      requires Sizes() && SavedBoard(before, op) == None
      ensures FilesAre(before, op, disk)
    {
      hide SavedBoard;
    }

    /** One operation, where a descriptor that is writing starts no second message. */
    method Do(op: Op)
      requires Valid()
      modifies this, storage, taken, num, index
      ensures Valid() && st == Step(old(st), op) && FilesAre(old(st), op, old(disk))
      ensures old(FilesHold()) ==> FilesHold()
    {
      hide Inv, SlotState, Total, BoardSpec.Write, SetTextOn, FinalText, BoardSpec.Remove, FilesAre, RemoveOutcome;
      StateFacts(st, slotOf, orphans, editors, taken[..], storage[..]);
      if SavedBoard(st, op) == None { SameFiles(st, op); }
      match op {
        case OpWrite(d, b, stamp, arg, level) =>
          if b < NUM_OF_BOARDS && d !in editors {
            var _ := Write(d, b, stamp, arg, level);
          }
        case OpEdit(d, t) => if d in editors { Edit(d, t); }
        case OpFinish(d) =>
          if d in editors {
            Finish(d);
            SavedFiles(old(st), op, old(disk), old(st).editing[d].board);
          }
        case OpHangup(d) => Hangup(d);
        case OpRemove(b, msg) =>
          if b < NUM_OF_BOARDS {
            var outcome := Remove(b, msg);
            if outcome == Removed {
              SavedFiles(old(st), op, old(disk), b);
            }
          }
      }
    }

    /** Any operations of anyone in turn are a run on the posts, and on what the files show. */
    method Obey(ops: seq<Op>)
      requires Valid()
      modifies this, storage, taken, num, index
      ensures Valid() && st == Run(old(st), ops)
      ensures old(FilesHold()) ==> FilesHold()
      ensures forall b :: 0 <= b < NUM_OF_BOARDS ==>
                FileView(disk, filename[b]) ==
                FileAfter(old(st), ops, filename, filename[b], FileView(old(disk), filename[b]))
      decreases |ops|
    {
      hide Step, Inv, SlotState, Rows, FileView, StepFile;
      if |ops| > 0 {
        Do(ops[0]);
        Obey(ops[1..]);
      }
    }

    /** After any run and a restart every board shows what its file was left with. */
    method ObeyAndBoot(ops: seq<Op>)
      requires Valid() && FilesHold()
      requires forall b :: 0 <= b < NUM_OF_BOARDS ==>
                 Bootable(FileAfter(st, ops, filename, filename[b], FileView(disk, filename[b])))
      modifies this, storage, taken, num, index
      ensures Valid() && |st.boards| == NUM_OF_BOARDS
      ensures forall b :: 0 <= b < NUM_OF_BOARDS ==>
                Visible(st.boards[b]) ==
                FileAfter(old(st), ops, filename, filename[b], FileView(old(disk), filename[b]))
    {
      hide Inv, SlotState, Rows, FileView, FileAfter, Visible, FileOk, Run;
      Obey(ops);
      forall b | 0 <= b < NUM_OF_BOARDS ensures FileOk(disk, filename[b]) {
        BootableFile(disk, filename[b]);
      }
      Boot();
    }
  }

  lemma RemovedEntries(st: BoardState, b: nat, k: nat)
    requires Inv(st) && b < |st.boards| && k < |st.boards[b]|
    ensures var boards: seq<seq<Post>> := st.boards[b := Without(st.boards[b], k)];
      forall c, i :: 0 <= c < |boards| && 0 <= i < |boards[c]| ==>
        boards[c][i] == st.boards[c][if c == b && i >= k then i + 1 else i] && boards[c][i].id != st.boards[b][k].id
  {
    hide Total, On;
  }

  /** Editing changes texts only. */
  lemma EntriesKept(st: BoardState, d: nat, t: string)
    requires d in st.editing
    ensures var boards: seq<seq<Post>> := SetTextOn(st.boards, st.editing[d].id, t);
      && |boards| == |st.boards|
      && (forall b :: 0 <= b < |boards| ==> |boards[b]| == |st.boards[b]|)
      && (forall b, i :: 0 <= b < |boards| && 0 <= i < |boards[b]| ==>
            boards[b][i].(text := None) == st.boards[b][i].(text := None))
  {
  }

  lemma DraftBoard(st: BoardState, d: nat)
    requires Inv(st) && d in st.editing
    ensures st.editing[d].board < NUM_OF_BOARDS
  {
  }
}