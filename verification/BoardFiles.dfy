/** Board files: what saving writes, what loading makes of it, and exactly when the slots that
    loading assigns are sound. */
module BoardFiles {
  import opened CText
  import opened BoardSpec
  import opened BoardSlots
  import opened BoardRuns

  /** An entry of a board file; a text of None is a message length of zero. */
  datatype Record = Record(slot: int, level: int, heading: string, text: Option<string>)

  /** What a board file holds for a sequence of posts. */
  function Records(posts: seq<Post>, slotOf: map<nat, int>): seq<Record>
    requires forall i :: 0 <= i < |posts| ==> posts[i].id in slotOf
  {
    seq(|posts|, i requires 0 <= i < |posts| =>
      Record(slotOf[posts[i].id], posts[i].level, posts[i].heading, posts[i].text))
  }

  predicate AllText(recs: seq<Record>) {
    forall i :: 0 <= i < |recs| ==> recs[i].text.Some?
  }

  /** The slot that an entry gets: a fresh one if it has text, else the number in the file. */
  function PlaceRecord(taken: seq<bool>, r: Record): (int, seq<bool>) {
    if r.text.None? then (r.slot, taken)
    else
      var s := FirstFree(taken);
      (s, if s == -1 then taken else taken[s := true])
  }

  /** Slots assigned to the entries of a file, and the slots in use afterwards. */
  function LoadSlots(taken: seq<bool>, recs: seq<Record>): (r: (seq<int>, seq<bool>))
    ensures |r.0| == |recs| && |r.1| == |taken|
  {
    if recs == [] then ([], taken)
    else
      var n := |recs| - 1;
      var (slots, t) := LoadSlots(taken, recs[..n]);
      var (s, t') := PlaceRecord(t, recs[n]);
      (slots + [s], t')
  }

  function LoadOne(st: BoardState, b: nat, r: Record): BoardState
    requires b < |st.boards|
  {
    st.(boards := Append(st.boards, b, Post(st.nextId, r.heading, r.level, r.text)), nextId := st.nextId + 1)
  }

  /** The posts that a file describes, numbered from `first`. */
  function Posts(recs: seq<Record>, first: nat): seq<Post> {
    seq(|recs|, i requires 0 <= i < |recs| => Post(first + i, recs[i].heading, recs[i].level, recs[i].text))
  }

  function LoadAll(st: BoardState, b: nat, recs: seq<Record>): BoardState
    requires b < |st.boards|
  {
    st.(boards := st.boards[b := st.boards[b] + Posts(recs, st.nextId)], nextId := st.nextId + |recs|)
  }

  lemma LoadNone(st: BoardState, b: nat, taken: seq<bool>)
    requires b < |st.boards|
    ensures LoadAll(st, b, []) == st && LoadSlots(taken, []) == ([], taken) && AllText([])
  {
    assert st.boards[b] + Posts([], st.nextId) == st.boards[b];
    assert st.boards[b := st.boards[b]] == st.boards;
  }

  lemma LoadOneInv(st: BoardState, b: nat, r: Record)
    requires Inv(st) && b < |st.boards| && |st.boards[b]| < MAX_BOARD_MESSAGES
    requires Total(st.boards) + st.abandoned < INDEX_SIZE
    ensures Inv(LoadOne(st, b, r))
  {
    hide Total, On, IdsBelow, IdsDistinct;
    var post := Post(st.nextId, r.heading, r.level, r.text);
    AppendKeeps(st.boards, b, post);
    forall d | d in st.editing
      ensures On(Append(st.boards, b, post), st.editing[d].board, st.editing[d].id, st.editing[d].text)
    {
      AppendKeepsOn(st.boards, b, post, st.editing[d].board, st.editing[d].id, st.editing[d].text);
    }
  }

  /** What one turn of the loading loop adds. */
  lemma LoadStep(st: BoardState, b: nat, taken: seq<bool>, recs: seq<Record>, i: nat)
    requires b < |st.boards| && i < |recs| && Total(st.boards) + st.abandoned + |recs| <= INDEX_SIZE
    ensures LoadAll(st, b, recs[..i + 1]) == LoadOne(LoadAll(st, b, recs[..i]), b, recs[i])
    ensures Total(LoadAll(st, b, recs[..i]).boards) + st.abandoned < INDEX_SIZE
    ensures |LoadAll(st, b, recs[..i]).boards[b]| == |st.boards[b]| + i
        && LoadAll(st, b, recs[..i]).abandoned == st.abandoned
    ensures AllText(recs[..i + 1]) <==> AllText(recs[..i]) && recs[i].text.Some?
    ensures var (slots, t) := LoadSlots(taken, recs[..i]);
      LoadSlots(taken, recs[..i + 1]) == (slots + [PlaceRecord(t, recs[i]).0], PlaceRecord(t, recs[i]).1)
  {
    hide FirstFree;
    TotalUpdate(st.boards, b, st.boards[b] + Posts(recs[..i], st.nextId));
    hide Total;
    assert recs[..i + 1][..i] == recs[..i];
    assert forall k :: 0 <= k < i + 1 ==> recs[..i + 1][k] == recs[k];
    assert Posts(recs[..i + 1], st.nextId) ==
        Posts(recs[..i], st.nextId) + [Post(st.nextId + i, recs[i].heading, recs[i].level, recs[i].text)];
    var more, post := Posts(recs[..i], st.nextId), Post(st.nextId + i, recs[i].heading, recs[i].level, recs[i].text);
    assert st.boards[b] + (more + [post]) == (st.boards[b] + more) + [post];
  }

  // ---- Round trip ----

  /** What a reader of the board sees. */
  function Visible(posts: seq<Post>): seq<(string, int, Option<string>)> {
    seq(|posts|, i requires 0 <= i < |posts| => (posts[i].heading, posts[i].level, posts[i].text))
  }

  /** Loading what was saved shows the same headings, levels and texts in the same order. */
  lemma SaveLoadRoundTrip(posts: seq<Post>, slotOf: map<nat, int>, first: nat)
    requires forall i :: 0 <= i < |posts| ==> posts[i].id in slotOf
    ensures |Records(posts, slotOf)| == |posts| && Visible(Posts(Records(posts, slotOf), first)) == Visible(posts)
    ensures AllText(Records(posts, slotOf)) <==> forall i :: 0 <= i < |posts| ==> posts[i].text.Some?
  {
    assert forall i :: 0 <= i < |posts| ==> Records(posts, slotOf)[i].text == posts[i].text;
  }

  /** What the file of a name shows; no file shows nothing. */
  function FileView(disk: map<string, seq<Record>>, name: string): seq<(string, int, Option<string>)> {
    if name in disk then Visible(Posts(disk[name], 0)) else []
  }

  /** The files that loading accepts and brings back whole. */
  ghost predicate FileOk(disk: map<string, seq<Record>>, name: string) {
    name in disk ==> 1 <= |disk[name]| <= MAX_BOARD_MESSAGES && AllText(disk[name])
  }

  lemma SameView(recs: seq<Record>, first: nat)
    ensures Visible(Posts(recs, first)) == Visible(Posts(recs, 0))
  {
  }

  // ---- Soundness of the slots that loading assigns ----

  /** The loaded entries have slots of their own, in range and marked. */
  ghost predicate Sound(slots: seq<int>, live: set<int>, taken: seq<bool>) {
    && (forall i :: 0 <= i < |slots| ==> 0 <= slots[i] < |taken| && taken[slots[i]] && slots[i] !in live)
    && (forall i, j :: 0 <= i < j < |slots| ==> slots[i] != slots[j])
  }

  /** Slots in use after loading: those before, and those given to entries with text. */
  lemma {:induction false} LoadedTaken(taken: seq<bool>, recs: seq<Record>, s: int)
    requires 0 <= s < |taken|
    ensures var (slots, t) := LoadSlots(taken, recs);
      t[s] <==> taken[s] || exists i :: 0 <= i < |recs| && recs[i].text.Some? && slots[i] == s
  {
    hide FirstFree;
    if recs != [] {
      var n := |recs| - 1;
      LoadedTaken(taken, recs[..n], s);
      var (slots0, t0) := LoadSlots(taken, recs[..n]);
      var (slots, t) := LoadSlots(taken, recs);
      assert forall i :: 0 <= i < n ==> slots[i] == slots0[i] && recs[..n][i] == recs[i];
      if t[s] && !t0[s] {
        assert recs[n].text.Some? && slots[n] == s;
      }
    }
  }

  /** Slots given to entries with text were free, and no two entries share one. */
  lemma {:induction false} LoadedFresh(taken: seq<bool>, recs: seq<Record>, free: nat)
    requires AllText(recs) && FreeCount(taken) >= free + |recs|
    ensures var (slots, t) := LoadSlots(taken, recs);
      && FreeCount(t) >= free
      && (forall i :: 0 <= i < |recs| ==> 0 <= slots[i] < |taken| && !taken[slots[i]])
      && (forall i, j :: 0 <= i < j < |recs| ==> slots[i] != slots[j])
  {
    if recs != [] {
      var n := |recs| - 1;
      LoadedFresh(taken, recs[..n], free + 1);
      var (slots0, t0) := LoadSlots(taken, recs[..n]);
      var s := FirstFree(t0);
      hide FirstFree;
      if s == -1 { NoneFree(t0); }
      FreeCountTake(t0, s);
      LoadedTaken(taken, recs[..n], s);
      var (slots, t) := LoadSlots(taken, recs);
      assert slots == slots0 + [s];
      assert forall i :: 0 <= i < n ==> recs[..n][i].text.Some? && slots0[i] != s;
    }
  }

  function FreeCount(taken: seq<bool>): nat {
    if taken == [] then 0 else FreeCount(taken[..|taken| - 1]) + if taken[|taken| - 1] then 0 else 1
  }

  lemma NoneFree(taken: seq<bool>)
    requires AllTaken(taken)
    ensures FreeCount(taken) == 0
  {
  }

  lemma FreeCountTake(taken: seq<bool>, s: nat)
    requires s < |taken| && !taken[s]
    ensures FreeCount(taken[s := true]) == FreeCount(taken) - 1
  {
    var n := |taken| - 1;
    if s < n {
      FreeCountTake(taken[..n], s);
      assert taken[s := true][..n] == taken[..n][s := true];
    } else {
      assert taken[s := true][..n] == taken[..n];
    }
  }

  /** When a board is loaded at boot, with no abandoned writes about, its entries get sound slots
      exactly when every entry has text: a stale slot is unmarked, or belongs to another post. */
  lemma LoadSoundIff(slotOf: map<nat, int>, taken: seq<bool>, storage: seq<Option<string>>, recs: seq<Record>)
    requires SlotsOk(slotOf, {}, taken, storage) && FreeCount(taken) >= |recs|
    ensures var (slots, t) := LoadSlots(taken, recs); Sound(slots, slotOf.Values, t) <==> AllText(recs)
  {
    hide FirstFree, LoadSlots, FreeCount;
    var (slots, t) := LoadSlots(taken, recs);
    if AllText(recs) {
      LoadedFresh(taken, recs, 0);
      forall i | 0 <= i < |slots| ensures t[slots[i]] && slots[i] !in slotOf.Values {
        LoadedTaken(taken, recs, slots[i]);
      }
    } else {
      var i :| 0 <= i < |recs| && recs[i].text.None?;
      StaleUnsound(slotOf, taken, storage, recs, i);
    }
  }

  lemma StaleUnsound(slotOf: map<nat, int>, taken: seq<bool>, storage: seq<Option<string>>, recs: seq<Record>, i: nat)
    requires SlotsOk(slotOf, {}, taken, storage) && i < |recs| && recs[i].text.None?
    ensures var (slots, t) := LoadSlots(taken, recs); !Sound(slots, slotOf.Values, t)
  {
    hide FirstFree, LoadSlots;
    var (slots, t) := LoadSlots(taken, recs);
    StaleSlot(taken, recs, i);
    var s := slots[i];
    if 0 <= s < |taken| && t[s] && !taken[s] {
      LoadedTaken(taken, recs, s);
      var j :| 0 <= j < |recs| && recs[j].text.Some? && slots[j] == s;
      assert j != i;
    }
  }

  /** An entry without text keeps the slot number in the file. */
  lemma {:induction false} StaleSlot(taken: seq<bool>, recs: seq<Record>, i: nat)
    requires i < |recs| && recs[i].text.None?
    ensures LoadSlots(taken, recs).0[i] == recs[i].slot
  {
    hide FirstFree;
    var n := |recs| - 1;
    if i < n {
      StaleSlot(taken, recs[..n], i);
      assert LoadSlots(taken, recs).0[i] == LoadSlots(taken, recs[..n]).0[i];
    }
  }

  lemma StartedOnFirst(st: BoardState, d: nat, h: string)
    requires |st.boards| == NUM_OF_BOARDS && |st.boards[0]| < MAX_BOARD_MESSAGES && d !in st.editing
    requires Total(st.boards) + st.abandoned < INDEX_SIZE && Headline(h) == h != ""
    ensures var post := Post(st.nextId, h, 0, None); var t := Step(st, OpWrite(d, 0, "", h, 0));
      && t == st.(boards := Append(st.boards, 0, post), editing := st.editing[d := Draft(st.nextId, 0, None)],
                  nextId := st.nextId + 1)
      && Total(t.boards) == Total(st.boards) + 1
  {
    hide Total, Headline;
    var post := Post(st.nextId, h, 0, None);
    TotalUpdate(st.boards, 0, st.boards[0] + [post]);
    assert "" + h == h;
  }

  /** Two people write on the first board, and the first one has finished. */
  lemma OneFinished()
    ensures var st := Run(EmptyBoards(), [OpWrite(0, 0, "", "a", 0), OpWrite(1, 0, "", "b", 0), OpFinish(0)]);
      && |st.boards| == NUM_OF_BOARDS
      && st.boards[0] == [Post(0, "a", 0, Some("Nothing.\r\n")), Post(1, "b", 0, None)]
  {
    hide Total, Headline, Write, Finish, Run, EmptyBoards;
    var write0, write1, finish := OpWrite(0, 0, "", "a", 0), OpWrite(1, 0, "", "b", 0), OpFinish(0);
    RunThree(EmptyBoards(), write0, write1, finish);
    NothingYet();
    StartedOnFirst(EmptyBoards(), 0, "a");
    var one := Step(EmptyBoards(), write0);
    StartedOnFirst(one, 1, "b");
    var two := Step(one, write1);
    assert two.boards[0] == ([] + [Post(0, "a", 0, None)]) + [Post(1, "b", 0, None)];
    FinishFirst(two);
  }

  lemma NothingYet()
    ensures var e := EmptyBoards();
      |e.boards| == NUM_OF_BOARDS && e.boards[0] == [] && e.editing == map[] && e.nextId == 0 && e.abandoned == 0
          && Total(e.boards) == 0
    ensures Headline("a") == "a" && Headline("b") == "b"
  {
    hide Total;
    TotalEmpty(EmptyBoards().boards);
  }

  lemma FinishFirst(st: BoardState)
    requires |st.boards| == NUM_OF_BOARDS && st.boards[0] == [Post(0, "a", 0, None), Post(1, "b", 0, None)]
    requires 0 in st.editing && st.editing[0] == Draft(0, 0, None)
    ensures var boards := Finish(st, 0).boards;
      |boards| == NUM_OF_BOARDS && boards[0] == [Post(0, "a", 0, Some("Nothing.\r\n")), Post(1, "b", 0, None)]
  {
    var posts := SetText(st.boards[0], 0, "Nothing.\r\n");
    assert |posts| == 2;
  }

  /** A board saved while a second author is still writing: whatever slots the messages hold, the file has an
      entry without text, and loading it at boot is not sound. */
  lemma SavedWhileWriting(slotOf: map<nat, int>)
    requires 0 in slotOf && 1 in slotOf
    ensures var st := Run(EmptyBoards(), [OpWrite(0, 0, "", "a", 0), OpWrite(1, 0, "", "b", 0), OpFinish(0)]);
      && |st.boards| == NUM_OF_BOARDS && (forall i :: 0 <= i < |st.boards[0]| ==> st.boards[0][i].id in slotOf)
      && var (slots, t) := LoadSlots(seq(INDEX_SIZE, _ => false), Records(st.boards[0], slotOf));
         !Sound(slots, {}, t)
  {
    hide LoadSlots, Run, Sound;
    OneFinished();
    var st := Run(EmptyBoards(), [OpWrite(0, 0, "", "a", 0), OpWrite(1, 0, "", "b", 0), OpFinish(0)]);
    var m: map<nat, int> := map[];
    var taken, storage := seq(INDEX_SIZE, _ => false), seq(INDEX_SIZE, _ => None);
    assert SlotsOk(m, {}, taken, storage);
    assert m.Values == {};
    StaleUnsound(m, taken, storage, Records(st.boards[0], slotOf), 1);
  }
}
