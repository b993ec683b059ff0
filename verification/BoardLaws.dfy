/** What readers of the boards are shown, before and after each operation. */
module BoardLaws {
  import opened CText
  import opened Sequences
  import opened BoardSpec
  import opened BoardRuns
  import opened BoardFiles
  import opened BoardDisk

  // ---- Headlines ----

  /** Text as the command interpreter passes it on: every dollar sign twice. */
  function Doubled(s: string): string {
    if s == "" then "" else (if s[0] == '$' then "$$" else [s[0]]) + Doubled(s[1..])
  }

  lemma {:induction false} DoubledBack(s: string)
    ensures DeleteDoubleDollar(Doubled(s)) == s
    ensures s != "" ==> Doubled(s) != "" && Doubled(s)[0] == s[0]
  {
    if s != "" {
      DoubledBack(s[1..]);
      var t := Doubled(s);
      if s[0] == '$' {
        assert t[2..] == Doubled(s[1..]);
      } else {
        assert t[1..] == Doubled(s[1..]);
      }
    }
  }

  /** The heading shows what was typed: blanks in front are dropped, doubled dollar signs are single again, and what is
      left is cut to its first 81 characters. */
  lemma HeadlineShows(blanks: string, s: string)
    requires forall i :: 0 <= i < |blanks| ==> IsSpace(blanks[i])
    requires s != "" ==> !IsSpace(s[0])
    ensures |s| <= 81 ==> Headline(blanks + Doubled(s)) == s
    ensures |s| > 81 ==> |Headline(blanks + Doubled(s))| == 81 && Headline(blanks + Doubled(s)) <= s
  {
    DoubledBack(s);
    var t := blanks + Doubled(s);
    SpanIs(t, IsSpace, |blanks|);
    assert t[|blanks|..] == Doubled(s);
  }

  function Dollars(n: nat): string {
    if n == 0 then "" else "$" + Dollars(n - 1)
  }

  /** Dollar signs that are not doubled: of a run of them half are kept, rounded up. */
  lemma {:induction false} DollarRun(k: nat, s: string)
    requires s != "" ==> s[0] != '$'
    ensures DeleteDoubleDollar(Dollars(k) + s) == Dollars((k + 1) / 2) + DeleteDoubleDollar(s)
  {
    if k >= 2 {
      hide DeleteDoubleDollar, Dollars;
      var half := (k - 1) / 2;
      DollarRun(k - 2, s);
      TwoDollars(k - 2);
      TwoDollars(half);
      DollarPair(Dollars(k - 2) + s);
      Regroup("$$", Dollars(k - 2), s);
      Regroup("$", Dollars(half), DeleteDoubleDollar(s));
    } else if k == 1 {
      assert Dollars(0) == "" && Dollars(1) == "$" && ("$" + s)[1..] == s;
    } else {
      assert "" + s == s;
    }
  }

  lemma TwoDollars(n: nat)
    ensures Dollars(n + 1) == "$" + Dollars(n) && Dollars(n + 2) == "$$" + Dollars(n)
  {
    assert Dollars(n + 2) == "$" + Dollars(n + 1);
  }

  /** Other characters stay. */
  lemma DollarPair(s: string)
    ensures DeleteDoubleDollar("$$" + s) == "$" + DeleteDoubleDollar(s)
    ensures s != "" && s[0] != '$' ==> DeleteDoubleDollar(s) == [s[0]] + DeleteDoubleDollar(s[1..])
  {
    assert ("$$" + s)[2..] == s;
  }

  /** An argument is no headline exactly when it is blank. */
  lemma BlankIff(arg: string)
    ensures Headline(arg) == "" <==> forall i :: 0 <= i < |arg| ==> IsSpace(arg[i])
  {
    var n := Span(arg, IsSpace);
    var s := SkipSpaces(arg);
    assert DeleteDoubleDollar(s) == "" <==> s == "";
    assert n < |arg| ==> !IsSpace(arg[n]);
  }

  // ---- Each operation, as readers see it ----

  /** The other boards show what they showed. */
  predicate OthersShow(st: BoardState, st': BoardState, b: nat) {
    && |st'.boards| == |st.boards|
    && forall c :: 0 <= c < |st.boards| && c != b ==> Visible(st'.boards[c]) == Visible(st.boards[c])
  }

  /** Reading message `msg` shows row `msg` of the board, counted from one. */
  lemma DisplayShows(st: BoardState, b: nat, msg: int)
    requires b < |st.boards|
    ensures var rows := Visible(st.boards[b]);
      match Display(st, b, msg)
      case EmptyBoard => rows == []
      case NotThere => rows != [] && !(1 <= msg <= |rows|)
      case NoText => 1 <= msg <= |rows| && rows[msg - 1].2 == None
      case Shown(heading, text) => 1 <= msg <= |rows| && rows[msg - 1].0 == heading && rows[msg - 1].2 == Some(text)
  {
  }

  /** A headline on a board with room, when a slot is left, appends one row without text; otherwise readers see no
      difference, but a blank headline has used up a slot. */
  lemma WriteShows(st: BoardState, d: nat, b: nat, stamp: string, arg: string, level: int)
    requires b < |st.boards|
    ensures d in st.editing ==> Step(st, OpWrite(d, b, stamp, arg, level)) == st
    ensures var st' := Step(st, OpWrite(d, b, stamp, arg, level));
      d !in st.editing ==>
      && OthersShow(st, st', b) && b < |st'.boards|
      && var room := |st.boards[b]| < 60 && Total(st.boards) + st.abandoned < 2345;
      && (Visible(st'.boards[b]) == Visible(st.boards[b]) +
          if room && Headline(arg) != "" then [(stamp + Headline(arg), level, None)] else [])
      && st'.abandoned == st.abandoned + if room && Headline(arg) == "" then 1 else 0
    ensures match WriteOutcome(st, b, arg)
            case Full => |st.boards[b]| >= 60
            case NoSlot => |st.boards[b]| < 60 && Total(st.boards) + st.abandoned >= 2345
            case NoHeadline => Write(st, d, b, stamp, arg, level).abandoned > st.abandoned
            case Started => |Write(st, d, b, stamp, arg, level).boards[b]| > |st.boards[b]|
  {
    hide Headline, Total;
  }

  /** Text typed, or finished, shows on the message being written and nowhere else. */
  lemma EditShows(st: BoardState, d: nat, t: string, c: nat, i: nat)
    requires Inv(st) && d in st.editing && c < |st.boards| && i < |st.boards[c]|
    ensures var p, edited, done := st.boards[c][i], Step(st, OpEdit(d, t)), Step(st, OpFinish(d));
      && |edited.boards| == |done.boards| == |st.boards|
      && |edited.boards[c]| == |done.boards[c]| == |st.boards[c]|
      && (p.id != st.editing[d].id ==> edited.boards[c][i] == done.boards[c][i] == p)
      && (p.id == st.editing[d].id ==>
            && RowOf(edited.boards[c][i]) == (p.heading, p.level, Some(t))
            && RowOf(done.boards[c][i]) ==
               (p.heading, p.level, Some(if p.text in {None, Some("")} then "Nothing.\r\n" else p.text.value)))
  {
    hide Total, IdsBelow;
    assert On(st.boards, st.editing[d].board, st.editing[d].id, st.editing[d].text);
  }

  /** A lost link changes nothing that readers see, and its message can then be removed. */
  lemma HangupShows(st: BoardState, d: nat)
    requires Inv(st)
    ensures Step(st, OpHangup(d)).boards == st.boards
    ensures d in st.editing ==> !BeingWritten(Step(st, OpHangup(d)), st.editing[d].id)
  {
    hide Total, IdsBelow, IdsDistinct, On;
  }

  /** Removal takes out row `msg`, counted from one, and no other, unless the message is being written; and the file
      of the board then shows the rows left. */
  lemma RemoveShows(st: BoardState, b: nat, msg: int, names: seq<string>, rows: seq<Row>)
    requires b < |st.boards| && b < |names|
    ensures var before, st' := Visible(st.boards[b]), Step(st, OpRemove(b, msg));
      && OthersShow(st, st', b) && b < |st'.boards|
      && if 1 <= msg <= |before| && !BeingWritten(st, st.boards[b][msg - 1].id)
         then Visible(st'.boards[b]) == before[..msg - 1] + before[msg..]
           && StepFile(st, OpRemove(b, msg), names, names[b], rows) == before[..msg - 1] + before[msg..]
         else st' == st && StepFile(st, OpRemove(b, msg), names, names[b], rows) == rows
    ensures match RemoveOutcome(st, b, msg)
            case Empty => st.boards[b] == []
            case NoSuch => st.boards[b] != [] && !(1 <= msg <= |st.boards[b]|)
            case Busy => 1 <= msg <= |st.boards[b]| &&
              exists d :: d in st.editing && st.editing[d].id == st.boards[b][msg - 1].id
            case Removed => |Remove(st, b, msg).boards[b]| < |st.boards[b]|
  {
  }

  /** A file and a board have their messages in the same order. */
  lemma FileShows(posts: seq<Post>, slotOf: map<nat, int>, disk: map<string, seq<Record>>, name: string, i: nat)
    requires forall k :: 0 <= k < |posts| ==> posts[k].id in slotOf
    requires name in disk && disk[name] == Records(posts, slotOf) && i < |posts|
    ensures i < |disk[name]| &&
            disk[name][i] == Record(slotOf[posts[i].id], posts[i].level, posts[i].heading, posts[i].text)
    ensures i < |FileView(disk, name)| && FileView(disk, name)[i] == RowOf(posts[i])
  {
  }

  // ---- Text that arrives late, as readers see it ----

  lemma {:induction false} TypedConcat(x: seq<Op>, y: seq<Op>, d: nat, t: Option<string>)
    ensures Typed(x + y, d, t) == Typed(y, d, Typed(x, d, t))
  {
    if x == [] {
      assert x + y == y;
    } else {
      assert (x + y)[1..] == x[1..] + y;
      TypedConcat(x[1..], y, d, if x[0].OpEdit? && x[0].d == d then Some(x[0].t) else t);
    }
  }

  lemma TypedNothing(ops: seq<Op>, d: nat, t: Option<string>)
    requires forall i :: 0 <= i < |ops| ==> !(ops[i].OpEdit? && ops[i].d == d)
    ensures Typed(ops, d, t) == t
  {
  }

  lemma TypedLast(before: seq<Op>, t: string, after: seq<Op>, d: nat)
    requires forall i :: 0 <= i < |after| ==> !(after[i].OpEdit? && after[i].d == d)
    ensures Typed(before + [OpEdit(d, t)] + after, d, None) == Some(t)
  {
    TypedConcat(before + [OpEdit(d, t)], after, d, None);
    TypedConcat(before, [OpEdit(d, t)], d, None);
    TypedNothing(after, d, Some(t));
    var x := Typed(before, d, None);
    assert Typed([OpEdit(d, t)], d, x) == Typed([], d, Some(t));
  }

  /** A message that was begun on board `b` and finished after any operations of others is shown to whoever then reads
      it there: under its heading, with the text its author typed last. */
  lemma LateTextShown(st: BoardState, d: nat, b: nat, stamp: string, arg: string, level: int,
                      before: seq<Op>, t: string, after: seq<Op>) returns (msg: int)
    requires Inv(st) && b < |st.boards| && d !in st.editing && WriteOutcome(st, b, arg) == Started
    requires forall i :: 0 <= i < |before| ==> ByOthers(before[i], d)
    requires forall i :: 0 <= i < |after| ==> ByOthers(after[i], d) && !(after[i].OpEdit? && after[i].d == d)
    ensures var ops := before + [OpEdit(d, t)] + after;
      var st' := Step(Run(Step(st, OpWrite(d, b, stamp, arg, level)), ops), OpFinish(d));
      && b < |st'.boards| && 1 <= msg <= |st'.boards[b]| && st'.boards[b][msg - 1].id == st.nextId
      && Display(st', b, msg) == Shown(stamp + Headline(arg), if t == "" then "Nothing.\r\n" else t)
  {
    hide Headline, Total, Typed, Run, Inv, Write, Finish, IdsDistinct, WriteOutcome;
    var ops := before + [OpEdit(d, t)] + after;
    LateTextLands(st, d, b, stamp, arg, level, ops);
    TypedLast(before, t, after, d);
    var posts := Finish(Run(Write(st, d, b, stamp, arg, level), ops), d).boards;
    var i :| 0 <= i < |posts[b]| &&
      posts[b][i] == Post(st.nextId, stamp + Headline(arg), level, Some(FinalText(Typed(ops, d, None))));
    msg := i + 1;
  }
}
