/** A player's alias file, character by character: lengths, texts and types, each ended by a newline. */
module AliasFile {
  import opened CText
  import opened Numerals
  import opened Scanning
  import opened Sequences

  datatype Alias = Alias(alias: string, replacement: string, kind: int)

  // ---- Writing ----

  /** What fprintf writes for one alias. The first character of the replacement is not written. */
  function Entry(a: Alias): string
    requires a.replacement != ""
  {
    IntegerText(|a.alias|) + ("\n" + (a.alias + ("\n" + (IntegerText(|a.replacement| - 1) + ("\n" + (a.replacement[1..]
    + ("\n" + (IntegerText(a.kind) + "\n"))))))))
  }

  function Contents(list: seq<Alias>): string
    requires forall i :: 0 <= i < |list| ==> list[i].replacement != ""
  {
    if list == [] then "" else Entry(list[0]) + Contents(list[1..])
  }

  lemma ContentsSnoc(list: seq<Alias>, a: Alias)
    requires a.replacement != "" && forall i :: 0 <= i < |list| ==> list[i].replacement != ""
    ensures Contents(list + [a]) == Contents(list) + Entry(a)
  {
    hide Entry;
    var all := list + [a];
    if list == [] {
      assert all == [a] && all[1..] == [];
      assert Contents(all[1..]) == "";
    } else {
      assert all[1..] == list[1..] + [a] && all[0] == list[0];
      ContentsSnoc(list[1..], a);
      Regroup(Entry(list[0]), Contents(list[1..]), Entry(a));
    }
  }

  /** An alias file, as it is written. */
  lemma WrittenSample()
    ensures Contents([Alias("n", " no", 1)]) == "1\nn\n2\nno\n1\n"
  {
    var a := Alias("n", " no", 1);
    EntrySample(a);
    hide Entry;
    assert [a][1..] == [] && Entry(a) + "" == Entry(a);
    assert Contents([a]) == Entry(a) + Contents([]);
  }

  lemma EntrySample(a: Alias)
    requires a == Alias("n", " no", 1)
    ensures Entry(a) == "1\nn\n2\nno\n1\n"
  {
    assert a.replacement[1..] == "no";
    assert IntegerText(1) == "1" && IntegerText(2) == "2";
    hide IntegerText;
    var t := "no" + ("\n" + ("1" + "\n"));
    assert t == "no\n1\n";
    var u := "n" + ("\n" + ("2" + ("\n" + t)));
    assert u == "n\n2\n" + t == "n\n2\nno\n1\n";
  }

  /** write_aliases: no file for an empty list. */
  method WriteAliases(list: seq<Alias>) returns (file: Option<string>)
    requires forall i :: 0 <= i < |list| ==> list[i].replacement != ""
    ensures file == if list == [] then None else Some(Contents(list))
  {
    hide Entry;
    if list == [] {
      return None;
    }
    var text := "";
    var i := 0;
    while i < |list|
      invariant i <= |list| && text == Contents(list[..i])
    {
      ContentsSnoc(list[..i], list[i]);
      assert list[..i + 1] == list[..i] + [list[i]];
      text := text + Entry(list[i]);
      i := i + 1;
    }
    assert list[..i] == list;
    return Some(text);
  }

  // ---- Reading ----

  /** fscanf with "%d\n": a number, then all white space. None if there is no number. */
  function ScanLine(s: string): (r: Option<(int, string)>)
    ensures r.Some? ==> |r.value.1| < |s|
  {
    match ScanInt(s)
    case NoNumber => None
    case Scanned(n, rest) => Some((n, SkipSpaces(rest)))
  }

  predicate NotNewline(c: char) { c != '\n' }

  /** How many characters fgets takes for a buffer of `n` + 1: up to and including a newline. */
  function Taken(s: string, n: nat): (k: nat)
    ensures k <= n && k <= |s|
  {
    var line := Span(s, NotNewline);
    Min(n, if line < |s| then line + 1 else line)
  }

  /** fgets for `n` characters; None when it reports failure and leaves the buffer as it was. */
  function GetText(s: string, n: int): (r: Option<(string, string)>)
    ensures r.Some? ==> |r.value.1| <= |s|
  {
    if n < 0 || (n > 0 && s == "") then None
    else var k := Taken(s, n); Some((s[..k], s[k..]))
  }

  /** A length line and the text it announces. */
  function ReadText(s: string): (r: Option<(string, string)>)
    ensures r.Some? ==> |r.value.1| < |s|
  {
    var line := ScanLine(s);
    if line == None then None else GetText(line.value.1, line.value.0)
  }

  /** One turn of the reading loop. */
  function ReadOne(s: string): (r: Option<(Alias, string)>)
    ensures r.Some? ==> |r.value.1| < |s|
  {
    var a := ReadText(s);
    if a == None then None
    else
      var b := ReadText(a.value.1);
      if b == None then None
      else
        var c := ScanLine(b.value.1);
        if c == None then None
        else Some((Alias(a.value.0, " " + b.value.0, c.value.0), c.value.1))
  }

  /** The list that the file determines; None when a scan fails and the result depends on stale memory. */
  function ReadAll(s: string): Option<seq<Alias>>
    decreases |s|
  {
    var one := ReadOne(s);
    if one == None then None
    else if one.value.1 == "" then Some([one.value.0])
    else
      var rest := ReadAll(one.value.1);
      if rest == None then None else Some([one.value.0] + rest.value)
  }

  /** read_aliases: the loop ends when the scan for the type has met the end of the file. */
  method ReadAliases(file: Option<string>) returns (list: Option<seq<Alias>>)
    ensures list == if file == None then Some([]) else ReadAll(file.value)
  {
    hide ReadOne;
    if file == None {
      return Some([]);
    }
    var s := file.value;
    var sofar: seq<Alias> := [];
    ghost var whole := ReadAll(s);
    assert whole.Some? ==> [] + whole.value == whole.value;
    while true
      invariant whole == if ReadAll(s) == None then None else Some(sofar + ReadAll(s).value)
      decreases |s|
    {
      var one := ReadOne(s);
      if one == None {
        return None;
      }
      if one.value.1 != "" && ReadAll(one.value.1).Some? {
        assert sofar + ([one.value.0] + ReadAll(one.value.1).value) ==
            (sofar + [one.value.0]) + ReadAll(one.value.1).value;
      }
      sofar := sofar + [one.value.0];
      s := one.value.1;
      if s == "" {
        return Some(sofar);
      }
    }
  }

  // ---- Round trip ----

  /** Texts that survive: no white space in front, and no newline before the last character. */
  predicate TextOk(t: string) {
    (t == "" || !IsSpace(t[0])) && forall i :: 0 <= i < |t| - 1 ==> t[i] != '\n'
  }

  predicate AliasOk(a: Alias)
    requires a.replacement != ""
  {
    TextOk(a.alias) && a.replacement[0] == ' ' && TextOk(a.replacement[1..])
  }

  /** A text line: its length, a newline, the text, a newline. */
  function TextLine(t: string, rest: string): string {
    IntegerText(|t|) + ("\n" + (t + ("\n" + rest)))
  }

  /** Reading back a text that survives. White space may precede it, and a visible character follows. */
  lemma ReadTextBack(ws: string, t: string, rest: string)
    requires forall i :: 0 <= i < |ws| ==> IsSpace(ws[i])
    requires TextOk(t) && rest != "" && !IsSpace(rest[0])
    ensures ReadText(ws + TextLine(t, rest)) == Some((t, if t == "" then rest else "\n" + rest))
  {
    hide Span, SkipSpaces, IntegerText, ScanInt;
    var tail := t + ("\n" + rest);
    ScanIntegerText(ws, |t|, "\n" + tail);
    if t == "" {
      assert "\n" + tail == "\n\n" + rest;
      SkipSpacesIs("\n\n", rest);
    } else {
      SkipSpacesIs("\n", tail);
      TakenWhole(t, "\n" + rest);
    }
  }

  lemma TakenWhole(t: string, rest: string)
    requires TextOk(t) && rest != ""
    ensures Taken(t + rest, |t|) == |t| && (t + rest)[..|t|] == t && (t + rest)[|t|..] == rest
  {
    assert forall i :: 0 <= i < |t| - 1 ==> (t + rest)[i] != '\n';
  }

  /** A text that does not survive is read as something else. */
  lemma ReadTextWrong(ws: string, t: string, rest: string)
    requires forall i :: 0 <= i < |ws| ==> IsSpace(ws[i])
    requires !TextOk(t) && rest != "" && !IsSpace(rest[0])
    ensures var r := ReadText(ws + TextLine(t, rest)); r.Some? && r.value.0 != t
  {
    hide Span, IntegerText, ScanInt, SkipSpaces;
    var tail := t + ("\n" + rest);
    ScanIntegerText(ws, |t|, "\n" + tail);
    var s := SkipSpaces("\n" + tail);
    if IsSpace(t[0]) {
      SkipLeaves("\n" + tail);
      SomethingLeft("\n" + tail, |t| + 2);
    } else {
      SkipSpacesIs("\n", tail);
      var i :| 0 <= i < |t| - 1 && t[i] == '\n';
      TakenLess(tail, |t|, i);
    }
  }

  lemma SomethingLeft(s: string, i: nat)
    requires i < |s| && !IsSpace(s[i])
    ensures SkipSpaces(s) != ""
  {
  }

  lemma SkipLeaves(s: string)
    ensures SkipSpaces(s) != "" ==> !IsSpace(SkipSpaces(s)[0])
  {
  }

  lemma TakenLess(s: string, n: nat, i: nat)
    requires i < |s| && s[i] == '\n'
    ensures Taken(s, n) <= i + 1
  {
  }

  /** Both lines of text of an entry, and what follows. */
  function EntryLines(a: Alias, rest: string): string
    requires a.replacement != ""
  {
    TextLine(a.alias, TextLine(a.replacement[1..], IntegerText(a.kind) + ("\n" + rest)))
  }

  lemma EntryIsLines(a: Alias, rest: string)
    requires a.replacement != ""
    ensures Entry(a) + rest == EntryLines(a, rest)
  {
    hide IntegerText;
    var n, m, k := IntegerText(|a.alias|), IntegerText(|a.replacement| - 1), IntegerText(a.kind);
    var r := a.replacement[1..];
    assert |r| == |a.replacement| - 1;
    Regroup(k, "\n", rest);
    Regroup("\n", k + "\n", rest);
    Regroup(r, "\n" + (k + "\n"), rest);
    Regroup("\n", r + ("\n" + (k + "\n")), rest);
    Regroup(m, "\n" + (r + ("\n" + (k + "\n"))), rest);
    Regroup("\n", m + ("\n" + (r + ("\n" + (k + "\n")))), rest);
    Regroup(a.alias, "\n" + (m + ("\n" + (r + ("\n" + (k + "\n"))))), rest);
    Regroup("\n", a.alias + ("\n" + (m + ("\n" + (r + ("\n" + (k + "\n")))))), rest);
    Regroup(n, "\n" + (a.alias + ("\n" + (m + ("\n" + (r + ("\n" + (k + "\n"))))))), rest);
  }

  lemma NumberVisible(n: int, rest: string)
    ensures IntegerText(n) + rest != "" && !IsSpace((IntegerText(n) + rest)[0])
  {
    NumeralChars(if n < 0 then -n else n, 10, false);
    var d := Numeral(if n < 0 then -n else n, 10, false)[0];
    assert IsDigit(d) && !IsSpace(d);
  }

  /** What follows an entry: the end of the file or a visible character. */
  predicate Follows(rest: string) { rest == "" || !IsSpace(rest[0]) }

  lemma ReadTypeBack(ws: string, n: int, rest: string)
    requires (forall i :: 0 <= i < |ws| ==> IsSpace(ws[i])) && Follows(rest)
    ensures ScanLine(ws + (IntegerText(n) + ("\n" + rest))) == Some((n, rest))
  {
    hide IntegerText, ScanInt, SkipSpaces;
    ScanIntegerText(ws, n, "\n" + rest);
    SkipSpacesIs("\n", rest);
  }

  /** Scans that succeed bring another alias or another replacement than `a` has. */
  predicate StoredWrong(s: string, a: Alias) {
    var one := ReadText(s);
    one.Some? && (one.value.0 != a.alias ||
                  var two := ReadText(one.value.1); two.Some? && " " + two.value.0 != a.replacement)
  }

  /** An entry is read back as its alias exactly when its texts survive and the replacement starts with a space; when
      they do not, a wrong text is stored before any scan fails. */
  lemma ReadOneIff(a: Alias, rest: string)
    requires a.replacement != "" && Follows(rest)
    ensures AliasOk(a) ==> ReadOne(Entry(a) + rest) == Some((a, rest))
    ensures !AliasOk(a) ==> StoredWrong(Entry(a) + rest, a)
    ensures !AliasOk(a) ==> var r := ReadOne(Entry(a) + rest); r == None || r.value.0 != a
  {
    hide IntegerText, ReadText, ScanLine, TextOk, Entry, TextLine, Follows;
    var r := a.replacement[1..];
    var last := IntegerText(a.kind) + ("\n" + rest);
    var second := TextLine(r, last);
    EntryIsLines(a, rest);
    NumberVisible(a.kind, "\n" + rest);
    LineVisible(r, last);
    assert Entry(a) + rest == "" + TextLine(a.alias, second);
    if !TextOk(a.alias) {
      ReadTextWrong("", a.alias, second);
    } else {
      ReadTextBack("", a.alias, second);
      var ws := if a.alias == "" then "" else "\n";
      assert (if a.alias == "" then second else "\n" + second) == ws + second;
      if !TextOk(r) {
        ReadTextWrong(ws, r, last);
        assert a.replacement == [a.replacement[0]] + r;
      } else {
        ReadTextBack(ws, r, last);
        var ws2 := if r == "" then "" else "\n";
        assert (if r == "" then last else "\n" + last) == ws2 + last;
        ReadTypeBack(ws2, a.kind, rest);
        assert a.replacement == [a.replacement[0]] + r;
      }
    }
  }

  lemma LineVisible(t: string, rest: string)
    ensures TextLine(t, rest) != "" && !IsSpace(TextLine(t, rest)[0])
  {
    NumberVisible(|t|, "\n" + (t + ("\n" + rest)));
  }

  lemma ContentsFollow(list: seq<Alias>)
    requires forall i :: 0 <= i < |list| ==> list[i].replacement != ""
    ensures Follows(Contents(list)) && (list != [] ==> Contents(list) != "")
  {
    if list != [] {
      hide IntegerText;
      var a := list[0];
      EntryIsLines(a, Contents(list[1..]));
      LineVisible(a.alias, TextLine(a.replacement[1..], IntegerText(a.kind) + ("\n" + Contents(list[1..]))));
    }
  }

  /** Reading a written alias file restores the list exactly when every alias survives. */
  lemma {:induction false} RoundTripIff(list: seq<Alias>)
    requires list != [] && forall i :: 0 <= i < |list| ==> list[i].replacement != ""
    ensures ReadAll(Contents(list)) == Some(list) <==> forall i :: 0 <= i < |list| ==> AliasOk(list[i])
  {
    hide ReadOne, Entry, AliasOk, Follows, StoredWrong;
    var a, rest := list[0], list[1..];
    ContentsFollow(rest);
    ReadOneIff(a, Contents(rest));
    assert list == [a] + rest;
    if rest == [] {
      assert Contents(rest) == "";
    } else {
      RoundTripIff(rest);
    }
    assert forall i :: 0 <= i < |rest| ==> rest[i] == list[i + 1];
    if AliasOk(a) {
      assert (forall i :: 0 <= i < |list| ==> AliasOk(list[i])) <==> forall i :: 0 <= i < |rest| ==> AliasOk(rest[i]);
      var tail := if rest == [] then Some([]) else ReadAll(Contents(rest));
      assert [a] + [] == [a];
      if tail.Some? {
        assert ReadAll(Contents(list)) == Some([a] + tail.value);
        assert ([a] + tail.value)[1..] == tail.value && ([a] + rest)[1..] == rest;
      }
    } else {
      var r := ReadAll(Contents(list));
      assert r.Some? ==> r.value[0] != a;
    }
  }

  /** The aliases of the first `k` turns of the reading loop, and what is left to read. */
  function Turns(s: string, k: nat): Option<(seq<Alias>, string)>
    decreases k
  {
    if k == 0 then Some(([], s))
    else
      match ReadOne(s)
      case None => None
      case Some((a, left)) =>
        match Turns(left, k - 1)
        case None => None
        case Some((more, last)) => Some(([a] + more, last))
  }

  /** When some alias does not survive, the loop restores those before the first such one and then stores a wrong text:
      this does not depend on what a failing scan leaves behind. */
  lemma {:induction false} FirstWrong(list: seq<Alias>) returns (k: nat)
    requires forall i :: 0 <= i < |list| ==> list[i].replacement != ""
    requires exists i :: 0 <= i < |list| && !AliasOk(list[i])
    ensures k < |list| && !AliasOk(list[k])
    ensures Turns(Contents(list), k) == Some((list[..k], Contents(list[k..])))
    ensures StoredWrong(Contents(list[k..]), list[k])
  {
    hide ReadOne, Entry, AliasOk, Follows, StoredWrong;
    var a, rest := list[0], list[1..];
    ContentsFollow(rest);
    ReadOneIff(a, Contents(rest));
    if AliasOk(a) {
      var i :| 0 <= i < |list| && !AliasOk(list[i]);
      assert rest[i - 1] == list[i];
      var j := FirstWrong(rest);
      k := j + 1;
      assert list[k..] == rest[j..] && list[..k] == [a] + rest[..j];
    } else {
      k := 0;
      assert list[0..] == list;
    }
  }

  /** A replacement with two spaces in front is not restored. */
  lemma TwoSpacesLost()
    ensures ReadAll(Contents([Alias("x", "  y", 0)])) != Some([Alias("x", "  y", 0)])
  {
    hide ReadAll, Contents;
    var list := [Alias("x", "  y", 0)];
    assert !TextOk(list[0].replacement[1..]);
    RoundTripIff(list);
  }
}
