/** Every line a cycle's grammar can produce parses into the operation it was produced for. */
module ReplyLines {
  import opened Outcomes
  import opened Decimal
  import opened Text
  import opened Trimming
  import opened Protocol
  import R = Records

  /** The grammar's text class: one or more characters, no bar and no line break. A reply is a C
      string, so there is no NUL in it either. */
  predicate TextClass(s: string) { s != "" && forall i | 0 <= i < |s| :: s[i] !in "|\n\r\0" }

  function SectionName(s: R.Section): string {
    match s
    case Identity => "identity"
    case Context => "context"
    case Project => "project"
  }

  function HandleText(h: nat): string { "M" + Print(h) }

  /** A line as the grammar writes it, without its newline. */
  function Body(c: Cop): string {
    match c
    case Insert(sec, text) => "INSERT " + SectionName(sec) + " | " + text
    case Update(h, text) => "UPDATE " + HandleText(h) + " | " + text
    case Deprecate(h, text) => "DEPRECATE " + HandleText(h) + " | " + text
    case Keep(h) => "KEEP " + HandleText(h)
    case Noop => "NOOP"
    case Answer(text) => "ANSWER | " + text
    case Cite(h) => "CITE " + HandleText(h)
    case Nomem => "NOMEM"
  }

  /** The operation with its text trimmed. */
  function Trimmed(c: Cop): Cop {
    match c
    case Insert(sec, text) => Insert(sec, Trim(text))
    case Update(h, text) => Update(h, Trim(text))
    case Deprecate(h, text) => Deprecate(h, Trim(text))
    case Answer(text) => Answer(Trim(text))
    case _ => c
  }

  predicate Written(c: Cop, n: nat) {
    && HandleIn(c, n)
    && (c.Insert? || c.Update? || c.Deprecate? || c.Answer? ==> TextClass(c.text))
  }

  /** What trimming leaves of a separator and the text behind it. */
  function Tail(text: string): string { if Blank(text) then " |" else " | " + TrimRight(text) }

  /** No space and no bar, at least one character, not white space at either end. */
  predicate Front(s: string) { s != "" && forall i | 0 <= i < |s| :: !IsSpace(s[i]) && s[i] != '|' }

  lemma TrimTail(front: string, text: string)
    requires Front(front)
    ensures Trim(front + " | " + text) == front + Tail(text)
  {
    var whole := front + " | " + text;
    assert whole[0] == front[0];
    TrimRightJoin(front + " | ", text);
    if Blank(text) {
      TrimRightJoin(front + " |", " ");
      assert front + " | " == front + " |" + " ";
      assert (front + " |")[|front| + 1] == '|';
    } else {
      assert front + " | " + TrimRight(text) == front + (" | " + TrimRight(text));
    }
  }

  lemma TextBack(text: string)
    ensures Trim(Tail(text)[2..]) == Trim(text)
  {
    TrimLeftBlank(text);
    TrimTrimmed(text);
    TrimFrontSpace(TrimRight(text));
    assert Blank(text) ==> Trim(text) == "" == Trim("");
    hide TrimRight, TrimLeft, Trim, Blank;
    assert !Blank(text) ==> Tail(text)[2..] == " " + TrimRight(text);
  }

  /** The separator is found behind the front, and the text comes back trimmed. */
  lemma SplitTail(front: string, text: string)
    requires Front(front) && TextClass(text)
    ensures var s := front + Tail(text);
            Sep(s) == Some(|front|) && SepIn(s) == |front| && s[..|front|] == front &&
              Trim(s[|front| + 2..]) == Trim(text)
  {
    var s := front + Tail(text);
    SepFound(s, 0);
    assert SepAt(s, |front|);
    assert forall k | 0 <= k < |front| :: s[k] == front[k];
    assert s[|front| + 2..] == Tail(text)[2..];
    TextBack(text);
  }

  /** A word, a space and something that is not blank. */
  lemma AfterWord(w: string, rest: string)
    requires rest != "" && !Blanks(rest[0])
    ensures After(w + " " + rest, w) == Some(rest)
  {
    var t := w + " " + rest;
    assert t[|w|..] == " " + rest && (" " + rest)[1..] == rest;
    assert SkipBlanks(" " + rest) == SkipBlanks(rest);
  }

  lemma NotAfter(t: string, w: string)
    requires t != "" && w != "" && t[0] != w[0]
    ensures After(t, w) == None
  {}

  lemma HandleFront(h: nat)
    ensures Front(HandleText(h)) && Trim(HandleText(h)) == HandleText(h)
  {
    assert forall i | 0 < i < |HandleText(h)| :: IsDigit(HandleText(h)[i]) by {
      assert forall i | 0 < i < |HandleText(h)| :: HandleText(h)[i] == Print(h)[i - 1];
    }
  }

  lemma HandleBack(h: nat, n: nat)
    requires 1 <= h
    ensures Token(HandleText(h)) == HandleText(h)
    ensures Handle(HandleText(h), n) == if h <= n && h <= HANDLE_MAX then Some(h) else None
  {
    HandleFront(h);
    WholeToken(HandleText(h));
    ValueOfPrint(h);
    assert HandleText(h)[1..] == Print(h);
  }

  lemma {:induction false} WholeToken(s: string)
    requires forall i | 0 <= i < |s| :: !IsSpace(s[i])
    ensures Token(s) == s
  {
    if s != "" { WholeToken(s[1..]); }
  }

  lemma InsertLine(sec: R.Section, text: string, n: nat)
    requires TextClass(text)
    ensures LineOp(Trim("INSERT " + SectionName(sec) + " | " + text), n) == Some(Insert(sec, Trim(text)))
  {
    hide Trim, Sep, SepAt, TextClass, Blank, SectionName, SectionOf, Tail;
    var front := SectionName(sec);
    SectionFront(sec);
    TrimWord("INSERT", front, text);
    SplitTail(front, text);
    AfterWord("INSERT", front + Tail(text));
    assert ("INSERT" + " " + (front + Tail(text)))[0] == 'I';
    assert "INSERT " + front + " | " + text == "INSERT" + " " + front + " | " + text;
  }

  lemma SectionFront(sec: R.Section)
    ensures Front(SectionName(sec)) && Trim(SectionName(sec)) == SectionName(sec) &&
      SectionOf(SectionName(sec)) == Some(sec)
  {}

  /** Trimming a whole line leaves the word in front alone. */
  lemma TrimWord(w: string, front: string, text: string)
    requires Front(w) && Front(front)
    ensures Trim(w + " " + front + " | " + text) == w + " " + (front + Tail(text))
  {
    hide TrimRight, Tail;
    var whole := w + " " + front + " | " + text;
    assert whole[0] == w[0];
    TrimTail(front, text);
    assert (front + " | " + text)[0] == front[0];
    TrimRightJoin(w + " ", front + " | " + text);
    assert whole == w + " " + (front + " | " + text);
    assert !Blank(front + " | " + text);
  }

  lemma ChangedTail(h: nat, text: string, n: nat, update: bool)
    requires TextClass(text) && 1 <= h
    ensures Changed(HandleText(h) + Tail(text), n, update) ==
              if h <= n && h <= HANDLE_MAX then Some(if update then Update(h, Trim(text)) else Deprecate(h, Trim(text)))
              else None
  {
    hide Trim, Sep, SepAt, TextClass, Blank, Handle;
    HandleFront(h);
    SplitTail(HandleText(h), text);
    HandleBack(h, n);
  }

  lemma ChangeLine(h: nat, text: string, n: nat, update: bool)
    requires TextClass(text) && 1 <= h
    ensures var c := if update then Update(h, text) else Deprecate(h, text);
            LineOp(Trim(Body(c)), n) == if h <= n && h <= HANDLE_MAX then Some(Trimmed(c)) else None
  {
    hide Trim, Sep, SepAt, TextClass, Blank, Handle, Changed, HandleText, Tail, After;
    var w, front := if update then "UPDATE" else "DEPRECATE", HandleText(h);
    HandleFront(h);
    TrimWord(w, front, text);
    AfterWord(w, front + Tail(text));
    ChangedTail(h, text, n, update);
    var t := w + " " + (front + Tail(text));
    assert t[0] == w[0];
    NotAfter(t, "INSERT");
    if !update { NotAfter(t, "UPDATE"); }
    assert w + " " + front + " | " + text == (if update then "UPDATE " else "DEPRECATE ") + front + " | " + text;
  }

  lemma MarkLine(h: nat, n: nat, keep: bool)
    requires 1 <= h
    ensures var c := if keep then Keep(h) else Cite(h);
            LineOp(Trim(Body(c)), n) == (if h <= n && h <= HANDLE_MAX then Some(c) else None) &&
              Trim(Body(c)) == Body(c)
  {
    hide Trim, Sep, SepAt, Handle, HandleText, After, Token;
    var w, front := if keep then "KEEP" else "CITE", HandleText(h);
    var t := w + " " + front;
    HandleFront(h);
    HandleBack(h, n);
    AfterWord(w, front);
    TrimMark(w, front);
    assert t[0] == w[0];
    NotAfter(t, "INSERT");
    NotAfter(t, "UPDATE");
    NotAfter(t, "DEPRECATE");
    if !keep { NotAfter(t, "KEEP"); }
    assert t == (if keep then "KEEP " else "CITE ") + front;
  }

  lemma TrimMark(w: string, front: string)
    requires Front(w) && Front(front)
    ensures Trim(w + " " + front) == w + " " + front
  {
    var t := w + " " + front;
    assert t[0] == w[0] && t[|t| - 1] == front[|front| - 1];
  }

  lemma AnswerLine(text: string, n: nat)
    requires TextClass(text)
    ensures LineOp(Trim("ANSWER | " + text), n) == Some(Answer(Trim(text)))
  {
    hide Trim, Tail, TextClass, LineOp, Blank;
    TextBack(text);
    TailShape(text);
    TrimTail("ANSWER", text);
    assert "ANSWER" + " | " + text == "ANSWER | " + text;
    AnswerRead("ANSWER" + Tail(text), Tail(text)[1..], n);
    assert Tail(text)[1..][1..] == Tail(text)[2..];
  }

  lemma AnswerRead(t: string, rest: string, n: nat)
    requires t == "ANSWER" + " " + rest && rest != "" && rest[0] == '|'
    ensures LineOp(t, n) == Some(Answer(Trim(rest[1..])))
  {
    hide Sep, SepAt, Trim, Handle, Token;
    AfterWord("ANSWER", rest);
    NotAfter(t, "INSERT");
    NotAfter(t, "UPDATE");
    NotAfter(t, "DEPRECATE");
    NotAfter(t, "KEEP");
    NotAfter(t, "CITE");
  }

  lemma TailShape(text: string)
    ensures |Tail(text)| >= 2 && Tail(text)[1..] != "" && Tail(text)[1] == '|'
    ensures "ANSWER" + Tail(text) == "ANSWER" + " " + Tail(text)[1..]
  {
    hide Blank;
    assert Tail(text) == " " + Tail(text)[1..];
  }

  /** Every written line means its operation exactly when its handle is within a million. */
  lemma WrittenLine(c: Cop, n: nat)
    requires Written(c, n)
    ensures Trim(Body(c)) != ""
    ensures LineOp(Trim(Body(c)), n) == if HandleIn(c, HANDLE_MAX) then Some(Trimmed(c)) else None
    ensures OneLine(Body(c))
  {
    hide LineOp, Trim, Print, TextClass;
    BodyShape(c, n);
    BodyLine(c);
    match c
    case Insert(sec, text) => InsertLine(sec, text, n);
    case Update(h, text) => ChangeLine(h, text, n, true);
    case Deprecate(h, text) => ChangeLine(h, text, n, false);
    case Keep(h) => MarkLine(h, n, true);
    case Cite(h) => MarkLine(h, n, false);
    case Answer(text) => AnswerLine(text, n);
    case Noop => PlainLine(n);
    case Nomem => PlainLine(n);
  }

  lemma PlainLine(n: nat)
    ensures LineOp(Trim("NOOP"), n) == Some(Noop) && LineOp(Trim("NOMEM"), n) == Some(Nomem)
  {}

  lemma BodyShape(c: Cop, n: nat)
    requires Written(c, n)
    ensures Trim(Body(c)) != ""
  {
    assert Body(c) != "" && !IsSpace(Body(c)[0]);
    TrimRightBlank(Body(c));
    assert !Blank(Body(c));
  }

  predicate OneLine(s: string) { forall i | 0 <= i < |s| :: s[i] != '\n' }

  lemma OneLineJoin(a: string, b: string)
    requires OneLine(a) && OneLine(b)
    ensures OneLine(a + b)
  {}

  lemma BodyLine(c: Cop)
    requires c.Insert? || c.Update? || c.Deprecate? || c.Answer? ==> TextClass(c.text)
    ensures OneLine(Body(c))
  {
    hide Print, HandleText, OneLine, TextClass;
    match c
    case Insert(section, text) => SectionLine(section); TextLine("INSERT " + SectionName(section), text);
    case Update(h, text) => HandleLine("UPDATE ", h); TextLine("UPDATE " + HandleText(h), text);
    case Deprecate(h, text) => HandleLine("DEPRECATE ", h); TextLine("DEPRECATE " + HandleText(h), text);
    case Answer(text) => WordLines(); TextLine("ANSWER", text); assert Body(c) == "ANSWER" + " | " + text;
    case Keep(h) => HandleLine("KEEP ", h);
    case Cite(h) => HandleLine("CITE ", h);
    case Noop => WordLines();
    case Nomem => WordLines();
  }

  lemma WordLines()
    ensures OneLine("ANSWER") && OneLine("NOOP") && OneLine("NOMEM")
  {}

  lemma SectionLine(section: R.Section)
    ensures OneLine("INSERT " + SectionName(section))
  {}

  lemma TextLine(front: string, text: string)
    requires OneLine(front) && TextClass(text)
    ensures OneLine(front + " | " + text)
  {
    OneLineJoin(front, " | ");
    OneLineJoin(front + " | ", text);
  }

  lemma HandleLine(word: string, h: nat)
    requires word in {"UPDATE ", "DEPRECATE ", "KEEP ", "CITE "}
    ensures OneLine(word + HandleText(h))
  {
    hide HandleText;
    HandleFront(h);
    OneLineJoin(word, HandleText(h));
  }
}
