/** The grammars a cycle is generated under (src/grammar.c:74-168) and the parser that reads
    what was generated: the two agree exactly while handles stay within a million. */
module CuratorGrammar {
  import opened Decimal
  import opened Trimming
  import opened Protocol
  import opened ReplyLines
  import R = Records

  /** GBNF expressions with their rules inlined. */
  datatype Expr = Lit(s: string) | Class | Cat(a: Expr, b: Expr) | Alt(a: Expr, b: Expr) | Many(e: Expr)

  ghost predicate Derives(e: Expr, s: string)
    decreases e, |s|
  {
    match e
    case Lit(t) => s == t
    case Class => TextClass(s)
    case Cat(a, b) => exists k :: 0 <= k <= |s| && Derives(a, s[..k]) && Derives(b, s[k..])
    case Alt(a, b) => Derives(a, s) || Derives(b, s)
    case Many(x) => s == "" || exists k :: 0 < k <= |s| && Derives(x, s[..k]) && Derives(e, s[k..])
  }

  datatype Kind = Curation | Review | Recall

  // ----- `asper_gbnf_build` -----

  function HandleRule(n: nat): Expr
    requires n > 0
  {
    if n == 1 then Lit(HandleText(1)) else Alt(HandleRule(n - 1), Lit(HandleText(n)))
  }

  function Then(w: string, rest: Expr): Expr { Cat(Lit(w), rest) }
  function Ended(e: Expr): Expr { Cat(e, Lit("\n")) }

  const SECTIONS := Alt(Lit("identity"), Alt(Lit("context"), Lit("project")))
  const BAR_TEXT := Cat(Lit(" | "), Ended(Class))
  const INSERT := Then("INSERT ", Cat(SECTIONS, BAR_TEXT))
  const NOOP := Ended(Lit("NOOP"))
  const NOMEM := Ended(Lit("NOMEM"))
  const ANSWER := Then("ANSWER | ", Ended(Class))

  function Change(w: string, n: nat): Expr
    requires n > 0
  {
    Then(w, Cat(HandleRule(n), BAR_TEXT))
  }

  function Mark(w: string, n: nat): Expr
    requires n > 0
  {
    Then(w, Ended(HandleRule(n)))
  }

  function OpLine(n: nat): Expr {
    if n > 0 then Alt(INSERT, Alt(Change("UPDATE ", n), Change("DEPRECATE ", n))) else INSERT
  }

  function ReviewLine(n: nat): Expr
    requires n > 0
  {
    Alt(Change("DEPRECATE ", n), Mark("KEEP ", n))
  }

  function Plus(e: Expr): Expr { Cat(e, Many(e)) }

  function Build(kind: Kind, n: nat): Expr {
    match kind
    case Curation => Alt(NOOP, Plus(OpLine(n)))
    case Review => if n == 0 then NOOP else Alt(NOOP, Plus(ReviewLine(n)))
    case Recall => if n == 0 then Alt(NOMEM, ANSWER) else Alt(NOMEM, Cat(ANSWER, Many(Mark("CITE ", n))))
  }

  // ----- What the grammar is for -----

  /** The lines each grammar lets through. */
  predicate Allowed(kind: Kind, c: Cop) {
    match kind
    case Curation => c.Insert? || c.Update? || c.Deprecate?
    case Review => c.Deprecate? || c.Keep?
    case Recall => c.Cite?
  }

  ghost predicate Document(kind: Kind, n: nat, doc: seq<Cop>) {
    && doc != [] && (forall c | c in doc :: Written(c, n))
    && (kind == Recall ==> doc == [Nomem] || (doc[0].Answer? && forall i | 1 <= i < |doc| :: doc[i].Cite?))
    && (kind != Recall ==> doc == [Noop] || forall c | c in doc :: Allowed(kind, c))
  }

  function Yield(doc: seq<Cop>): string {
    if doc == [] then "" else Body(doc[0]) + "\n" + Yield(doc[1..])
  }

  function TrimmedAll(doc: seq<Cop>): seq<Cop> {
    if doc == [] then [] else [Trimmed(doc[0])] + TrimmedAll(doc[1..])
  }

  // ----- Derivations are documents -----

  lemma {:induction false} HandleDerives(n: nat, s: string)
    requires n > 0
    ensures Derives(HandleRule(n), s) <==> exists h :: 1 <= h <= n && s == HandleText(h)
  {
    if n > 1 { HandleDerives(n - 1, s); }
  }

  lemma CatMake(a: Expr, b: Expr, x: string, y: string)
    requires Derives(a, x) && Derives(b, y)
    ensures Derives(Cat(a, b), x + y)
  {
    assert (x + y)[..|x|] == x && (x + y)[|x|..] == y;
  }

  lemma CatSplit(a: Expr, b: Expr, s: string) returns (x: string, y: string)
    requires Derives(Cat(a, b), s)
    ensures s == x + y && Derives(a, x) && Derives(b, y)
  {
    var k :| 0 <= k <= |s| && Derives(a, s[..k]) && Derives(b, s[k..]);
    x, y := s[..k], s[k..];
  }

  lemma BarTextOut(s: string) returns (text: string)
    requires Derives(BAR_TEXT, s)
    ensures TextClass(text) && s == " | " + text + "\n"
  {
    var bar, rest := CatSplit(Lit(" | "), Ended(Class), s);
    var t, nl := CatSplit(Class, Lit("\n"), rest);
    text := t;
    assert s == " | " + (text + "\n");
  }

  lemma BarTextIn(text: string)
    requires TextClass(text)
    ensures Derives(BAR_TEXT, " | " + text + "\n")
  {
    CatMake(Class, Lit("\n"), text, "\n");
    CatMake(Lit(" | "), Ended(Class), " | ", text + "\n");
    assert " | " + (text + "\n") == " | " + text + "\n";
  }

  lemma Assoc(w: string, name: string, text: string)
    ensures w + (name + (" | " + text + "\n")) == w + name + " | " + text + "\n"
  {}

  lemma SectionOut(name: string) returns (sec: R.Section)
    requires Derives(SECTIONS, name)
    ensures name == SectionName(sec)
  {
    assert name == "identity" || Derives(Alt(Lit("context"), Lit("project")), name);
    assert name == "identity" || name == "context" || name == "project";
    sec := if name == "identity" then R.Identity else if name == "context" then R.Context else R.Project;
  }

  lemma SectionIn(sec: R.Section)
    ensures Derives(SECTIONS, SectionName(sec))
  {
    assert Derives(Alt(Lit("context"), Lit("project")), SectionName(sec)) || sec == R.Identity;
  }

  lemma LitIs(w: string, s: string)
    ensures Derives(Lit(w), s) <==> s == w
  {}

  lemma InsertOut(s: string) returns (c: Cop)
    requires Derives(INSERT, s)
    ensures c.Insert? && TextClass(c.text) && s == Body(c) + "\n"
  {
    hide Derives, TextClass, SectionName;
    var w, rest := CatSplit(Lit("INSERT "), Cat(SECTIONS, BAR_TEXT), s);
    LitIs("INSERT ", w);
    var name, tail := CatSplit(SECTIONS, BAR_TEXT, rest);
    var sec := SectionOut(name);
    var text := BarTextOut(tail);
    Assoc(w, name, text);
    c := Insert(sec, text);
  }

  lemma InsertIn(c: Cop)
    requires c.Insert? && TextClass(c.text)
    ensures Derives(INSERT, Body(c) + "\n")
  {
    hide Derives, TextClass, SectionName;
    var name := SectionName(c.section);
    BarTextIn(c.text);
    SectionIn(c.section);
    LitIs("INSERT ", "INSERT ");
    CatMake(SECTIONS, BAR_TEXT, name, " | " + c.text + "\n");
    CatMake(Lit("INSERT "), Cat(SECTIONS, BAR_TEXT), "INSERT ", name + (" | " + c.text + "\n"));
    Assoc("INSERT ", name, c.text);
  }

  function ChangeWord(update: bool): string { if update then "UPDATE " else "DEPRECATE " }
  function ChangeOp(update: bool, h: nat, text: string): Cop { if update then Update(h, text) else Deprecate(h, text) }

  lemma ChangeOut(update: bool, n: nat, s: string) returns (h: nat, text: string)
    requires n > 0 && Derives(Change(ChangeWord(update), n), s)
    ensures 1 <= h <= n && TextClass(text) && s == Body(ChangeOp(update, h, text)) + "\n"
  {
    hide Derives, HandleText, HandleRule, TextClass;
    var w, rest := CatSplit(Lit(ChangeWord(update)), Cat(HandleRule(n), BAR_TEXT), s);
    LitIs(ChangeWord(update), w);
    var name, tail := CatSplit(HandleRule(n), BAR_TEXT, rest);
    HandleDerives(n, name);
    h :| 1 <= h <= n && name == HandleText(h);
    text := BarTextOut(tail);
    Assoc(w, name, text);
  }

  lemma ChangeIn(update: bool, n: nat, h: nat, text: string)
    requires 1 <= h <= n && TextClass(text)
    ensures Derives(Change(ChangeWord(update), n), Body(ChangeOp(update, h, text)) + "\n")
  {
    hide Derives, HandleText, HandleRule, TextClass;
    var w, name := ChangeWord(update), HandleText(h);
    HandleDerives(n, name);
    BarTextIn(text);
    LitIs(w, w);
    CatMake(HandleRule(n), BAR_TEXT, name, " | " + text + "\n");
    CatMake(Lit(w), Cat(HandleRule(n), BAR_TEXT), w, name + (" | " + text + "\n"));
    Assoc(w, name, text);
  }

  function MarkWord(keep: bool): string { if keep then "KEEP " else "CITE " }
  function MarkOp(keep: bool, h: nat): Cop { if keep then Keep(h) else Cite(h) }

  lemma MarkOut(keep: bool, n: nat, s: string) returns (h: nat)
    requires n > 0 && Derives(Mark(MarkWord(keep), n), s)
    ensures 1 <= h <= n && s == Body(MarkOp(keep, h)) + "\n"
  {
    hide HandleText, HandleRule;
    var w, rest := CatSplit(Lit(MarkWord(keep)), Ended(HandleRule(n)), s);
    var name, nl := CatSplit(HandleRule(n), Lit("\n"), rest);
    HandleDerives(n, name);
    h :| 1 <= h <= n && name == HandleText(h);
    assert w + (name + "\n") == w + name + "\n";
  }

  lemma MarkIn(keep: bool, n: nat, h: nat)
    requires 1 <= h <= n
    ensures Derives(Mark(MarkWord(keep), n), Body(MarkOp(keep, h)) + "\n")
  {
    hide HandleText, HandleRule;
    var w, name := MarkWord(keep), HandleText(h);
    HandleDerives(n, name);
    CatMake(HandleRule(n), Lit("\n"), name, "\n");
    CatMake(Lit(w), Ended(HandleRule(n)), w, name + "\n");
    assert w + (name + "\n") == w + name + "\n";
  }

  /** The repeated line of each grammar. */
  function LineExpr(kind: Kind, n: nat): Expr
    requires kind == Curation || n > 0
  {
    match kind
    case Curation => OpLine(n)
    case Review => ReviewLine(n)
    case Recall => Mark("CITE ", n)
  }

  lemma LineOut(kind: Kind, n: nat, s: string) returns (c: Cop)
    requires (kind == Curation || n > 0) && Derives(LineExpr(kind, n), s)
    ensures Allowed(kind, c) && Written(c, n) && s == Body(c) + "\n"
  {
    hide Change, Mark, TextClass;
    if kind == Curation && Derives(INSERT, s) {
      c := InsertOut(s);
    } else if kind == Curation && Derives(Change("UPDATE ", n), s) {
      var h, text := ChangeOut(true, n, s);
      c := Update(h, text);
    } else if kind != Recall && Derives(Change("DEPRECATE ", n), s) {
      var h, text := ChangeOut(false, n, s);
      c := Deprecate(h, text);
    } else if kind == Review {
      var h := MarkOut(true, n, s);
      c := Keep(h);
    } else {
      var h := MarkOut(false, n, s);
      c := Cite(h);
    }
  }

  lemma LineIn(kind: Kind, n: nat, c: Cop)
    requires (kind == Curation || n > 0) && Allowed(kind, c) && Written(c, n)
    ensures Derives(LineExpr(kind, n), Body(c) + "\n")
  {
    hide Change, Mark, TextClass;
    match c
    case Insert(_, _) => InsertIn(c);
    case Update(h, text) => ChangeIn(true, n, h, text);
    case Deprecate(h, text) => ChangeIn(false, n, h, text);
    case Keep(h) => MarkIn(true, n, h);
    case Cite(h) => MarkIn(false, n, h);
  }

  ghost predicate Lines(kind: Kind, n: nat, doc: seq<Cop>) { forall c | c in doc :: Allowed(kind, c) && Written(c, n) }

  lemma {:induction false} ManyOut(kind: Kind, n: nat, s: string) returns (doc: seq<Cop>)
    requires (kind == Curation || n > 0) && Derives(Many(LineExpr(kind, n)), s)
    ensures Lines(kind, n, doc) && Yield(doc) == s
    decreases |s|
  {
    hide LineExpr, Allowed, Written;
    if s == "" { return []; }
    var k :| 0 < k <= |s| && Derives(LineExpr(kind, n), s[..k]) && Derives(Many(LineExpr(kind, n)), s[k..]);
    var c := LineOut(kind, n, s[..k]);
    var rest := ManyOut(kind, n, s[k..]);
    doc := [c] + rest;
    assert doc[1..] == rest && s == s[..k] + s[k..];
  }

  lemma {:induction false} ManyIn(kind: Kind, n: nat, doc: seq<Cop>)
    requires (kind == Curation || n > 0) && Lines(kind, n, doc)
    ensures Derives(Many(LineExpr(kind, n)), Yield(doc))
  {
    hide LineExpr, Allowed, Written;
    if doc != [] {
      assert doc[0] in doc;
      LineIn(kind, n, doc[0]);
      ManyIn(kind, n, doc[1..]);
      var s, k := Yield(doc), |Body(doc[0])| + 1;
      assert s[..k] == Body(doc[0]) + "\n" && s[k..] == Yield(doc[1..]);
    }
  }

  lemma WordOut(w: string, s: string)
    ensures Derives(Ended(Lit(w)), s) <==> s == w + "\n"
  {
    if Derives(Ended(Lit(w)), s) {
      var x, y := CatSplit(Lit(w), Lit("\n"), s);
    } else if s == w + "\n" {
      CatMake(Lit(w), Lit("\n"), w, "\n");
    }
  }

  lemma AnswerOut(s: string) returns (c: Cop)
    requires Derives(ANSWER, s)
    ensures c.Answer? && TextClass(c.text) && s == Body(c) + "\n"
  {
    var w, rest := CatSplit(Lit("ANSWER | "), Ended(Class), s);
    var text, nl := CatSplit(Class, Lit("\n"), rest);
    c := Answer(text);
    assert "ANSWER | " + (text + "\n") == "ANSWER | " + text + "\n";
  }

  lemma AnswerIn(c: Cop)
    requires c.Answer? && TextClass(c.text)
    ensures Derives(ANSWER, Body(c) + "\n")
  {
    CatMake(Class, Lit("\n"), c.text, "\n");
    CatMake(Lit("ANSWER | "), Ended(Class), "ANSWER | ", c.text + "\n");
    assert "ANSWER | " + (c.text + "\n") == "ANSWER | " + c.text + "\n";
  }

  /** Every derivable reply is the text of a document ... */
  lemma DerivedIsDocument(kind: Kind, n: nat, s: string) returns (doc: seq<Cop>)
    requires Derives(Build(kind, n), s)
    ensures Document(kind, n, doc) && Yield(doc) == s
  {
    hide OpLine, ReviewLine, Mark, TextClass;
    var plain := if kind == Recall then "NOMEM" else "NOOP";
    WordOut(plain, s);
    if s == plain + "\n" {
      doc := [if kind == Recall then Nomem else Noop];
      assert doc[1..] == [];
    } else if kind == Recall {
      doc := AnswerDocument(n, s);
    } else {
      doc := LinesDocument(kind, n, s);
    }
  }

  lemma AnswerDocument(n: nat, s: string) returns (doc: seq<Cop>)
    requires Derives(if n == 0 then ANSWER else Cat(ANSWER, Many(Mark("CITE ", n))), s)
    ensures Document(Recall, n, doc) && Yield(doc) == s
  {
    hide TextClass, Derives;
    if n == 0 {
      var c := AnswerOut(s);
      doc := [c];
      assert doc[1..] == [];
    } else {
      var first, rest := CatSplit(ANSWER, Many(Mark("CITE ", n)), s);
      var c := AnswerOut(first);
      var more := ManyOut(Recall, n, rest);
      doc := [c] + more;
      assert doc[1..] == more;
      assert forall i | 1 <= i < |doc| :: doc[i] == more[i - 1] && more[i - 1] in more;
    }
  }

  lemma LinesDocument(kind: Kind, n: nat, s: string) returns (doc: seq<Cop>)
    requires kind != Recall && (kind == Curation || n > 0) && Derives(Plus(LineExpr(kind, n)), s)
    ensures Document(kind, n, doc) && Yield(doc) == s
  {
    hide LineExpr, Derives, Allowed, Written;
    var first, rest := CatSplit(LineExpr(kind, n), Many(LineExpr(kind, n)), s);
    var c := LineOut(kind, n, first);
    var more := ManyOut(kind, n, rest);
    doc := [c] + more;
    assert doc[1..] == more;
  }

  /** ... and the text of every document is derivable. */
  lemma DocumentIsDerived(kind: Kind, n: nat, doc: seq<Cop>)
    requires Document(kind, n, doc)
    ensures Derives(Build(kind, n), Yield(doc))
  {
    hide OpLine, ReviewLine, Mark, TextClass;
    var s, head := Yield(doc), Body(doc[0]) + "\n";
    assert doc[0] in doc;
    WordOut("NOOP", s);
    WordOut("NOMEM", s);
    if doc[0] == Noop || doc[0] == Nomem {
      PlainDocument(kind, n, doc);
    } else if kind == Recall {
      AnswerIn(doc[0]);
      assert Lines(kind, n, doc[1..]) by { assert forall c | c in doc[1..] :: c in doc; }
      if n > 0 {
        ManyIn(kind, n, doc[1..]);
        CatMake(ANSWER, Many(Mark("CITE ", n)), head, Yield(doc[1..]));
      } else {
        assert doc[1..] == [] by { NoCites(doc); }
        assert s == head;
      }
    } else {
      HandlesExist(kind, n, doc[0]);
      LineIn(kind, n, doc[0]);
      assert Lines(kind, n, doc[1..]) by { assert forall c | c in doc[1..] :: c in doc; }
      ManyIn(kind, n, doc[1..]);
      CatMake(LineExpr(kind, n), Many(LineExpr(kind, n)), head, Yield(doc[1..]));
    }
  }

  lemma PlainDocument(kind: Kind, n: nat, doc: seq<Cop>)
    requires Document(kind, n, doc) && (doc[0] == Noop || doc[0] == Nomem)
    ensures Yield(doc) == (if kind == Recall then "NOMEM" else "NOOP") + "\n"
  {
    assert doc[0] in doc;
    assert |doc| == 1 ==> doc[1..] == [];
  }

  lemma HandlesExist(kind: Kind, n: nat, c: Cop)
    requires kind != Recall && Allowed(kind, c) && Written(c, n)
    ensures kind == Curation || n > 0
  {}

  lemma NoCites(doc: seq<Cop>)
    requires Document(Recall, 0, doc) && doc[0].Answer?
    ensures |doc| == 1
  {
    assert forall c: Cop | Written(c, 0) :: !c.Cite?;
    var last := doc[|doc| - 1];
    assert last in doc && !last.Cite?;
  }

  // ----- Documents parse into themselves -----

  lemma {:induction false} LineCut(line: string, rest: string)
    requires OneLine(line)
    ensures var s := line + "\n" + rest; LineEnd(s) == |line| && s[..|line|] == line && Rest(s) == rest
  {
    var s := line + "\n" + rest;
    if line != "" {
      LineCut(line[1..], rest);
      assert s[1..] == line[1..] + "\n" + rest;
    }
    assert s[|line| + 1..] == rest;
  }

  /** A document within the million parses into exactly its operations, nothing malformed. */
  lemma {:induction false} DocumentParses(doc: seq<Cop>, n: nat)
    requires forall c | c in doc :: Written(c, n) && HandleIn(c, HANDLE_MAX)
    ensures Reply(Yield(doc), n) == (TrimmedAll(doc), 0)
  {
    hide LineOp, Trim, LineEnd, Body, Rest;
    if doc != [] {
      var c := doc[0];
      assert c in doc;
      WrittenLine(c, n);
      LineCut(Body(c), Yield(doc[1..]));
      DocumentParses(doc[1..], n);
    }
  }

  /** One line beyond the million is malformed. */
  lemma LineTooFar(c: Cop, n: nat)
    requires Written(c, n) && !HandleIn(c, HANDLE_MAX)
    ensures Reply(Body(c) + "\n", n) == ([], 1)
  {
    hide LineOp, Trim, LineEnd, Body, Rest;
    WrittenLine(c, n);
    LineCut(Body(c), "");
    assert Body(c) + "\n" + "" == Body(c) + "\n";
  }

  /** The whole statement: what a cycle's grammar can generate is never malformed, for every
      derivation, exactly when the cycle has at most a million handles. */
  lemma NeverMalformed(kind: Kind, n: nat)
    ensures n <= HANDLE_MAX <==> forall s | Derives(Build(kind, n), s) :: Reply(s, n).1 == 0
  {
    hide Derives, Build, Document, Reply, Written;
    if n <= HANDLE_MAX {
      forall s | Derives(Build(kind, n), s) ensures Reply(s, n).1 == 0 {
        var doc := DerivedIsDocument(kind, n, s);
        Parsed(kind, n, doc);
      }
    } else {
      var s := Counterexample(kind, n);
    }
  }

  lemma Parsed(kind: Kind, n: nat, doc: seq<Cop>)
    requires Document(kind, n, doc) && n <= HANDLE_MAX
    ensures Reply(Yield(doc), n) == (TrimmedAll(doc), 0)
  {
    assert forall c | c in doc :: Written(c, n) && HandleIn(c, HANDLE_MAX);
    DocumentParses(doc, n);
  }

  /** With more handles, naming the first one beyond the million is derivable and refused. */
  lemma Counterexample(kind: Kind, n: nat) returns (s: string)
    requires n > HANDLE_MAX
    ensures Derives(Build(kind, n), s) && Reply(s, n).1 > 0
  {
    var far := HANDLE_MAX + 1;
    if kind == Recall {
      var doc := [Answer("x"), Cite(far)];
      DocumentIsDerived(kind, n, doc);
      s := Yield(doc);
      RecallTooFar(n);
    } else {
      var c := Deprecate(far, "x");
      assert Document(kind, n, [c]);
      DocumentIsDerived(kind, n, [c]);
      LineTooFar(c, n);
      s := Yield([c]);
      assert [c][1..] == [] && s == Body(c) + "\n" + "" == Body(c) + "\n";
    }
  }

  lemma RecallTooFar(n: nat)
    requires n > HANDLE_MAX
    ensures Reply(Yield([Answer("x"), Cite(HANDLE_MAX + 1)]), n).1 > 0
  {
    hide LineOp, Trim, LineEnd, Body, Rest;
    var a, c := Answer("x"), Cite(HANDLE_MAX + 1);
    WrittenLine(a, n);
    LineTooFar(c, n);
    assert [a, c][1..] == [c] && [c][1..] == [];
    LineCut(Body(a), Yield([c]));
    assert Yield([c]) == Body(c) + "\n" + "" == Body(c) + "\n";
  }
}
