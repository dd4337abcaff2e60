/** What the lines of a reply say, character by character: which trimmed lines are operations, which
    one each of them is, and so which are malformed (src/grammar.c:174-306). */
module Spoken {
  import opened Outcomes
  import opened Decimal
  import opened Text
  import opened Trimming
  import opened Protocol
  import R = Records

  predicate Gap(c: char) { c in " \t" }

  /** The word, blanks, the rest; the word stands alone. */
  ghost predicate Opens(t: string, word: string, rest: string) {
    && |word| + |rest| <= |t| && t[..|word|] == word && t[|t| - |rest|..] == rest
    && (forall i | |word| <= i < |t| - |rest| :: Gap(t[i])) && (rest != "" ==> !Gap(rest[0]))
    && (|t| > |word| ==> Gap(t[|word|]))
  }

  /** Before and behind the first bar that stands between a space and a space or the end. */
  ghost predicate Barred(s: string, front: string, back: string) {
    && s == front + " |" + back && (back != "" ==> back[0] == ' ')
    && forall i | 0 <= i < |front| && i + 1 < |s| ::
        !(s[i] == ' ' && s[i + 1] == '|' && (i + 2 == |s| || s[i + 2] == ' '))
  }

  /** The characters before the first blank. */
  ghost predicate FirstWord(s: string, word: string) {
    word <= s && (forall i | 0 <= i < |word| :: !Gap(word[i])) && (|word| < |s| ==> Gap(s[|word|]))
  }

  ghost predicate Names(word: string, h: nat, n: nat) {
    && |word| > 1 && word[0] == 'M' && (forall i | 1 <= i < |word| :: '0' <= word[i] <= '9')
    && h == Value(word[1..]) && 1 <= h <= n && h <= 1000000
  }

  ghost predicate Inserts(t: string, name: string, text: string, rest: string, front: string, back: string) {
    Opens(t, "INSERT", rest) && Barred(rest, front, back) && name == Trim(front) && text == Trim(back)
  }

  ghost predicate Changes(t: string, verb: string, h: nat, text: string, n: nat,
                          rest: string, front: string, back: string, word: string) {
    && Opens(t, verb, rest) && Barred(rest, front, back) && FirstWord(Trim(front), word) && Names(word, h, n)
    && text == Trim(back)
  }

  ghost predicate Points(t: string, verb: string, h: nat, n: nat, rest: string, word: string) {
    Opens(t, verb, rest) && FirstWord(rest, word) && Names(word, h, n)
  }

  /** The line says this operation. */
  ghost predicate Says(t: string, c: Cop, n: nat) {
    match c
    case Noop => t == "NOOP"
    case Nomem => t == "NOMEM"
    case Insert(section, text) =>
      exists rest, front, back :: Inserts(t, NameOf(section), text, rest, front, back)
    case Update(h, text) =>
      exists rest, front, back, word :: Changes(t, "UPDATE", h, text, n, rest, front, back, word)
    case Deprecate(h, text) =>
      exists rest, front, back, word :: Changes(t, "DEPRECATE", h, text, n, rest, front, back, word)
    case Keep(h) => exists rest, word :: Points(t, "KEEP", h, n, rest, word)
    case Cite(h) => exists rest, word :: Points(t, "CITE", h, n, rest, word)
    case Answer(text) => exists rest :: Replies(t, text, rest)
  }

  ghost predicate Replies(t: string, text: string, rest: string) {
    Opens(t, "ANSWER", rest) && rest != "" && rest[0] == '|' && text == Trim(rest[1..])
  }

  function NameOf(s: R.Section): string {
    match s case Identity => "identity" case Context => "context" case Project => "project"
  }

  // ----- the pieces -----

  lemma {:induction false} SkipMeans(s: string)
    ensures |SkipBlanks(s)| <= |s| && s[|s| - |SkipBlanks(s)|..] == SkipBlanks(s)
    ensures forall i | 0 <= i < |s| - |SkipBlanks(s)| :: Gap(s[i])
    ensures SkipBlanks(s) != "" ==> !Gap(SkipBlanks(s)[0])
  {
    if s != "" && Blanks(s[0]) { SkipMeans(s[1..]); }
  }

  lemma AfterMeans(t: string, word: string, rest: string)
    ensures After(t, word) == Some(rest) <==> Opens(t, word, rest)
  {
    hide SkipBlanks;
    if word <= t {
      var tail := t[|word|..];
      SkipMeans(tail);
      var kept := SkipBlanks(tail);
      assert kept != "" ==> t[|t| - |kept|] == kept[0];
      assert rest != "" && |rest| <= |t| && t[|t| - |rest|..] == rest ==> rest[0] == t[|t| - |rest|];
      forall i | |word| <= i < |t| - |kept| ensures Gap(t[i]) { assert t[i] == tail[i - |word|]; }
    }
  }

  lemma SepMeans(s: string, front: string, back: string)
    ensures Sep(s).Some? && front == s[..SepIn(s)] && back == s[SepIn(s) + 2..] <==> Barred(s, front, back)
  {
    hide SepFrom;
    SepFound(s, 0);
    if Sep(s).Some? {
      assert s == s[..SepIn(s)] + " |" + s[SepIn(s) + 2..];
      forall i | 0 <= i < SepIn(s) && i + 1 < |s|
        ensures !(s[i] == ' ' && s[i + 1] == '|' && (i + 2 == |s| || s[i + 2] == ' '))
      {
        assert !SepAt(s, i);
      }
    }
    if Barred(s, front, back) {
      assert s[..|front|] == front && s[|front| + 2..] == back;
      assert SepAt(s, |front|);
      assert SepIn(s) == |front|;
    }
  }

  lemma {:induction false} TokenMeans(s: string, word: string)
    ensures Token(s) == word <==> FirstWord(s, word)
  {
    if s != "" && !Blanks(s[0]) && word != "" && word[0] == s[0] {
      TokenMeans(s[1..], word[1..]);
    }
  }

  lemma HandleMeans(word: string, h: nat, n: nat)
    ensures Handle(word, n) == Some(h) <==> Names(word, h, n)
  {
    hide Value;
  }

  // ----- the verbs -----

  lemma InsertMeans(t: string, n: nat, section: R.Section, text: string)
    ensures LineOp(t, n) == Some(Insert(section, text)) <==> Says(t, Insert(section, text), n)
  {
    hide After, Trim, Sep, Handle, Token, Opens, Barred;
    if After(t, "INSERT").Some? {
      var rest := After(t, "INSERT").value;
      AfterMeans(t, "INSERT", rest);
      if Sep(rest).Some? {
        SepMeans(rest, rest[..SepIn(rest)], rest[SepIn(rest) + 2..]);
        assert LineOp(t, n) == Some(Insert(section, text)) ==>
          Inserts(t, NameOf(section), text, rest, rest[..SepIn(rest)], rest[SepIn(rest) + 2..]);
      }
    }
    if rest, front, back :| Inserts(t, NameOf(section), text, rest, front, back) {
      AfterMeans(t, "INSERT", rest);
      SepMeans(rest, front, back);
      Verbs(t);
    }
  }

  /** A line has one verb. */
  lemma Verbs(t: string)
    ensures After(t, "INSERT").Some? ==> t != "" && t[0] == 'I'
    ensures After(t, "UPDATE").Some? ==> t != "" && t[0] == 'U'
    ensures After(t, "DEPRECATE").Some? ==> t != "" && t[0] == 'D'
    ensures After(t, "KEEP").Some? ==> t != "" && t[0] == 'K'
    ensures After(t, "CITE").Some? ==> t != "" && t[0] == 'C'
    ensures After(t, "ANSWER").Some? ==> t != "" && t[0] == 'A'
  {}

  lemma ChangedMeans(t: string, verb: string, n: nat, update: bool, h: nat, text: string)
    ensures After(t, verb).Some? &&
              Changed(After(t, verb).value, n, update) == Some(if update then Update(h, text) else Deprecate(h, text))
            <==> exists rest, front, back, word :: Changes(t, verb, h, text, n, rest, front, back, word)
  {
    hide After, Trim, Sep, Handle, Token, Opens, Barred, Names, FirstWord;
    if After(t, verb).Some? {
      var rest := After(t, verb).value;
      AfterMeans(t, verb, rest);
      if Sep(rest).Some? {
        var front := rest[..SepIn(rest)];
        SepMeans(rest, front, rest[SepIn(rest) + 2..]);
        TokenMeans(Trim(front), Token(Trim(front)));
        HandleMeans(Token(Trim(front)), h, n);
        assert Handle(Token(Trim(front)), n) == Some(h) && text == Trim(rest[SepIn(rest) + 2..]) ==>
          Changes(t, verb, h, text, n, rest, front, rest[SepIn(rest) + 2..], Token(Trim(front)));
      }
    }
    if rest, front, back, word :| Changes(t, verb, h, text, n, rest, front, back, word) {
      AfterMeans(t, verb, rest);
      SepMeans(rest, front, back);
      TokenMeans(Trim(front), word);
      HandleMeans(word, h, n);
    }
  }

  lemma PointsMeans(t: string, verb: string, n: nat, h: nat)
    ensures After(t, verb).Some? && Handle(Token(After(t, verb).value), n) == Some(h)
            <==> exists rest, word :: Points(t, verb, h, n, rest, word)
  {
    hide After, Handle, Token, Opens, Names, FirstWord;
    if After(t, verb).Some? {
      var rest := After(t, verb).value;
      AfterMeans(t, verb, rest);
      TokenMeans(rest, Token(rest));
      HandleMeans(Token(rest), h, n);
      assert Handle(Token(rest), n) == Some(h) ==> Points(t, verb, h, n, rest, Token(rest));
    }
    if rest, word :| Points(t, verb, h, n, rest, word) {
      AfterMeans(t, verb, rest);
      TokenMeans(rest, word);
      HandleMeans(word, h, n);
    }
  }

  lemma AnswerMeans(t: string, n: nat, text: string)
    ensures LineOp(t, n) == Some(Answer(text)) <==> Says(t, Answer(text), n)
  {
    hide After, Trim, Sep, Handle, Token, Opens;
    Verbs(t);
    if After(t, "ANSWER").Some? {
      var rest := After(t, "ANSWER").value;
      AfterMeans(t, "ANSWER", rest);
      assert LineOp(t, n) == Some(Answer(text)) ==> Replies(t, text, rest);
    }
    if rest :| Replies(t, text, rest) { AfterMeans(t, "ANSWER", rest); }
  }

  lemma ChangedKind(rest: string, n: nat, update: bool)
    ensures var c := Changed(rest, n, update); c.Some? ==> if update then c.value.Update? else c.value.Deprecate?
  {
    hide Sep, Trim, Handle, Token;
  }

  /** A trimmed line yields an operation exactly when it says it; a line that says nothing is
      malformed. */
  lemma LineSays(t: string, n: nat, c: Cop)
    ensures LineOp(t, n) == Some(c) <==> Says(t, c, n)
  {
    hide After, Trim, Sep, SepFrom, Handle, Token, Changed, Changes, Points, Inserts, Replies;
    Verbs(t);
    if After(t, "UPDATE").Some? { ChangedKind(After(t, "UPDATE").value, n, true); }
    if After(t, "DEPRECATE").Some? { ChangedKind(After(t, "DEPRECATE").value, n, false); }
    match c
    case Insert(section, text) => InsertMeans(t, n, section, text);
    case Update(h, text) => ChangedMeans(t, "UPDATE", n, true, h, text);
    case Deprecate(h, text) => ChangedMeans(t, "DEPRECATE", n, false, h, text);
    case Keep(h) => PointsMeans(t, "KEEP", n, h);
    case Cite(h) => PointsMeans(t, "CITE", n, h);
    case Answer(text) => AnswerMeans(t, n, text);
    case _ =>
  }

  // ----- the whole reply -----

  /** Every line with its newline. */
  function Written(lines: seq<string>): string {
    if lines == [] then "" else lines[0] + "\n" + Written(lines[1..])
  }

  ghost predicate Rising(at: seq<int>, n: nat) {
    (forall i, j | 0 <= i < j < |at| :: at[i] < at[j]) && forall i | 0 <= i < |at| :: 0 <= at[i] < n
  }

  /** The line says nothing, though it is not blank. */
  ghost predicate Chatter(line: string, n: nat) { Trim(line) != "" && forall c :: !Says(Trim(line), c, n) }

  ghost predicate SaidAt(lines: seq<string>, n: nat, ops: seq<Cop>, at: seq<int>) {
    |at| == |ops| && Rising(at, |lines|) && forall k | 0 <= k < |at| :: Says(Trim(lines[at[k]]), ops[k], n)
  }

  ghost predicate OddAt(lines: seq<string>, n: nat, at: seq<int>) {
    Rising(at, |lines|) && forall k | 0 <= k < |at| :: Chatter(lines[at[k]], n)
  }

  /** The operations are those of the lines at `said`, in order; the lines at `odd` are malformed; all
      others are blank. */
  ghost predicate Accounts(lines: seq<string>, n: nat, ops: seq<Cop>, said: seq<int>, odd: seq<int>) {
    && SaidAt(lines, n, ops, said) && OddAt(lines, n, odd)
    && forall i | 0 <= i < |lines| :: Trim(lines[i]) == "" || i in said || i in odd
  }

  function Later(at: seq<int>): seq<int> { seq(|at|, i requires 0 <= i < |at| => at[i] + 1) }

  lemma LaterRises(at: seq<int>, n: nat)
    requires Rising(at, n)
    ensures Rising(Later(at), n + 1) && Rising([0] + Later(at), n + 1)
  {}

  lemma LaterHolds(at: seq<int>, i: int)
    requires i in at
    ensures i + 1 in Later(at) && i + 1 in [0] + Later(at)
  {
    var k :| 0 <= k < |at| && at[k] == i;
    assert Later(at)[k] == i + 1;
  }

  lemma SaidMore(line: string, lines: seq<string>, n: nat, ops: seq<Cop>, at: seq<int>)
    requires SaidAt(lines, n, ops, at)
    ensures SaidAt([line] + lines, n, ops, Later(at))
    ensures forall c | Says(Trim(line), c, n) :: SaidAt([line] + lines, n, [c] + ops, [0] + Later(at))
  {
    hide Trim, Says;
    LaterRises(at, |lines|);
    assert forall k | 0 <= k < |at| :: ([line] + lines)[at[k] + 1] == lines[at[k]];
  }

  lemma OddMore(line: string, lines: seq<string>, n: nat, at: seq<int>)
    requires OddAt(lines, n, at)
    ensures OddAt([line] + lines, n, Later(at))
    ensures Chatter(line, n) ==> OddAt([line] + lines, n, [0] + Later(at))
  {
    hide Chatter;
    LaterRises(at, |lines|);
    assert forall k | 0 <= k < |at| :: ([line] + lines)[at[k] + 1] == lines[at[k]];
  }

  /** Where the operation of the first line, if any, and those behind it stand. */
  function From(first: bool, at: seq<int>): seq<int> { if first then [0] + Later(at) else Later(at) }

  lemma OneMore(line: string, lines: seq<string>, n: nat, ops: seq<Cop>, said: seq<int>, odd: seq<int>, op: Option<Cop>)
    requires Accounts(lines, n, ops, said, odd)
    requires if op.Some? then Says(Trim(line), op.value, n) else Trim(line) == "" || Chatter(line, n)
    ensures Accounts([line] + lines, n, if op.Some? then [op.value] + ops else ops,
                     From(op.Some?, said), From(op.None? && Trim(line) != "", odd))
  {
    hide Trim, Says, Chatter, SaidAt, OddAt, Later;
    var some, none := From(op.Some?, said), From(op.None? && Trim(line) != "", odd);
    SaidMore(line, lines, n, ops, said);
    OddMore(line, lines, n, odd);
    var all := [line] + lines;
    forall i | 0 <= i < |all| ensures Trim(all[i]) == "" || i in some || i in none {
      if i > 0 {
        assert all[i] == lines[i - 1];
        if i - 1 in said { LaterHolds(said, i - 1); }
        if i - 1 in odd { LaterHolds(odd, i - 1); }
      }
    }
  }

  /** The parse of a reply accounts for every line of it: the operations are what the lines say, in
      order, and every line that is neither blank nor says anything is counted as malformed. */
  lemma {:induction false} ReplySays(text: string, n: nat)
      returns (lines: seq<string>, said: seq<int>, odd: seq<int>)
    ensures Written(lines) == text || Written(lines) == text + "\n"
    ensures (forall i | 0 <= i < |lines| :: '\n' !in lines[i]) && (text == "" ==> lines == [])
    ensures Accounts(lines, n, Reply(text, n).0, said, odd) && |odd| == Reply(text, n).1
    decreases |text|
  {
    hide Trim, Says, Accounts, LineOp, Written, From, LineEnd, Rest;
    if text == "" {
      lines, said, odd := [], [], [];
      NothingSaid(n);
    } else {
      var line, rest := text[..LineEnd(text)], Rest(text);
      LineIs(text);
      lines, said, odd := ReplySays(rest, n);
      var op := if Trim(line) == "" then None else LineOp(Trim(line), n);
      LineDecides(line, n);
      OneMore(line, lines, n, Reply(rest, n).0, said, odd, op);
      FromLength(op.None? && Trim(line) != "", odd);
      said, odd := From(op.Some?, said), From(op.None? && Trim(line) != "", odd);
      WrittenFirst(text, line, lines, LineEnd(text) < |text|, rest);
      lines := [line] + lines;
    }
  }

  lemma FromLength(first: bool, at: seq<int>)
    ensures |From(first, at)| == |at| + (if first then 1 else 0)
  {}

  lemma NothingSaid(n: nat)
    ensures Written([]) == "" && Accounts([], n, [], [], []) && Reply("", n) == ([], 0)
  {}

  lemma LineDecides(line: string, n: nat)
    ensures var op := if Trim(line) == "" then None else LineOp(Trim(line), n);
      if op.Some? then Says(Trim(line), op.value, n) else Trim(line) == "" || Chatter(line, n)
  {
    hide Trim, Says, LineOp;
    forall c ensures LineOp(Trim(line), n) == Some(c) <==> Says(Trim(line), c, n) { LineSays(Trim(line), n, c); }
  }

  lemma WrittenFirst(text: string, line: string, lines: seq<string>, more: bool, rest: string)
    requires text == (if more then line + "\n" + rest else line) && (!more ==> rest == "")
    requires Written(lines) == rest || Written(lines) == rest + "\n"
    requires rest == "" ==> lines == []
    ensures Written([line] + lines) == text || Written([line] + lines) == text + "\n"
  {
    assert ([line] + lines)[1..] == lines;
  }

  lemma {:induction false} LineIs(text: string)
    requires text != ""
    ensures '\n' !in text[..LineEnd(text)]
    ensures text == if LineEnd(text) < |text| then text[..LineEnd(text)] + "\n" + Rest(text) else text[..LineEnd(text)]
    ensures LineEnd(text) == |text| ==> Rest(text) == ""
  {
    if text[0] != '\n' && text[1..] != "" {
      LineIs(text[1..]);
      assert text == [text[0]] + text[1..] && text[..LineEnd(text)] == [text[0]] + text[1..][..LineEnd(text[1..])];
      assert Rest(text) == Rest(text[1..]);
    }
  }
}
