/** The curator's reply protocol (src/grammar.c:174-380): a tolerant parser, line by line. */
module Protocol {
  import opened Outcomes
  import opened Decimal
  import opened Text
  import opened Trimming
  import R = Records

  const HANDLE_MAX: nat := 1000000

  datatype Cop =
    | Insert(section: R.Section, text: string)
    | Update(handle: nat, text: string)
    | Deprecate(handle: nat, text: string)
    | Keep(handle: nat)
    | Noop
    | Answer(text: string)
    | Cite(handle: nat)
    | Nomem

  predicate HandleIn(c: Cop, n: nat) {
    c.Update? || c.Deprecate? || c.Keep? || c.Cite? ==> 1 <= c.handle <= n
  }

  predicate Blanks(c: char) { c == ' ' || c == '\t' }

  function SkipBlanks(s: string): string { if s != "" && Blanks(s[0]) then SkipBlanks(s[1..]) else s }

  /** The rest of a line after its first word and the blanks behind it. */
  function After(s: string, w: string): Option<string> {
    if w <= s && (|s| == |w| || Blanks(s[|w|])) then Some(SkipBlanks(s[|w|..])) else None
  }

  /** A bar after a space, followed by a space or by the end of the trimmed line. */
  predicate SepAt(s: string, i: nat) {
    i + 1 < |s| && s[i] == ' ' && s[i + 1] == '|' && (i + 2 == |s| || s[i + 2] == ' ')
  }

  function SepFrom(s: string, i: nat): Option<nat>
    decreases |s| - i
  {
    if i >= |s| then None else if SepAt(s, i) then Some(i) else SepFrom(s, i + 1)
  }

  function Sep(s: string): Option<nat> { SepFrom(s, 0) }

  function Token(s: string): string { if s == "" || Blanks(s[0]) then "" else [s[0]] + Token(s[1..]) }

  /** `M` and a number within the handles; more than a million never counts. */
  function Handle(tok: string, n: nat): Option<nat> {
    if |tok| > 1 && tok[0] == 'M' && AllDigits(tok[1..]) && 1 <= Value(tok[1..]) <= n && Value(tok[1..]) <= HANDLE_MAX
    then Some(Value(tok[1..])) else None
  }

  function SectionOf(s: string): Option<R.Section> {
    if s == "identity" then Some(R.Identity) else if s == "context" then Some(R.Context)
    else if s == "project" then Some(R.Project) else None
  }

  /** One trimmed line. */
  function LineOp(t: string, n: nat): Option<Cop> {
    if t == "NOOP" then Some(Noop)
    else if t == "NOMEM" then Some(Nomem)
    else if After(t, "INSERT").Some? then
      var rest := After(t, "INSERT").value;
      if Sep(rest).None? then None
      else
        var sec := SectionOf(Trim(rest[..SepIn(rest)]));
        if sec.None? then None else Some(Insert(sec.value, Trim(rest[SepIn(rest) + 2..])))
    else if After(t, "UPDATE").Some? then
      Changed(After(t, "UPDATE").value, n, true)
    else if After(t, "DEPRECATE").Some? then
      Changed(After(t, "DEPRECATE").value, n, false)
    else if After(t, "KEEP").Some? then
      var h := Handle(Token(After(t, "KEEP").value), n);
      if h.None? then None else Some(Keep(h.value))
    else if After(t, "CITE").Some? then
      var h := Handle(Token(After(t, "CITE").value), n);
      if h.None? then None else Some(Cite(h.value))
    else if After(t, "ANSWER").Some? then
      var rest := After(t, "ANSWER").value;
      if rest == "" || rest[0] != '|' then None else Some(Answer(Trim(rest[1..])))
    else None
  }

  function SepIn(s: string): (i: nat)
    requires Sep(s).Some?
    ensures i + 2 <= |s| && SepAt(s, i)
  {
    SepFound(s, 0);
    Sep(s).value
  }

  lemma {:induction false} SepFound(s: string, i: nat)
    ensures SepFrom(s, i).Some? ==> i <= SepFrom(s, i).value && SepAt(s, SepFrom(s, i).value)
    ensures SepFrom(s, i).Some? ==> forall k | i <= k < SepFrom(s, i).value :: !SepAt(s, k)
    ensures SepFrom(s, i).None? ==> forall k | i <= k < |s| :: !SepAt(s, k)
    decreases |s| - i
  {
    if i < |s| && !SepAt(s, i) { SepFound(s, i + 1); }
  }

  function Changed(rest: string, n: nat, update: bool): Option<Cop> {
    if Sep(rest).None? then None
    else
      var h := Handle(Token(Trim(rest[..SepIn(rest)])), n);
      var text := Trim(rest[SepIn(rest) + 2..]);
      if h.None? then None else Some(if update then Update(h.value, text) else Deprecate(h.value, text))
  }

  function LineEnd(s: string): (k: nat)
    ensures k <= |s|
  {
    if s == "" || s[0] == '\n' then 0 else 1 + LineEnd(s[1..])
  }

  function Rest(s: string): (r: string)
    ensures s != "" ==> |r| < |s|
  {
    if LineEnd(s) < |s| then s[LineEnd(s) + 1..] else ""
  }

  /** All operations of a reply, and how many lines were malformed. */
  function Reply(s: string, n: nat): (seq<Cop>, nat)
    decreases |s|
  {
    if s == "" then ([], 0)
    else
      var t := Trim(s[..LineEnd(s)]);
      var (ops, bad) := Reply(Rest(s), n);
      if t == "" then (ops, bad)
      else if LineOp(t, n).None? then (ops, bad + 1)
      else ([LineOp(t, n).value] + ops, bad)
  }

  // ----- The implementation -----

  method WordPrefix(s: string, w: string) returns (rest: Option<string>)
    ensures rest == After(s, w)
  {
    if !(w <= s) { return None; }
    if |s| > |w| && s[|w|] != ' ' && s[|w|] != '\t' { return None; }
    var r := |w|;
    while r < |s| && (s[r] == ' ' || s[r] == '\t')
      invariant |w| <= r <= |s| && SkipBlanks(s[|w|..]) == SkipBlanks(s[r..])
    {
      assert s[r..][1..] == s[r + 1..];
      r := r + 1;
    }
    return Some(s[r..]);
  }

  /** `find_sep`: the first full separator, unless one cut short by trimming comes first. */
  method FindSep(s: string) returns (sep: Option<nat>)
    ensures sep == Sep(s)
  {
    SepFound(s, 0);
    var at := 0;
    while at + 2 < |s| && !(s[at] == ' ' && s[at + 1] == '|' && s[at + 2] == ' ')
      invariant forall k | 0 <= k < at :: !SepAt(s, k) || k + 2 == |s|
    {
      at := at + 1;
    }
    sep := if at + 2 < |s| then Some(at) else None;
    if |s| >= 2 && s[|s| - 2] == ' ' && s[|s| - 1] == '|' {
      var tail := |s| - 2;
      assert SepAt(s, tail);
      if sep.None? || tail < sep.value { sep := Some(tail); }
    }
    if sep.Some? { assert SepAt(s, sep.value); }
  }

  /** `parse_handle`: the running value stops at a million. */
  method ParseHandle(tok: string, n: nat) returns (h: Option<nat>)
    ensures h == Handle(tok, n)
  {
    if tok == "" || tok[0] != 'M' { return None; }
    var d := 1;
    if d == |tok| || !IsDigit(tok[d]) { return None; }
    var v := 0;
    ghost var digits := tok[1..];
    while d < |tok| && IsDigit(tok[d])
      invariant 1 <= d <= |tok| && AllDigits(digits[..d - 1]) && v == Value(digits[..d - 1]) && v <= HANDLE_MAX
    {
      assert digits[d - 1] == tok[d] && digits[..d][..d - 1] == digits[..d - 1];
      v := v * 10 + DigitValue(tok[d]);
      if v > HANDLE_MAX {
        if AllDigits(digits) { ValueGrows(digits, d); }
        return None;
      }
      d := d + 1;
    }
    if d < |tok| {
      assert digits[d - 1] == tok[d];
      return None;
    }
    assert digits[..d - 1] == digits;
    if v < 1 || v > n { return None; }
    return Some(v);
  }

  lemma {:induction false} ValueGrows(s: string, k: nat)
    requires AllDigits(s) && k <= |s|
    ensures Value(s[..k]) <= Value(s)
  {
    if k < |s| {
      ValueGrows(s[..|s| - 1], k);
      assert s[..|s| - 1][..k] == s[..k];
    } else {
      assert s[..k] == s;
    }
  }

  method ParseHandleToken(s: string, n: nat) returns (h: Option<nat>)
    ensures h == Handle(Token(s), n)
  {
    hide Handle;
    var e := 0;
    while e < |s| && s[e] != ' ' && s[e] != '\t'
      invariant e <= |s| && Token(s) == s[..e] + Token(s[e..])
    {
      assert s[e..][1..] == s[e + 1..] && s[..e] + [s[e]] == s[..e + 1];
      e := e + 1;
    }
    assert Token(s) == s[..e];
    h := ParseHandle(s[..e], n);
  }

  /** The shared tail of UPDATE and DEPRECATE. */
  method ParseChange(rest: string, n: nat, update: bool) returns (op: Option<Cop>)
    ensures op == Changed(rest, n, update)
  {
    var sep := FindSep(rest);
    if sep.None? { return None; }
    SepFound(rest, 0);
    var front := TrimIt(rest[..sep.value]);
    var h := ParseHandleToken(front, n);
    if h.None? { return None; }
    var text := TrimIt(rest[sep.value + 2..]);
    return Some(if update then Update(h.value, text) else Deprecate(h.value, text));
  }

  /** `parse_line`. */
  method ParseLine(t: string, n: nat) returns (op: Option<Cop>)
    ensures op == LineOp(t, n)
    ensures op.Some? ==> HandleIn(op.value, n)
  {
    hide After, Sep, SepFrom, Handle, Token, Trim;
    LineHandle(t, n);
    if t == "NOOP" { return Some(Noop); }
    if t == "NOMEM" { return Some(Nomem); }
    var rest := WordPrefix(t, "INSERT");
    if rest.Some? {
      var sep := FindSep(rest.value);
      if sep.None? { return None; }
      SepFound(rest.value, 0);
      assert SepIn(rest.value) == sep.value;
      var name := TrimIt(rest.value[..sep.value]);
      var sec := SectionOf(name);
      if sec.None? { return None; }
      var text := TrimIt(rest.value[sep.value + 2..]);
      return Some(Insert(sec.value, text));
    }
    rest := WordPrefix(t, "UPDATE");
    if rest.Some? {
      op := ParseChange(rest.value, n, true);
      return;
    }
    rest := WordPrefix(t, "DEPRECATE");
    if rest.Some? {
      op := ParseChange(rest.value, n, false);
      return;
    }
    rest := WordPrefix(t, "KEEP");
    if rest.None? { rest := WordPrefix(t, "CITE"); }
    if rest.Some? {
      var h := ParseHandleToken(rest.value, n);
      if h.None? { return None; }
      FirstLetter(t);
      return Some(if t[0] == 'K' then Keep(h.value) else Cite(h.value));
    }
    rest := WordPrefix(t, "ANSWER");
    if rest.Some? {
      if rest.value == "" || rest.value[0] != '|' { return None; }
      var text := TrimIt(rest.value[1..]);
      return Some(Answer(text));
    }
    return None;
  }

  lemma FirstLetter(t: string)
    ensures After(t, "KEEP").Some? ==> t != "" && t[0] == 'K'
    ensures After(t, "CITE").Some? ==> t != "" && t[0] == 'C'
  {}

  lemma LineHandle(t: string, n: nat)
    ensures LineOp(t, n).Some? ==> HandleIn(LineOp(t, n).value, n)
  {
    hide After, Sep, SepFrom, Token, Trim, Value;
  }

  /** `asper_protocol_parse`: whatever the model wrote, handles stay in range and the result is
      the one of Reply. */
  method Parse(text: string, n: nat) returns (ops: seq<Cop>, bad: nat)
    ensures (ops, bad) == Reply(text, n)
    ensures forall c | c in ops :: HandleIn(c, n)
  {
    hide LineOp, Trim, Reply;
    ops, bad := [], 0;
    var p := 0;
    assert text[0..] == text && ops + Reply(text, n).0 == Reply(text, n).0;
    while p < |text|
      invariant p <= |text| && forall c | c in ops :: HandleIn(c, n)
      invariant Reply(text, n) == (ops + Reply(text[p..], n).0, bad + Reply(text[p..], n).1)
    {
      var e := FindEnd(text, p);
      var t := TrimIt(text[p..e]);
      ReplyStep(text, p, e, n);
      p := if e < |text| then e + 1 else e;
      if t != "" {
        var op := ParseLine(t, n);
        if op.None? {
          bad := bad + 1;
        } else {
          ghost var later := Reply(text[p..], n).0;
          assert ops + ([op.value] + later) == (ops + [op.value]) + later;
          ops := ops + [op.value];
        }
      }
    }
    NoReply(text[p..], n);
    assert ops + [] == ops;
  }

  lemma NoReply(s: string, n: nat)
    requires s == ""
    ensures Reply(s, n) == ([], 0)
  {}

  lemma ReplyStep(text: string, p: nat, e: nat, n: nat)
    requires p < |text| && p <= e <= |text| && e - p == LineEnd(text[p..])
    ensures var t := Trim(text[p..e]);
      var (ops, bad) := Reply(text[if e < |text| then e + 1 else e..], n);
      Reply(text[p..], n) == if t == "" then (ops, bad) else if LineOp(t, n).None? then (ops, bad + 1)
                             else ([LineOp(t, n).value] + ops, bad)
  {
    hide LineOp, Trim, LineEnd;
    assert text[p..][..e - p] == text[p..e];
    assert Rest(text[p..]) == text[if e < |text| then e + 1 else e..];
  }

  /** The line from p ends before the next newline or at the end. */
  method FindEnd(text: string, p: nat) returns (e: nat)
    requires p < |text|
    ensures p <= e <= |text| && LineEnd(text[p..]) == e - p && text[p..][..e - p] == text[p..e]
    ensures Rest(text[p..]) == text[if e < |text| then e + 1 else e..]
  {
    e := p;
    while e < |text| && text[e] != '\n'
      invariant p <= e <= |text| && LineEnd(text[p..]) == e - p + LineEnd(text[e..])
    {
      assert text[e..][1..] == text[e + 1..];
      e := e + 1;
    }
    assert text[p..][..e - p] == text[p..e];
    if e < |text| { assert text[e..][0] == '\n' && text[p..][e - p + 1..] == text[e + 1..]; }
  }
}
