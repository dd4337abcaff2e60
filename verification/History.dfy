/** Which source events go into a context (src/source_history.c): pins first, then the newest
    that fit, presented in ascending order. */
module History {
  import opened Outcomes

  const HEADING := "## Memory source events\n"
  const CONTEXT_BYTES: nat := 4 * 1024 * 1024
  const CONTEXT_EVENTS: nat := 4096

  datatype Kind = User | Assistant | Decision | ToolCall | ToolResult | Diagnostic | Checkpoint | Artifact
  datatype Event = Event(kind: Kind, id: string, text: string, ref: string, pinned: bool)
  datatype Line = Line(sequence: nat, text: string)
  datatype Request = Request(budget: nat, query: string, count: string -> int)

  /** `asper_source_tokens`: the host's counter, or a quarter of the bytes. */
  function Tokens(r: Request, text: string): nat {
    if text == "" then 0 else if r.count(text) >= 0 then r.count(text) else (|text| + 3) / 4
  }

  function KindName(k: Kind): string {
    match k
    case User => "user"
    case Assistant => "assistant"
    case Decision => "decision"
    case ToolCall => "tool_call"
    case ToolResult => "tool_result"
    case Diagnostic => "diagnostic"
    case Checkpoint => "checkpoint"
    case Artifact => "artifact"
  }

  function LineText(e: Event): string {
    "[" + KindName(e.kind) + ":" + e.id + "] " + e.text + (if e.ref != "" then " [source " + e.ref + "]" else "") + "\n"
  }

  /** A user's own question is not history, unless it was pinned. */
  predicate Eligible(r: Request, e: Event) {
    e.kind != Checkpoint && (e.pinned || !((e.kind == User || e.kind == Assistant) && e.text == r.query))
  }

  function Bytes(ls: seq<Line>): nat { if ls == [] then 0 else Bytes(ls[..|ls| - 1]) + |ls[|ls| - 1].text| }

  function Cost(r: Request, ls: seq<Line>): nat {
    if ls == [] then 0 else Cost(r, ls[..|ls| - 1]) + Tokens(r, ls[|ls| - 1].text)
  }

  /** The second pass also skips a pinned question: it had its turn. */
  predicate Recent(r: Request, e: Event) {
    e.kind != Checkpoint && !((e.kind == User || e.kind == Assistant) && e.text == r.query)
  }

  /** The line of an event fits beside what is already chosen. */
  predicate Fits(r: Request, limit: nat, heading: nat, ls: seq<Line>, e: Event) {
    Bytes(ls) + |LineText(e)| <= limit && heading + Cost(r, ls) + Tokens(r, LineText(e)) <= r.budget
  }

  predicate Within(r: Request, limit: nat, heading: nat, ls: seq<Line>) {
    Bytes(ls) <= limit && heading + Cost(r, ls) <= r.budget && |ls| <= CONTEXT_EVENTS
  }

  predicate Has(ls: seq<Line>, sequence: nat) { exists l :: l in ls && l.sequence == sequence }

  /** Lines stand for distinct events of the log, word for word. */
  ghost predicate Faithful(r: Request, log: seq<Event>, ls: seq<Line>) {
    && (forall l | l in ls ::
        1 <= l.sequence <= |log| && l.text == LineText(log[l.sequence - 1]) && Eligible(r, log[l.sequence - 1]))
    && forall i, j | 0 <= i < j < |ls| :: ls[i].sequence != ls[j].sequence
  }

  ghost predicate Ascending(ls: seq<Line>) { forall i, j | 0 <= i < j < |ls| :: ls[i].sequence < ls[j].sequence }

  lemma {:induction false} PrefixSums(r: Request, ls: seq<Line>, k: nat)
    requires k <= |ls|
    ensures Bytes(ls[..k]) <= Bytes(ls) && Cost(r, ls[..k]) <= Cost(r, ls)
  {
    if k < |ls| {
      PrefixSums(r, ls[..|ls| - 1], k);
      assert ls[..|ls| - 1][..k] == ls[..k];
    } else {
      assert ls[..k] == ls;
    }
  }

  lemma SumsSnoc(r: Request, ls: seq<Line>, l: Line)
    ensures Bytes(ls + [l]) == Bytes(ls) + |l.text| && Cost(r, ls + [l]) == Cost(r, ls) + Tokens(r, l.text)
  {
    assert (ls + [l])[..|ls|] == ls;
  }

  /** What did not fit beside a prefix does not fit beside the whole. */
  lemma StillUnfit(r: Request, limit: nat, heading: nat, ls: seq<Line>, k: nat, e: Event)
    requires k <= |ls| && !Fits(r, limit, heading, ls[..k], e)
    ensures !Fits(r, limit, heading, ls, e)
  {
    PrefixSums(r, ls, k);
  }

  // ----- The final order -----

  function Insert(ls: seq<Line>, l: Line): (out: seq<Line>)
    ensures |out| == |ls| + 1
  {
    if ls == [] || l.sequence <= ls[0].sequence then [l] + ls else [ls[0]] + Insert(ls[1..], l)
  }

  /** `qsort` by sequence. */
  function Sort(ls: seq<Line>): (out: seq<Line>)
    ensures |out| == |ls|
  {
    if ls == [] then [] else Insert(Sort(ls[..|ls| - 1]), ls[|ls| - 1])
  }

  lemma {:induction false} InsertMembers(ls: seq<Line>, l: Line)
    ensures forall x :: x in Insert(ls, l) <==> x == l || x in ls
  {
    if ls != [] && l.sequence > ls[0].sequence {
      InsertMembers(ls[1..], l);
      assert ls == [ls[0]] + ls[1..];
    }
  }

  lemma {:induction false} SortMembers(ls: seq<Line>)
    ensures forall x :: x in Sort(ls) <==> x in ls
  {
    if ls != [] {
      SortMembers(ls[..|ls| - 1]);
      InsertMembers(Sort(ls[..|ls| - 1]), ls[|ls| - 1]);
      assert ls == ls[..|ls| - 1] + [ls[|ls| - 1]];
    }
  }

  lemma {:induction false} InsertAscending(ls: seq<Line>, l: Line)
    requires Ascending(ls) && forall x | x in ls :: x.sequence != l.sequence
    ensures Ascending(Insert(ls, l))
  {
    if ls != [] {
      assert ls[0] in ls;
      if l.sequence > ls[0].sequence {
        InsertAscending(ls[1..], l);
        InsertMembers(ls[1..], l);
        var out := Insert(ls[1..], l);
        forall j | 0 <= j < |out| ensures ls[0].sequence < out[j].sequence {
          assert out[j] in out;
          if out[j] != l { var i :| 0 <= i < |ls[1..]| && ls[1..][i] == out[j]; assert ls[i + 1] == out[j]; }
        }
      } else {
        forall j | 0 <= j < |ls| ensures l.sequence < ls[j].sequence { assert ls[j] in ls; }
      }
    }
  }

  lemma {:induction false} SortAscending(ls: seq<Line>)
    requires forall i, j | 0 <= i < j < |ls| :: ls[i].sequence != ls[j].sequence
    ensures Ascending(Sort(ls))
  {
    if ls != [] {
      var rest, last := ls[..|ls| - 1], ls[|ls| - 1];
      SortAscending(rest);
      SortMembers(rest);
      InsertAscending(Sort(rest), last);
    }
  }

  lemma {:induction false} BytesFront(l: Line, ls: seq<Line>)
    ensures Bytes([l] + ls) == |l.text| + Bytes(ls)
  {
    if ls == [] {
      assert ([l] + ls)[..0] == [];
    } else {
      BytesFront(l, ls[..|ls| - 1]);
      assert ([l] + ls)[..|ls|] == [l] + ls[..|ls| - 1];
    }
  }

  lemma {:induction false} InsertBytes(ls: seq<Line>, l: Line)
    ensures Bytes(Insert(ls, l)) == Bytes(ls) + |l.text|
  {
    if ls == [] || l.sequence <= ls[0].sequence {
      BytesFront(l, ls);
    } else {
      InsertBytes(ls[1..], l);
      BytesFront(ls[0], Insert(ls[1..], l));
      BytesFront(ls[0], ls[1..]);
      assert ls == [ls[0]] + ls[1..];
    }
  }

  /** Sorting changes no total. */
  lemma {:induction false} SortBytes(ls: seq<Line>)
    ensures Bytes(Sort(ls)) == Bytes(ls)
  {
    if ls != [] {
      SortBytes(ls[..|ls| - 1]);
      InsertBytes(Sort(ls[..|ls| - 1]), ls[|ls| - 1]);
    }
  }

  function Text(ls: seq<Line>): (s: string)
    ensures |s| == Bytes(ls)
  {
    if ls == [] then "" else Text(ls[..|ls| - 1]) + ls[|ls| - 1].text
  }

  // ----- The selection -----

  /** `already_pinned`. */
  method AlreadyPinned(ls: seq<Line>, pins: nat, sequence: nat) returns (yes: bool)
    requires pins <= |ls| && Ascending(ls[..pins])
    ensures yes <==> Has(ls[..pins], sequence)
  {
    var lo, hi := 0, pins;
    while lo < hi
      invariant lo <= hi <= pins
      invariant forall i | 0 <= i < lo :: ls[i].sequence < sequence
      invariant forall i | hi <= i < pins :: ls[i].sequence >= sequence
    {
      var mid := lo + (hi - lo) / 2;
      assert forall i, j | 0 <= i < j < pins :: ls[..pins][i] == ls[i] && ls[..pins][j] == ls[j];
      if ls[mid].sequence < sequence { lo := mid + 1; } else { hi := mid; }
    }
    yes := lo < pins && ls[lo].sequence == sequence;
    if yes { assert ls[lo] in ls[..pins]; }
  }

  class Selection {
    var lines: seq<Line>
    var bytes: nat
    var tokens: nat
    const limit: nat
    const heading: nat

    ghost predicate Counts(r: Request)
      reads this
    {
      bytes == Bytes(lines) && tokens == heading + Cost(r, lines) && Within(r, limit, heading, lines)
    }

    constructor (r: Request, limit: nat, heading: nat)
      requires heading <= r.budget
      ensures Counts(r) && lines == [] && this.limit == limit && this.heading == heading
    {
      lines, bytes, tokens, this.limit, this.heading := [], 0, heading, limit, heading;
    }

    /** `select_event`: keep the line when it fits, otherwise leave everything as it is. */
    method Select(r: Request, e: Event, sequence: nat)
      requires Counts(r) && |lines| < CONTEXT_EVENTS
      modifies this`lines, this`bytes, this`tokens
      ensures Counts(r)
      ensures lines == if Fits(r, limit, heading, old(lines), e) then old(lines) + [Line(sequence, LineText(e))] else old(lines)
    {
      if |e.text| > limit - bytes { return; }
      var text := LineText(e);
      var cost := Tokens(r, text);
      if cost > r.budget - tokens || |text| > limit - bytes { return; }
      SumsSnoc(r, lines, Line(sequence, text));
      lines := lines + [Line(sequence, text)];
      bytes := bytes + |text|;
      tokens := tokens + cost;
    }

    /** First pass: pinned events from the oldest on. A pin that is left out did not fit beside
        the pins before it, or came after the event limit was reached. */
    method TakePins(r: Request, log: seq<Event>) returns (err: Err)
      requires Counts(r) && lines == []
      modifies this`lines, this`bytes, this`tokens
      ensures Counts(r) && Faithful(r, log, lines) && Ascending(lines) && (err == Ok || err == Io)
      ensures err == Ok ==> forall s | 1 <= s <= |log| :: PinSettled(r, limit, heading, log, lines, s)
    {
      hide Fits, Eligible, LineText;
      var offset := 0;
      while offset < |log| && |lines| < CONTEXT_EVENTS
        invariant offset <= |log| && Counts(r) && Faithful(r, log, lines) && Ascending(lines)
        invariant forall l | l in lines :: l.sequence <= offset
        invariant forall s | 1 <= s <= offset :: PinSettled(r, limit, heading, log, lines, s)
      {
        var readable: bool := *;
        if !readable { return Io; }
        var e := log[offset];
        ghost var before := lines;
        if Pinned(e) {
          Select(r, e, offset + 1);
          PinEligible(r, e);
        }
        PinsGrow(r, limit, heading, log, before, lines, offset);
        offset := offset + 1;
      }
      if |lines| == CONTEXT_EVENTS {
        forall s | 1 <= s <= |log| ensures PinSettled(r, limit, heading, log, lines, s) {
          if s > offset { assert RefusedAt(r, limit, heading, lines, |lines|, log[s - 1], s); }
        }
      }
      err := Ok;
    }

    /** Second pass: from the newest event back, whatever still fits. */
    method TakeNewest(r: Request, log: seq<Event>) returns (err: Err)
      requires Counts(r) && Faithful(r, log, lines) && Ascending(lines)
      modifies this`lines, this`bytes, this`tokens
      ensures Counts(r) && Faithful(r, log, lines) && old(lines) <= lines && (err == Ok || err == Io)
      ensures Descending(lines[|old(lines)|..])
      ensures err == Ok ==> forall s | 1 <= s <= |log| :: RecentSettled(r, limit, heading, log, |old(lines)|, lines, s)
    {
      hide Fits, Eligible, LineText, Recent, Faithful, Has, RefusedNewest;
      var pins := |lines|;
      assert lines[..pins] == lines && lines[pins..] == [];
      var offset := 0;
      while offset < |log| && |lines| < CONTEXT_EVENTS
        invariant offset <= |log| && Counts(r) && Faithful(r, log, lines) && old(lines) <= lines
        invariant Descending(lines[pins..]) && forall i | pins <= i < |lines| :: lines[i].sequence > |log| - offset
        invariant forall s | |log| - offset < s <= |log| :: RecentSettled(r, limit, heading, log, pins, lines, s)
        decreases |log| - offset
      {
        var sequence := |log| - offset;
        assert lines[..pins] == old(lines);
        var pinned := AlreadyPinned(lines, pins, sequence);
        ghost var before := lines;
        if !pinned {
          var readable: bool := *;
          if !readable { return Io; }
          var e := log[sequence - 1];
          if Recent(r, e) { Select(r, e, sequence); }
        }
        NewestGrow(r, limit, heading, log, pins, before, lines, sequence);
        offset := offset + 1;
      }
      if |lines| == CONTEXT_EVENTS {
        forall s | 1 <= s <= |log| ensures RecentSettled(r, limit, heading, log, pins, lines, s) {
          if s <= |log| - offset { FullRefuses(r, limit, heading, log, pins, lines, s); }
        }
      }
      err := Ok;
    }
  }

  predicate Pinned(e: Event) { e.kind != Checkpoint && e.pinned }

  lemma PinEligible(r: Request, e: Event)
    ensures Pinned(e) ==> Eligible(r, e)
  {}

  /** Before place j stand the chosen pins older than s; beside them the event does not fit,
      or there is no room for another line. */
  ghost predicate RefusedAt(r: Request, limit: nat, heading: nat, pins: seq<Line>, j: nat, e: Event, s: nat) {
    && j <= |pins| && (forall i | 0 <= i < j :: pins[i].sequence < s) &&
        (forall i | j <= i < |pins| :: pins[i].sequence > s)
    && (!Fits(r, limit, heading, pins[..j], e) || j == CONTEXT_EVENTS)
  }

  ghost predicate Refused(r: Request, limit: nat, heading: nat, pins: seq<Line>, e: Event, s: nat) {
    exists j: nat :: RefusedAt(r, limit, heading, pins, j, e, s)
  }

  /** A pinned event of the log is chosen, or was refused for a reason. */
  ghost predicate PinSettled(r: Request, limit: nat, heading: nat, log: seq<Event>, pins: seq<Line>, s: nat) {
    1 <= s <= |log| && Pinned(log[s - 1]) && !Has(pins, s) ==> Refused(r, limit, heading, pins, log[s - 1], s)
  }

  lemma RefusedStays(r: Request, limit: nat, heading: nat, a: seq<Line>, l: Line, e: Event, s: nat)
    requires Refused(r, limit, heading, a, e, s) && s < l.sequence
    ensures Refused(r, limit, heading, a + [l], e, s)
  {
    hide Fits;
    var j: nat :| RefusedAt(r, limit, heading, a, j, e, s);
    assert (a + [l])[..j] == a[..j];
    assert RefusedAt(r, limit, heading, a + [l], j, e, s);
  }

  lemma HasMore(a: seq<Line>, l: Line, s: nat)
    ensures Has(a + [l], s) <==> Has(a, s) || s == l.sequence
  {
    assert forall x | x in a :: x in a + [l];
    assert l in a + [l];
  }

  lemma PinsGrow(r: Request, limit: nat, heading: nat, log: seq<Event>, a: seq<Line>, b: seq<Line>, offset: nat)
    requires offset < |log| && Faithful(r, log, a) && Ascending(a) && forall l | l in a :: l.sequence <= offset
    requires forall s | 1 <= s <= offset :: PinSettled(r, limit, heading, log, a, s)
    requires var e := log[offset];
             b == (if Pinned(e) && Fits(r, limit, heading, a, e) then a + [Line(offset + 1, LineText(e))] else a) &&
               (b != a ==> Eligible(r, e))
    ensures Faithful(r, log, b) && Ascending(b) && forall l | l in b :: l.sequence <= offset + 1
    ensures forall s | 1 <= s <= offset + 1 :: PinSettled(r, limit, heading, log, b, s)
  {
    hide Fits, Eligible, LineText, Refused, Has, Pinned, Faithful;
    var l := Line(offset + 1, LineText(log[offset]));
    PinFaithful(r, log, a, b, offset);
    forall s | 1 <= s <= offset + 1 ensures PinSettled(r, limit, heading, log, b, s) {
      HasMore(a, l, s);
      if s <= offset {
        assert PinSettled(r, limit, heading, log, a, s);
        if b != a && Refused(r, limit, heading, a, log[s - 1], s) { RefusedStays(r, limit, heading, a, l, log[s - 1], s); }
      } else if b == a {
        LastRefused(r, limit, heading, log, a, s);
      }
    }
  }

  lemma PinFaithful(r: Request, log: seq<Event>, a: seq<Line>, b: seq<Line>, offset: nat)
    requires offset < |log| && Faithful(r, log, a) && Ascending(a) && forall l | l in a :: l.sequence <= offset
    requires b == a || (Eligible(r, log[offset]) && b == a + [Line(offset + 1, LineText(log[offset]))])
    ensures Faithful(r, log, b) && Ascending(b) && forall l | l in b :: l.sequence <= offset + 1
  {
    hide Eligible, LineText;
    assert forall i | 0 <= i < |a| :: a[i] in a;
  }

  lemma LastRefused(r: Request, limit: nat, heading: nat, log: seq<Event>, a: seq<Line>, s: nat)
    requires 1 <= s <= |log| && (Pinned(log[s - 1]) ==> !Fits(r, limit, heading, a, log[s - 1])) &&
      forall l | l in a :: l.sequence < s
    ensures PinSettled(r, limit, heading, log, a, s)
  {
    hide Fits;
    assert a[..|a|] == a && forall i | 0 <= i < |a| :: a[i] in a;
    if Pinned(log[s - 1]) { assert RefusedAt(r, limit, heading, a, |a|, log[s - 1], s); }
  }

  ghost predicate Descending(ls: seq<Line>) { forall i, j | 0 <= i < j < |ls| :: ls[i].sequence > ls[j].sequence }

  /** Beside the pins and the newer chosen events the event does not fit, or there was no room
      for another line. */
  ghost predicate RefusedNewest(r: Request, limit: nat, heading: nat, pins: nat, ls: seq<Line>, e: Event, s: nat) {
    exists j: nat :: RefusedNewestAt(r, limit, heading, pins, ls, j, e, s)
  }

  ghost predicate RefusedNewestAt(r: Request, limit: nat, heading: nat, pins: nat,
      ls: seq<Line>, j: nat, e: Event, s: nat) {
    && pins <= j <= |ls| && (forall i | pins <= i < j :: ls[i].sequence > s) &&
        (forall i | j <= i < |ls| :: ls[i].sequence < s)
    && (!Fits(r, limit, heading, ls[..j], e) || j == CONTEXT_EVENTS)
  }

  ghost predicate RecentSettled(r: Request, limit: nat, heading: nat, log: seq<Event>,
      pins: nat, ls: seq<Line>, s: nat) {
    1 <= s <= |log| && Recent(r, log[s - 1]) && !Has(ls, s) ==>
      RefusedNewest(r, limit, heading, pins, ls, log[s - 1], s)
  }

  lemma FullRefuses(r: Request, limit: nat, heading: nat, log: seq<Event>, pins: nat, ls: seq<Line>, s: nat)
    requires 1 <= s <= |log| && pins <= |ls| == CONTEXT_EVENTS && forall i | pins <= i < |ls| :: ls[i].sequence > s
    ensures RecentSettled(r, limit, heading, log, pins, ls, s)
  {
    hide Fits;
    assert RefusedNewestAt(r, limit, heading, pins, ls, |ls|, log[s - 1], s);
  }

  lemma RefusedNewestStays(r: Request, limit: nat, heading: nat, pins: nat, a: seq<Line>, l: Line, e: Event, s: nat)
    requires RefusedNewest(r, limit, heading, pins, a, e, s) && l.sequence < s
    ensures RefusedNewest(r, limit, heading, pins, a + [l], e, s)
  {
    hide Fits;
    var j: nat :| RefusedNewestAt(r, limit, heading, pins, a, j, e, s);
    assert (a + [l])[..j] == a[..j];
    assert RefusedNewestAt(r, limit, heading, pins, a + [l], j, e, s);
  }

  /** One step of the second pass at place `s`. */
  lemma NewestGrow(r: Request, limit: nat, heading: nat, log: seq<Event>, pins: nat, a: seq<Line>, b: seq<Line>, s: nat)
    requires 1 <= s <= |log| && pins <= |a| && Faithful(r, log, a) && Descending(a[pins..]) &&
      forall i | pins <= i < |a| :: a[i].sequence > s
    requires forall t | s < t <= |log| :: RecentSettled(r, limit, heading, log, pins, a, t)
    requires var e := log[s - 1];
             b == if !Has(a[..pins], s) && Recent(r, e) && Fits(r, limit, heading, a, e) then a + [Line(s, LineText(e))] else a
    ensures Faithful(r, log, b) && Descending(b[pins..]) && forall i | pins <= i < |b| :: b[i].sequence > s - 1
    ensures forall t | s - 1 < t <= |log| :: RecentSettled(r, limit, heading, log, pins, b, t)
  {
    hide Fits, LineText, Has, RefusedNewest, Faithful, Recent;
    var l := Line(s, LineText(log[s - 1]));
    if b != a {
      assert b[pins..] == a[pins..] + [l];
      assert forall i | 0 <= i < |a| - pins :: a[pins..][i] == a[pins + i];
      FaithfulMore(r, log, pins, a, s);
    }
    forall t | s - 1 < t <= |log| ensures RecentSettled(r, limit, heading, log, pins, b, t) {
      HasMore(a, l, t);
      if t > s {
        assert RecentSettled(r, limit, heading, log, pins, a, t);
        if b != a && RefusedNewest(r, limit, heading, pins, a, log[t - 1], t) {
          RefusedNewestStays(r, limit, heading, pins, a, l, log[t - 1], t);
        }
      } else if b == a {
        LastSkipped(r, limit, heading, log, pins, a, s);
      }
    }
  }

  lemma FaithfulMore(r: Request, log: seq<Event>, pins: nat, a: seq<Line>, s: nat)
    requires 1 <= s <= |log| && pins <= |a| && Faithful(r, log, a) && Recent(r, log[s - 1])
    requires !Has(a[..pins], s) && forall i | pins <= i < |a| :: a[i].sequence > s
    ensures Faithful(r, log, a + [Line(s, LineText(log[s - 1]))])
  {
    hide LineText;
    forall i | 0 <= i < |a| ensures a[i].sequence != s {
      if i < pins { assert a[..pins][i] == a[i] && a[i] in a[..pins]; }
    }
  }

  lemma LastSkipped(r: Request, limit: nat, heading: nat, log: seq<Event>, pins: nat, a: seq<Line>, s: nat)
    requires 1 <= s <= |log| && pins <= |a| && forall i | pins <= i < |a| :: a[i].sequence > s
    requires Has(a[..pins], s) || !Recent(r, log[s - 1]) || !Fits(r, limit, heading, a, log[s - 1])
    ensures RecentSettled(r, limit, heading, log, pins, a, s)
  {
    hide Fits, Recent;
    if Has(a[..pins], s) {
      var l :| l in a[..pins] && l.sequence == s;
      assert l in a;
    } else if Recent(r, log[s - 1]) {
      assert a[..|a|] == a;
      assert RefusedNewestAt(r, limit, heading, pins, a, |a|, log[s - 1], s);
    }
  }

  lemma OutOfBounds(r: Request, limit: nat, heading: nat, ls: seq<Line>, e: Event)
    ensures !Fits(r, limit, heading, ls, e) ==>
      Bytes(ls) + |LineText(e)| > limit || heading + Cost(r, ls) + Tokens(r, LineText(e)) > r.budget
  {}

  /** Maximality: below the event limit, nothing eligible that was left out fits the budget
      that remains. */
  lemma Maximal(r: Request, limit: nat, heading: nat, log: seq<Event>, pins: nat, ls: seq<Line>, s: nat)
    requires 1 <= s <= |log| && pins <= |ls| < CONTEXT_EVENTS && (forall l | l in ls :: l.sequence != s)
    requires var e := log[s - 1];
      e.kind != Checkpoint && (e.pinned || !(e.kind in {User, Assistant} && e.text == r.query))
    requires PinSettled(r, limit, heading, log, ls[..pins], s) && RecentSettled(r, limit, heading, log, pins, ls, s)
    ensures var line := LineText(log[s - 1]);
      Bytes(ls) + |line| > limit || heading + Cost(r, ls) + Tokens(r, line) > r.budget
  {
    OutOfBounds(r, limit, heading, ls, log[s - 1]);
    hide Fits;
    assert !Has(ls, s) && !Has(ls[..pins], s);
    if Recent(r, log[s - 1]) {
      var j: nat :| RefusedNewestAt(r, limit, heading, pins, ls, j, log[s - 1], s);
      StillUnfit(r, limit, heading, ls, j, log[s - 1]);
    } else {
      var j: nat :| RefusedAt(r, limit, heading, ls[..pins], j, log[s - 1], s);
      assert ls[..pins][..j] == ls[..j];
      StillUnfit(r, limit, heading, ls, j, log[s - 1]);
    }
  }

  /** What a successful selection guarantees about the lines it presents. */
  ghost predicate Chosen(r: Request, context: string, log: seq<Event>, out: string, ls: seq<Line>) {
    && Ascending(ls) && Faithful(r, log, ls) && |ls| <= CONTEXT_EVENTS
    && out == context + HEADING + Text(ls) && |out| <= CONTEXT_BYTES
    && Tokens(r, HEADING + Text(ls)) <= r.budget
  }

  /** The line of the event a chosen line stands for: its kind and id in brackets, its words, the
      source it refers to, a newline. */
  ghost predicate EventAt(r: Request, log: seq<Event>, out: string, from: int, to: int, sequence: nat) {
    && 1 <= sequence <= |log| && 0 <= from <= to <= |out|
    && var e := log[sequence - 1];
      var name := if e.kind == User then "user" else if e.kind == Assistant then "assistant"
                  else if e.kind == Decision then "decision" else if e.kind == ToolCall then "tool_call"
                  else if e.kind == ToolResult then "tool_result" else if e.kind == Diagnostic then "diagnostic"
                  else "artifact";
      && e.kind != Checkpoint && (e.kind in {User, Assistant} && e.text == r.query ==> e.pinned)
      && out[from..to] == "[" + name + ":" + e.id + "] " + e.text
                          + (if e.ref == "" then "" else " [source " + e.ref + "]") + "\n"
  }

  /** Behind the beginning nothing but the lines of events. */
  ghost predicate LinesAt(r: Request, start: string, log: seq<Event>, out: string, ls: seq<Line>, at: seq<int>) {
    && |at| == |ls| + 1 && start <= out && at[0] == |start| && at[|ls|] == |out|
    && forall k | 0 <= k < |ls| :: EventAt(r, log, out, at[k], at[k + 1], ls[k].sequence)
  }

  /** The context, the heading, and the lines of events in ascending order. */
  ghost predicate Shown(r: Request, context: string, log: seq<Event>, out: string, ls: seq<Line>) {
    && (exists at :: LinesAt(r, context + "## Memory source events\n", log, out, ls, at))
    && forall j, k | 0 <= j < k < |ls| :: ls[j].sequence < ls[k].sequence
  }

  /** At most so many bytes, lines and tokens; without a counter four bytes are a token. */
  ghost predicate Bounded(r: Request, context: string, out: string, lines: nat) {
    && context <= out && |out| <= 4194304 && lines <= 4096
    && var added := out[|context|..];
      if r.count(added) >= 0 then r.count(added) <= r.budget else (|added| + 3) / 4 <= r.budget
  }

  lemma EventLine(r: Request, log: seq<Event>, out: string, l: Line)
    requires 1 <= l.sequence <= |log| && l.text == LineText(log[l.sequence - 1]) && Eligible(r, log[l.sequence - 1])
    ensures EventAt(r, log, out + l.text, |out|, |out + l.text|, l.sequence)
  {
    assert (out + l.text)[|out|..] == l.text;
  }

  lemma EventStays(r: Request, log: seq<Event>, out: string, more: string, from: int, to: int, sequence: nat)
    requires EventAt(r, log, out, from, to, sequence)
    ensures EventAt(r, log, out + more, from, to, sequence)
  {
    assert (out + more)[from..to] == out[from..to];
  }

  lemma LinesSnoc(r: Request, start: string, log: seq<Event>, out: string, ls: seq<Line>, at: seq<int>, l: Line)
    requires LinesAt(r, start, log, out, ls, at)
    requires 1 <= l.sequence <= |log| && l.text == LineText(log[l.sequence - 1]) && Eligible(r, log[l.sequence - 1])
    ensures LinesAt(r, start, log, out + l.text, ls + [l], at + [|out + l.text|])
  {
    hide EventAt, LineText, Eligible;
    EventLine(r, log, out, l);
    forall k | 0 <= k < |ls| ensures EventAt(r, log, out + l.text, at[k], at[k + 1], ls[k].sequence) {
      EventStays(r, log, out, l.text, at[k], at[k + 1], ls[k].sequence);
    }
  }

  lemma NoLines(r: Request, start: string, log: seq<Event>)
    ensures LinesAt(r, start, log, start + Text([]), [], [|start|])
  {}

  lemma FaithfulFront(r: Request, log: seq<Event>, ls: seq<Line>)
    requires Faithful(r, log, ls) && ls != []
    ensures var l := ls[|ls| - 1];
      1 <= l.sequence <= |log| && l.text == LineText(log[l.sequence - 1]) && Eligible(r, log[l.sequence - 1])
    ensures Faithful(r, log, ls[..|ls| - 1])
  {
    hide LineText, Eligible;
    assert ls[|ls| - 1] in ls;
  }

  lemma TextSnoc(ls: seq<Line>)
    requires ls != []
    ensures Text(ls) == Text(ls[..|ls| - 1]) + ls[|ls| - 1].text
  {
    hide Bytes;
  }

  lemma FrontAndLast(ls: seq<Line>)
    requires ls != []
    ensures ls == ls[..|ls| - 1] + [ls[|ls| - 1]]
  {}

  lemma Joined(a: string, b: string, c: string)
    ensures a + (b + c) == (a + b) + c
  {}

  lemma {:induction false} Showing(r: Request, start: string, log: seq<Event>, ls: seq<Line>) returns (at: seq<int>)
    requires Faithful(r, log, ls)
    ensures LinesAt(r, start, log, start + Text(ls), ls, at)
  {
    hide LinesAt, LineText, Eligible, Faithful, Text;
    if ls == [] {
      NoLines(r, start, log);
      at := [|start|];
    } else {
      var rest, last := ls[..|ls| - 1], ls[|ls| - 1];
      FaithfulFront(r, log, ls);
      TextSnoc(ls);
      FrontAndLast(ls);
      Joined(start, Text(rest), last.text);
      at := Showing(r, start, log, rest);
      LinesSnoc(r, start, log, start + Text(rest), rest, at, last);
      at := at + [|start + Text(ls)|];
    }
  }

  /** What is presented, on the events themselves. */
  lemma ChosenShows(r: Request, context: string, log: seq<Event>, out: string, ls: seq<Line>)
    requires Chosen(r, context, log, out, ls)
    ensures Shown(r, context, log, out, ls) && Bounded(r, context, out, |ls|)
  {
    hide Text, Faithful, LinesAt;
    var at := Showing(r, context + HEADING, log, ls);
    assert out[|context|..] == HEADING + Text(ls);
  }

  /** `asper_source_history`. The ghost results are the lines in the order they were chosen. */
  method SourceHistory(r: Request, context: string, log: seq<Event>)
      returns (err: Err, out: string, available: nat, included: nat, ghost ls: seq<Line>, ghost pins: nat)
    ensures err == Ok || err == Io || err == Limit
    ensures err == Ok ==> available == |log| && included == |ls|
    ensures err == Ok && included == 0 ==> out == context
    ensures err == Ok && included > 0 ==> Chosen(r, context, log, out, Sort(ls)) && pins <= included
    ensures err == Ok && included > 0 ==> Shown(r, context, log, out, Sort(ls)) && Bounded(r, context, out, included)
    ensures err == Ok && included > 0 ==> Ascending(ls[..pins]) && Descending(ls[pins..])
    ensures err == Ok && Possible(r, context) ==>
      forall s | 1 <= s <= |log| :: Settled(r, Room(context), log, pins, ls, s)
    ensures !Possible(r, context) ==> err == Ok && included == 0
    ensures err == Limit ==> Tokens(r, HEADING + Text(Sort(ls))) > r.budget
  {
    hide Tokens, Bytes, Cost, Faithful, Fits, Sort, Text, Shown, Bounded;
    out, available, included, ls, pins := context, |log|, 0, [], 0;
    var heading := Tokens(r, HEADING);
    if r.budget == 0 || heading > r.budget || |context| > CONTEXT_BYTES - |HEADING| {
      return Ok, out, available, included, ls, pins;
    }
    var chosen := new Selection(r, CONTEXT_BYTES - |context| - |HEADING|, heading);
    err := chosen.TakePins(r, log);
    if err != Ok { return; }
    pins := |chosen.lines|;
    ghost var first := chosen.lines;
    err := chosen.TakeNewest(r, log);
    if err != Ok { return; }
    ls := chosen.lines;
    assert ls[..pins] == first;
    if |chosen.lines| > 0 {
      var ordered := Sort(chosen.lines);
      Presented(r, log, ls);
      var history := HEADING + Text(ordered);
      if Tokens(r, history) > r.budget { return Limit, out, available, included, ls, pins; }
      out := out + HEADING + Text(ordered);
      included := |chosen.lines|;
      assert out == context + HEADING + Text(ordered);
      ChosenShows(r, context, log, out, ordered);
    }
  }

  /** There is room and budget for a heading at all. */
  predicate Possible(r: Request, context: string) {
    r.budget > 0 && Tokens(r, HEADING) <= r.budget && |context| + |HEADING| <= CONTEXT_BYTES
  }

  function Room(context: string): nat {
    if |context| + |HEADING| <= CONTEXT_BYTES then CONTEXT_BYTES - |context| - |HEADING| else 0
  }

  /** Both passes' reasons for leaving an event out. */
  ghost predicate Settled(r: Request, limit: nat, log: seq<Event>, pins: nat, ls: seq<Line>, s: nat) {
    pins <= |ls| && PinSettled(r, limit, Tokens(r, HEADING), log, ls[..pins], s)
    && RecentSettled(r, limit, Tokens(r, HEADING), log, pins, ls, s)
  }

  lemma Presented(r: Request, log: seq<Event>, ls: seq<Line>)
    requires Faithful(r, log, ls)
    ensures Ascending(Sort(ls)) && Faithful(r, log, Sort(ls)) && Bytes(Sort(ls)) == Bytes(ls) &&
      |Text(Sort(ls))| == Bytes(ls)
  {
    SortAscending(ls);
    SortMembers(ls);
    SortBytes(ls);
  }
}
