/** The identity quorum (src/curator.c:330-372, 547-642): a curator change to an identity record
    waits until an identical proposal comes back in a later cycle. */
module Quorum {
  import opened Outcomes
  import opened Text
  import opened Records

  datatype Change = Rewrite | Retire
  datatype Proposal = Proposal(id: string, change: Change, hash: nat)
  datatype Waiting = Waiting(key: Proposal, firstAt: int)

  /** What happened, cycle by cycle. */
  datatype Event =
    | Recorded(key: Proposal, cycle: nat, at: int)
    | Confirmed(key: Proposal, cycle: nat, at: int)

  ghost predicate UniqueKeys(s: seq<Waiting>) { forall i, j | 0 <= i < j < |s| :: s[i].key != s[j].key }

  predicate Live(p: Waiting, now: int, window: int) { now - p.firstAt <= window }

  /** The last event about the key is its recording, at place m. */
  ghost predicate Open(log: seq<Event>, m: nat, key: Proposal, at: int) {
    && m < |log| && log[m].Recorded? && log[m].key == key && log[m].at == at
    && forall k | m < k < |log| :: log[k].key != key
  }

  /** A confirmation answers the latest recording of the same proposal, made in a strictly
      earlier cycle and still within the window; nothing else used that recording up. */
  ghost predicate Answered(log: seq<Event>, n: nat, m: nat, window: int)
    requires n < |log|
  {
    && m < n && log[m].Recorded? && log[m].key == log[n].key && log[m].cycle < log[n].cycle &&
        log[n].at - log[m].at <= window
    && forall k | m < k < n :: log[k].key != log[n].key
  }

  ghost predicate Justified(log: seq<Event>, window: int) {
    forall n | 0 <= n < |log| && log[n].Confirmed? :: exists m: nat :: Answered(log, n, m, window)
  }

  ghost predicate Backed(log: seq<Event>, p: Waiting, cycle: nat, seen: set<Proposal>) {
    exists m: nat ::
      Open(log, m, p.key, p.firstAt) && log[m].cycle <= cycle && (log[m].cycle == cycle ==> p.key in seen)
  }

  // ----- runs -----

  /** What a curator can do about identity records. */
  datatype Step = NewCycle | Propose(key: Proposal, now: int)

  datatype State = State(waiting: set<Waiting>, seen: set<Proposal>, cycle: nat, log: seq<Event>)

  const START: State := State({}, {}, 0, [])

  predicate Matched(waiting: set<Waiting>, key: Proposal, now: int, window: int) {
    exists p :: p in waiting && p.key == key && Live(p, now, window)
  }

  /** The live proposals of other keys. */
  function Others(waiting: set<Waiting>, key: Proposal, now: int, window: int): set<Waiting> {
    set p | p in waiting && Live(p, now, window) && p.key != key
  }

  /** A proposal is ignored within its cycle, answered when it waits, recorded otherwise. */
  function Next(s: State, step: Step, window: int): State {
    match step
    case NewCycle => s.(seen := {}, cycle := s.cycle + 1)
    case Propose(key, now) =>
      var others := Others(s.waiting, key, now, window);
      if key in s.seen then s
      else if Matched(s.waiting, key, now, window) then
        s.(waiting := others, log := s.log + [Confirmed(key, s.cycle, now)])
      else
        s.(waiting := others + {Waiting(key, now)}, seen := s.seen + {key},
           log := s.log + [Recorded(key, s.cycle, now)])
  }

  function Run(steps: seq<Step>, window: int): State {
    if steps == [] then START else Next(Run(steps[..|steps| - 1], window), steps[|steps| - 1], window)
  }

  lemma RunSnoc(steps: seq<Step>, step: Step, window: int)
    ensures Run(steps + [step], window) == Next(Run(steps, window), step, window)
  {
    assert (steps + [step])[..|steps|] == steps;
  }

  ghost predicate Sound(s: State, window: int) {
    && Justified(s.log, window)
    && (forall p | p in s.waiting :: Backed(s.log, p, s.cycle, s.seen))
    && forall k | 0 <= k < |s.log| :: s.log[k].cycle <= s.cycle
  }

  lemma NextKeepsSound(s: State, step: Step, window: int)
    requires Sound(s, window)
    ensures Sound(Next(s, step, window), window)
  {
    hide Justified, Backed;
    match step
    case NewCycle =>
      forall p | p in s.waiting ensures Backed(s.log, p, s.cycle + 1, {}) { Older(s.log, p, s.cycle, s.seen); }
    case Propose(key, now) =>
      if key !in s.seen { Backing(s, key, now, window); }
  }

  lemma Older(log: seq<Event>, p: Waiting, cycle: nat, seen: set<Proposal>)
    requires Backed(log, p, cycle, seen)
    ensures Backed(log, p, cycle + 1, {})
  {
    var m: nat :| Open(log, m, p.key, p.firstAt) && log[m].cycle <= cycle;
    assert Open(log, m, p.key, p.firstAt) && log[m].cycle <= cycle + 1;
  }

  lemma {:induction false} RunSound(steps: seq<Step>, window: int)
    ensures Sound(Run(steps, window), window)
  {
    hide Sound;
    if steps == [] {
      assert Sound(START, window) by { NothingYet(window); }
    } else {
      RunSound(steps[..|steps| - 1], window);
      NextKeepsSound(Run(steps[..|steps| - 1], window), steps[|steps| - 1], window);
    }
  }

  lemma NothingYet(window: int)
    ensures Sound(START, window)
  {}

  /** In every run, a confirmation answers a recording of the same proposal from a strictly earlier
      cycle and within the window; no output confirms itself. */
  lemma NoSelfConfirmation(steps: seq<Step>, window: int, n: nat) returns (m: nat)
    requires n < |Run(steps, window).log| && Run(steps, window).log[n].Confirmed?
    ensures var log := Run(steps, window).log;
      && m < n && log[m] == Recorded(log[n].key, log[m].cycle, log[m].at)
      && log[m].cycle < log[n].cycle && log[n].at - log[m].at <= window
      && forall k | m < k < n :: log[k].key != log[n].key
  {
    RunSound(steps, window);
    m :| Answered(Run(steps, window).log, n, m, window);
  }

  /** And a recording confirms once: of two confirmations of a proposal, the later one answers a
      recording made after the earlier. */
  lemma UsedOnce(steps: seq<Step>, window: int, a: nat, b: nat) returns (m: nat)
    requires a < b < |Run(steps, window).log|
    requires Run(steps, window).log[a].Confirmed? && Run(steps, window).log[b].Confirmed?
    requires Run(steps, window).log[a].key == Run(steps, window).log[b].key
    ensures var log := Run(steps, window).log;
      && a < m < b && log[m] == Recorded(log[b].key, log[m].cycle, log[m].at) && log[m].cycle < log[b].cycle
  {
    m := NoSelfConfirmation(steps, window, b);
  }

  datatype Verdict = Rejected | Pending | Send(op: Op)

  class Quorum {
    const window: int
    const maxChars: int
    const chars: string -> Option<nat>
    const hash: string -> nat
    var waiting: seq<Waiting>
    var seen: seq<Proposal>
    ghost var cycle: nat
    ghost var log: seq<Event>
    ghost var steps: seq<Step>     // the run so far

    ghost function Abstract(): State
      reads this
    {
      State((set p | p in waiting), (set k | k in seen), cycle, log)
    }

    ghost predicate Valid()
      reads this
    {
      UniqueKeys(waiting) && Abstract() == Run(steps, window)
    }

    constructor (window: int, maxChars: int, chars: string -> Option<nat>, hash: string -> nat)
      ensures Valid() && waiting == [] && steps == [] && this.window == window
    {
      this.window, this.maxChars, this.chars, this.hash := window, maxChars, chars, hash;
      waiting, seen, cycle, log, steps := [], [], 0, [], [];
    }

    /** A new curation cycle starts with an empty same-cycle guard. */
    method BeginCycle()
      requires Valid()
      modifies this`seen, this`cycle, this`steps
      ensures Valid() && steps == old(steps) + [NewCycle] && seen == []
    {
      RunSnoc(steps, NewCycle, window);
      seen, cycle, steps := [], cycle + 1, steps + [NewCycle];
    }

    /** `quorum_check`: one scan over the pending set, removing by moving the last entry into
        the hole. Expired entries go; a live match is used up once; otherwise the proposal is
        recorded. */
    method Check(key: Proposal, now: int) returns (confirmed: bool)
      requires UniqueKeys(waiting)
      modifies this`waiting
      ensures UniqueKeys(waiting)
      ensures confirmed <==> exists p :: p in old(waiting) && p.key == key && Live(p, now, window)
      ensures forall p :: p in waiting <==> (p in old(waiting) && Live(p, now, window) && p.key != key)
                                            || (!confirmed && p == Waiting(key, now))
    {
      hide Live;
      confirmed := false;
      var i := 0;
      while i < |waiting|
        invariant i <= |waiting| <= |old(waiting)| && UniqueKeys(waiting)
        invariant forall p | p in waiting :: p in old(waiting)
        invariant forall p | p in old(waiting) && p !in waiting :: !Live(p, now, window) || (confirmed && p.key == key)
        invariant forall k | 0 <= k < i :: Live(waiting[k], now, window) && waiting[k].key != key
        invariant confirmed ==> exists p :: p in old(waiting) && p.key == key && Live(p, now, window) && p !in waiting
        decreases |waiting| - i
      {
        ghost var before, x := waiting, waiting[i];
        if !Live(waiting[i], now, window) {
          waiting := waiting[i := waiting[|waiting| - 1]][..|waiting| - 1];
          Moved(before, i);
        } else if !confirmed && waiting[i].key == key {
          waiting := waiting[i := waiting[|waiting| - 1]][..|waiting| - 1];
          Moved(before, i);
          confirmed := true;
        } else {
          OnceOnly(old(waiting), waiting, i, key);
          i := i + 1;
        }
      }
      if !confirmed {
        waiting := waiting + [Waiting(key, now)];
      }
    }

    function Key(target: Record, change: Change, text: string): Proposal {
      Proposal(target.id, change, hash(if change == Rewrite then text else ""))
    }

    /** The change was asked for before, by the record's id, the kind of change and the hash of its
        text: in a strictly earlier cycle, within the window, and not answered since. */
    ghost predicate EarlierAsked(log: seq<Event>, m: nat, target: Record, change: Change, text: string, now: int)
      reads `cycle
    {
      && m < |log| && log[m].Recorded? && log[m].cycle < cycle && now - log[m].at <= window
      && SameAsk(log[m].key, target, change, text)
      && forall k | m < k < |log| :: !SameAsk(log[k].key, target, change, text)
    }

    predicate SameAsk(key: Proposal, target: Record, change: Change, text: string) {
      key.id == target.id && key.change == change && key.hash == hash(if change == Rewrite then text else "")
    }

    /** The pending change was noted in this cycle, now or before. */
    ghost predicate Noted(before: seq<Event>, asked: seq<Proposal>, target: Record, change: Change, h: nat, now: int)
      reads `cycle, `log, `waiting
    {
      || (log == before && exists q :: q in asked && q.id == target.id && q.change == change && q.hash == h)
      || (log == before + [Recorded(Proposal(target.id, change, h), cycle, now)]
          && Waiting(Proposal(target.id, change, h), now) in waiting)
    }

    /** `cycle_do_mutate` up to the funnel, for a handle's record as retrieved. A proper change to an
        identity record is one proposal of the run, and it is sent exactly when it is confirmed. */
    method Mutate(target: Record, change: Change, text: string, now: int) returns (v: Verdict)
      requires Valid()
      modifies this`waiting, this`seen, this`log, this`steps
      ensures Valid() && old(log) <= log
      ensures v == Rejected <==>
        target.evidence.kind != Inferred || target.locked ||
        (change == Rewrite && (Blank(text) || chars(text).None? || (maxChars > 0 && chars(text).value > maxChars)))
      ensures v.Send? ==>
        v.op == if change == Rewrite then Update(now, target.id, text, false) else Deprecate(now, target.id, text)
      ensures target.section != Identity || v == Rejected ==>
        steps == old(steps) && Abstract() == old(Abstract()) && v != Pending
      ensures target.section == Identity && v != Rejected ==>
        steps == old(steps) + [Propose(Key(target, change, text), now)]
      ensures target.section == Identity && v != Rejected ==>
        (v.Send? <==> log == old(log) + [Confirmed(Key(target, change, text), cycle, now)])
      ensures target.section == Identity && v.Send? ==>
        exists m: nat :: EarlierAsked(old(log), m, target, change, text, now)
      ensures target.section == Identity && v != Rejected ==> (v.Send? <==>
        && (exists p :: p in old(waiting) && now - p.firstAt <= window && p.key.id == target.id &&
              p.key.change == change && p.key.hash == hash(if change == Rewrite then text else ""))
        && forall q | q in old(seen) && q.id == target.id && q.change == change ::
            q.hash != hash(if change == Rewrite then text else ""))
      ensures v == Pending ==>
        Noted(old(log), old(seen), target, change, hash(if change == Rewrite then text else ""), now)
      ensures target.section == Identity && change == Rewrite && v.Send? ==>
        exists e :: e in old(log) && e.key.id == target.id && e.key.change == Rewrite && e.key.hash == hash(text)
    {
      hide Answered, Next;
      if target.evidence.kind != Inferred || target.locked { return Rejected; }
      if change == Rewrite {
        if Blank(text) || chars(text).None? { return Rejected; }
        if maxChars > 0 && chars(text).value > maxChars { return Rejected; }
      }
      if target.section == Identity {
        var key := Key(target, change, text);
        var confirmed := Answer(key, now);
        assert SameAsk(key, target, change, text);
        if !confirmed { return Pending; }
        ghost var m: nat :| Answered(log, |old(log)|, m, window);
        Asked(old(log), m, target, change, text, key, now);
        assert old(log)[m] in old(log);
      }
      return Send(if change == Rewrite then Update(now, target.id, text, false) else Deprecate(now, target.id, text));
    }

    lemma Asked(before: seq<Event>, m: nat, target: Record, change: Change, text: string, key: Proposal, now: int)
      requires Answered(before + [Confirmed(key, cycle, now)], |before|, m, window)
      requires SameAsk(key, target, change, text)
      ensures EarlierAsked(before, m, target, change, text, now)
    {
      var log := before + [Confirmed(key, cycle, now)];
      forall k | m < k < |before| ensures !SameAsk(before[k].key, target, change, text) {
        assert log[k] == before[k] && log[k].key != key;
      }
    }

    /** The same-cycle guard, then the pending set. */
    method Answer(key: Proposal, now: int) returns (confirmed: bool)
      requires Valid()
      modifies this`waiting, this`seen, this`log, this`steps
      ensures Valid() && steps == old(steps) + [Propose(key, now)] && old(log) <= log
      ensures confirmed <==> log == old(log) + [Confirmed(key, cycle, now)]
      ensures confirmed ==> exists m: nat :: Answered(log, |old(log)|, m, window)
      ensures confirmed <==>
        key !in old(seen) && exists p :: p in old(waiting) && p.key == key && now - p.firstAt <= window
      ensures !confirmed ==> (log == old(log) && key in old(seen)) ||
                             (log == old(log) + [Recorded(key, cycle, now)] && Waiting(key, now) in waiting)
    {
      hide Answered, Run;
      RunSnoc(steps, Propose(key, now), window);
      RunSound(steps + [Propose(key, now)], window);
      steps := steps + [Propose(key, now)];
      if key in seen { return false; }
      ghost var before := waiting;
      confirmed := Check(key, now);
      Scanned(before, waiting, key, now, window, confirmed);
      if !confirmed {
        seen := seen + [key];
        log := log + [Recorded(key, cycle, now)];
        assert log[|old(log)|].Recorded?;
        return;
      }
      log := log + [Confirmed(key, cycle, now)];
      assert Sound(Abstract(), window) && log[|old(log)|].Confirmed?;
    }
  }

  lemma Scanned(a: seq<Waiting>, b: seq<Waiting>, key: Proposal, now: int, window: int, confirmed: bool)
    requires confirmed <==> exists p :: p in a && p.key == key && Live(p, now, window)
    requires forall p :: p in b <==>
      (p in a && Live(p, now, window) && p.key != key) || (!confirmed && p == Waiting(key, now))
    ensures var s := set p | p in a;
      && confirmed == Matched(s, key, now, window)
      && (set p | p in b) == Others(s, key, now, window) + (if confirmed then {} else {Waiting(key, now)})
  {}

  /** Moving the last entry into the hole removes exactly that entry. */
  lemma Moved(s: seq<Waiting>, i: nat)
    requires UniqueKeys(s) && i < |s|
    ensures var t := s[i := s[|s| - 1]][..|s| - 1];
            UniqueKeys(t) && (forall p :: p in t <==> p in s && p != s[i]) && forall k | 0 <= k < i :: t[k] == s[k]
  {
    var t := s[i := s[|s| - 1]][..|s| - 1];
    forall p | p in s && p != s[i] ensures p in t {
      var k :| 0 <= k < |s| && s[k] == p;
      assert t[if k == |s| - 1 then i else k] == p;
    }
  }

  /** Keys are unique, so a second entry under a used-up key cannot follow. */
  lemma OnceOnly(old_: seq<Waiting>, s: seq<Waiting>, i: nat, key: Proposal)
    requires UniqueKeys(old_) && i < |s| && forall p | p in s :: p in old_
    ensures (exists p :: p in old_ && p.key == key && p !in s) ==> s[i].key != key
  {
    assert s[i] in s;
  }

  /** One proposal and its event keep every waiting proposal backed and every confirmation
      answered. */
  lemma Backing(s: State, key: Proposal, now: int, window: int)
    requires Sound(s, window) && key !in s.seen
    ensures Sound(Next(s, Propose(key, now), window), window)
  {
    hide Justified, Backed;
    var t := Next(s, Propose(key, now), window);
    var e := t.log[|s.log|];
    forall p | p in t.waiting ensures Backed(t.log, p, s.cycle, t.seen) {
      if p.key != key {
        StillBacked(s.log, e, p, s.cycle, s.seen, t.seen);
      } else {
        JustRecorded(s.log, e, s.cycle, t.seen);
      }
    }
    if p :| p in s.waiting && p.key == key && Live(p, now, window) { LastAnswers(s, p, e, window); }
    StillJustified(s.log, e, window);
  }

  lemma JustRecorded(log: seq<Event>, e: Event, cycle: nat, seen: set<Proposal>)
    requires e.Recorded? && e.cycle == cycle && e.key in seen
    ensures Backed(log + [e], Waiting(e.key, e.at), cycle, seen)
  {
    assert Open(log + [e], |log|, e.key, e.at);
  }

  lemma LastAnswers(s: State, p: Waiting, e: Event, window: int)
    requires Backed(s.log, p, s.cycle, s.seen) && p.key !in s.seen && Live(p, e.at, window)
    requires e == Confirmed(p.key, s.cycle, e.at)
    ensures exists m: nat :: Answered(s.log + [e], |s.log|, m, window)
  {
    var m: nat :| Open(s.log, m, p.key, p.firstAt) && s.log[m].cycle <= s.cycle &&
      (s.log[m].cycle == s.cycle ==> p.key in s.seen);
    assert Answered(s.log + [e], |s.log|, m, window);
  }

  lemma StillBacked(log: seq<Event>, e: Event, p: Waiting, cycle: nat, seen: set<Proposal>, more: set<Proposal>)
    requires Backed(log, p, cycle, seen) && e.key != p.key && forall x | x in seen :: x in more
    ensures Backed(log + [e], p, cycle, more)
  {
    var m: nat :| Open(log, m, p.key, p.firstAt) && log[m].cycle <= cycle && (log[m].cycle == cycle ==> p.key in seen);
    assert Open(log + [e], m, p.key, p.firstAt);
  }

  lemma StillJustified(log: seq<Event>, e: Event, window: int)
    requires Justified(log, window)
    ensures e.Recorded? || (exists m: nat :: Answered(log + [e], |log|, m, window)) ==> Justified(log + [e], window)
  {
    forall n | 0 <= n < |log| && log[n].Confirmed? ensures exists m: nat :: Answered(log + [e], n, m, window) {
      var m: nat :| Answered(log, n, m, window);
      assert Answered(log + [e], n, m, window);
    }
  }
}
