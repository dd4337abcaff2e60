/** One process running curation cycles over the durable state of Receipts: the order of
    steps in `asper_curation_cycle`, `asper_curation_begin`, `asper_curation_finish`,
    `finalize`, `archive_receipt` and `asper_curation_recover`, with a failure possible at
    every step and at each of the seven fault boundaries. */
module CurationCycle {
  import opened Outcomes
  import opened StrOrder
  import opened Acknowledgements
  import opened Receipts

  /** What recovery leads to: the history with the completed pending receipt in it. */
  function FinalHistory(d: Durable): seq<Receipt> {
    match d.pending
    case None => d.history
    case Some(r) => if r.stage == Prepared then d.history else Settled(d, r) + [r]
  }

  ghost predicate Unique(s: seq<string>) { forall i, j | 0 <= i < j < |s| :: s[i] != s[j] }

  /** The live receipt and the durable one are of the same batch; once the pending file is gone the
      batch is acknowledged as a whole or not at all. */
  ghost predicate GuardFits(d: Durable, g: Receipt) {
    && (d.pending.Some? ==> d.pending.value.sources == g.sources)
    && (d.pending == None ==> Acknowledged(d, g) || forall s | s in g.sources :: s !in d.acked)
  }

  ghost predicate Acknowledged(d: Durable, g: Receipt) { forall s | s in g.sources :: s in d.acked }

  /** What a running process keeps about its queue: a source that some receipt covers is queued
      only while that receipt's guard is up. */
  ghost predicate Kept(d: Durable, guard: Option<Receipt>, queue: seq<string>, loaded: seq<string>,
                       admitted: set<string>) {
    && Unique(queue) && (forall s | s in queue :: s in admitted)
    && (forall s | s in queue && Covered(d, s) :: guard.Some? && s in guard.value.sources)
    && (guard == None ==> d.pending == None && forall s | Covered(d, s) :: s in loaded || s in admitted)
    && (guard.Some? ==> GuardFits(d, guard.value))
  }

  /** The archived receipt tells which operations of the journal are its batch's: all behind those
      that were there before, up to the end. */
  ghost predicate Booked(r: Receipt, id: string, before: nat, journal: seq<Effect>) {
    && r.id == id && r.stage == Processed && r.opsBefore == before && r.opsAfter == Some(|journal|)
    && forall k | before <= k < |journal| :: journal[k].batch == id
  }

  /** A batch that did not get through: its guard is up, and nothing else became covered. */
  ghost predicate Held(before: Durable, d: Durable, guard: Option<Receipt>, batch: seq<string>) {
    && guard.Some? && guard.value.sources == batch && GuardFits(d, guard.value)
    && forall s | Covered(d, s) :: Covered(before, s) || s in batch
  }

  class Curation {
    var d: Durable
    var guard: Option<Receipt>
    var poisoned: bool
    var queue: seq<string>        // sources waiting for a cycle
    var loaded: seq<string>       // acknowledgements read when the process started
    var admitted: set<string>     // what the cursors have passed
    ghost var log: seq<Action>
    ghost var seen: iset<(Durable, seq<Action>)>

    ghost predicate Valid()
      reads this
    {
      && Good(d, log)
      && (forall x :: x in seen ==> Good(x.0, x.1))
      && Kept(d, guard, queue, loaded, admitted)
    }

    /** A process starts on whatever durable image the previous one left. */
    constructor (d: Durable, ghost log: seq<Action>)
      requires Good(d, log)
      ensures Good(this.d, this.log) && this.d == d && this.log == log
      ensures queue == [] && guard == d.pending && !poisoned && admitted == {} && seen == iset{}
    {
      this.d, guard, poisoned, queue, loaded := d, d.pending, false, [], d.acked;
      admitted, this.log, seen := {}, log, iset{};
    }

    /** A durable replacement that may or may not take effect, and may fail to say so. */
    method Replace(next: Durable, ghost nextLog: seq<Action>) returns (ok: bool)
      requires Good(d, log) && Good(next, nextLog) && forall x :: x in seen ==> Good(x.0, x.1)
      modifies this`d, this`log, this`seen
      ensures forall x :: x in seen ==> Good(x.0, x.1)
      ensures (d == next && log == nextLog) || (!ok && d == old(d) && log == old(log))
      ensures seen == old(seen) + iset{(d, log)}
    {
      var happened, reported: bool := *, *;
      if happened {
        d := next;
        log := nextLog;
      }
      seen := seen + iset{(d, log)};
      ok := happened && reported;
    }

    /** `archive_receipt`: idempotent, because a retained guard keeps the receipt last. */
    method Archive(r: Receipt) returns (err: Err)
      requires Good(d, log) && d.pending == Some(r) && r.stage != Prepared && forall x :: x in seen ==> Good(x.0, x.1)
      modifies this`d, this`log, this`seen
      ensures Good(d, log) && d.pending == Some(r) && (forall x :: x in seen ==> Good(x.0, x.1)) && log == old(log)
      ensures err == Ok || err == Io
      ensures err == Ok ==> Archived(d, r)
      ensures FinalHistory(d) == old(FinalHistory(d)) && d.journal == old(d.journal)
      ensures forall x :: x in seen ==> x in old(seen) || FinalHistory(x.0) == old(FinalHistory(d))
    {
      hide Good;
      var fault: bool := *;
      if fault { return Io; }
      if Archived(d, r) {
        SameText(d, log, r);
        if d.history[|d.history| - 1] != r { return Parse; }
        fault := *;
        return if fault then Io else Ok;
      }
      ArchiveKeepsGood(d, log, r);
      var ok := Replace(d.(history := d.history + [r]), log);
      return if ok then Ok else Io;
    }

    /** `finalize`: history, then acknowledgement, then the guard. Interrupted anywhere, the
        image that is left finalizes to the same history. */
    method Finalize(r: Receipt) returns (err: Err)
      requires Good(d, log) && d.pending == Some(r) && r.stage != Prepared && forall x :: x in seen ==> Good(x.0, x.1)
      modifies this`d, this`log, this`seen, this`guard
      ensures Good(d, log) && (forall x :: x in seen ==> Good(x.0, x.1)) && log == old(log)
      ensures FinalHistory(d) == old(FinalHistory(d)) && d.journal == old(d.journal)
      ensures forall x :: x in seen ==> x in old(seen) || FinalHistory(x.0) == old(FinalHistory(d))
      ensures err == Ok ==> guard == None && d.pending == None && d.history == old(FinalHistory(d))
      ensures err != Ok ==> guard == old(guard) && (d.pending == old(d.pending) || d.pending == None)
    {
      hide Good, AcksAre;
      err := Archive(r);
      if err != Ok { return; }
      var fault: bool := *;               // boundary 5
      if fault { return Io; }
      var acked;
      err, acked := MarkCurated(d.acked, r.sources);
      if err != Ok { return; }
      AckKeepsGood(d, log, acked);
      var ok := Replace(d.(acked := acked), log);
      fault := *;                          // boundary 6
      if !ok || fault { return Io; }
      UnguardKeepsGood(d, log);
      EndOfHistory(d, log, r);
      ok := Replace(d.(pending := None), log);
      fault := *;                          // boundary 7
      if !ok || fault { return Io; }
      guard := None;
      return Ok;
    }

    /** `asper_curation_recover` at open: a completed batch is finished, a prepared one only
        keeps the guard up. Afterwards the process invariant holds. */
    method Recover() returns (err: Err)
      requires Good(d, log) && queue == [] && guard == d.pending && seen == iset{} && loaded == d.acked
      modifies this
      ensures Valid() && log == old(log) && queue == []
      ensures FinalHistory(d) == old(FinalHistory(d))
      ensures forall x :: x in seen ==> FinalHistory(x.0) == old(FinalHistory(d))
      ensures err == Ok ==> (guard == None <==> old(d.pending) == None || old(d.pending).value.stage != Prepared)
      ensures err == Ok && guard == None ==> d.history == old(FinalHistory(d)) && AcksAre(d.acked, d.history)
    {
      hide AcksAre;
      admitted := {};
      err := Ok;
      if guard.Some? && guard.value.stage != Prepared {
        err := Finalize(guard.value);
      }
      NothingPending(d, log);
      loaded := d.acked;
    }

    /** Admission by cursor: each source is offered at most once per process, skipped when it
        was acknowledged before, and never offered while a receipt is pending. */
    method Admit(s: string)
      requires Valid() && guard == None && s !in admitted
      modifies this`queue, this`admitted
      ensures Valid() && queue == (if s in loaded then old(queue) else old(queue) + [s])
    {
      hide Good;
      if s !in loaded {
        queue := queue + [s];
      }
      admitted := admitted + {s};
    }

    /** Producers at work while a cycle runs and no receipt is pending. */
    method Producers()
      requires Valid() && guard == None
      modifies this`queue, this`admitted
      ensures Valid() && old(queue) <= queue
    {
      hide Good, Kept;
      var n: nat := *;
      while n > 0
        invariant Valid() && old(queue) <= queue
      {
        var s: string := *;
        if s !in admitted { Admit(s); }
        n := n - 1;
      }
    }

    /** `asper_curation_begin`: sync the journal, raise the live guard, make the prepared
        receipt durable. The guard stays up even when persistence is uncertain. */
    method Begin(sources: seq<string>, id: string, handles: nat, proposal: nat) returns (err: Err)
      requires Valid() && guard == None && !Promised(log, |log|, id)
      requires forall s | s in sources :: !Covered(d, s)
      modifies this`d, this`log, this`seen, this`guard, this`poisoned
      ensures Good(d, log) && (forall x :: x in seen ==> Good(x.0, x.1))
      ensures err == Limit <==>
        sources == [] || |sources| > BATCH_MAX || handles > HANDLES_MAX || proposal > PROPOSAL_MAX
      ensures err == Ok || err == Limit || err == Io || err == Busy
      ensures guard == None ==> err != Ok && d.pending == None && d.history == old(d.history) && log == old(log)
      ensures err == Ok ==> !poisoned && d.pending == guard && guard.Some? && guard.value.stage == Prepared
      ensures err == Ok ==>
        guard.value.id == id && guard.value.sources == sources && log == old(log) + [PreparedDurable(guard.value)]
      ensures d.journal == old(d.journal) && (err == Ok ==> guard.value.opsBefore == |d.journal|)
      ensures d.history == old(d.history) && d.acked == old(d.acked)
      ensures guard.Some? ==> guard.value.sources == sources && (d.pending == guard || d.pending == None)
    {
      hide Good, Covered;
      if sources == [] || |sources| > BATCH_MAX || handles > HANDLES_MAX || proposal > PROPOSAL_MAX { return Limit; }
      UncoveredIsDisjoint(d, sources);
      err := SyncJournal();
      if err != Ok { return; }
      if poisoned { return Busy; }
      var r := Receipt(id, sources, |d.journal|, Prepared, None);
      guard := Some(r);
      PrepareKeepsGood(d, log, r);
      var ok := Replace(d.(pending := Some(r)), log + [PreparedDurable(r)]);
      var fault: bool := *;                // boundary 1
      return if ok && !fault then Ok else Io;
    }

    /** `asper_journal_sync`: an uncertain sync poisons the store. */
    method SyncJournal() returns (err: Err)
      requires Good(d, log) && forall x :: x in seen ==> Good(x.0, x.1)
      modifies this`d, this`seen, this`poisoned
      ensures Good(d, log) && (forall x :: x in seen ==> Good(x.0, x.1))
      ensures d == old(d) || d == old(d).(synced := |d.journal|)
      ensures err == Ok || err == Io
      ensures err == Ok ==> !poisoned && d.synced == |d.journal|
      ensures err != Ok ==> poisoned && d == old(d)
    {
      hide Good;
      var ok: bool := *;
      if poisoned || !ok {
        poisoned := true;
        return Io;
      }
      SyncKeepsGood(d, log);
      d := d.(synced := |d.journal|);
      seen := seen + iset{(d, log)};
      return Ok;
    }

    /** One operation of the batch goes through the funnel: journaled, rejected, or refused
        because persistence is uncertain. */
    method ApplyEffect(number: nat) returns (applied: bool)
      requires Good(d, log) && (forall x :: x in seen ==> Good(x.0, x.1))
      requires d.pending.Some? && d.pending.value.stage == Prepared
      modifies this`d, this`log, this`seen, this`poisoned
      ensures Good(d, log) && (forall x :: x in seen ==> Good(x.0, x.1))
      ensures d.pending == old(d.pending) && d.history == old(d.history)
      ensures old(poisoned) ==> d == old(d) && log == old(log) && poisoned && !applied
      ensures d.journal == old(d.journal) || d.journal == old(d.journal) + [Effect(d.pending.value.id, number)]
      ensures applied ==> !poisoned && d.journal == old(d.journal) + [Effect(d.pending.value.id, number)]
    {
      hide Good;
      var rejected, reached, failed: bool := *, *, *;
      if poisoned || rejected { return false; }
      if reached {
        var x := Effect(d.pending.value.id, number);
        JournalKeepsGood(d, log, x);
        d := d.(journal := d.journal + [x]);
        log := log + [Journaled(x.batch)];
        seen := seen + iset{(d, log)};
      }
      poisoned := failed || !reached;
      return !poisoned;
    }

    /** `asper_curation_finish`: the completed receipt becomes durable, then `finalize`. */
    method Finish() returns (err: Err)
      requires Good(d, log) && (forall x :: x in seen ==> Good(x.0, x.1))
      requires guard.Some? && d.pending == guard && guard.value.stage == Prepared && d.synced == |d.journal|
      modifies this`d, this`log, this`seen, this`guard
      ensures Good(d, log) && (forall x :: x in seen ==> Good(x.0, x.1)) && log == old(log)
      ensures guard == None <==> err == Ok
      ensures err != Ok ==> Held(old(d), d, guard, old(guard).value.sources)
      ensures err == Ok ==>
        d.pending == None && |d.history| == |old(d.history)| + 1 && d.history[..|old(d.history)|] == old(d.history)
      ensures err == Ok ==> d.history[|old(d.history)|].sources == old(guard).value.sources
      ensures err == Ok ==> var r, g := d.history[|old(d.history)|], old(guard).value;
        r.id == g.id && r.stage == Processed && r.opsBefore == g.opsBefore && r.opsAfter == Some(|d.journal|)
      ensures d.journal == old(d.journal)
      ensures poisoned ==> err == Io
    {
      hide Good, Held, Covered, GuardFits;
      Pending(d, d, guard, guard.value.sources);
      if poisoned { return Io; }
      var r := guard.value.(stage := Processed, opsAfter := Some(|d.journal|));
      CompleteKeepsGood(d, log, r);
      NotArchived(d, log);
      var ok := Replace(d.(pending := Some(r)), log);
      Pending(old(d), d, guard, r.sources);
      if !ok { return Io; }
      guard := Some(r);
      Pending(old(d), d, guard, r.sources);
      var fault: bool := *;                // boundary 4
      if fault { return Io; }
      err := Finalize(r);
      if err != Ok { Unfinished(old(d), d, log, r); }
    }

    /** `asper_curation_cycle`: take a batch from the head of the queue, generate, prepare,
        apply, sync, finish. A failure puts the batch back; while a receipt is pending every
        further cycle is refused. `take` and `ops` stand for what the transcript budget and
        the curator's reply decide. */
    method Cycle(take: nat, id: string, handles: nat, proposal: nat, ops: nat) returns (err: Err, done: seq<string>)
      requires Valid() && !Promised(log, |log|, id) && 1 <= take
      modifies this
      ensures Valid()
      ensures old(guard) != None ==> err == Busy && d == old(d) && log == old(log) && queue == old(queue)
      ensures err != Ok ==> old(queue) <= queue && done == []
      ensures err == Ok ==> old(queue) <= done + queue
      ensures err == Ok && old(queue) != [] ==>
        guard == None && done != [] && d.history != [] &&
        d.history[|d.history| - 1].sources == done && d.history[..|d.history| - 1] == old(d.history)
      ensures err == Ok && old(queue) != [] ==>
        Booked(d.history[|d.history| - 1], id, |old(d.journal)|, d.journal) && old(d.journal) <= d.journal
    {
      hide Good, Covered;
      done := [];
      if guard != None { return Busy, done; }
      if queue == [] { return Ok, done; }
      var n := if take < |queue| then take else |queue|;
      var batch := queue[..n];
      err := RunBatch(batch, id, handles, proposal, ops);
      if err == Ok {
        Remaining(old(d), d, batch);
        SplitQueue(queue, n);
        assert queue == batch + queue[n..];
        done, queue := batch, queue[n..];
      }
    }

    /** Everything between taking the batch and dropping it. */
    method RunBatch(batch: seq<string>, id: string, handles: nat, proposal: nat, ops: nat) returns (err: Err)
      requires Valid() && guard == None && !Promised(log, |log|, id)
      requires forall s | s in batch :: s in queue
      modifies this
      ensures Good(d, log) && (forall x :: x in seen ==> Good(x.0, x.1)) && old(queue) <= queue
      ensures err != Ok ==> Valid()
      ensures err == Ok ==> guard == None && d.pending == None && |d.history| == |old(d.history)| + 1
      ensures err == Ok ==>
        d.history[..|old(d.history)|] == old(d.history) && d.history[|old(d.history)|].sources == batch
      ensures err == Ok ==>
        Booked(d.history[|old(d.history)|], id, |old(d.journal)|, d.journal) && old(d.journal) <= d.journal
      ensures err == Ok ==> Kept(old(d), None, queue, loaded, admitted)
    {
      hide Good, Covered, Kept;
      var fault: bool := *;                // quotas, related records, prompt
      if fault { return Io; }
      Uncovered(d, queue, loaded, admitted);
      GenerateKeepsGood(d, log, batch);
      NotPromised(log, Generated(batch), id);
      log := log + [Generated(batch)];
      seen := seen + iset{(d, log)};
      Producers();
      fault := *;                          // generation or parsing failed
      if fault { return Io; }
      err := Process(batch, id, handles, proposal, ops);
      if err != Ok && guard.Some? { FailedKeeps(old(d), d, guard, batch, queue, loaded, admitted); }
    }

    /** From the receipt to the finish. */
    method Process(batch: seq<string>, id: string, handles: nat, proposal: nat, ops: nat) returns (err: Err)
      requires Valid() && guard == None && !Promised(log, |log|, id)
      requires forall s | s in batch :: s in queue
      modifies this`d, this`log, this`seen, this`guard, this`poisoned
      ensures Good(d, log) && (forall x :: x in seen ==> Good(x.0, x.1))
      ensures err != Ok && guard == None ==> Kept(d, guard, queue, loaded, admitted)
      ensures err != Ok && guard.Some? ==> Held(old(d), d, guard, batch)
      ensures err == Ok ==> guard == None && d.pending == None && |d.history| == |old(d.history)| + 1
      ensures err == Ok ==>
        d.history[..|old(d.history)|] == old(d.history) && d.history[|old(d.history)|].sources == batch
      ensures err == Ok ==>
        Booked(d.history[|old(d.history)|], id, |old(d.journal)|, d.journal) && old(d.journal) <= d.journal
    {
      hide Good, Covered, Kept, GuardFits, Held;
      Uncovered(d, queue, loaded, admitted);
      err := Begin(batch, id, handles, proposal);
      SameKept(old(d), d, queue, loaded, admitted);
      Begun(old(d), old(log), d, guard, batch);
      if err != Ok { return; }
      var i := 0;
      var fault: bool := *;
      while i < ops && !fault
        invariant Good(d, log) && (forall x :: x in seen ==> Good(x.0, x.1))
        invariant guard.Some? && d.pending == guard && guard.value.stage == Prepared && guard.value.sources == batch
        invariant d.history == old(d.history) && old(d.journal) <= d.journal
        invariant guard.value.id == id && guard.value.opsBefore == |old(d.journal)|
        invariant forall k | |old(d.journal)| <= k < |d.journal| :: d.journal[k].batch == id
        decreases ops - i
      {
        var _ := ApplyEffect(i);
        fault := *;                        // boundary 2
        i := i + 1;
      }
      if !fault {
        var _ := ApplyEffect(ops);         // the access batch
        err := SyncJournal();
        fault := *;                        // boundary 3
      }
      Pending(old(d), d, guard, batch);
      if err != Ok || fault { return Io; }
      ghost var mid := d;
      err := Finish();
      if err != Ok { HeldLonger(old(d), mid, d, guard, batch); }
    }

    /** No source is both queued and acknowledged, except in one state: a cycle failed behind its
        durable acknowledgement, and its guard still forbids every generation. */
    lemma TwiceExactly()
      requires Valid()
      ensures (exists s :: s in queue && s in d.acked) <==>
        guard.Some? && Acknowledged(d, guard.value) && exists s :: s in queue && s in guard.value.sources
      ensures guard == None ==> forall s | s in queue :: s !in d.acked
    {
      hide Accounts, Safe;
      forall s | s in d.acked ensures Covered(d, s) { AckedCovered(d, log, s); }
      if s :| s in queue && s in d.acked { AllOrNothing(d, log, guard.value, s); }
    }
  }

  /** That state is reached: an operation-free cycle for one source that fails at the sixth fault
      boundary leaves the source acknowledged, and restoring the batch queues it again. */
  lemma BehindAcknowledgement(s: string, id: string) returns (steps: seq<Step>, t: State, g: Receipt)
    ensures Run(EMPTY, steps, t) && Good(t.d, t.log)
    ensures Kept(t.d, Some(g), [s], [], {s}) && s in t.d.acked
  {
    hide Run, Good;
    var p := Receipt(id, [s], 0, Prepared, None);
    g := p.(stage := Processed, opsAfter := Some(0));
    steps := [Generate([s]), Prepare(p), SyncAll] + [Complete(g), Archive, Acknowledge([s])];
    t := Acked(p, g);
    ToReceipt(s, p);
    ToAcknowledgement(s, p, g);
    RunAppends(EMPTY, [Generate([s]), Prepare(p), SyncAll], Pended(p), [Complete(g), Archive, Acknowledge([s])], t);
    EmptyGood();
    RunKeepsGood(EMPTY, steps, t);
  }

  function Pended(p: Receipt): State {
    State(Durable(Some(p), [], [], [], 0), [Generated(p.sources), PreparedDurable(p)])
  }

  function Acked(p: Receipt, g: Receipt): State {
    State(Durable(Some(g), [g], p.sources, [], 0), [Generated(p.sources), PreparedDurable(p)])
  }

  lemma ToReceipt(s: string, p: Receipt)
    requires p.sources == [s] && p.stage == Prepared
    ensures Run(EMPTY, [Generate([s]), Prepare(p), SyncAll], Pended(p))
  {
    var a := State(EMPTY.d, [Generated([s])]);
    assert Can(EMPTY, Generate([s])) && Can(a, Prepare(p));
    assert Run(Pended(p), [], Pended(p));
    First(Pended(p), SyncAll, [], Pended(p));
    First(a, Prepare(p), [SyncAll], Pended(p));
    First(EMPTY, Generate([s]), [Prepare(p), SyncAll], Pended(p));
  }

  lemma ToAcknowledgement(s: string, p: Receipt, g: Receipt)
    requires p.sources == [s] && p.stage == Prepared && g.stage == Processed && g.id == p.id && g.sources == [s]
    ensures Run(Pended(p), [Complete(g), Archive, Acknowledge([s])], Acked(p, g))
  {
    var c := State(Durable(Some(g), [], [], [], 0), Pended(p).log);
    var d := State(Durable(Some(g), [g], [], [], 0), Pended(p).log);
    assert Run(Acked(p, g), [], Acked(p, g));
    First(d, Acknowledge([s]), [], Acked(p, g));
    First(c, Archive, [Acknowledge([s])], Acked(p, g));
    First(Pended(p), Complete(g), [Archive, Acknowledge([s])], Acked(p, g));
  }

  lemma First(s: State, step: Step, rest: seq<Step>, t: State)
    requires Can(s, step) && Run(After(s, step), rest, t)
    ensures Run(s, [step] + rest, t)
  {
    hide Can, After;
    assert ([step] + rest)[1..] == rest;
  }

  lemma {:induction false} RunAppends(s: State, a: seq<Step>, m: State, b: seq<Step>, t: State)
    requires Run(s, a, m) && Run(m, b, t)
    ensures Run(s, a + b, t)
    decreases |a|
  {
    hide Can, After;
    if a == [] {
      assert a + b == b;
    } else {
      RunAppends(After(s, a[0]), a[1..], m, b, t);
      assert (a + b)[1..] == a[1..] + b;
    }
  }

  lemma EmptyGood()
    ensures Good(EMPTY.d, EMPTY.log)
  {}

  lemma AckedCovered(d: Durable, log: seq<Action>, s: string)
    requires Good(d, log) && s in d.acked
    ensures Covered(d, s)
  {
    hide Safe, Accounts, IdsDistinct;
    if d.pending.Some? {
      var r := d.pending.value;
      if HasSource(Settled(d, r), s) {
        var i :| 0 <= i < |Settled(d, r)| && s in Settled(d, r)[i].sources;
        assert s in d.history[i].sources;
      }
    }
  }

  /** A batch is acknowledged as a whole or not at all. */
  lemma AllOrNothing(d: Durable, log: seq<Action>, g: Receipt, s: string)
    requires Good(d, log) && GuardFits(d, g) && s in g.sources && s in d.acked
    ensures Acknowledged(d, g)
  {
    hide Safe, Accounts, IdsDistinct;
    if d.pending.Some? {
      var r := d.pending.value;
      assert !HasSource(Settled(d, r), s);
      assert Archived(d, r) && AcksAre(d.acked, d.history);
      forall t | t in g.sources ensures t in d.acked { assert t in d.history[|d.history| - 1].sources; }
    }
  }

  lemma Uncovered(d: Durable, queue: seq<string>, loaded: seq<string>, admitted: set<string>)
    requires Kept(d, None, queue, loaded, admitted)
    ensures d.pending == None && forall s | s in queue :: !Covered(d, s)
  {
    hide Covered;
  }

  lemma SameKept(a: Durable, b: Durable, queue: seq<string>, loaded: seq<string>, admitted: set<string>)
    requires Kept(a, None, queue, loaded, admitted) && a.history == b.history
    ensures b.pending == None ==> Kept(b, None, queue, loaded, admitted)
  {
    SameCover(a, b);
    hide Covered;
  }

  /** After the receipt was written, or not. */
  lemma Begun(a: Durable, log: seq<Action>, d: Durable, guard: Option<Receipt>, batch: seq<string>)
    requires Good(a, log) && a.pending == None && d.history == a.history && d.acked == a.acked
    requires forall s | s in batch :: !Covered(a, s)
    requires guard.Some? ==> guard.value.sources == batch && (d.pending == guard || d.pending == None)
    ensures guard.Some? ==> Held(a, d, guard, batch)
  {
    NothingPending(a, log);
  }

  lemma Pending(a: Durable, d: Durable, guard: Option<Receipt>, batch: seq<string>)
    requires d.history == a.history && guard.Some? && guard.value.sources == batch
    requires d.pending.Some? && d.pending.value.sources == batch
    ensures Held(a, d, guard, batch)
  {}

  lemma Unfinished(a: Durable, d: Durable, log: seq<Action>, r: Receipt)
    requires Good(d, log) && FinalHistory(d) == a.history + [r] && r.stage != Prepared
    requires d.pending == Some(r) || d.pending == None
    ensures Held(a, d, Some(r), r.sources)
  {
    hide Safe, Accounts, FinalHistory;
    CoverFinal(d, log);
    HasIdSnoc(a.history, r);
    forall s | s in r.sources && d.pending == None ensures s in d.acked { NothingPending(d, log); }
  }

  lemma HeldLonger(a: Durable, b: Durable, d: Durable, guard: Option<Receipt>, batch: seq<string>)
    requires Held(b, d, guard, batch) && b.pending.Some? && b.pending.value.sources == batch && b.history == a.history
    ensures Held(a, d, guard, batch)
  {}

  lemma FailedKeeps(a: Durable, d: Durable, guard: Option<Receipt>, batch: seq<string>, queue: seq<string>,
                    loaded: seq<string>, admitted: set<string>)
    requires Kept(a, None, queue, loaded, admitted) && Held(a, d, guard, batch)
    ensures Kept(d, guard, queue, loaded, admitted)
  {
    hide Covered, GuardFits;
  }

  /** What recovery leads to covers the same sources. */
  lemma CoverFinal(d: Durable, log: seq<Action>)
    requires Good(d, log) && (d.pending.Some? ==> d.pending.value.stage != Prepared)
    ensures forall s :: Covered(d, s) <==> HasSource(FinalHistory(d), s)
  {
    hide Safe, Accounts, IdsDistinct;
    if d.pending.Some? {
      var r := d.pending.value;
      HasIdSnoc(Settled(d, r), r);
      if Archived(d, r) { assert d.history == Settled(d, r) + [r]; }
    }
  }

  lemma SameCover(a: Durable, b: Durable)
    ensures a.history == b.history && a.pending == b.pending ==> forall s :: Covered(a, s) <==> Covered(b, s)
  {}

  lemma NotPromised(log: seq<Action>, a: Action, id: string)
    requires !Promised(log, |log|, id) && !a.PreparedDurable?
    ensures !Promised(log + [a], |log + [a]|, id)
  {
    assert forall i | 0 <= i < |log| :: (log + [a])[i] == log[i];
  }

  lemma UncoveredIsDisjoint(d: Durable, sources: seq<string>)
    requires forall s | s in sources :: !Covered(d, s)
    ensures Disjoint(sources, d.history)
  {}

  lemma NotArchived(d: Durable, log: seq<Action>)
    requires Good(d, log) && d.pending.Some? && d.pending.value.stage == Prepared
    ensures !Archived(d, d.pending.value)
  {}

  lemma SplitQueue(queue: seq<string>, n: nat)
    requires Unique(queue) && n <= |queue|
    ensures Unique(queue[n..]) && forall s | s in queue[n..] :: s !in queue[..n] && s in queue
  {}

  /** After the batch is archived, exactly its sources are newly covered. */
  lemma Remaining(before: Durable, after: Durable, batch: seq<string>)
    requires before.pending == None && after.pending == None && |after.history| == |before.history| + 1
    requires after.history[..|before.history|] == before.history && after.history[|before.history|].sources == batch
    ensures forall s :: Covered(after, s) <==> Covered(before, s) || s in batch
  {
    HasIdSnoc(before.history, after.history[|before.history|]);
    assert after.history == before.history + [after.history[|before.history|]];
  }

  lemma SameText(d: Durable, log: seq<Action>, r: Receipt)
    requires Good(d, log) && d.pending == Some(r) && Archived(d, r)
    ensures d.history[|d.history| - 1] == r
  {}

  lemma EndOfHistory(d: Durable, log: seq<Action>, r: Receipt)
    requires Good(d, log) && d.pending == Some(r) && Archived(d, r) && r.stage != Prepared
    ensures FinalHistory(d) == d.history && FinalHistory(d.(pending := None)) == d.history
  {
    assert d.history == d.history[..|d.history| - 1] + [d.history[|d.history| - 1]];
  }

  lemma NothingPending(d: Durable, log: seq<Action>)
    requires Good(d, log)
    ensures d.pending == None ==> AcksAre(d.acked, d.history)
    ensures d.pending == None ==> forall s :: Covered(d, s) <==> s in d.acked
  {}
}
