/** The curation batch protocol (src/curation_receipt.c and the step order of
    `asper_curation_cycle` in src/curator.c): a durable receipt precedes every effect of a
    batch, completion precedes acknowledgement.

    `log` is the global history of generations, durable receipts and journaled effects; it
    survives crashes. `seen` collects every durable image together with the history at that
    moment, so a run with crashes is any chain through these images. */
module Receipts {
  import opened Outcomes
  import opened StrOrder
  import opened Acknowledgements

  const BATCH_MAX: nat := 256
  const HANDLES_MAX: nat := 12
  const PROPOSAL_MAX: nat := 65536

  datatype Stage = Prepared | Processed | InterruptedAcknowledged

  datatype Receipt = Receipt(id: string, sources: seq<string>, opsBefore: nat, stage: Stage, opsAfter: Option<nat>)

  /** One journaled operation, tagged with the batch that issued it. */
  datatype Effect = Effect(batch: string, number: nat)

  /** What survives a crash: `curation.pending`, `curation.events`, the acknowledgement file
      and the journal, of which the first `synced` operations are durable. */
  datatype Durable = Durable(pending: Option<Receipt>, history: seq<Receipt>, acked: seq<string>,
                             journal: seq<Effect>, synced: nat)

  datatype Action =
    | Generated(sources: seq<string>)
    | PreparedDurable(receipt: Receipt)
    | Journaled(batch: string)

  ghost predicate HasId(rs: seq<Receipt>, id: string) { exists i :: 0 <= i < |rs| && rs[i].id == id }

  ghost predicate HasSource(rs: seq<Receipt>, s: string) { exists i :: 0 <= i < |rs| && s in rs[i].sources }

  ghost predicate IdsDistinct(rs: seq<Receipt>) { forall i, j | 0 <= i < j < |rs| :: rs[i].id != rs[j].id }

  /** The acknowledged ids are exactly the sources of these receipts. */
  ghost predicate AcksAre(acked: seq<string>, rs: seq<Receipt>) {
    forall s :: s in acked <==> HasSource(rs, s)
  }

  ghost predicate Disjoint(sources: seq<string>, rs: seq<Receipt>) {
    forall s | s in sources :: !HasSource(rs, s)
  }

  ghost predicate EffectsSynced(d: Durable, id: string) {
    forall i | 0 <= i < |d.journal| && d.journal[i].batch == id :: i < d.synced
  }

  /** The receipt is already the last entry of the history. */
  predicate Archived(d: Durable, r: Receipt) {
    d.history != [] && d.history[|d.history| - 1].id == r.id
  }

  function Settled(d: Durable, r: Receipt): seq<Receipt> {
    if Archived(d, r) then d.history[..|d.history| - 1] else d.history
  }

  /** The invariant of every durable image. */
  ghost predicate Consistent(d: Durable) {
    && IdsDistinct(d.history) && d.synced <= |d.journal| && Sorted(d.acked)
    && (forall i | 0 <= i < |d.history| :: d.history[i].stage != Prepared)
    && (forall i | 0 <= i < |d.history| && d.history[i].stage == Processed :: EffectsSynced(d, d.history[i].id))
    && match d.pending
       case None => AcksAre(d.acked, d.history)
       case Some(r) =>
         && r.sources != [] && Disjoint(r.sources, Settled(d, r)) && !HasId(Settled(d, r), r.id)
         && (r.stage == Prepared ==> !Archived(d, r))
         && (r.stage == Processed ==> EffectsSynced(d, r.id))
         && (Archived(d, r) ==> d.history[|d.history| - 1] == r)
         && (AcksAre(d.acked, Settled(d, r)) || (Archived(d, r) && AcksAre(d.acked, d.history)))
  }

  ghost predicate Promised(log: seq<Action>, n: nat, id: string) {
    exists i :: 0 <= i < n && i < |log| && log[i].PreparedDurable? && log[i].receipt.id == id
  }

  /** Operations follow their durable receipt; no source of a durable receipt is ever
      generated for again. */
  ghost predicate Safe(log: seq<Action>) {
    && (forall j | 0 <= j < |log| && log[j].Journaled? :: Promised(log, j, log[j].batch))
    && (forall i, j | 0 <= i < j < |log| && log[i].PreparedDurable? && log[j].Generated? ::
          forall s | s in log[j].sources :: s !in log[i].receipt.sources)
  }

  ghost predicate Covered(d: Durable, s: string) {
    HasSource(d.history, s) || (d.pending.Some? && s in d.pending.value.sources)
  }

  ghost predicate KnownId(d: Durable, id: string) {
    HasId(d.history, id) || (d.pending.Some? && d.pending.value.id == id)
  }

  /** The durable state accounts for the history so far. */
  ghost predicate Accounts(d: Durable, log: seq<Action>) {
    && (forall i | 0 <= i < |log| && log[i].PreparedDurable? :: forall s | s in log[i].receipt.sources :: Covered(d, s))
    && (forall id | KnownId(d, id) :: Promised(log, |log|, id))
    && (forall i | 0 <= i < |d.journal| :: Promised(log, |log|, d.journal[i].batch))
  }

  ghost predicate Good(d: Durable, log: seq<Action>) {
    Consistent(d) && Safe(log) && Accounts(d, log)
  }

  /** A crash may lose journal operations that were not synced, and nothing else. */
  lemma CrashKeepsGood(d: Durable, log: seq<Action>, n: nat)
    requires Good(d, log) && d.synced <= n <= |d.journal|
    ensures Good(d.(journal := d.journal[..n]), log)
  {
    var e := d.(journal := d.journal[..n]);
    assert forall r: Receipt :: Archived(e, r) == Archived(d, r) && Settled(e, r) == Settled(d, r);
    assert forall id :: EffectsSynced(d, id) ==> EffectsSynced(e, id);
    assert forall id :: KnownId(e, id) <==> KnownId(d, id);
    assert forall s :: Covered(e, s) <==> Covered(d, s);
  }

  lemma PromisedGrows(log: seq<Action>, a: Action, n: nat, id: string)
    requires Promised(log, n, id)
    ensures Promised(log + [a], n, id) && Promised(log + [a], n + 1, id)
  {
    var i :| 0 <= i < n && i < |log| && log[i].PreparedDurable? && log[i].receipt.id == id;
    assert (log + [a])[i] == log[i];
  }

  /** A generation for uncovered sources keeps the history safe. */
  lemma GenerateKeepsGood(d: Durable, log: seq<Action>, sources: seq<string>)
    requires Good(d, log) && forall s | s in sources :: !Covered(d, s)
    ensures Good(d, log + [Generated(sources)])
  {
    hide Consistent, Covered, KnownId;
    var a := Generated(sources);
    GrowSafe(log, a);
    forall id | KnownId(d, id) ensures Promised(log + [a], |log| + 1, id) { PromisedGrows(log, a, |log|, id); }
    forall i | 0 <= i < |d.journal| ensures Promised(log + [a], |log| + 1, d.journal[i].batch) {
      PromisedGrows(log, a, |log|, d.journal[i].batch);
    }
  }

  lemma GrowSafe(log: seq<Action>, a: Action)
    requires Safe(log)
    requires a.Journaled? ==> Promised(log, |log|, a.batch)
    requires a.Generated? ==>
      forall i | 0 <= i < |log| && log[i].PreparedDurable? :: forall s | s in a.sources :: s !in log[i].receipt.sources
    ensures Safe(log + [a])
  {
    forall j | 0 <= j < |log| + 1 && (log + [a])[j].Journaled?
      ensures Promised(log + [a], j, (log + [a])[j].batch)
    {
      PromisedGrows(log, a, j, (log + [a])[j].batch);
    }
  }

  // ---- the durable steps, one lemma each ---------------------------------------

  lemma AccountsGrow(d: Durable, e: Durable, log: seq<Action>, a: Action)
    requires Accounts(d, log)
    requires forall s | Covered(d, s) :: Covered(e, s)
    requires a.PreparedDurable? ==> forall s | s in a.receipt.sources :: Covered(e, s)
    requires forall id | KnownId(e, id) :: KnownId(d, id) || (a.PreparedDurable? && a.receipt.id == id)
    requires forall i | 0 <= i < |e.journal| :: Promised(log, |log|, e.journal[i].batch)
    ensures Accounts(e, log + [a])
  {
    hide Covered, KnownId;
    forall id | KnownId(e, id) ensures Promised(log + [a], |log| + 1, id) {
      if KnownId(d, id) { PromisedGrows(log, a, |log|, id); } else { assert (log + [a])[|log|] == a; }
    }
    forall i | 0 <= i < |e.journal| ensures Promised(log + [a], |log| + 1, e.journal[i].batch) {
      PromisedGrows(log, a, |log|, e.journal[i].batch);
    }
  }

  /** The prepared receipt of a fresh batch becomes durable. */
  lemma PrepareKeepsGood(d: Durable, log: seq<Action>, r: Receipt)
    requires Good(d, log) && d.pending == None && r.stage == Prepared && r.sources != []
    requires Disjoint(r.sources, d.history) && !Promised(log, |log|, r.id)
    ensures Good(d.(pending := Some(r)), log + [PreparedDurable(r)])
  {
    var e := d.(pending := Some(r));
    assert !KnownId(d, r.id);
    assert Settled(e, r) == d.history;
    GrowSafe(log, PreparedDurable(r));
    AccountsGrow(d, e, log, PreparedDurable(r));
  }

  /** One operation of the prepared batch reaches the journal. */
  lemma JournalKeepsGood(d: Durable, log: seq<Action>, x: Effect)
    requires Good(d, log) && d.pending.Some? && d.pending.value.stage == Prepared && d.pending.value.id == x.batch
    ensures Good(d.(journal := d.journal + [x]), log + [Journaled(x.batch)])
  {
    var e := d.(journal := d.journal + [x]);
    assert KnownId(d, x.batch);
    assert Settled(e, d.pending.value) == d.history;
    assert forall i | 0 <= i < |d.history| :: d.history[i].id != x.batch;
    GrowSafe(log, Journaled(x.batch));
    AccountsGrow(d, e, log, Journaled(x.batch));
  }

  lemma SyncKeepsGood(d: Durable, log: seq<Action>)
    requires Good(d, log)
    ensures Good(d.(synced := |d.journal|), log)
  {
    var e := d.(synced := |d.journal|);
    assert forall r: Receipt :: Archived(e, r) == Archived(d, r) && Settled(e, r) == Settled(d, r);
    assert forall id :: KnownId(e, id) <==> KnownId(d, id);
    assert forall s :: Covered(e, s) <==> Covered(d, s);
  }

  /** The receipt is completed: by the cycle once every effect is durable, or by the
      operator, who acknowledges an interrupted batch without replaying it. */
  lemma CompleteKeepsGood(d: Durable, log: seq<Action>, r: Receipt)
    requires Good(d, log) && d.pending.Some? && d.pending.value.stage == Prepared && r.stage != Prepared
    requires r.id == d.pending.value.id && r.sources == d.pending.value.sources
    requires r.stage == Processed ==> d.synced == |d.journal|
    ensures Good(d.(pending := Some(r)), log)
  {
    var e := d.(pending := Some(r));
    assert Archived(e, r) == Archived(d, d.pending.value) && Settled(e, r) == Settled(d, d.pending.value);
    assert forall id :: KnownId(e, id) <==> KnownId(d, id);
    assert forall s :: Covered(e, s) <==> Covered(d, s);
  }

  lemma HasIdSnoc(rs: seq<Receipt>, r: Receipt)
    ensures forall id :: HasId(rs + [r], id) <==> HasId(rs, id) || r.id == id
    ensures forall s :: HasSource(rs + [r], s) <==> HasSource(rs, s) || s in r.sources
  {
    forall id ensures HasId(rs + [r], id) <==> HasId(rs, id) || r.id == id {
      if HasId(rs, id) { var i :| 0 <= i < |rs| && rs[i].id == id; assert (rs + [r])[i].id == id; }
      if r.id == id { assert (rs + [r])[|rs|].id == id; }
    }
    forall s ensures HasSource(rs + [r], s) <==> HasSource(rs, s) || s in r.sources {
      if HasSource(rs, s) { var i :| 0 <= i < |rs| && s in rs[i].sources; assert s in (rs + [r])[i].sources; }
      if s in r.sources { assert s in (rs + [r])[|rs|].sources; }
    }
  }

  lemma ArchiveKeepsGood(d: Durable, log: seq<Action>, r: Receipt)
    requires Good(d, log) && d.pending == Some(r) && r.stage != Prepared && !Archived(d, r)
    ensures Good(d.(history := d.history + [r]), log)
  {
    hide Promised, Sorted, Safe;
    var e := d.(history := d.history + [r]);
    HasIdSnoc(d.history, r);
    assert Settled(e, r) == d.history;
    assert IdsDistinct(e.history) by {
      assert forall i | 0 <= i < |d.history| :: d.history[i].id != r.id;
    }
    assert forall id :: EffectsSynced(d, id) == EffectsSynced(e, id);
  }

  lemma AckKeepsGood(d: Durable, log: seq<Action>, acked: seq<string>)
    requires Good(d, log) && d.pending.Some? && Archived(d, d.pending.value) && Sorted(acked)
    requires forall s :: s in acked <==> s in d.acked || s in d.pending.value.sources
    ensures Good(d.(acked := acked), log) && AcksAre(acked, d.history)
  {
    var r := d.pending.value;
    var e := d.(acked := acked);
    assert d.history == Settled(d, r) + [r];
    HasIdSnoc(Settled(d, r), r);
    assert AcksAre(acked, d.history);
    assert forall id :: EffectsSynced(d, id) == EffectsSynced(e, id);
    assert forall id :: KnownId(e, id) <==> KnownId(d, id);
    assert forall s :: Covered(e, s) <==> Covered(d, s);
  }

  lemma UnguardKeepsGood(d: Durable, log: seq<Action>)
    requires Good(d, log) && d.pending.Some? && Archived(d, d.pending.value) && AcksAre(d.acked, d.history)
    ensures Good(d.(pending := None), log)
  {
    var r := d.pending.value;
    var e := d.(pending := None);
    var n := |d.history| - 1;
    assert d.history[n] == r;
    forall s | Covered(d, s) ensures Covered(e, s) { assert s in r.sources ==> s in d.history[n].sources; }
    assert forall id :: EffectsSynced(d, id) == EffectsSynced(e, id);
  }

  // ---- runs ----------------------------------------------------------------------

  /** The durable steps a process can take, and losing power. */
  datatype Step =
    | Generate(sources: seq<string>)
    | Prepare(receipt: Receipt)
    | Issue(effect: Effect)
    | SyncAll
    | Complete(done: Receipt)
    | Archive
    | Acknowledge(ids: seq<string>)
    | Unguard
    | Crash(kept: nat)

  datatype State = State(d: Durable, log: seq<Action>)

  /** When the protocol takes a step. */
  ghost predicate Can(s: State, step: Step) {
    var d := s.d;
    match step
    case Generate(sources) => forall x | x in sources :: !Covered(d, x)
    case Prepare(r) =>
      && d.pending == None && r.stage == Prepared && r.sources != []
      && Disjoint(r.sources, d.history) && !Promised(s.log, |s.log|, r.id)
    case Issue(x) => d.pending.Some? && d.pending.value.stage == Prepared && d.pending.value.id == x.batch
    case SyncAll => true
    case Complete(r) =>
      && d.pending.Some? && d.pending.value.stage == Prepared && r.stage != Prepared
      && r.id == d.pending.value.id && r.sources == d.pending.value.sources
      && (r.stage == Processed ==> d.synced == |d.journal|)
    case Archive => d.pending.Some? && d.pending.value.stage != Prepared && !Archived(d, d.pending.value)
    case Acknowledge(ids) =>
      && d.pending.Some? && Archived(d, d.pending.value) && Sorted(ids)
      && forall x :: x in ids <==> x in d.acked || x in d.pending.value.sources
    case Unguard => d.pending.Some? && Archived(d, d.pending.value) && AcksAre(d.acked, d.history)
    case Crash(n) => d.synced <= n <= |d.journal|
  }

  function After(s: State, step: Step): State {
    var d := s.d;
    match step
    case Generate(sources) => s.(log := s.log + [Generated(sources)])
    case Prepare(r) => State(d.(pending := Some(r)), s.log + [PreparedDurable(r)])
    case Issue(x) => State(d.(journal := d.journal + [x]), s.log + [Journaled(x.batch)])
    case SyncAll => s.(d := d.(synced := |d.journal|))
    case Complete(r) => s.(d := d.(pending := Some(r)))
    case Archive => if d.pending.Some? then s.(d := d.(history := d.history + [d.pending.value])) else s
    case Acknowledge(ids) => s.(d := d.(acked := ids))
    case Unguard => s.(d := d.(pending := None))
    case Crash(n) => if n <= |d.journal| then s.(d := d.(journal := d.journal[..n])) else s
  }

  ghost predicate Run(s: State, steps: seq<Step>, t: State)
    decreases |steps|
  {
    if steps == [] then s == t else Can(s, steps[0]) && Run(After(s, steps[0]), steps[1..], t)
  }

  const EMPTY: State := State(Durable(None, [], [], [], 0), [])

  lemma StepKeepsGood(s: State, step: Step)
    requires Good(s.d, s.log) && Can(s, step)
    ensures Good(After(s, step).d, After(s, step).log)
  {
    hide Good;
    match step
    case Generate(sources) => GenerateKeepsGood(s.d, s.log, sources);
    case Prepare(r) => PrepareKeepsGood(s.d, s.log, r);
    case Issue(x) => JournalKeepsGood(s.d, s.log, x);
    case SyncAll => SyncKeepsGood(s.d, s.log);
    case Complete(r) => CompleteKeepsGood(s.d, s.log, r);
    case Archive => ArchiveKeepsGood(s.d, s.log, s.d.pending.value);
    case Acknowledge(ids) => AckKeepsGood(s.d, s.log, ids);
    case Unguard => UnguardKeepsGood(s.d, s.log);
    case Crash(n) => CrashKeepsGood(s.d, s.log, n);
  }

  lemma {:induction false} RunKeepsGood(s: State, steps: seq<Step>, t: State)
    requires Good(s.d, s.log) && Run(s, steps, t)
    ensures Good(t.d, t.log)
    decreases |steps|
  {
    if steps != [] {
      hide Good, Can;
      StepKeepsGood(s, steps[0]);
      RunKeepsGood(After(s, steps[0]), steps[1..], t);
    }
  }

  /** Over every run from an empty store, crashes included: effects follow their receipt, no source
      of a receipt is generated for again, each receipt is in the history at most once, and without
      a pending receipt the acknowledged sources are those of the history. */
  lemma EveryRun(steps: seq<Step>, t: State)
    requires Run(EMPTY, steps, t)
    ensures Safe(t.log) && IdsDistinct(t.d.history)
    ensures t.d.pending == None ==> AcksAre(t.d.acked, t.d.history)
  {
    hide Run;
    RunKeepsGood(EMPTY, steps, t);
  }
}
