/** The write-ahead journal (src/journal.c), the mutation funnel over it (src/api.c,
    `asper_apply_op`) and its replay on open.

    `file` is what the running system reads back. A crash leaves some byte prefix of
    `image` (the longest content the device may still hold) that contains at least the
    first `synced` bytes. */
module Journal {
  import opened Outcomes
  import opened EventFrame
  import opened EventScan
  import opened FrameIO
  import opened Records
  import opened Effects

  const EVENT_LOG_BYTES: nat := 512 * 1024 * 1024
  const DIAGNOSTIC: int := 5

  /** The serializer of operations: an arbitrary injective text encoding. */
  datatype OpCodec = OpCodec(enc: Op -> string, dec: string -> Option<Op>)

  ghost predicate CodecOk(cx: Codec, oc: OpCodec) {
    forall op :: oc.dec(oc.enc(op)) == Some(op) && '\0' !in oc.enc(op) && cx.utf8(oc.enc(op))
  }

  datatype SyncPolicy = SyncBatch | SyncAlways | SyncNever

  function OpEvent(oc: OpCodec, sequence: int, op: Op, id: string): Event {
    Event(sequence, op.at, DIAGNOSTIC, 0, id, "", oc.enc(op))
  }

  /** The frames of a run of operations. */
  ghost predicate Journals(cx: Codec, oc: OpCodec, es: seq<Event>, ops: seq<Op>) {
    && LogValid(cx, es) && |es| == |ops|
    && forall i | 0 <= i < |es| :: es[i] == OpEvent(oc, i + 1, ops[i], es[i].id)
  }

  /** `replay_frame`: the checks one frame must pass before its operation is applied. */
  function ReplayFrame(oc: OpCodec, s: Store, e: Event, sequence: nat): (Err, Store) {
    if e.sequence != sequence || e.kind != DIAGNOSTIC || e.pinned != 0 || e.objectRef != "" then (Parse, s)
    else match oc.dec(e.text)
      case None => (Parse, s)
      case Some(op) =>
        if op.at != e.at then (Parse, s)
        else var (err, t) := Apply(s, op); if err == Ok then (Ok, t) else (Parse, s)
  }

  lemma JournalsTake(cx: Codec, oc: OpCodec, es: seq<Event>, ops: seq<Op>, k: nat)
    requires Journals(cx, oc, es, ops) && k <= |es|
    ensures Journals(cx, oc, es[..k], ops[..k])
  {}

  lemma JournalsSnoc(cx: Codec, oc: OpCodec, es: seq<Event>, ops: seq<Op>, op: Op, id: string)
    requires Journals(cx, oc, es, ops) && EventValid(cx, OpEvent(oc, |es| + 1, op, id))
    ensures Journals(cx, oc, es + [OpEvent(oc, |es| + 1, op, id)], ops + [op])
  {}

  /** Replaying one frame of a journal is applying its operation. */
  lemma FrameReplays(cx: Codec, oc: OpCodec, base: Store, es: seq<Event>, ops: seq<Op>, k: nat)
    requires CodecOk(cx, oc) && Journals(cx, oc, es, ops) && Replay(base, ops).Some? && k < |ops|
    ensures Replay(base, ops[..k]).Some? && Replay(base, ops[..k + 1]).Some?
    ensures ReplayFrame(oc, Replay(base, ops[..k]).value, es[k], k + 1) == (Ok, Replay(base, ops[..k + 1]).value)
  {
    hide Apply, Replay, LogValid;
    ReplayPrefix(base, ops, k);
    ReplayPrefix(base, ops, k + 1);
    assert ops[..k + 1] == ops[..k] + [ops[k]];
    ReplaySnoc(base, ops[..k], ops[k]);
    FrameAt(cx, oc, es, ops, k);
  }

  lemma FrameAt(cx: Codec, oc: OpCodec, es: seq<Event>, ops: seq<Op>, k: nat)
    requires CodecOk(cx, oc) && Journals(cx, oc, es, ops) && k < |ops|
    ensures |es| == |ops| && es[k] == OpEvent(oc, k + 1, ops[k], es[k].id) && oc.dec(oc.enc(ops[k])) == Some(ops[k])
  {
    hide LogValid;
  }

  /** `asper_journal_replay` on any image that holds the journal of `ops` cut at some byte:
      never an invalid-journal error, and on success the store is the fold of exactly the
      operations whose frames survived, the file their frames, the torn rest gone. */
  method ReplayJournal(cx: Codec, oc: OpCodec, base: Store, file: string, ghost es: seq<Event>, ghost ops: seq<Op>)
    returns (err: Err, store: Store, count: nat, out: string)
    requires CodecOk(cx, oc) && Journals(cx, oc, es, ops) && Replay(base, ops).Some?
    requires LogImage(cx, file, es)
    ensures err == Ok || err == Io || err == Limit
    ensures err == Limit <==> |file| > EVENT_LOG_BYTES
    ensures err == Ok ==> count == |ops| && store == Replay(base, ops).value && out == Frames(cx, es)
    ensures out == file || out == Frames(cx, es)
  {
    hide Frames, End, Torn, StartsWith, EventValid, FrameBytes, ReplayFrame, CodecOk;
    store, count, out := base, 0, file;
    if |file| > EVENT_LOG_BYTES { return Limit, store, count, out; }
    var good := 0;
    var torn := false;
    var f := new InStream(file);
    StartOfLog(cx, es);
    ReplayNone(base, ops);
    while good < |file|
      invariant f.Valid() && f.data == file && count <= |es|
      invariant good == End(cx, es, count) == f.pos
      invariant Replay(base, ops[..count]) == Some(store)
      decreases |file| - good
    {
      ScanStep(cx, file, es, count);
      var e;
      err, e := FrameRead(cx, f);
      if err == NotFound { torn := true; break; }
      if err != Ok { return; }
      FrameReplays(cx, oc, base, es, ops, count);
      err, store := ReplayFrame(oc, store, e, count + 1).0, ReplayFrame(oc, store, e, count + 1).1;
      if err != Ok { return; }
      count := count + 1;
      good := f.pos;
    }
    if torn {
      var fault: bool := *;
      if fault { return Io, store, count, out; }
      CutTorn(cx, file, es);
      out := file[..good];
      fault := *;
      if fault { return Io, store, count, out; }
    } else {
      WholeLog(cx, file, es, count);
    }
    assert ops[..|ops|] == ops;
    err := Ok;
  }

  lemma StartOfLog(cx: Codec, es: seq<Event>)
    ensures End(cx, es, 0) == 0
  {
    assert es[..0] == [];
  }

  lemma ReplayNone(base: Store, ops: seq<Op>)
    ensures Replay(base, ops[..0]) == Some(base)
  {}

  lemma CutTorn(cx: Codec, file: string, es: seq<Event>)
    requires LogImage(cx, file, es)
    ensures End(cx, es, |es|) <= |file| && file[..End(cx, es, |es|)] == Frames(cx, es)
  {
    Truncated(cx, file, es);
  }

  lemma EventFromOp(cx: Codec, oc: OpCodec, es: seq<Event>, op: Op, id: string)
    requires CodecOk(cx, oc) && LogValid(cx, es) && |Frames(cx, es)| <= EVENT_LOG_BYTES
    requires LLONG_MIN <= op.at <= LLONG_MAX && UuidValid(id) && |oc.enc(op)| <= EVENT_BYTES
    ensures EventValid(cx, OpEvent(oc, |es| + 1, op, id))
  {
    EndWithin(cx, Frames(cx, es), es, |es|);
    assert oc.dec(oc.enc(op)) == Some(op);
  }

  lemma JournalsValid(cx: Codec, oc: OpCodec, es: seq<Event>, ops: seq<Op>)
    requires Journals(cx, oc, es, ops)
    ensures LogValid(cx, es) && |es| == |ops|
  {}

  lemma FramesLength(cx: Codec, log: string, es: seq<Event>)
    requires LogImage(cx, log, es)
    ensures |Frames(cx, es)| <= |log| && Frames(cx, es) <= log
  {}

  lemma PrefixOfConcat(a: string, b: string, k: nat)
    requires k <= |b|
    ensures a <= a + b[..k] <= a + b
  {
    assert a + b == (a + b[..k]) + b[k..];
  }

  /** What a crash at one moment starts from: the longest content the device may hold, how many
      of its bytes are certain, the frames and operations behind it, and how many of them a sync
      has acknowledged. */
  datatype Moment = Moment(image: string, synced: nat, events: seq<Event>, issued: seq<Op>, durable: nat)

  ghost predicate Sound(cx: Codec, oc: OpCodec, base: Store, m: Moment) {
    && Journals(cx, oc, m.events, m.issued) && Replay(base, m.issued).Some?
    && m.image <= Frames(cx, m.events) && |m.image| <= EVENT_LOG_BYTES
    && m.durable <= |m.issued| && m.synced == End(cx, m.events, m.durable) <= |m.image|
  }

  /** The bytes a crash at this moment may leave. */
  predicate Leaves(m: Moment, bytes: string) { m.synced <= |bytes| && bytes <= m.image }

  /** Every byte image a crash may leave holds exactly the frames of a prefix of the issued
      operations, and that prefix contains every operation a sync has acknowledged. */
  lemma CrashImage(cx: Codec, oc: OpCodec, base: Store, m: Moment, bytes: string) returns (k: nat)
    requires Sound(cx, oc, base, m) && Leaves(m, bytes)
    ensures m.durable <= k <= |m.issued| && k <= |m.events|
    ensures LogImage(cx, bytes, m.events[..k])
    ensures Journals(cx, oc, m.events[..k], m.issued[..k]) && Replay(base, m.issued[..k]).Some?
    ensures Leaves(m, Frames(cx, m.events[..k]))
  {
    hide Frames, End, LogImage, EventValid, Replay, LogValid, Journals;
    var n := |bytes|;
    JournalsValid(cx, oc, m.events, m.issued);
    assert bytes == Frames(cx, m.events)[..n];
    CutLog(cx, m.events, n);
    k := Complete(cx, m.events, n);
    SyncedComplete(cx, m.events, n, m.durable, k);
    JournalsTake(cx, oc, m.events, m.issued, k);
    ReplayPrefix(base, m.issued, k);
    FramesLength(cx, bytes, m.events[..k]);
    HeadOf(bytes, m.image, Frames(cx, m.events[..k]));
    EndIs(cx, m.events, k);
  }

  /** A cut behind the first d frames keeps them. */
  lemma SyncedComplete(cx: Codec, es: seq<Event>, n: nat, d: nat, k: nat)
    requires d <= |es| && k <= |es| && End(cx, es, d) <= n && (k < |es| ==> n < End(cx, es, k + 1))
    ensures d <= k && End(cx, es, d) <= End(cx, es, k)
  {
    hide End;
    if k + 1 < d { EndMonotone(cx, es, k + 1, d); }
    if d < k { EndMonotone(cx, es, d, k); }
  }

  lemma EndIs(cx: Codec, es: seq<Event>, k: nat)
    requires k <= |es|
    ensures End(cx, es, k) == |Frames(cx, es[..k])|
  {}

  lemma SoundSizes(cx: Codec, oc: OpCodec, base: Store, m: Moment)
    requires Sound(cx, oc, base, m)
    ensures |m.events| == |m.issued| && Journals(cx, oc, m.events, m.issued) && Replay(base, m.issued).Some?
    ensures m.durable <= |m.issued| && m.image <= Frames(cx, m.events) && m.synced == End(cx, m.events, m.durable)
  {}

  lemma SyncedLength(cx: Codec, oc: OpCodec, base: Store, m: Moment)
    requires Sound(cx, oc, base, m)
    ensures m.synced <= |m.image| <= EVENT_LOG_BYTES
  {}

  /** Only the first n frames, all of them certain. */
  lemma Shortened(cx: Codec, oc: OpCodec, base: Store, m: Moment, n: nat)
    requires Sound(cx, oc, base, m) && n <= |m.issued| && n <= |m.events|
    requires |Frames(cx, m.events[..n])| <= EVENT_LOG_BYTES
    ensures Sound(cx, oc, base, Moment(Frames(cx, m.events[..n]), |Frames(cx, m.events[..n])|,
                                       m.events[..n], m.issued[..n], n))
  {
    hide Frames, Replay, Journals, LogValid;
    JournalsTake(cx, oc, m.events, m.issued, n);
    JournalsValid(cx, oc, m.events[..n], m.issued[..n]);
    ReplayPrefix(base, m.issued, n);
    EndAll(cx, m.events[..n]);
  }

  /** One frame more, of which the device holds some part. */
  lemma Lengthened(cx: Codec, oc: OpCodec, base: Store, m: Moment, op: Op, event: Event, image: string)
    requires Sound(cx, oc, base, m) && m.image == Frames(cx, m.events)
    requires event == OpEvent(oc, |m.issued| + 1, op, event.id) && EventValid(cx, event)
    requires m.image <= image <= m.image + FrameBytes(cx, event) && |image| <= EVENT_LOG_BYTES
    requires Apply(Replay(base, m.issued).value, op).0 == Ok
    ensures Sound(cx, oc, base, Moment(image, m.synced, m.events + [event], m.issued + [op], m.durable))
    ensures Frames(cx, m.events + [event]) == m.image + FrameBytes(cx, event)
  {
    hide Frames, EventValid, FrameBytes, Apply, Replay, Journals;
    JournalsValid(cx, oc, m.events, m.issued);
    JournalsSnoc(cx, oc, m.events, m.issued, op, event.id);
    FramesSnoc(cx, m.events, event);
    ReplaySnoc(base, m.issued, op);
    assert (m.events + [event])[..m.durable] == m.events[..m.durable];
  }

  lemma HeadOf(bytes: string, image: string, head: string)
    requires bytes <= image && head <= bytes
    ensures head <= image
  {}

  lemma MoreLogged(issued: seq<Op>, before: seq<Op>, op: Op)
    requires issued == before + [op]
    ensures issued[..|issued|] == issued && issued[..|issued| - 1] == before
  {}

  /** The open store: live table, journal stream, and what the device may hold. `seen` collects
      every moment a crash may come at. */
  class Writer {
    const cx: Codec
    const oc: OpCodec
    const limits: Limits
    const policy: SyncPolicy
    var store: Store
    var journalOps: nat
    var streamOpen: bool
    var poisoned: bool
    var file: string
    var base: Store               // the snapshot the section files hold
    ghost var issued: seq<Op>     // operations whose frames may be on the device
    ghost var events: seq<Event>  // those frames
    var image: string             // the longest content the device may still hold
    ghost var synced: nat
    ghost var durable: nat        // how many operations a sync has acknowledged
    ghost var seen: iset<Moment>

    ghost function Now(): Moment reads this { Moment(image, synced, events, issued, durable) }

    /** The first n of the issued operations make the live table. */
    ghost predicate Core(n: nat)
      reads this
    {
      && CodecOk(cx, oc) && StoreOk(base) && Sound(cx, oc, base, Now())
      && (forall m :: m in seen ==> Sound(cx, oc, base, m)) && Now() in seen
      && n <= journalOps <= |issued| <= journalOps + 1
      && Replay(base, issued[..n]) == Some(store)
    }

    /** Every new moment keeps what was durable, and knows at most one operation more. */
    twostate predicate OnlySaw(op: Option<Op>)
      requires old(journalOps) <= |old(issued)|
      reads this
    {
      forall m :: m in seen ==>
        m in old(seen) || (m.durable >= old(durable) && Extends(old(issued), old(Logged()), op, m.issued))
    }

    ghost predicate Settled()
      reads this
    {
      !poisoned ==> streamOpen && journalOps == |issued| && file == image == Frames(cx, events)
    }

    ghost predicate Valid() reads this { Core(journalOps) && Settled() && durable <= journalOps }

    /** The acknowledged operations, in order. */
    ghost function Logged(): seq<Op>
      reads this
      requires journalOps <= |issued|
    {
      issued[..journalOps]
    }

    constructor (cx: Codec, oc: OpCodec, limits: Limits, policy: SyncPolicy, base: Store)
      requires CodecOk(cx, oc) && StoreOk(base)
      ensures Valid() && !poisoned && this.base == base && store == base && Logged() == [] && durable == 0
      ensures this.cx == cx && this.oc == oc && this.limits == limits && this.policy == policy && file == ""
      ensures seen == iset{Now()} && Now() == Moment("", 0, [], [], 0)
    {
      hide CodecOk, StoreOk;
      this.cx, this.oc, this.limits, this.policy := cx, oc, limits, policy;
      store, journalOps, streamOpen, poisoned, file := base, 0, true, false, "";
      this.base, issued, events, image, synced, durable := base, [], [], "", 0, 0;
      seen := iset{Moment("", 0, [], [], 0)};
      StartOfLog(cx, []);
    }

    method Poison()
      modifies this`poisoned, this`streamOpen
      ensures poisoned && !streamOpen && (old(Valid()) ==> Valid())
    {
      hide CodecOk, StoreOk, Sound, Replay, Frames;
      poisoned, streamOpen := true, false;
    }

    /** A device sync: success makes everything written durable, failure tells nothing. */
    method Fsync(ghost n: nat) returns (ok: bool)
      requires Core(n) && file == image == Frames(cx, events)
      modifies this`synced, this`durable, this`seen
      ensures Core(n) && durable >= old(durable)
      ensures ok ==> durable == |issued|
      ensures !ok ==> synced == old(synced) && durable == old(durable)
      ensures seen == old(seen) + iset{Now()}
    {
      hide Frames, End, CodecOk, StoreOk, LogValid;
      ok := *;
      if ok {
        EndAll(cx, events);
        synced, durable := |file|, |issued|;
      }
      seen := seen + iset{Now()};
    }

    /** `rollback`: either the truncated file is durable and the operation was never issued, or the
        stream is closed for good. */
    method Rollback(offset: nat)
      requires Core(journalOps) && |issued| == journalOps + 1 && synced <= offset <= |file|
      requires durable <= journalOps
      requires file[..offset] == Frames(cx, events[..journalOps]) && offset <= EVENT_LOG_BYTES
      modifies this
      ensures Valid() && base == old(base) && store == old(store) && journalOps == old(journalOps)
      ensures Logged() == old(Logged()) && durable >= old(durable)
      ensures seen == old(seen) + iset{Now()} && (issued == old(issued) || issued == old(Logged()))
    {
      hide Frames, CodecOk, StoreOk, Replay, Sound;
      SoundSizes(cx, oc, base, Now());
      streamOpen := false;
      var truncated: bool := *;
      if truncated {
        file := file[..offset];
        var reopened, flushed: bool := *, *;
        streamOpen := reopened;
        if reopened && flushed {
          Retract();
          return;
        }
      }
      Poison();
    }

    /** The truncated file is durable: the last operation was never issued. */
    method Retract()
      requires Core(journalOps) && |issued| == journalOps + 1 && streamOpen
      requires file == Frames(cx, events[..journalOps]) && |file| <= EVENT_LOG_BYTES
      modifies this`issued, this`events, this`image, this`synced, this`durable, this`seen
      ensures Valid() && issued == old(Logged()) == Logged() && durable == journalOps
      ensures seen == old(seen) + iset{Now()}
    {
      hide Frames, CodecOk, StoreOk, Replay, Sound, Journals;
      SoundSizes(cx, oc, base, Now());
      Shortened(cx, oc, base, Now(), journalOps);
      assert issued[..journalOps][..journalOps] == issued[..journalOps];
      issued, events, image := issued[..journalOps], events[..journalOps], file;
      synced, durable := |file|, journalOps;
      seen := seen + iset{Now()};
    }

    /** `asper_journal_append`; on success the operation is journaled but not yet applied. */
    method Append(op: Op, force: bool, id: string) returns (err: Err)
      requires Valid() && LLONG_MIN <= op.at <= LLONG_MAX && UuidValid(id)
      requires Apply(store, op).0 == Ok
      modifies this
      ensures err == Ok || err == Io || err == Limit
      ensures base == old(base) && store == old(store)
      ensures old(poisoned) ==> err == Io && poisoned
      ensures err == Ok ==> !poisoned && Settled() && journalOps == old(journalOps) + 1 && Core(old(journalOps))
      ensures err == Ok ==> issued == old(Logged()) + [op] && durable >= old(durable)
      ensures err == Ok && (force || policy == SyncAlways) ==> durable == journalOps
      ensures err != Ok ==> Valid() && Logged() == old(Logged()) && durable >= old(durable)
      ensures err != Ok && !poisoned ==> issued == old(issued)
      ensures OnlySaw(Some(op))
    {
      hide Frames, End, EventValid, FrameBytes, CodecOk, Apply, Journals, StoreOk;
      if poisoned || !streamOpen { return Io; }
      var fault: bool := *;
      if fault { return Io; }
      var offset := |file|;
      var text := oc.enc(op);
      if |text| > EVENT_BYTES || offset + |text| + 512 > EVENT_LOG_BYTES { return Limit; }
      JournalsValid(cx, oc, events, issued);
      EventFromOp(cx, oc, events, op, id);
      var event := OpEvent(oc, journalOps + 1, op, id);
      err := Commit(op, event, force);
    }

    /** `asper_journal_sync`. */
    method Sync() returns (err: Err)
      requires Valid()
      modifies this
      ensures Valid() && base == old(base) && store == old(store) && Logged() == old(Logged())
      ensures issued == old(issued) && image == old(image) && file == old(file) && OnlySaw(None)
      ensures err == Ok || err == Io
      ensures err == Ok ==> !poisoned && durable == journalOps
      ensures err == Io ==> poisoned && durable == old(durable)
    {
      hide Frames, End, CodecOk, Journals, StoreOk, Replay;
      var ok := false;
      if !poisoned && streamOpen {
        ok := Fsync(journalOps);
      }
      if !ok {
        Poison();
        return Io;
      }
      return Ok;
    }

    /** `asper_apply_op`: validate, journal, then apply. The live table always is the fold of
        the acknowledged operations over the loaded snapshot; a poisoned store applies
        nothing; an operation of the host is durable when it is acknowledged. */
    method ApplyOp(op: Op, fromCurator: bool, id: string) returns (err: Err)
      requires Valid() && LLONG_MIN <= op.at <= LLONG_MAX && UuidValid(id)
      modifies this
      ensures Valid() && base == old(base) && durable >= old(durable)
      ensures err == Ok ==> !poisoned && Logged() == old(Logged()) + [op] && store == Apply(old(store), op).1
      ensures err == Ok && !fromCurator ==> durable == journalOps
      ensures err != Ok ==> store == old(store) && Logged() == old(Logged())
      ensures err != Ok && !poisoned ==> issued == old(issued)
      ensures old(poisoned) ==> err == Io && poisoned
      ensures !old(poisoned) && Validate(limits, old(store), op, fromCurator) != Ok
              ==> err == Validate(limits, old(store), op, fromCurator) && !poisoned
      ensures Validate(limits, old(store), op, fromCurator) != Ok ==> seen == old(seen)
      ensures err == Ok ==> Effect(old(store), op, store) && Permitted(limits, old(store), op, fromCurator)
      ensures !old(poisoned) && !Permitted(limits, old(store), op, fromCurator)
              ==> err != Ok && Refused(old(store), op, fromCurator, err) && !poisoned
      ensures err == Ok ==> Validate(limits, old(store), op, fromCurator) == Ok
      ensures OnlySaw(Some(op))
    {
      hide Frames, End, CodecOk, Journals, StoreOk, Validate, Apply, Effect, Permitted, Refused, EventValid;
      hide LogValid, Replay, Sound;
      if poisoned { return Io; }
      ValidatesExactly(limits, store, op, fromCurator);
      err := Validate(limits, store, op, fromCurator);
      if err != Ok { return; }
      ValidatedApplies(limits, store, op, fromCurator);
      err := Append(op, !fromCurator, id);
      if err != Ok { return; }
      MoreLogged(issued, old(Logged()), op);
      SoundSizes(cx, oc, base, Now());
      ReplaySnoc(base, old(Logged()), op);
      var (e, s) := Apply(store, op);
      if e != Ok {
        // The branch that would poison the store is dead: validation was enough.
        assert false;
      }
      ApplyEffect(store, op);
      store := s;
    }

    /** `asper_store_open` over the same snapshot, on the bytes some crash left: the journal
        replays. `left` is what the file holds afterwards; when opening fails, another attempt
        starts from there. */
    method Reopen(bytes: string, ghost m: Moment) returns (err: Err, left: string, ghost k: nat)
      requires CodecOk(cx, oc) && StoreOk(base) && Sound(cx, oc, base, m) && Leaves(m, bytes)
      modifies this
      ensures err == Ok || err == Io
      ensures m.durable <= k <= |m.issued| && Leaves(m, left)
      ensures err != Ok ==> unchanged(this)
      ensures err == Ok ==> Valid() && !poisoned && base == old(base) && file == left && seen == iset{Now()}
      ensures err == Ok ==> Logged() == issued == m.issued[..k] && Some(store) == Replay(base, m.issued[..k])
      ensures err == Ok ==> durable == journalOps == k && StoreOk(store)
    {
      hide Frames, End, EventValid, CodecOk, StoreOk, Journals, LogImage, LogValid, Apply, Replay, Sound;
      SyncedLength(cx, oc, base, m);
      k := CrashImage(cx, oc, base, m, bytes);
      ghost var es, ops := m.events[..k], m.issued[..k];
      var count, s;
      err, s, count, left := ReplayJournal(cx, oc, base, bytes, es, ops);
      if err != Ok { return; }
      var fault: bool := *;
      if fault { return Io, left, k; }
      FramesLength(cx, bytes, es);
      Shortened(cx, oc, base, m, k) by { SoundSizes(cx, oc, base, m); }
      Adopt(s, count, left, es, ops);
    }

    /** A replayed and synced journal becomes the stream. */
    method Adopt(s: Store, count: nat, bytes: string, ghost es: seq<Event>, ghost ops: seq<Op>)
      requires CodecOk(cx, oc) && StoreOk(base) && bytes == Frames(cx, es) && count == |ops|
      requires Sound(cx, oc, base, Moment(bytes, |bytes|, es, ops, |ops|)) && Replay(base, ops) == Some(s)
      modifies this
      ensures Valid() && !poisoned && base == old(base) && file == bytes && seen == iset{Now()}
      ensures issued == Logged() == ops && store == s && durable == journalOps == |ops| && StoreOk(store)
    {
      hide Frames, CodecOk, StoreOk, Replay, Sound;
      ReplayKeepsStoreOk(base, ops);
      assert ops[..|ops|] == ops;
      store, journalOps, streamOpen, poisoned, file := s, count, true, false, bytes;
      issued, events, image := ops, es, bytes;
      synced, durable := |bytes|, count;
      seen := iset{Now()};
    }

    /** Write the frame; retract it, or poison the store, if that fails or cannot be synced. */
    method Commit(ghost op: Op, event: Event, force: bool) returns (err: Err)
      requires Valid() && !poisoned && event == OpEvent(oc, journalOps + 1, op, event.id) && EventValid(cx, event)
      requires |file| + |event.text| + 512 <= EVENT_LOG_BYTES && Apply(store, op).0 == Ok
      modifies this
      ensures err == Ok || err == Io
      ensures base == old(base) && store == old(store)
      ensures err == Ok ==> !poisoned && Settled() && journalOps == old(journalOps) + 1 && Core(old(journalOps))
      ensures err == Ok ==> issued == old(issued) + [op] && durable >= old(durable)
      ensures err == Ok && (force || policy == SyncAlways) ==> durable == journalOps
      ensures err != Ok ==> Valid() && Logged() == old(Logged()) && durable >= old(durable)
      ensures err != Ok && !poisoned ==> issued == old(issued)
      ensures OnlySaw(Some(op))
    {
      hide Frames, End, EventValid, FrameBytes, CodecOk, Apply, Journals, StoreOk, Replay;
      var offset := |file|;
      ghost var before := issued;
      assert before[..journalOps] == before;
      var wrote := WriteOut(op, event);
      assert issued[..journalOps] == before;
      var fault: bool := *;
      if !wrote || fault {
        Rollback(offset);
        return Io;
      }
      if force || policy == SyncAlways {
        var ok := Fsync(journalOps);
        if !ok {
          Poison();
          return Io;
        }
      }
      journalOps := journalOps + 1;
      return Ok;
    }

    method WriteOut(ghost op: Op, event: Event) returns (ok: bool)
      requires Valid() && !poisoned && event == OpEvent(oc, journalOps + 1, op, event.id) && EventValid(cx, event)
      requires |file| + |event.text| + 512 <= EVENT_LOG_BYTES && Apply(store, op).0 == Ok
      modifies this`file, this`image, this`issued, this`events, this`seen
      ensures Core(journalOps) && durable <= journalOps
      ensures issued == old(issued) + [op] && file == image && old(file) <= file
      ensures ok ==> file == Frames(cx, events)
      ensures Frames(cx, events[..journalOps]) == old(file) && synced <= |old(file)|
      ensures forall m :: m in seen ==> m in old(seen) || (m.durable == durable && m.issued == issued)
    {
      hide Frames, EventValid, FrameBytes, CodecOk, Apply, LogValid, Replay;
      ValidEventWritable(cx, event);
      FrameFits(cx, event);
      var err, written := FrameWrite(cx, file, event);
      WrittenPart(cx, file, event, written, err);
      Issue(op, event, written);
      ok := err == Ok;
    }

    /** A frame of which some part reached the stream joins the issued ones; a crash may find
        any part of it. */
    method Issue(ghost op: Op, ghost event: Event, written: string)
      requires Valid() && !poisoned && event == OpEvent(oc, journalOps + 1, op, event.id) && EventValid(cx, event)
      requires file <= written <= file + FrameBytes(cx, event)
      requires |written| <= EVENT_LOG_BYTES && Apply(store, op).0 == Ok
      modifies this`file, this`image, this`issued, this`events, this`seen
      ensures Core(journalOps) && durable <= journalOps
      ensures issued == old(issued) + [op] && events == old(events) + [event]
      ensures file == image == written && seen == old(seen) + iset{Now()}
      ensures written == old(file) + FrameBytes(cx, event) ==> file == Frames(cx, events)
      ensures Frames(cx, events[..journalOps]) == old(file) && synced <= |old(file)|
    {
      hide Frames, EventValid, FrameBytes, CodecOk, Apply, StoreOk, Replay, Sound;
      SoundSizes(cx, oc, base, Now());
      assert issued[..journalOps] == issued;
      Lengthened(cx, oc, base, Now(), op, event, written);
      assert (issued + [op])[..journalOps] == issued;
      assert (events + [event])[..journalOps] == events;
      SyncedLength(cx, oc, base, Now());
      file, image := written, written;
      issued, events := issued + [op], events + [event];
      seen := seen + iset{Now()};
    }
  }

  predicate Extends(issued: seq<Op>, logged: seq<Op>, op: Option<Op>, now: seq<Op>) {
    now == issued || (op.Some? && now == logged + [op.value])
  }

  lemma WrittenPart(cx: Codec, file: string, event: Event, written: string, err: Err)
    requires err == Ok ==> written == file + FrameBytes(cx, event)
    requires err != Ok ==> exists k: nat :: k <= |FrameBytes(cx, event)| && written == file + FrameBytes(cx, event)[..k]
    ensures file <= written <= file + FrameBytes(cx, event)
  {
    hide FrameBytes;
    if err != Ok {
      var k: nat :| k <= |FrameBytes(cx, event)| && written == file + FrameBytes(cx, event)[..k];
      PrefixOfConcat(file, FrameBytes(cx, event), k);
    }
  }
}
