/** Bounded ownership of conversation turns: admission by per-scope cursors, batches taken in
    flight, restored or released (src/turn_queue.c, src/source_pending.c, src/curator.c:100-164,
    src/curation_input.c). */
module Intake {
  import opened Outcomes
  import opened Text
  import opened Turns
  import opened Ledger
  import Transcript

  const SCOPES_MAX: nat := 16384
  const SIZE_MAX: nat := 0xFFFF_FFFF_FFFF_FFFF

  /** 16 doubled up to the event limit. */
  predicate CapOk(cap: nat) { cap in {0, 16, 32, 64, 128, 256, 512, 1024, 2048, 4096} }

  /** `asper_turn_queue_limit`. */
  function QueueLimit(configured: int): (n: nat)
    ensures 1 <= n <= 4096
    ensures (n < configured ==> n == 4096) && (configured < n ==> n == 1)
  {
    if configured < 1 then 1 else if configured > QUEUE_EVENTS then QUEUE_EVENTS else configured
  }

  class Intake {
    const limit: nat
    const turnBatch: int
    const st: Settled
    const digest: Source -> string
    var logs: map<string, Log>       // the scopes' event logs, as far as they are durable
    var turns: seq<Turn>
    var cap: nat
    var bytes: nat
    var inflight: nat
    var inflightBytes: nat
    var scopes: seq<Scope>
    var next: nat
    var frozen: bool
    var index: seq<string>           // the registered scopes, on disk
    var dirty: bool                  // the index has to be read again
    var suspended: bool              // a curation receipt is pending
    var flight: seq<Turn>            // the turns the running cycle owns
    var acked: set<string>           // ids added to the acknowledgement file since the start
    ghost var done: seq<Turn>        // what successful cycles acknowledged, oldest first

    ghost function All(): seq<Turn> reads `done, `flight, `turns { done + flight + turns }

    /** The acknowledgement file gained exactly the ids of successful cycles; while a receipt is
        pending it may also have those of the failed batch, which is back at the head of the queue. */
    ghost predicate Acknowledged()
      reads `acked, `done, `turns, `suspended
    {
      acked == Ids(done) || (suspended && exists n: nat :: Ahead(n))
    }

    ghost predicate Ahead(n: nat)
      reads `acked, `done, `turns
    {
      n <= |turns| && acked == Ids(done) + Ids(turns[..n])
    }

    /** Counters and byte totals are the real ownership, and every turn in flight has a slot
        to come back to. */
    ghost predicate Counts()
      reads `turns, `cap, `bytes, `inflight, `inflightBytes, `flight
    {
      && inflight == |flight| && bytes == Bytes(turns) && inflightBytes == Bytes(flight)
      && 1 <= limit <= QUEUE_EVENTS && |turns| + inflight <= limit && |turns| + inflight <= cap && CapOk(cap)
      && bytes + inflightBytes <= QUEUE_BYTES
    }

    ghost predicate Valid()
      reads this
    {
      && Counts() && Balanced(st, digest, logs, All(), scopes)
      && |scopes| <= SCOPES_MAX && (if scopes == [] then next == 0 else next < |scopes|)
    }

    constructor (configured: int, turnBatch: int, st: Settled, digest: Source -> string,
        logs: map<string, Log>, index: seq<string>)
      ensures Valid() && turns == flight == done == [] && scopes == [] && this.logs == logs &&
        this.index == index && !frozen && !suspended && dirty && Acknowledged()
      ensures limit == QueueLimit(configured) && this.turnBatch == turnBatch && this.st == st
    {
      limit, this.turnBatch, this.st, this.digest, this.logs := QueueLimit(configured), turnBatch, st, digest, logs;
      turns, cap, bytes, inflight, inflightBytes := [], 0, 0, 0, 0;
      scopes, next, frozen, suspended, flight, done := [], 0, false, false, [], [];
      this.index, dirty, acked := index, true, {};
    }

    predicate Room(size: nat)
      reads `turns, `bytes, `inflight, `inflightBytes
    {
      |turns| + inflight < limit && size <= QUEUE_BYTES - bytes - inflightBytes
    }

    function Free(): int
      reads `bytes, `inflightBytes
    {
      QUEUE_BYTES - bytes - inflightBytes
    }

    /** `asper_enqueue_turn`. */
    method Enqueue(scope: string, e: Source, sequence: nat) returns (err: Err)
      requires Counts() && e.kind != Other
      modifies this`turns, this`cap, this`bytes
      ensures Counts()
      ensures err == Ok ==> turns == old(turns) + [TurnOf(scope, e, sequence)]
      ensures err == Ok ==> |turns| == |old(turns)| + 1 && turns[..|old(turns)|] == old(turns)
      ensures err == Ok ==> bytes == old(bytes) + |e.text| + 1
      ensures err == Ok ==> turns[|old(turns)|].context == Context(scope, e.project, e.workspace, e.commit)
      ensures err == Ok ==> turns[|old(turns)|].id == e.id && turns[|old(turns)|].sequence == sequence
      ensures err == Ok ==> turns[|old(turns)|].text == e.text && (turns[|old(turns)|].user <==> e.kind == User)
      ensures err != Ok ==> turns == old(turns)
      ensures err == Invalid <==> Blank(e.text) || !e.utf8 || !e.uuid
      ensures err == Limit <==> !Blank(e.text) && e.utf8 && e.uuid && |e.text| + 1 > QUEUE_BYTES
      ensures err == Invalid <==> !e.utf8 || !e.uuid || Wordless(e.text)
      ensures err == Busy ==> !old(Room(|e.text| + 1)) && |e.text| + 1 <= QUEUE_BYTES
      ensures err == Busy ==>
        |turns| + |flight| >= limit || Bytes(turns) + Bytes(flight) + |e.text| + 1 > 32 * 1024 * 1024
      ensures err == Ok ==> |turns| + |flight| <= limit && Bytes(turns) + Bytes(flight) <= 32 * 1024 * 1024
      ensures Free() <= old(Free())
      ensures err == Ok || err == Parse ==> old(Room(|e.text| + 1)) && (err == Ok <==> e.metadataOk)
      ensures err == Ok || err == Invalid || err == Limit || err == Busy || err == Parse
    {
      hide Blank, Wordless;
      BlankMeans(e.text);
      if Blank(e.text) || !e.utf8 || !e.uuid { return Invalid; }
      var size := |e.text| + 1;
      if size > QUEUE_BYTES { return Limit; }
      if !Room(size) { return Busy; }
      if !e.metadataOk { return Parse; }
      if |turns| + inflight == cap {
        Doubled(cap);
        cap := Larger(cap);
      }
      hide CapOk, Larger, Bytes;
      var t := TurnOf(scope, e, sequence);
      OneTurn(turns, t);
      turns := turns + [t];
      bytes := bytes + size;
      return Ok;
    }

    /** The event under a cursor cannot be admitted, now or later. */
    ghost predicate Blocked(s: Scope)
      reads `logs
    {
      s.cursor < |LogOf(logs, s.name)| && Bad(st, digest, s.name, LogOf(logs, s.name)[s.cursor], s.cursor + 1)
    }

    /** One event of `fill_scope`. `full` reports byte pressure: the cursor stays. */
    method FillOne(i: nat) returns (err: Err, full: bool)
      requires Valid() && i < |scopes| && scopes[i].cursor < scopes[i].end && Room(1)
      modifies this`turns, this`cap, this`bytes, this`scopes
      ensures Valid()
      ensures turns == old(turns) || (|turns| == |old(turns)| + 1 && old(turns) <= turns)
      ensures err == Ok && !full ==> scopes == old(scopes)[i := old(scopes[i]).(cursor := old(scopes[i]).cursor + 1)]
      ensures err != Ok || full ==> scopes == old(scopes) && turns == old(turns)
      ensures full ==> err == Ok && Pressed(st, LogOf(logs, scopes[i].name), Free(), scopes[i])
      ensures Free() <= old(Free())
      ensures err != Ok ==> err == Io || Blocked(scopes[i])
    {
      hide Balanced, LogOf, Blank, Counts, TurnOf;
      var s := scopes[i];
      InOrder(st, digest, logs, All(), scopes);
      assert s in scopes;
      var e := LogOf(logs, s.name)[s.cursor];
      var readable: bool := *;
      if !readable { return Io, false; }
      ghost var all := All();
      if e.kind != Other && e.id !in st.acked {
        if (s.name, e.id) in st.deferrals {
          if st.deferrals[(s.name, e.id)] != Deferral(s.cursor + 1, digest(e)) { return Parse, false; }
          Passed(st, digest, logs, all, scopes, i);
        } else {
          err, full := Offer(s, e);
          if err != Ok || full { return; }
          Admitted(st, digest, logs, all, scopes, i);
        }
      } else {
        Passed(st, digest, logs, all, scopes, i);
      }
      scopes := scopes[i := s.(cursor := s.cursor + 1)];
      return Ok, false;
    }

    /** The event under the cursor is to be curated: queue it, or tell why not. */
    method Offer(s: Scope, e: Source) returns (err: Err, full: bool)
      requires Counts() && Room(1) && s.cursor < |LogOf(logs, s.name)| && e == LogOf(logs, s.name)[s.cursor]
      requires Wanted(st, s.name, e)
      modifies this`turns, this`cap, this`bytes
      ensures Counts() && Free() <= old(Free())
      ensures err == Ok && !full ==>
        turns == old(turns) + [TurnOf(s.name, e, s.cursor + 1)] && All() == old(All()) + [TurnOf(s.name, e, s.cursor + 1)]
      ensures err == Ok && !full ==> !Bad(st, digest, s.name, e, s.cursor + 1)
      ensures err != Ok || full ==> turns == old(turns)
      ensures full ==> err == Ok && Pressed(st, LogOf(logs, s.name), Free(), s)
      ensures err != Ok ==> Blocked(s)
    {
      hide LogOf, Blank, Wordless, Counts, TurnOf;
      err := Enqueue(s.name, e, s.cursor + 1);
      if err == Busy { return Ok, true; }
      full := false;
      assert done + flight + (old(turns) + [TurnOf(s.name, e, s.cursor + 1)])
        == done + flight + old(turns) + [TurnOf(s.name, e, s.cursor + 1)];
    }

    /** `fill_scope`: admit events up to the captured end while there is room. It stops for
        good at an event that cannot be admitted, and never passes one. */
    method FillScope(i: nat) returns (err: Err)
      requires Valid() && i < |scopes|
      modifies this`turns, this`cap, this`bytes, this`scopes
      ensures Valid() && old(turns) <= turns && |scopes| == |old(scopes)|
      ensures scopes == old(scopes)[i := old(scopes[i]).(cursor := scopes[i].cursor)]
      ensures old(scopes[i]).cursor <= scopes[i].cursor <= scopes[i].end || scopes == old(scopes)
      ensures |turns| - |old(turns)| <= scopes[i].cursor - old(scopes[i]).cursor
      ensures err == Ok ==> !Room(1) || Rested(st, logs, Free(), scopes[i])
      ensures err != Ok ==> err == Io || Blocked(scopes[i])
      ensures Free() <= old(Free())
    {
      hide Balanced, Blocked;
      var reachable: bool := *;
      if !reachable { return Io; }
      ghost var first := scopes[i].cursor;
      while scopes[i].cursor < scopes[i].end && Room(1)
        invariant Valid() && old(turns) <= turns && |scopes| == |old(scopes)|
        invariant scopes == old(scopes)[i := old(scopes[i]).(cursor := scopes[i].cursor)]
        invariant first <= scopes[i].cursor && (scopes[i].cursor <= scopes[i].end || scopes == old(scopes))
        invariant |turns| - |old(turns)| <= scopes[i].cursor - first && Free() <= old(Free())
        decreases scopes[i].end - scopes[i].cursor
      {
        var full;
        err, full := FillOne(i);
        if err != Ok || full { return; }
      }
      return Ok;
    }

    /** `add_scope`. */
    method AddScope(name: string) returns (err: Err)
      requires Valid()
      modifies this`scopes
      ensures Valid() && (err == Ok || err == Limit)
      ensures Grown(old(scopes), scopes)
      ensures err == Ok ==> MarkedIn(scopes, name)
    {
      hide Balanced, Bytes, Grown, Named, LogOf, MarkedIn;
      for i := 0 to |scopes|
        invariant forall k | 0 <= k < i :: scopes[k].name != name
      {
        if scopes[i].name == name {
          InOrder(st, digest, logs, All(), scopes);
          assert scopes[i] in scopes;
          Captured(st, digest, logs, All(), scopes, i, scopes[i].(refresh := true));
          Marked(scopes, i);
          scopes := scopes[i := scopes[i].(refresh := true)];
          return Ok;
        }
      }
      Unmarked(scopes);
      Absent(scopes, name);
      if |scopes| == SCOPES_MAX { return Limit; }
      Opened(st, digest, logs, All(), scopes, Scope(name, 0, 0, true));
      Extended(scopes, name);
      scopes := scopes + [Scope(name, 0, 0, true)];
      return Ok;
    }

    /** `inventory`: read the index and know every scope in it. */
    method Inventory() returns (err: Err)
      requires Valid()
      modifies this`scopes, this`dirty
      ensures Valid() && Grown(old(scopes), scopes)
      ensures dirty == (old(dirty) && err != Ok)
      ensures err == Ok ==> forall k | 0 <= k < |index| :: MarkedIn(scopes, index[k])
    {
      hide Balanced, Bytes, Grown, MarkedIn;
      Unmarked(scopes);
      var readable: bool := *;
      if !readable { return Io; }
      for i := 0 to |index|
        invariant Valid() && Grown(old(scopes), scopes) && dirty == old(dirty)
        invariant forall k | 0 <= k < i :: MarkedIn(scopes, index[k])
      {
        ghost var before := scopes;
        err := AddScope(index[i]);
        GrownMore(old(scopes), before, scopes);
        if err != Ok { return; }
        forall k | 0 <= k < i ensures MarkedIn(scopes, index[k]) { StillMarked(before, scopes, index[k]); }
      }
      dirty := false;
      return Ok;
    }

    /** `capture_scope`: the end moves to what the log holds now. */
    method CaptureScope(i: nat) returns (err: Err)
      requires Valid() && i < |scopes|
      modifies this`scopes
      ensures Valid() && |scopes| == |old(scopes)|
      ensures err == Ok ==>
        scopes == old(scopes)[i := old(scopes[i]).(end := |LogOf(logs, old(scopes[i]).name)|, refresh := false)]
      ensures err != Ok ==> scopes == old(scopes)
    {
      hide Balanced, Bytes;
      var readable: bool := *;
      if !readable { return Io; }
      var s := scopes[i];
      InOrder(st, digest, logs, All(), scopes);
      assert s in scopes;
      var now := s.(end := |LogOf(logs, s.name)|, refresh := false);
      Captured(st, digest, logs, All(), scopes, i, now);
      scopes := scopes[i := now];
      return Ok;
    }

    /** One scope of `refill`. */
    method Serve(i: nat) returns (err: Err)
      requires Valid() && i < |scopes|
      modifies this`turns, this`cap, this`bytes, this`scopes
      ensures Valid() && old(turns) <= turns && |scopes| == |old(scopes)| && scopes == old(scopes)[i := scopes[i]]
      ensures frozen ==> Drained(old(scopes), scopes, |turns| - |old(turns)|)
      ensures err == Ok && !frozen && old(scopes[i]).refresh ==>
        !scopes[i].refresh && scopes[i].end == |LogOf(logs, scopes[i].name)|
      ensures err == Ok ==> !Room(1) || Rested(st, logs, Free(), scopes[i])
      ensures Free() <= old(Free())
    {
      hide Balanced, Bytes, Blocked, LogOf;
      DrainedNothing(scopes);
      err := Ok;
      if scopes[i].refresh && !frozen {
        err := CaptureScope(i);
        if err != Ok { return; }
      }
      if scopes[i].cursor < scopes[i].end {
        ghost var mid := scopes;
        err := FillScope(i);
        if frozen { DrainedStep(mid, scopes, i, |turns| - |old(turns)|); }
      }
    }

    /** `refill`: one round over the scopes, starting where the last round stopped. */
    method Refill() returns (err: Err)
      requires Valid()
      modifies this`turns, this`cap, this`bytes, this`scopes, this`next, this`dirty
      ensures Valid() && old(turns) <= turns
      ensures frozen ==> Drained(old(scopes), scopes, |turns| - |old(turns)|) && dirty == old(dirty)
      ensures err == Ok ==> !Room(1) || forall i | 0 <= i < |scopes| :: Rested(st, logs, Free(), scopes[i])
    {
      hide Balanced, Counts, Grown, Drained, Gap, Served, Rested;
      err := Ok;
      DrainedNothing(scopes);
      if dirty && !frozen {
        err := Inventory();
        if err != Ok { return; }
      }
      var checked := 0;
      ghost var start := next;
      NoneServed(st, logs, Free(), scopes, start);
      while checked < |scopes| && Room(1)
        invariant Valid() && old(turns) <= turns && checked <= |scopes| && (frozen ==> dirty == old(dirty))
        invariant frozen ==> Drained(old(scopes), scopes, |turns| - |old(turns)|)
        invariant Room(1) ==> Served(st, logs, Free(), scopes, start, checked, next)
        decreases |scopes| - checked
      {
        ghost var before, fed := scopes, |turns|;
        err := ServeNext(start, checked);
        if frozen { DrainedMore(old(scopes), before, scopes, fed - |old(turns)|, |turns| - fed); }
        if err != Ok { return; }
        checked := checked + 1;
      }
      if Room(1) { ServedAll(st, logs, Free(), scopes, start, checked, next); }
    }

    /** Serve the scope the round stands at, and move on. */
    method ServeNext(ghost start: nat, ghost checked: nat) returns (err: Err)
      requires Valid() && Room(1) && checked < |scopes| && Served(st, logs, Free(), scopes, start, checked, next)
      modifies this`turns, this`cap, this`bytes, this`scopes, this`next
      ensures Valid() && old(turns) <= turns && |scopes| == |old(scopes)|
      ensures frozen ==> Drained(old(scopes), scopes, |turns| - |old(turns)|)
      ensures err == Ok && Room(1) ==> Served(st, logs, Free(), scopes, start, checked + 1, next)
    {
      hide Balanced, Counts, Drained, Gap, Served, Rested;
      ghost var before, free := scopes, Free();
      err := Serve(next);
      if err != Ok { return; }
      if Room(1) { ServedMore(st, logs, free, Free(), before, scopes, start, checked, next); }
      next := if next + 1 == |scopes| then 0 else next + 1;
    }

    /** `asper_source_replay_pending`: nothing while a receipt is pending. */
    method Replay() returns (err: Err)
      requires Valid()
      modifies this`turns, this`cap, this`bytes, this`scopes, this`next, this`dirty
      ensures Valid() && old(turns) <= turns
      ensures frozen ==> Drained(old(scopes), scopes, |turns| - |old(turns)|) && dirty == old(dirty)
      ensures err == Ok && !suspended ==>
        !Room(1) || forall i | 0 <= i < |scopes| :: Rested(st, logs, Free(), scopes[i])
      ensures suspended ==> err == Ok && turns == old(turns) && scopes == old(scopes)
      ensures old(Acknowledged()) ==> Acknowledged()
    {
      hide Balanced, Counts, Gap;
      DrainedNothing(scopes);
      err := Ok;
      if !suspended { err := Refill(); }
    }

    /** `asper_source_pending_note`, after an event became durable. While a flush is frozen only
        the refresh mark is set. */
    method Note(name: string) returns (err: Err)
      requires Valid()
      modifies this`turns, this`cap, this`bytes, this`scopes, this`next, this`dirty
      ensures Valid() && old(turns) <= turns
      ensures frozen ==> turns == old(turns) && Grown(old(scopes), scopes)
      ensures frozen || suspended ==> (err == Ok ==> MarkedIn(scopes, name)) && (err != Ok ==> dirty)
    {
      hide Balanced, Counts, Grown, MarkedIn;
      err := AddScope(name);
      if err != Ok { dirty := true; }
      if err == Ok && !frozen && !suspended { err := Refill(); }
    }

    /** A producer appends an event to its scope's log and notes it. */
    method Produce(name: string, e: Source)
      requires Valid()
      modifies this`logs, this`index, this`turns, this`cap, this`bytes, this`scopes, this`next, this`dirty
      ensures Valid() && old(turns) <= turns && logs == old(logs)[name := LogOf(old(logs), name) + [e]]
      ensures frozen ==> turns == old(turns) && Grown(old(scopes), scopes)
    {
      hide Balanced, Counts, Grown;
      if name !in index { index := index + [name]; }
      Appended(st, digest, logs, All(), scopes, name, e);
      logs := logs[name := LogOf(logs, name) + [e]];
      Unmarked(scopes);
      if e.kind != Other { var _ := Note(name); }
    }

    /** How many turns from the head share one context, within the batch limit. */
    method CutBatch(force: bool) returns (take: nat)
      ensures take <= BatchLimit(force, |turns|) <= |turns| &&
        (turns != [] ==> take > 0 || BatchLimit(force, |turns|) == 0)
      ensures forall k | 0 <= k < take :: turns[k].context == turns[0].context
      ensures take < BatchLimit(force, |turns|) ==> turns[take].context != turns[0].context
    {
      take := BatchLimit(force, |turns|);
      if take == 0 { return; }
      for i := 1 to take
        invariant forall k | 0 <= k < i :: turns[k].context == turns[0].context
      {
        if turns[0].context != turns[i].context { return i; }
      }
    }

    /** `take_turns`: the longest prefix of one context within the batch limits. */
    method Take(force: bool)
      requires Valid() && flight == []
      modifies this`turns, this`bytes, this`inflight, this`inflightBytes, this`flight
      ensures Valid() && flight + turns == old(turns)
      ensures |flight| <= BatchLimit(force, |old(turns)|) && (old(turns) != [] ==> flight != [])
      ensures forall t | t in flight :: t.context == flight[0].context
      ensures |flight| < BatchLimit(force, |old(turns)|) ==> turns != [] && turns[0].context != flight[0].context
      ensures |flight| <= 256 && (!force && turnBatch > 0 ==> |flight| <= turnBatch)
      ensures turns != [] && |flight| < 256 && (force || turnBatch <= 0 || |flight| < turnBatch) ==>
        turns[0].context != flight[0].context
    {
      hide Balanced, Bytes;
      NoBytes();
      var take := CutBatch(force);
      if take == 0 { return; }
      assert turns == turns[..take] + turns[take..];
      BytesJoin(turns[..take], turns[take..]);
      assert done + turns[..take] + turns[take..] == done + [] + turns;
      var moved := Size(turns[..take]);
      flight := turns[..take];
      bytes, inflightBytes := bytes - moved, inflightBytes + moved;
      inflight := inflight + take;
      turns := turns[take..];
    }

    function BatchLimit(force: bool, n: nat): nat {
      var a := if !force && turnBatch > 0 && n > turnBatch then turnBatch else n;
      if a > CURATION_BATCH_MAX then CURATION_BATCH_MAX else a
    }

    /** The byte loop of `take_turns` and `restore_turns`. */
    method Size(ts: seq<Turn>) returns (n: nat)
      ensures n == Bytes(ts)
    {
      n := 0;
      for i := 0 to |ts|
        invariant n == Bytes(ts[..i])
      {
        assert ts[..i + 1][..i] == ts[..i];
        n := n + |ts[i].text| + 1;
      }
      assert ts[..|ts|] == ts;
    }

    /** `restore_turns`: the tail of the batch goes back to the head of the queue. It never
        fails, however many turns were admitted meanwhile. */
    method Restore(keep: nat) returns (ok: bool)
      requires Valid() && keep <= |flight|
      modifies this`turns, this`bytes, this`inflight, this`inflightBytes, this`flight
      ensures Valid() && ok
      ensures flight == old(flight)[..keep] && turns == old(flight)[keep..] + old(turns)
    {
      hide Balanced, Bytes, CapOk;
      var back := flight[keep..];
      BytesJoin(flight[..keep], back);
      BytesJoin(back, turns);
      assert flight == flight[..keep] + back;
      assert done + flight + turns == done + flight[..keep] + (back + turns);
      if back == [] {
        assert [] + turns == turns;
        return true;
      }
      if |back| > inflight || |turns| > cap || |back| > cap - |turns| { return false; }
      var moved := Size(back);
      turns := back + turns;
      inflight := inflight - |back|;
      bytes, inflightBytes := bytes + moved, inflightBytes - moved;
      flight := flight[..keep];
      return true;
    }

    /** `asper_turn_queue_release` after a cycle that succeeded: its turns are done. */
    method Release()
      requires Valid()
      modifies this`inflight, this`inflightBytes, this`flight, this`done
      ensures Valid() && done == old(done) + old(flight) && flight == []
    {
      hide Balanced;
      NoBytes();
      var moved := Size(flight);
      inflight := inflight - |flight|;
      inflightBytes := inflightBytes - moved;
      assert done + flight + turns == (done + flight) + [] + turns;
      done, flight := done + flight, [];
    }

    lemma EmptyRoom()
      requires Counts() && turns == [] && flight == []
      ensures Room(1) && Free() == QUEUE_BYTES
    {}

    /** Producers at work while a cycle runs. */
    method Concurrent()
      requires Valid()
      modifies this`logs, this`index, this`turns, this`cap, this`bytes, this`scopes, this`next, this`dirty
      ensures Valid() && old(turns) <= turns
      ensures frozen ==> turns == old(turns) && Grown(old(scopes), scopes)
    {
      hide Balanced, Counts, Grown;
      Unmarked(scopes);
      var n: nat := *;
      while n > 0
        invariant Valid() && old(turns) <= turns
        invariant frozen ==> turns == old(turns) && Grown(old(scopes), scopes)
      {
        var name: string, e: Source := *, *;
        ghost var before := scopes;
        Produce(name, e);
        if frozen { GrownMore(old(scopes), before, scopes); }
        n := n - 1;
      }
    }

    /** Admit what fits, take a batch and cut it to its transcript; what was cut goes back in front
        of what producers added meanwhile. */
    method Grab(force: bool, tokens: string -> int, budget: int) returns (err: Err)
      requires Valid() && flight == []
      modifies this`logs, this`index, this`turns, this`cap, this`bytes, this`inflight, this`inflightBytes,
               this`flight, this`scopes, this`next, this`dirty
      ensures Valid() && old(turns) <= flight + turns && (err != Ok ==> flight == [])
      ensures err == Ok ==> (flight == [] ==> turns == []) && (flight != [] ==> Transcript.Fits(flight, tokens, budget))
      ensures err == Ok && flight != [] ==> Presented(tokens, budget)
      ensures frozen ==> Advanced(old(scopes), scopes) && |flight| + |turns| + Left(scopes) <= |old(turns)| + Left(old(scopes))
      ensures old(Acknowledged()) && !suspended ==> Acknowledged()
    {
      hide Balanced, Counts, Drained, Advanced, Left, Transcript.Fits, Presented;
      err := Replay();
      if frozen { DrainedAdvanced(old(scopes), scopes, |turns| - |old(turns)|); }
      if err != Ok { return; }
      ghost var queued, before := turns, scopes;
      Take(force);
      if flight == [] { return Ok; }
      err := Present(tokens, budget);
      assert queued <= flight + turns;
      if frozen { AdvancedMore(old(scopes), before, scopes); }
    }

    /** The batch is cut to its transcript while producers go on. */
    method Present(tokens: string -> int, budget: int) returns (err: Err)
      requires Valid() && flight != []
      modifies this`logs, this`index, this`turns, this`cap, this`bytes, this`inflight, this`inflightBytes,
               this`flight, this`scopes, this`next, this`dirty
      ensures Valid() && old(flight) + old(turns) <= flight + turns && (err != Ok ==> flight == [])
      ensures err == Ok ==> flight != [] && Transcript.Fits(flight, tokens, budget) && Presented(tokens, budget)
      ensures frozen ==> Advanced(old(scopes), scopes) && Left(scopes) == Left(old(scopes))
      ensures frozen ==> flight + turns == old(flight) + old(turns)
    {
      hide Balanced, Counts, Advanced, Grown, Left, Transcript.Fits, Presented;
      ghost var before := scopes;
      Unmoved(scopes);
      Concurrent();                        // no lock is held while tokens are counted
      if frozen { GrownAdvanced(before, before, scopes); }
      err := Shorten(tokens, budget);
    }

    /** Cut the batch to its transcript. */
    method Shorten(tokens: string -> int, budget: int) returns (err: Err)
      requires Valid() && flight != []
      modifies this`turns, this`bytes, this`inflight, this`inflightBytes, this`flight
      ensures Valid() && flight + turns == old(flight) + old(turns) && (err != Ok ==> flight == [])
      ensures err == Ok ==> flight != [] && Transcript.Fits(flight, tokens, budget) && Presented(tokens, budget)
    {
      hide Balanced, Counts, Transcript.Fits, Transcript.LaidOut, Presents;
      var included, text;
      ghost var at;
      err, included, text, at := Transcript.Build(flight, tokens, budget);
      ghost var taken, all := flight, All();
      var ok := Restore(included);
      assert taken == taken[..included] + taken[included..];
      if err == Ok {
        InFlight();
        Presenting(st, digest, logs, All(), scopes, flight, text, at);
      }
    }

    /** A text that shows, in order, the events of the batch and nothing else, within both budgets. */
    ghost predicate Presented(tokens: string -> int, budget: int)
      reads `flight, `logs
    {
      exists text, at :: Presents(flight, logs, text, at) && |text| <= 65536 && 0 < budget && tokens(text) <= budget
    }

    lemma InFlight()
      ensures forall t | t in flight :: t in All()
    {}

    /** The ownership side of `asper_curation_cycle`. A failure at any step puts the whole batch
        back in front; a success acknowledges exactly what the transcript showed. */
    method Cycle(force: bool, tokens: string -> int, budget: int) returns (err: Err)
      requires Valid() && flight == []
      modifies this`logs, this`index, this`turns, this`cap, this`bytes, this`inflight, this`inflightBytes,
               this`flight, this`done, this`scopes, this`next, this`dirty, this`suspended, this`acked
      ensures Valid() && flight == [] && old(done) + old(turns) <= done + turns
      ensures old(Acknowledged()) ==> Acknowledged()
      ensures err != Ok ==> done == old(done) && old(turns) <= turns
      ensures err == Ok ==> old(done) <= done && suspended == old(suspended) == false
      ensures err == Ok && old(turns) != [] ==>
        done != old(done) && Transcript.Fits(done[|old(done)|..], tokens, budget)
      ensures frozen ==> Advanced(old(scopes), scopes) && |turns| + Left(scopes) <= |old(turns)| + Left(old(scopes))
      ensures frozen && err == Ok && old(turns) != [] ==> |turns| + Left(scopes) < |old(turns)| + Left(old(scopes))
    {
      hide Balanced, Counts, Grown, Advanced, Transcript.Fits, Acknowledged, Left, Presented, Ids, Ahead;
      Unmoved(scopes);
      if suspended { return Busy; }
      err := Grab(force, tokens, budget);
      if err != Ok || flight == [] {
        assert flight + turns == turns;
        return;
      }
      ghost var before, taken := scopes, flight + turns;
      err := Conclude();
      assert old(done) + taken <= done + turns;
      if frozen { AdvancedMore(old(scopes), before, scopes); }
    }

    /** The cycle behind its transcript: producers go on; the batch succeeds or comes back. */
    method Conclude() returns (err: Err)
      requires Valid() && !suspended && flight != []
      modifies this`logs, this`index, this`turns, this`cap, this`bytes, this`inflight, this`inflightBytes,
               this`flight, this`done, this`scopes, this`next, this`dirty, this`suspended, this`acked
      ensures Valid() && flight == [] && (old(Acknowledged()) ==> Acknowledged())
      ensures err == Ok ==> done == old(done) + old(flight) && old(turns) <= turns && !suspended
      ensures err != Ok ==> done == old(done) && old(flight) + old(turns) <= turns
      ensures frozen ==> Advanced(old(scopes), scopes) && Left(scopes) == Left(old(scopes))
      ensures frozen ==> |turns| == |old(turns)| + (if err == Ok then 0 else |old(flight)|)
    {
      hide Balanced, Counts, Grown, Advanced, Ahead, Ids, Left;
      ghost var before := scopes;
      Unmoved(scopes);
      Concurrent();
      if frozen { GrownAdvanced(before, before, scopes); }
      err := *;
      if err == Ok { Succeed(); } else { GiveBack(); }
    }

    /** The failing end of a cycle: with or without a durable receipt, before or behind its
        acknowledgement. */
    method GiveBack()
      requires Valid() && !suspended
      modifies this`turns, this`bytes, this`inflight, this`inflightBytes, this`flight, this`suspended, this`acked
      ensures Valid() && flight == [] && turns == old(flight) + old(turns)
      ensures old(Acknowledged()) ==> Acknowledged()
    {
      hide Balanced, Counts;
      var prepared, acknowledged: bool := *, *;
      ghost var batch, before := flight, acked;
      if prepared && acknowledged { acked := acked + Ids(flight); }
      suspended := prepared;
      var ok := Restore(0);
      assert turns[..|batch|] == batch;
      assert prepared && acknowledged && before == Ids(done) ==> Ahead(|batch|);
    }

    /** The successful end of a cycle: the batch is on the acknowledgement file. */
    method Succeed()
      requires Valid() && !suspended
      modifies this`inflight, this`inflightBytes, this`flight, this`done, this`acked
      ensures Valid() && flight == [] && done == old(done) + old(flight)
      ensures old(Acknowledged()) ==> Acknowledged()
    {
      hide Balanced, Counts;
      acked := acked + Ids(flight);
      IdsJoin(done, flight);
      Release();
    }

    /** Move the end of every marked scope to what its log holds now. */
    method CaptureAll() returns (err: Err)
      requires Valid()
      modifies this`scopes
      ensures Valid() && |scopes| == |old(scopes)|
      ensures err == Ok ==> forall i | 0 <= i < |scopes| :: !scopes[i].refresh && scopes[i].name == old(scopes)[i].name
      ensures err == Ok ==>
        forall i | 0 <= i < |scopes| && old(scopes)[i].refresh :: scopes[i].end == |LogOf(logs, scopes[i].name)|
    {
      hide Balanced, Counts, LogOf;
      for i := 0 to |scopes|
        invariant Valid() && |scopes| == |old(scopes)| && forall k | i <= k < |scopes| :: scopes[k] == old(scopes)[k]
        invariant forall k | 0 <= k < i :: !scopes[k].refresh && scopes[k].name == old(scopes)[k].name
        invariant forall k | 0 <= k < i && old(scopes)[k].refresh :: scopes[k].end == |LogOf(logs, scopes[k].name)|
      {
        if scopes[i].refresh {
          err := CaptureScope(i);
          if err != Ok { return; }
        }
      }
      err := Ok;
    }

    method Budget() returns (err: Err, budget: nat)
      requires Valid()
      ensures err == Ok ==> budget == |turns| + Left(scopes)
      ensures err == Ok || err == Limit
    {
      hide Balanced, Counts;
      budget := |turns|;
      InOrder(st, digest, logs, All(), scopes);
      for i := 0 to |scopes|
        invariant budget == |turns| + Left(scopes[..i])
      {
        assert scopes[i] in scopes;
        var left := scopes[i].end - scopes[i].cursor;
        LeftNext(scopes, i);
        if left > SIZE_MAX - budget { return Limit, budget; }
        budget := budget + left;
      }
      assert scopes[..|scopes|] == scopes;
      err := Ok;
    }

    /** `asper_source_pending_capture`: freeze the ends, and bound the cycles by what is queued
        or still to admit. */
    method Capture() returns (err: Err, budget: nat)
      requires Valid()
      modifies this`scopes, this`dirty, this`frozen
      ensures Valid() && (err == Ok ==> frozen && !dirty && budget == |turns| + Left(scopes))
      ensures err != Ok ==> frozen == old(frozen)
      ensures err == Ok ==> |old(scopes)| <= |scopes| && forall i | 0 <= i < |old(scopes)| && old(scopes)[i].refresh ::
                  scopes[i].name == old(scopes)[i].name && scopes[i].end == |LogOf(logs, scopes[i].name)|
    {
      hide Balanced, Counts, LogOf, Left;
      err, budget := Ok, 0;
      Unmarked(scopes);
      if dirty { err := Inventory(); }
      if err != Ok { return; }
      assert forall i | 0 <= i < |old(scopes)| &&
        old(scopes)[i].refresh :: scopes[i].refresh && scopes[i].name == old(scopes)[i].name;
      err := CaptureAll();
      if err != Ok { return; }
      err, budget := Budget();
      if err == Ok { frozen := true; }
    }

    /** One turn of the flush loop: admit, stop on an empty queue, otherwise run a cycle. */
    method Round(tokens: string -> int, transcriptTokens: int) returns (err: Err, quiet: bool, ran: bool)
      requires Valid() && flight == [] && frozen
      modifies this
      ensures Valid() && flight == [] && frozen && (old(Acknowledged()) ==> Acknowledged())
      ensures old(done) <= done && old(done) + old(turns) <= done + turns && Advanced(old(scopes), scopes)
      ensures err == Ok && !quiet ==> ran && |turns| + Left(scopes) < |old(turns)| + Left(old(scopes))
      ensures quiet ==> err == Ok && !ran
      ensures quiet && !suspended ==> turns == [] && forall i | 0 <= i < |scopes| :: Gap(scopes[i]) == 0
    {
      hide Balanced, Counts, Advanced, Left, Gap, Transcript.Fits, Ahead, Ids;
      quiet, ran := false, false;
      err := Replay();
      DrainedAdvanced(old(scopes), scopes, |turns| - |old(turns)|);
      if err != Ok { return; }
      if turns == [] {
        quiet := true;
        EmptyRoom();
        if !suspended { NothingPresses(st, logs, scopes); }
        return;
      }
      ghost var before := scopes;
      err := Cycle(true, tokens, transcriptTokens);
      AdvancedMore(old(scopes), before, scopes);
      ran := true;
    }

    /** The rest of a full flush: maintenance review, access flush, journal sync, compaction. Any of
        them may fail; the review and the compaction refuse to run while a receipt is pending. */
    method Upkeep(first: Err) returns (err: Err)
      ensures first != Ok ==> err == first
      ensures err == Ok ==> !suspended
    {
      err := first;
      var review, flushed, synced, compacted: Err := *, *, *, *;
      if suspended { review, compacted := Busy, Busy; }
      if err == Ok { err := review; }
      if err == Ok { err := flushed; }
      if err == Ok { err := synced; }
      if err == Ok { err := compacted; }
    }

    /** `asper_run_due_work` for a full flush with a curator: at most as many cycles as captured
        entries. When it succeeds, no receipt is pending, the queue is empty and every scope has
        been admitted up to its captured end. */
    method Drain(tokens: string -> int, transcriptTokens: int) returns (err: Err, cycles: nat,
        ghost captured: seq<Scope>)
      requires Valid() && flight == [] && !frozen
      modifies this
      ensures Valid() && flight == [] && !frozen && (old(Acknowledged()) ==> Acknowledged())
      ensures err == Ok && old(Acknowledged()) ==> acked == Ids(done)
      ensures old(done) <= done && old(done) + old(turns) <= done + turns
      ensures cycles <= |old(turns)| + Left(captured)
      ensures Advanced(captured, scopes)
      ensures err == Ok ==>
        !suspended && turns == [] && forall i | 0 <= i < |scopes| :: scopes[i].cursor >= scopes[i].end
      ensures err == Ok ==> forall i | 0 <= i < |old(scopes)| && old(scopes)[i].refresh ::
                  i < |captured| && captured[i].name == old(scopes)[i].name &&
                    captured[i].end == |LogOf(old(logs), captured[i].name)|
    {
      hide Balanced, Counts, Advanced, LogOf, Left, Gap, Transcript.Fits, Ahead, Ids;
      var limit;
      err, limit := Capture();
      cycles, captured := 0, scopes;
      ghost var start := err;
      assert start == Ok ==> forall i | 0 <= i < |old(scopes)| && old(scopes)[i].refresh ::
          captured[i].name == old(scopes)[i].name && captured[i].end == |LogOf(old(logs), captured[i].name)|;
      Unmoved(scopes);
      var quiet := false;
      while err == Ok && !quiet && cycles < limit
        invariant Valid() && flight == [] && (err == Ok ==> frozen) && cycles <= |old(turns)| + Left(captured)
        invariant old(done) <= done && old(done) + old(turns) <= done + turns && Advanced(captured, scopes)
        invariant old(Acknowledged()) ==> Acknowledged()
        invariant err == Ok && !quiet ==> |turns| + Left(scopes) + cycles <= limit
        invariant err == Ok ==> start == Ok && limit == |old(turns)| + Left(captured)
        invariant quiet && !suspended ==> turns == [] && forall i | 0 <= i < |scopes| :: Gap(scopes[i]) == 0
        decreases limit - cycles, err == Ok && !quiet
      {
        ghost var before := scopes;
        var ran;
        err, quiet, ran := Round(tokens, transcriptTokens);
        AdvancedMore(captured, before, scopes);
        if ran { cycles := cycles + 1; }
      }
      LeftZero(scopes);
      frozen := false;
      err := Upkeep(err);
      assert forall i | 0 <= i < |scopes| &&
        Gap(scopes[i]) == 0 :: scopes[i].cursor >= scopes[i].end by { GapZero(scopes); }
    }
  }

  /** The line of the event a turn stands for: who spoke, the event's words, a newline. */
  ghost predicate EventLine(text: string, from: int, to: int, t: Turn, log: Log) {
    && 1 <= t.sequence <= |log| && 0 <= from <= to <= |text|
    && var e := log[t.sequence - 1];
      && e.id == t.id && e.kind != Other
      && text[from..to] == (if e.kind == User then "USER: " else "ASSISTANT: ") + e.text + "\n"
  }

  /** A transcript of a batch: the heading, and behind it the lines of its events in order. */
  ghost predicate Presents(batch: seq<Turn>, logs: map<string, Log>, text: string, at: seq<int>) {
    && |at| == |batch| + 1 && "Conversation:\n" <= text && at[0] == |"Conversation:\n"| && at[|batch|] == |text|
    && forall k | 0 <= k < |batch| ::
        EventLine(text, at[k], at[k + 1], batch[k], LogOf(logs, batch[k].context.scope))
  }

  lemma Presenting(st: Settled, digest: Source -> string, logs: map<string, Log>, all: seq<Turn>,
      scopes: seq<Scope>, batch: seq<Turn>, text: string, at: seq<int>)
    requires Balanced(st, digest, logs, all, scopes) && (forall t | t in batch :: t in all)
    requires Transcript.LaidOut(text, batch, at)
    ensures Presents(batch, logs, text, at)
  {
    hide Balanced, EventLine, Transcript.LineAt;
    forall k | 0 <= k < |batch|
      ensures EventLine(text, at[k], at[k + 1], batch[k], LogOf(logs, batch[k].context.scope))
    {
      assert batch[k] in batch;
      HeldStands(st, digest, logs, all, scopes, batch[k]);
      SameLine(text, at[k], at[k + 1], batch[k], LogOf(logs, batch[k].context.scope));
    }
  }

  lemma SameLine(text: string, from: int, to: int, t: Turn, log: Log)
    requires Transcript.LineAt(text, from, to, t) && 1 <= t.sequence <= |log| && Stands(t, log[t.sequence - 1])
    ensures EventLine(text, from, to, t, log)
  {}

  /** Spaces, tabs, newlines, carriage returns, vertical tabs and form feeds only. */
  ghost predicate Wordless(text: string) {
    forall i | 0 <= i < |text| :: text[i] in " \t\n\r" || text[i] as int == 11 || text[i] as int == 12
  }

  lemma BlankMeans(text: string)
    ensures Blank(text) <==> Wordless(text)
  {}

  lemma OneTurn(ts: seq<Turn>, t: Turn)
    ensures (ts + [t])[..|ts|] == ts && (ts + [t])[|ts|] == t && Bytes(ts + [t]) == Bytes(ts) + |t.text| + 1
  {}

  function Larger(cap: nat): nat {
    var grown := if cap > 0 then cap * 2 else 16;
    if grown > QUEUE_EVENTS then QUEUE_EVENTS else grown
  }

  lemma Doubled(cap: nat)
    requires CapOk(cap) && cap < QUEUE_EVENTS
    ensures CapOk(Larger(cap)) && cap < Larger(cap)
  {}

  function Ids(ts: seq<Turn>): set<string> { set t | t in ts :: t.id }

  lemma IdsJoin(a: seq<Turn>, b: seq<Turn>)
    ensures Ids(a + b) == Ids(a) + Ids(b)
  {}

  lemma GapZero(scopes: seq<Scope>)
    ensures forall i | 0 <= i < |scopes| && Gap(scopes[i]) == 0 :: scopes[i].cursor >= scopes[i].end
  {}

  /** A round that began at `start` has served `checked` scopes and stands at `next`. */
  ghost predicate Served(st: Settled, logs: map<string, Log>, free: int, scopes: seq<Scope>,
      start: nat, checked: nat, next: nat) {
    && start <= |scopes| && checked <= |scopes| && (scopes != [] ==> start < |scopes|)
    && (scopes != [] ==> next == if start + checked < |scopes| then start + checked else start + checked - |scopes|)
    && forall i | 0 <= i < |scopes| &&
        (start <= i < start + checked || i < start + checked - |scopes|) :: Rested(st, logs, free, scopes[i])
  }

  lemma NoneServed(st: Settled, logs: map<string, Log>, free: int, scopes: seq<Scope>, start: nat)
    ensures (if scopes == [] then start == 0 else start < |scopes|) ==> Served(st, logs, free, scopes, start, 0, start)
  {}

  lemma ServedMore(st: Settled, logs: map<string, Log>, free: int, less: int, a: seq<Scope>,
      b: seq<Scope>, start: nat, checked: nat, next: nat)
    requires Served(st, logs, free, a, start, checked, next) && checked < |a| == |b| &&
      next < |a| && b == a[next := b[next]]
    requires less <= free && Rested(st, logs, less, b[next])
    ensures Served(st, logs, less, b, start, checked + 1, if next + 1 == |b| then 0 else next + 1)
  {
    assert forall s | Rested(st, logs, free, s) :: Rested(st, logs, less, s);
  }

  lemma ServedAll(st: Settled, logs: map<string, Log>, free: int, scopes: seq<Scope>,
      start: nat, checked: nat, next: nat)
    requires Served(st, logs, free, scopes, start, checked, next) && checked >= |scopes|
    ensures forall i | 0 <= i < |scopes| :: Rested(st, logs, free, scopes[i])
  {}

  /** In an empty queue nothing waits for bytes. */
  lemma NothingPresses(st: Settled, logs: map<string, Log>, scopes: seq<Scope>)
    requires forall i | 0 <= i < |scopes| :: Rested(st, logs, QUEUE_BYTES, scopes[i])
    ensures forall i | 0 <= i < |scopes| :: Gap(scopes[i]) == 0
  {}

  /** Scopes are only added, and only their refresh marks change. */
  ghost predicate Grown(a: seq<Scope>, b: seq<Scope>) {
    && |a| <= |b| && Left(a) == Left(b)
    && (forall i | 0 <= i < |a| :: b[i].(refresh := a[i].refresh) == a[i] && (a[i].refresh ==> b[i].refresh))
    && (forall i | |a| <= i < |b| :: b[i].cursor == b[i].end == 0)
  }

  /** The scope is known and its end is to be captured again. */
  ghost predicate MarkedIn(scopes: seq<Scope>, name: string) {
    exists i :: 0 <= i < |scopes| && scopes[i].name == name && scopes[i].refresh
  }

  lemma StillMarked(a: seq<Scope>, b: seq<Scope>, name: string)
    requires Grown(a, b) && MarkedIn(a, name)
    ensures MarkedIn(b, name)
  {
    var i :| 0 <= i < |a| && a[i].name == name && a[i].refresh;
    assert b[i].(refresh := a[i].refresh) == a[i];
  }

  lemma Unmarked(a: seq<Scope>)
    ensures Grown(a, a)
  {}

  lemma Marked(a: seq<Scope>, i: nat)
    requires i < |a|
    ensures Grown(a, a[i := a[i].(refresh := true)]) && MarkedIn(a[i := a[i].(refresh := true)], a[i].name)
  {
    LeftUpdate(a, i, a[i].(refresh := true));
    assert a[i := a[i].(refresh := true)][i].refresh;
  }

  lemma Extended(a: seq<Scope>, name: string)
    ensures Grown(a, a + [Scope(name, 0, 0, true)]) && MarkedIn(a + [Scope(name, 0, 0, true)], name)
  {
    LeftSnoc(a, Scope(name, 0, 0, true));
    assert (a + [Scope(name, 0, 0, true)])[|a|].refresh;
  }

  lemma Absent(a: seq<Scope>, name: string)
    requires forall i | 0 <= i < |a| :: a[i].name != name
    ensures !Named(a, name)
  {}

  lemma GrownMore(a: seq<Scope>, b: seq<Scope>, c: seq<Scope>)
    requires Grown(a, b) && Grown(b, c)
    ensures Grown(a, c)
  {}

  /** While a flush is frozen: known scopes keep their captured ends, new ones owe nothing. */
  ghost predicate Advanced(a: seq<Scope>, b: seq<Scope>) {
    && |a| <= |b| && (forall i | 0 <= i < |a| ::
        b[i].name == a[i].name && b[i].end == a[i].end && a[i].cursor <= b[i].cursor)
    && (forall i | |a| <= i < |b| :: b[i].end == 0)
  }

  lemma Unmoved(a: seq<Scope>)
    ensures Advanced(a, a)
  {}

  lemma DrainedAdvanced(a: seq<Scope>, b: seq<Scope>, n: int)
    requires Drained(a, b, n)
    ensures Advanced(a, b) && Left(b) + n <= Left(a)
  {}

  lemma GrownAdvanced(a: seq<Scope>, b: seq<Scope>, c: seq<Scope>)
    requires Advanced(a, b) && Grown(b, c)
    ensures Advanced(a, c) && Left(c) == Left(b)
  {
    assert forall i | 0 <= i < |b| :: c[i].(refresh := b[i].refresh) == b[i] && c[i].name == b[i].name;
  }

  lemma AdvancedMore(a: seq<Scope>, b: seq<Scope>, c: seq<Scope>)
    requires Advanced(a, b) && Advanced(b, c)
    ensures Advanced(a, c)
  {}

  /** Cursors advanced towards unchanged ends, at least one step per turn admitted. */
  ghost predicate Drained(a: seq<Scope>, b: seq<Scope>, admitted: int) {
    && |a| == |b| && Left(b) + admitted <= Left(a)
    && (forall i | 0 <= i < |a| :: b[i] == a[i].(cursor := b[i].cursor) && a[i].cursor <= b[i].cursor)
  }

  lemma DrainedNothing(a: seq<Scope>)
    ensures Drained(a, a, 0)
  {}

  lemma DrainedStep(b: seq<Scope>, c: seq<Scope>, i: nat, n: int)
    requires i < |b| == |c| && c == b[i := b[i].(cursor := c[i].cursor)]
    requires b[i].cursor <= c[i].cursor && n <= c[i].cursor - b[i].cursor && (c == b || c[i].cursor <= c[i].end)
    ensures Drained(b, c, n)
  {
    LeftUpdate(b, i, c[i]);
  }

  lemma DrainedMore(a: seq<Scope>, b: seq<Scope>, c: seq<Scope>, m: int, n: int)
    requires Drained(a, b, m) && Drained(b, c, n)
    ensures Drained(a, c, m + n)
  {}
}
