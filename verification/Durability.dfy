/** What a crash may leave of a store that applies operations, syncs and compacts: always the
    fold of some prefix of its history, with everything that was certain in it. */
module Durability {
  import opened Outcomes
  import opened EventFrame
  import opened EventScan
  import opened Records
  import opened Effects
  import opened Journal
  import opened Marker
  import opened Transaction
  import opened Snapshots
  import opened Compaction
  import opened Sets
  import opened StrOrder

  /** One entry of the history: an operation, or the purge of a committed compaction. */
  datatype Change = Did(op: Op) | Purged(now: int)

  /** What stays fixed: serializers, digest, the store of the beginning, the purge age. */
  datatype Setting = Setting(cx: Codec, oc: OpCodec, hash: Content -> Hash, start: Store, purgeAfter: int)

  function Purge(s: Store, now: int, purgeAfter: int): Store {
    s.(recs := map id | id in s.recs && !PurgeDue(s.recs[id], now, purgeAfter) :: s.recs[id])
  }

  function Change1(k: Setting, s: Store, c: Change): Option<Store> {
    match c
    case Did(op) => if Apply(s, op).0 == Ok then Some(Apply(s, op).1) else None
    case Purged(now) => Some(Purge(s, now, k.purgeAfter))
  }

  /** The store a history leads to. */
  function Fold(k: Setting, h: seq<Change>): Option<Store> {
    if h == [] then Some(k.start)
    else match Fold(k, h[..|h| - 1])
      case None => None
      case Some(s) => Change1(k, s, h[|h| - 1])
  }

  function Dids(ops: seq<Op>): seq<Change> { seq(|ops|, i requires 0 <= i < |ops| => Did(ops[i])) }

  /** Every project record lies in a known project. */
  ghost predicate Homed(s: Store) {
    forall id | id in s.recs && s.recs[id].section == Project ::
      s.recs[id].project.Some? && s.recs[id].project.value in s.projects
  }

  /** The first n entries lead to a proper store. */
  ghost predicate Proper(k: Setting, h: seq<Change>, n: nat) {
    n <= |h| && Fold(k, h[..n]).Some? && StoreOk(Fold(k, h[..n]).value) && Homed(Fold(k, h[..n]).value)
  }

  /** A history of accepted operations: it never gets stuck, and never loses a project. */
  ghost predicate Sane(k: Setting, h: seq<Change>) { forall n: nat | n <= |h| :: Proper(k, h, n) }

  lemma FoldSnoc(k: Setting, h: seq<Change>, c: Change)
    ensures Fold(k, h + [c]) == match Fold(k, h) case None => None case Some(s) => Change1(k, s, c)
  {
    assert (h + [c])[..|h|] == h;
  }

  lemma SaneWhole(k: Setting, h: seq<Change>)
    requires Sane(k, h)
    ensures Fold(k, h).Some? && StoreOk(Fold(k, h).value) && Homed(Fold(k, h).value)
  {
    assert Proper(k, h, |h|);
    assert h[..|h|] == h;
  }

  lemma SaneTake(k: Setting, h: seq<Change>, n: nat)
    requires Sane(k, h) && n <= |h|
    ensures Sane(k, h[..n])
  {
    hide StoreOk, Homed, Fold;
    forall m: nat | m <= n ensures Proper(k, h[..n], m) {
      assert h[..n][..m] == h[..m];
      assert Proper(k, h, m);
    }
  }

  lemma SaneSnoc(k: Setting, h: seq<Change>, c: Change, s: Store)
    requires Sane(k, h) && Fold(k, h + [c]) == Some(s) && StoreOk(s) && Homed(s)
    ensures Sane(k, h + [c])
  {
    hide StoreOk, Homed, Fold;
    var g := h + [c];
    forall n: nat | n <= |g| ensures Proper(k, g, n) {
      if n <= |h| {
        assert g[..n] == h[..n];
        assert Proper(k, h, n);
      } else {
        assert g[..n] == g;
      }
    }
  }

  lemma SaneStart(k: Setting)
    requires StoreOk(k.start) && Homed(k.start)
    ensures Sane(k, [])
  {}

  // ----- what keeps a store homed -----

  lemma {:induction false} AccessKeepsHome(recs: map<string, Record>, ids: seq<string>, at: int, id: string)
    requires id in recs
    ensures AccessAll(recs, ids, at)[id].section == recs[id].section
    ensures AccessAll(recs, ids, at)[id].project == recs[id].project
  {
    if ids != [] { AccessKeepsHome(recs, ids[..|ids| - 1], at, id); }
  }

  lemma ApplyKeepsHomed(l: Limits, s: Store, op: Op, fromCurator: bool)
    requires Validate(l, s, op, fromCurator) == Ok && Homed(s) && StoreOk(s)
    ensures Apply(s, op).0 == Ok && Homed(Apply(s, op).1) && StoreOk(Apply(s, op).1)
  {
    ValidatedApplies(l, s, op, fromCurator);
    ApplyKeepsStoreOk(s, op);
    if op.Access? {
      forall id | id in s.recs
        ensures AccessAll(s.recs, op.ids, op.at)[id].section == s.recs[id].section
        ensures AccessAll(s.recs, op.ids, op.at)[id].project == s.recs[id].project
      {
        AccessKeepsHome(s.recs, op.ids, op.at, id);
      }
    }
  }

  lemma PurgeKeeps(s: Store, now: int, purgeAfter: int)
    requires StoreOk(s)
    ensures StoreOk(Purge(s, now, purgeAfter)) && (Homed(s) ==> Homed(Purge(s, now, purgeAfter)))
  {
    hide PurgeDue;
    var t := Purge(s, now, purgeAfter);
    SubsetSize(t.recs.Keys, s.recs.Keys);
    assert |t.recs| == |t.recs.Keys| && |s.recs| == |s.recs.Keys|;
  }

  lemma PurgeClears(s: Store, now: int, purgeAfter: int)
    ensures Cleared(s, Purge(s, now, purgeAfter), now, purgeAfter)
  {}

  /** Every step of a history has the effect of its operation or purge, and no other. */
  lemma HistoryEffects(k: Setting, h: seq<Change>, n: nat)
    requires Sane(k, h) && n < |h|
    ensures Fold(k, h[..n]).Some? && Fold(k, h[..n + 1]).Some?
    ensures var s, t := Fold(k, h[..n]).value, Fold(k, h[..n + 1]).value;
      match h[n] case Did(op) => Effect(s, op, t) case Purged(now) => Cleared(s, t, now, k.purgeAfter)
  {
    hide Fold, StoreOk, Homed, Effect, Cleared, Apply, Purge;
    assert Proper(k, h, n) && Proper(k, h, n + 1);
    var s := Fold(k, h[..n]).value;
    assert h[..n + 1] == h[..n] + [h[n]];
    FoldSnoc(k, h[..n], h[n]);
    match h[n]
    case Did(op) => ApplyEffect(s, op);
    case Purged(now) => PurgeClears(s, now, k.purgeAfter);
  }

  /** Compacting the listed records is purging the store. */
  lemma AfterIsPurge(table: seq<Record>, projects: seq<string>, s: Store, now: int, purgeAfter: int)
    requires DistinctIds(table) && RecMap(table) == s.recs && (forall p :: p in projects <==> p in s.projects)
    ensures After(table, projects, now, purgeAfter) == Purge(s, now, purgeAfter)
  {
    KeptDistinct(table, now, purgeAfter);
    KeptIsFilter(table, Kept(table, now, purgeAfter), s.recs, now, purgeAfter);
    assert (set p | p in projects) == s.projects;
  }

  lemma KeptIsFilter(table: seq<Record>, kept: seq<Record>, recs: map<string, Record>, now: int, purgeAfter: int)
    requires DistinctIds(table) && RecMap(table) == recs && DistinctIds(kept) && kept == Kept(table, now, purgeAfter)
    ensures RecMap(kept) == map id | id in recs && !PurgeDue(recs[id], now, purgeAfter) :: recs[id]
  {
    hide PurgeDue, Kept, DistinctIds, RecMap;
    KeptMembers(table, now, purgeAfter);
    RecMapFacts(table);
    RecMapFacts(kept);
    var a, b := RecMap(kept), map id | id in recs && !PurgeDue(recs[id], now, purgeAfter) :: recs[id];
    forall id ensures id in a <==> id in b {
      if id in b { assert recs[id] in kept; }
    }
    forall id | id in a ensures a[id] == b[id] { assert a[id] in table; }
  }

  // ----- images -----

  /** A moment of the whole store: the disk, how many bytes of the journal file are certain, the
      history so far, and how much of it is certain to survive. */
  datatype Image = Image(d: Disk, floor: nat, history: seq<Change>, sure: nat)

  /** The files hold the first p entries as a snapshot and the rest as a journal. */
  ghost predicate HoldsBy(k: Setting, f: Files, h: seq<Change>, sure: nat, floor: nat,
                          base: Store, p: nat, m: Moment) {
    && p <= |h| && SnapshotOf(f, base) && Fold(k, h[..p]) == Some(base)
    && Sound(k.cx, k.oc, base, m) && h[p..] == Dids(m.issued)
    && m.image == JournalBytes(f) && m.synced <= floor && sure <= p + m.durable
  }

  ghost predicate HoldsAll(k: Setting, f: Files, h: seq<Change>, sure: nat, floor: nat) {
    exists base, p, m :: HoldsBy(k, f, h, sure, floor, base, p, m)
  }

  ghost predicate Safe(k: Setting, x: Image) {
    && Sane(k, x.history) && x.sure <= |x.history|
    && Recovered(k.hash, x.d).Some? && HoldsAll(k, Recovered(k.hash, x.d).value, x.history, x.sure, x.floor)
  }

  /** Losing power: the journal file may lose what is not certain of it. */
  ghost predicate CrashOf(d: Disk, floor: nat, e: Disk) {
    e == d || exists bytes :: CutTo(d, floor, bytes, e)
  }

  ghost predicate CutTo(d: Disk, floor: nat, bytes: string, e: Disk) {
    && JOURNAL in d.live && d.live[JOURNAL].Wal? && floor <= |bytes| && bytes <= d.live[JOURNAL].bytes
    && e == WithJournal(d, bytes)
  }

  function WithJournal(d: Disk, bytes: string): Disk { d.(live := d.live[JOURNAL := Wal(bytes)]) }

  /** Recovery puts the journal back with everything else, or leaves it as it is. */
  lemma CutRecovered(hash: Content -> Hash, d: Disk, bytes: string)
    requires JOURNAL in d.live && d.live[JOURNAL].Wal? && Recovered(hash, d).Some?
    ensures var f := Recovered(hash, d).value;
      || Recovered(hash, WithJournal(d, bytes)) == Some(f)
      || (Recovered(hash, WithJournal(d, bytes)) == Some(f[JOURNAL := Wal(bytes)])
          && JOURNAL in f && f[JOURNAL] == d.live[JOURNAL])
  {
    var e := WithJournal(d, bytes);
    if d.marker.Some? {
      var rows :| MarkerIs(d.marker.value, rows) && Backed(hash, d.backup, rows);
      hide MarkerIs, Backed, Restored;
      RecoveredBy(hash, d, rows);
      RecoveredBy(hash, e, rows);
      hide Recovered;
      RestoredJournal(d.live, d.backup, rows, Wal(bytes));
    }
  }

  lemma RestoredJournal(live: Files, backup: Files, rows: seq<Row>, c: Content)
    requires JOURNAL in live
    ensures var f, g := Restored(live, backup, rows), Restored(live[JOURNAL := c], backup, rows);
      g == f || (g == f[JOURNAL := c] && JOURNAL in f && f[JOURNAL] == live[JOURNAL])
  {
    if Listed(rows, JOURNAL) {
      RestoredIgnores(live, live[JOURNAL := c], backup, rows);
    } else {
      hide Listed, ListedExisting;
      assert Restored(live[JOURNAL := c], backup, rows) == Restored(live, backup, rows)[JOURNAL := c];
    }
  }

  lemma SnapshotIgnoresJournal(f: Files, s: Store, c: Content)
    requires SnapshotOf(f, s)
    ensures SnapshotOf(f[JOURNAL := c], s)
  {
    hide RelValid, Home, SlugValid, ProjectRel;
    var g := f[JOURNAL := c];
    forall slug ensures slug in s.projects <==> SlugValid(slug) && ProjectRel(slug) in g {
      if SlugValid(slug) { ProjectRelValid(slug); }
    }
    forall id | id in s.recs ensures Stored(g, s.recs[id]) { assert Stored(f, s.recs[id]); }
  }

  lemma SoundCut(cx: Codec, oc: OpCodec, base: Store, m: Moment, bytes: string)
    requires Sound(cx, oc, base, m) && Leaves(m, bytes)
    ensures Sound(cx, oc, base, m.(image := bytes))
  {
    hide Frames;
    HeadOf(m.image, Frames(cx, m.events), bytes);
  }

  lemma HoldsCut(k: Setting, f: Files, x: Image, bytes: string)
    requires HoldsAll(k, f, x.history, x.sure, x.floor)
    requires JOURNAL in f && f[JOURNAL].Wal? && x.floor <= |bytes| && bytes <= f[JOURNAL].bytes
    ensures HoldsAll(k, f[JOURNAL := Wal(bytes)], x.history, x.sure, x.floor)
  {
    hide SnapshotOf, Sound, Fold;
    var base, p, m :| HoldsBy(k, f, x.history, x.sure, x.floor, base, p, m);
    SnapshotIgnoresJournal(f, base, Wal(bytes));
    SoundCut(k.cx, k.oc, base, m, bytes);
    assert HoldsBy(k, f[JOURNAL := Wal(bytes)], x.history, x.sure, x.floor, base, p, m.(image := bytes));
  }

  /** What a crash leaves of a safe image is safe. */
  lemma CrashSafe(k: Setting, x: Image, e: Disk)
    requires Safe(k, x) && CrashOf(x.d, x.floor, e)
    ensures Safe(k, x.(d := e))
  {
    hide Recovered, HoldsAll, Sane;
    if e != x.d {
      var bytes :| CutTo(x.d, x.floor, bytes, e);
      CutRecovered(k.hash, x.d, bytes);
      var f := Recovered(k.hash, x.d).value;
      if Recovered(k.hash, e) != Some(f) { HoldsCut(k, f, x, bytes); }
    }
  }

  /** Images that recover to the same files are equally safe. */
  lemma SameRecovery(k: Setting, x: Image, e: Disk)
    requires Safe(k, x) && Recovered(k.hash, e) == Recovered(k.hash, x.d)
    ensures Safe(k, x.(d := e))
  {}

  lemma DidsTake(ops: seq<Op>, n: nat)
    requires n <= |ops|
    ensures Dids(ops[..n]) == Dids(ops)[..n]
  {}

  /** The journal behind a snapshot continues the fold. */
  lemma {:induction false} FoldReplay(k: Setting, h: seq<Change>, base: Store, ops: seq<Op>)
    requires Fold(k, h) == Some(base) && Replay(base, ops).Some?
    ensures Fold(k, h + Dids(ops)) == Replay(base, ops)
    decreases |ops|
  {
    hide Apply, Fold;
    if ops == [] {
      assert h + Dids(ops) == h;
    } else {
      var n := |ops| - 1;
      ReplayPrefix(base, ops, n);
      FoldReplay(k, h, base, ops[..n]);
      assert ops[..n] + [ops[n]] == ops;
      ReplaySnoc(base, ops[..n], ops[n]);
      assert h + Dids(ops) == (h + Dids(ops[..n])) + [Did(ops[n])];
      FoldSnoc(k, h + Dids(ops[..n]), Did(ops[n]));
    }
  }

  /** The main statement. Whatever a crash leaves of a safe image can be recovered, and the store
      that opens is the fold of a prefix of the history that contains everything certain. */
  lemma Survives(k: Setting, x: Image, e: Disk) returns (n: nat)
    requires CodecOk(k.cx, k.oc) && Safe(k, x) && CrashOf(x.d, x.floor, e)
    ensures x.sure <= n <= |x.history|
    ensures Recovered(k.hash, e).Some? && Fold(k, x.history[..n]).Some?
    ensures forall s :: Loads(k.cx, k.oc, Recovered(k.hash, e).value, s) <==> s == Fold(k, x.history[..n]).value
  {
    hide Recovered, SnapshotOf, Sound, Fold, CodecOk, Sane, Loads, Replay;
    CrashSafe(k, x, e);
    var f := Recovered(k.hash, e).value;
    var base, p, m :| HoldsBy(k, f, x.history, x.sure, x.floor, base, p, m);
    n := LoadsPrefix(k, f, x.history, x.sure, x.floor, base, p, m);
    var t := Fold(k, x.history[..n]).value;
    forall s | Loads(k.cx, k.oc, f, s) ensures s == t { LoadUnique(k.cx, k.oc, f, s, t); }
  }

  lemma LoadsPrefix(k: Setting, f: Files, h: seq<Change>, sure: nat, floor: nat, base: Store, p: nat, m: Moment)
      returns (n: nat)
    requires HoldsBy(k, f, h, sure, floor, base, p, m)
    ensures sure <= n <= |h| && Fold(k, h[..n]).Some? && Loads(k.cx, k.oc, f, Fold(k, h[..n]).value)
  {
    hide SnapshotOf, Fold, Replay, LogImage, Frames;
    SyncedLength(k.cx, k.oc, base, m);
    var i := CrashImage(k.cx, k.oc, base, m, m.image);
    SoundSizes(k.cx, k.oc, base, m);
    hide Sound, Journals;
    n := p + i;
    PrefixFold(k, h, p, base, m.issued, i);
    var s := Fold(k, h[..n]).value;
    assert Journaled(k.cx, k.oc, JournalBytes(f), m.issued[..i]);
    assert LoadsBy(k.cx, k.oc, f, base, m.issued[..i], s);
  }

  lemma PrefixFold(k: Setting, h: seq<Change>, p: nat, base: Store, ops: seq<Op>, i: nat)
    requires p <= |h| && Fold(k, h[..p]) == Some(base) && h[p..] == Dids(ops) && i <= |ops|
    requires Replay(base, ops[..i]).Some?
    ensures p + i <= |h| && Fold(k, h[..p + i]) == Replay(base, ops[..i])
  {
    hide Fold, Replay;
    DidsTake(ops, i);
    FoldReplay(k, h[..p], base, ops[..i]);
    assert h[..p + i] == h[..p] + Dids(ops[..i]) by {
      assert h[..p + i] == h[..p] + h[p..][..i];
    }
  }

  /** The store as it runs: the section files hold the first p entries of the history, the journal
      stream the rest. */
  ghost predicate Joined(k: Setting, d: Disk, h: seq<Change>, p: nat, base: Store, m: Moment) {
    && Sane(k, h) && p <= |h| && Fold(k, h[..p]) == Some(base) && h[p..] == Dids(m.issued)
    && d.marker == None && SnapshotOf(d.live, base) && Sound(k.cx, k.oc, base, m)
  }

  /** The image behind a moment of the stream. */
  function ImageOf(d: Disk, h: seq<Change>, p: nat, m: Moment): Image
    requires p <= |h|
  {
    Image(WithJournal(d, m.image), m.synced, h[..p] + Dids(m.issued), p + m.durable)
  }

  lemma MomentSafe(k: Setting, d: Disk, h: seq<Change>, p: nat, base: Store, m: Moment)
    requires Joined(k, d, h, p, base, m)
    ensures Safe(k, ImageOf(d, h, p, m)) && h[..p] + Dids(m.issued) == h && p + m.durable <= |h|
  {
    hide SnapshotOf, Sound, Fold, Sane, Recovered;
    var e := WithJournal(d, m.image);
    SnapshotIgnoresJournal(d.live, base, Wal(m.image));
    DurableIssued(k.cx, k.oc, base, m);
    NoMarker(k.hash, e);
    assert h[..p] + Dids(m.issued) == h;
    assert |h[p..]| == |m.issued|;
    assert HoldsBy(k, e.live, h, p + m.durable, m.synced, base, p, m);
  }

  /** Another moment of the stream with the same operations, or with one more. */
  lemma NextJoined(k: Setting, d: Disk, h: seq<Change>, p: nat, base: Store, m: Moment, now: Moment, op: Option<Op>)
    requires Joined(k, d, h, p, base, m) && Sound(k.cx, k.oc, base, now)
    requires Extends(m.issued, m.issued, op, now.issued) && (op.Some? ==> Sane(k, h + [Did(op.value)]))
    ensures var g := if now.issued == m.issued then h else h + [Did(op.value)];
      && p <= |h| && h[..p] + Dids(now.issued) == g && g[..p] == h[..p] && Joined(k, d, g, p, base, now)
      && Safe(k, ImageOf(d, h, p, now))
  {
    hide SnapshotOf, Sound, Fold, Sane, Safe;
    if now.issued == m.issued {
      assert h[..p] + Dids(m.issued) == h;
      MomentSafe(k, d, h, p, base, now);
    } else {
      var g := h + [Did(op.value)];
      DidsSnoc(m.issued, op.value);
      assert g[..p] == h[..p] && g[p..] == h[p..] + [Did(op.value)];
      assert h[..p] + Dids(now.issued) == g;
      MomentSafe(k, d, g, p, base, now);
    }
  }

  lemma JournalRewritten(k: Setting, d: Disk, h: seq<Change>, p: nat, base: Store, m: Moment, bytes: string)
    requires Joined(k, d, h, p, base, m)
    ensures Joined(k, WithJournal(d, bytes), h, p, base, m)
  {
    hide Sound, Fold, Sane, SnapshotOf;
    SnapshotIgnoresJournal(d.live, base, Wal(bytes));
  }

  lemma DurableIssued(cx: Codec, oc: OpCodec, base: Store, m: Moment)
    requires Sound(cx, oc, base, m)
    ensures m.durable <= |m.issued|
  {}

  /** An accepted operation extends a sane history. */
  lemma DidSane(k: Setting, h: seq<Change>, l: Limits, s: Store, op: Op, fromCurator: bool)
    requires Sane(k, h) && Fold(k, h) == Some(s) && Validate(l, s, op, fromCurator) == Ok
    ensures Sane(k, h + [Did(op)]) && Fold(k, h + [Did(op)]) == Some(Apply(s, op).1)
  {
    hide Fold, Apply, Validate, StoreOk, Homed, Sane;
    SaneWhole(k, h);
    ApplyKeepsHomed(l, s, op, fromCurator);
    FoldSnoc(k, h, Did(op));
    SaneSnoc(k, h, Did(op), Apply(s, op).1);
  }

  /** So does a purge. */
  lemma PurgedSane(k: Setting, h: seq<Change>, s: Store, now: int)
    requires Sane(k, h) && Fold(k, h) == Some(s)
    ensures Sane(k, h + [Purged(now)]) && Fold(k, h + [Purged(now)]) == Some(Purge(s, now, k.purgeAfter))
    ensures StoreOk(Purge(s, now, k.purgeAfter))
  {
    hide Fold, Purge, StoreOk, Homed, Sane;
    SaneWhole(k, h);
    PurgeKeeps(s, now, k.purgeAfter);
    FoldSnoc(k, h, Purged(now));
    SaneSnoc(k, h, Purged(now), Purge(s, now, k.purgeAfter));
  }

  lemma DidsSnoc(ops: seq<Op>, op: Op)
    ensures Dids(ops + [op]) == Dids(ops) + [Did(op)]
  {}

  /** A purely rewritten store holds its whole history in the snapshot. */
  lemma CompactedHolds(k: Setting, live: Files, table: seq<Record>, projects: seq<string>, now: int,
                       h: seq<Change>, sure: nat, floor: nat)
    requires Rewritable(live, table, projects, now, k.purgeAfter) && sure <= |h|
    requires Fold(k, h) == Some(After(table, projects, now, k.purgeAfter))
    ensures var f := CompactedFiles(live, table, projects, now, k.purgeAfter);
      && HoldsAll(k, f, h, sure, floor) && JOURNAL in f && f[JOURNAL] == Wal("")
      && SnapshotOf(f, After(table, projects, now, k.purgeAfter))
  {
    assert DistinctIds(table);
    hide CompactedFiles, After, SnapshotOf, Fold, Rewritable, Sound, DistinctIds;
    var f, s := CompactedFiles(live, table, projects, now, k.purgeAfter), After(table, projects, now, k.purgeAfter);
    CompactedSnapshot(live, table, projects, now, k.purgeAfter);
    EmptyJournal(k.cx, k.oc, live, table, projects, now, k.purgeAfter);
    EmptySound(k.cx, k.oc, s);
    assert h[..|h|] == h;
    assert HoldsBy(k, f, h, sure, floor, s, |h|, Moment("", 0, [], [], 0));
    assert JOURNAL in f && f[JOURNAL] == Wal("") by { EmptyFile(live, table, projects, now, k.purgeAfter); }
  }

  /** Whatever a compaction leaves behind is safe: the old history, or the old one and the purge. */
  lemma CompactingSafe(k: Setting, d: Disk, live: Files, table: seq<Record>, projects: seq<string>, now: int,
                       h: seq<Change>, s: Store, sure: nat, floor: nat)
    requires Sane(k, h) && Fold(k, h) == Some(s) && sure <= |h| && HoldsAll(k, live, h, sure, floor)
    requires DistinctIds(table) && RecMap(table) == s.recs && (forall p :: p in projects <==> p in s.projects)
    requires Atomic(k.hash, d, live, table, projects, now, k.purgeAfter)
    ensures Safe(k, Image(d, floor, if Recovered(k.hash, d) == Some(live) then h else h + [Purged(now)], sure))
  {
    hide Sane, Fold, SnapshotOf, HoldsAll, Recovered, Rewritable, CompactedFiles, After, Purge, RecMap, DistinctIds;
    if Recovered(k.hash, d) != Some(live) {
      AfterIsPurge(table, projects, s, now, k.purgeAfter);
      PurgedSane(k, h, s, now);
      CompactedHolds(k, live, table, projects, now, h + [Purged(now)], sure, floor);
    }
  }

  lemma RunningHolds(k: Setting, d: Disk, h: seq<Change>, p: nat, base: Store, m: Moment)
    requires Joined(k, d, h, p, base, m) && JournalBytes(d.live) == m.image
    ensures HoldsAll(k, d.live, h, p + m.durable, m.synced)
  {
    hide SnapshotOf, Sound, Fold, JournalBytes, Sane;
    assert HoldsBy(k, d.live, h, p + m.durable, m.synced, base, p, m);
  }

  /** A listing of the live store can be compacted. */
  lemma CanCompact(live: Files, base: Store, ops: seq<Op>, s: Store, table: seq<Record>, projects: seq<string>)
    requires SnapshotOf(live, base) && Replay(base, ops) == Some(s) && StoreOk(s) && Homed(s)
    requires DistinctIds(table) && RecMap(table) == s.recs
    requires Sorted(projects) && (forall p :: p in projects <==> p in s.projects)
    ensures |projects| <= PROJECT_LIMIT && (forall i | 0 <= i < |projects| :: SlugValid(projects[i]))
    ensures Registered(projects, live) && Named(table, projects)
  {
    hide Replay, RecMap, DistinctIds, SlugValid, ProjectRel, Home;
    ReplayKeepsProjects(base, ops);
    SortedDistinct(projects);
    SetSize(projects);
    assert (set p | p in projects) == s.projects;
    RecMapFacts(table);
    forall i | 0 <= i < |projects| ensures SlugValid(projects[i]) { assert projects[i] in s.projects; }
  }

  lemma EmptyFile(live: Files, table: seq<Record>, projects: seq<string>, now: int, purgeAfter: int)
    ensures var f := CompactedFiles(live, table, projects, now, purgeAfter); JOURNAL in f && f[JOURNAL] == Wal("")
  {}

  lemma {:induction false} ReplayKeepsProjects(s: Store, ops: seq<Op>)
    requires Replay(s, ops).Some?
    ensures s.projects <= Replay(s, ops).value.projects
  {
    if ops != [] {
      hide Accessed, AccessAll, Rewritten;
      ReplayKeepsProjects(s, ops[..|ops| - 1]);
    }
  }

  /** An empty directory is a safe beginning. */
  lemma FreshIsSafe(k: Setting)
    requires k.start == Store(map[], {})
    ensures Safe(k, Image(Disk(map[], map[], None), 0, [], 0))
  {
    hide Sound;
    var m := Moment("", 0, [], [], 0);
    assert Sound(k.cx, k.oc, k.start, m) by { EmptySound(k.cx, k.oc, k.start); }
    SaneStart(k);
    assert HoldsBy(k, map[], [], 0, 0, k.start, 0, m);
  }

  lemma EmptySound(cx: Codec, oc: OpCodec, base: Store)
    ensures Sound(cx, oc, base, Moment("", 0, [], [], 0))
  {
    StartOfLog(cx, []);
  }
}
