/** The store as its host sees it: applying operations, syncing, compacting, losing power and
    opening again, in any order and any number of times (src/api.c, src/journal.c,
    src/store_compact.c, `asper_store_open`). `history` is what was acknowledged; `seen` are the
    images a crash may start from, each with the history and the certainty of its moment. */
module Memory {
  import opened Outcomes
  import opened EventFrame
  import opened Records
  import opened Effects
  import opened Journal
  import opened StrOrder
  import opened Marker
  import opened Transaction
  import opened Snapshots
  import opened Compaction
  import opened Durability

  class Memory {
    const k: Setting
    const limits: Limits
    const policy: SyncPolicy
    const files: StoreFiles
    var w: Writer
    var receiptPending: bool
    ghost var history: seq<Change>
    ghost var sealed: nat           // so much of it is in the section files
    ghost var sure: nat             // so much of it survives any crash
    ghost var seen: iset<Image>

    ghost function Current(): Image reads this, files, w { Image(files.st, w.synced, history, sure) }

    ghost predicate Linked()
      reads this, files, w
    {
      && Joined(k, files.st, history, sealed, w.base, w.Now()) && sure == sealed + w.durable
      && JOURNAL in files.st.live && files.st.live[JOURNAL] == Wal(w.file)
      && Current() in seen
    }

    ghost predicate Wired()
      reads this, files, w
    {
      w.Valid() && w.cx == k.cx && w.oc == k.oc && w.limits == limits && files.hash == k.hash
    }

    ghost predicate Valid()
      reads this, files, w
    {
      && Wired() && files.poisoned == w.poisoned && sure <= |history|
      && Sane(k, history) && Fold(k, history) == Some(w.store)
      && (forall x :: x in seen ==> Safe(k, x))
      && (!w.poisoned ==> Linked())
    }

    /** Every image that became visible keeps what was certain, and knows at most one change more
        than was acknowledged. */
    twostate predicate OnlySaw(c: Option<Change>)
      reads this
    {
      forall x :: x in seen ==>
        x in old(seen) || (x.sure >= old(sure) &&
          (x.history == old(history) || (c.Some? && x.history == old(history) + [c.value])))
    }

    constructor (k: Setting, limits: Limits, policy: SyncPolicy, files: StoreFiles, w: Writer, receiptPending: bool,
                 ghost history: seq<Change>, ghost sealed: nat)
      requires w.Valid() && !w.poisoned && w.cx == k.cx && w.oc == k.oc && w.limits == limits
      requires files.hash == k.hash && !files.poisoned && Fold(k, history) == Some(w.store)
      requires Joined(k, files.st, history, sealed, w.base, w.Now())
      requires JOURNAL in files.st.live && files.st.live[JOURNAL] == Wal(w.file)
      ensures Valid() && this.k == k && this.files == files && this.w == w && !w.poisoned
      ensures this.history == history && sure == sealed + w.durable
    {
      hide Sane, Fold, Safe, Joined, Writer.Valid, Replay, Sound, CodecOk, StoreOk;
      this.k, this.limits, this.policy, this.files, this.w, this.receiptPending :=
        k, limits, policy, files, w, receiptPending;
      this.history, this.sealed, sure := history, sealed, sealed + w.durable;
      seen := iset{Image(files.st, w.synced, history, sealed + w.durable)};
      new;
      Running(w);
      JoinedSane(k, files.st, history, sealed, w.base, w.Now());
      MomentSafe(k, files.st, history, sealed, w.base, w.Now());
      assert WithJournal(files.st, w.image) == files.st;
    }

    /** `asper_apply_op`. */
    method ApplyOp(op: Op, fromCurator: bool, id: string) returns (err: Err)
      requires Valid() && LLONG_MIN <= op.at <= LLONG_MAX && UuidValid(id)
      modifies this, w, files
      ensures Valid() && w == old(w) && sure >= old(sure) && OnlySaw(Some(Did(op)))
      ensures err == Ok ==> !w.poisoned && history == old(history) + [Did(op)]
      ensures err == Ok && !fromCurator ==> sure == |history|
      ensures err != Ok ==> history == old(history) && w.store == old(w.store)
      ensures err == Ok ==> Effect(old(w.store), op, w.store)
      ensures err == Ok ==> Permitted(limits, old(w.store), op, fromCurator)
      ensures !old(w.poisoned) && !Permitted(limits, old(w.store), op, fromCurator)
              ==> err != Ok && Refused(old(w.store), op, fromCurator, err)
      ensures old(w.poisoned) ==> err == Io && w.poisoned && seen == old(seen)
    {
      hide Sane, Fold, Safe, Joined, Writer.Valid, Effect, Permitted, Refused;
      if w.poisoned { return Io; }
      err := Issue(op, fromCurator, id);
      Settle();
    }

    /** The operation goes through the stream; the file JOURNAL follows in Settle. */
    method Issue(op: Op, fromCurator: bool, id: string) returns (err: Err)
      requires Valid() && !w.poisoned && LLONG_MIN <= op.at <= LLONG_MAX && UuidValid(id)
      modifies w, this`history, this`seen
      ensures Wired() && Sane(k, history) && Fold(k, history) == Some(w.store) && OnlySaw(Some(Did(op)))
      ensures forall x :: x in seen ==> Safe(k, x)
      ensures err == Ok ==> !w.poisoned && history == old(history) + [Did(op)]
      ensures err == Ok && !fromCurator ==> sealed + w.durable == |history|
      ensures err != Ok ==> history == old(history) && w.store == old(w.store)
      ensures err == Ok ==> Effect(old(w.store), op, w.store)
      ensures err == Ok ==> Permitted(limits, old(w.store), op, fromCurator)
      ensures !Permitted(limits, old(w.store), op, fromCurator) ==>
        err != Ok && Refused(old(w.store), op, fromCurator, err)
      ensures !w.poisoned ==> Joined(k, files.st, history, sealed, w.base, w.Now()) && sealed + w.durable >= sure
    {
      hide Sane, Fold, Safe, Joined, Validate, Apply, Writer.Valid, Replay, Sound, CodecOk, StoreOk;
      hide Effect, Permitted, Refused;
      ghost var before, s, m := w.seen, w.store, w.Now();
      Running(w);
      err := w.ApplyOp(op, fromCurator, id);
      Running(w);
      if Validate(limits, s, op, fromCurator) == Ok { DidSane(k, history, limits, s, op, fromCurator); }
      Witnessed(before, m, files.st, Some(op));
      if !w.poisoned {
        NextJoined(k, files.st, history, sealed, w.base, m, w.Now(), if err == Ok then Some(op) else None);
      }
      if err == Ok {
        history := history + [Did(op)];
        IssuedLength(k, files.st, history, sealed, w.base, w.Now());
      }
    }

    /** The stream and the file JOURNAL are the same bytes, the two poison flags one flag. */
    method Settle()
      requires Wired() && !files.poisoned && Sane(k, history) && Fold(k, history) == Some(w.store) && sure <= |history|
      requires forall x :: x in seen ==> Safe(k, x)
      requires !w.poisoned ==> Joined(k, files.st, history, sealed, w.base, w.Now()) && sealed + w.durable >= sure
      modifies this`sure, this`seen, files
      ensures Valid() && sure >= old(sure)
      ensures !w.poisoned ==> sure == sealed + w.durable
      ensures forall x :: x in seen ==> x in old(seen) || (x.sure == sure && x.history == history)
    {
      hide Sane, Fold, Safe, Joined, Writer.Valid, Replay, Sound, CodecOk, StoreOk;
      if w.poisoned {
        files.poisoned := true;
      } else {
        Running(w);
        JournalRewritten(k, files.st, history, sealed, w.base, w.Now(), w.file);
        files.st := WithJournal(files.st, w.file);
        sure := sealed + w.durable;
        MomentSafe(k, files.st, history, sealed, w.base, w.Now());
        assert WithJournal(files.st, w.image) == files.st;
        seen := seen + iset{Current()};
      }
    }

    /** `asper_journal_sync`. */
    method Sync() returns (err: Err)
      requires Valid()
      modifies this, w, files
      ensures Valid() && w == old(w) && history == old(history) && w.store == old(w.store)
      ensures sure >= old(sure) && OnlySaw(None)
      ensures err == Ok ==> !w.poisoned && sure == |history|
      ensures err != Ok ==> w.poisoned
    {
      hide Sane, Fold, Safe, Joined, Writer.Valid, Replay, Sound, CodecOk, StoreOk;
      if w.poisoned { return Io; }
      ghost var before, m, disk := w.seen, w.Now(), files.st;
      Running(w);
      err := w.Sync();
      Running(w);
      Witnessed(before, m, disk, None);
      NextJoined(k, disk, history, sealed, w.base, m, w.Now(), None);
      IssuedLength(k, disk, history, sealed, w.base, w.Now());
      Settle();
    }

    /** `asper_store_compact`, for the live table in whatever order it stands. */
    method Compact(now: int, table: seq<Record>, projects: seq<string>) returns (err: Err, committed: bool)
      requires Valid() && TableOk(table) && RecMap(table) == w.store.recs
      requires Sorted(projects) && forall p :: p in projects <==> p in w.store.projects
      modifies this, w, files
      ensures Valid() && (w == old(w) || fresh(w)) && sure >= old(sure) && OnlySaw(Some(Purged(now)))
      ensures committed ==> history == old(history) + [Purged(now)] && sure == |history| && !w.poisoned
      ensures committed ==> w.store == Purge(old(w.store), now, k.purgeAfter)
      ensures committed ==> Cleared(old(w.store), w.store, now, k.purgeAfter)
      ensures !committed ==> history == old(history) && w.store == old(w.store)
      ensures err == Ok ==> committed
      ensures old(w.poisoned) ==> err == Io && !committed && seen == old(seen)
      ensures !old(w.poisoned) && old(receiptPending) ==> err == Busy && !committed && !w.poisoned
    {
      hide Sane, Fold, Safe, Joined, Writer.Valid, Replay, Sound, CodecOk, StoreOk, Purge, After;
      hide CompactedFiles, Rewritable, Kept, TableOk, Sorted, Atomic, SnapshotOf, Recovered, RecMap, DistinctIds;
      hide Cleared;
      err, committed := Io, false;
      if w.poisoned { return; }
      ghost var before, disk, s := files.seen, files.st, w.store;
      var c := new Compactor(files, k.purgeAfter, table, projects, w.journalOps, receiptPending);
      Running(w);
      Compactable(c, table, projects);
      err, committed := c.Compact(now);
      Witness(before, disk, table, projects, now, s);
      if committed {
        DistinctTable(c.table);
        Commit(now, c.table, table, projects, disk.live);
        PurgeClears(s, now, k.purgeAfter);
      } else if files.poisoned {
        w.Poison();
      } else {
        SameLive(k, disk, files.st, history, sealed, w.base, w.Now());
        Settle();
      }
    }

    /** The images of one compaction join those seen before. */
    ghost method Witness(before: iset<Disk>, disk: Disk, table: seq<Record>, projects: seq<string>, now: int, s: Store)
      requires Sane(k, history) && Fold(k, history) == Some(s) && sure <= |history|
      requires HoldsAll(k, disk.live, history, sure, w.synced) && files.hash == k.hash
      requires DistinctIds(table) && RecMap(table) == s.recs && (forall p :: p in projects <==> p in s.projects)
      requires forall d :: d in files.seen && d !in before ==>
        Atomic(k.hash, d, disk.live, table, projects, now, k.purgeAfter)
      requires forall x :: x in seen ==> Safe(k, x)
      modifies this`seen
      ensures forall x :: x in seen ==> Safe(k, x)
      ensures forall x :: x in old(seen) ==> x in seen
      ensures OnlySaw(Some(Purged(now)))
    {
      hide Sane, Fold, Safe, DistinctIds, RecMap, Atomic, HoldsAll, Recovered;
      forall d | d in files.seen && d !in before ensures Safe(k, CompactImage(d, disk, now)) {
        CompactingSafe(k, d, disk.live, table, projects, now, history, s, sure, w.synced);
      }
      seen := seen + iset d | d in files.seen && d !in before :: CompactImage(d, disk, now);
    }

    /** After the commit point: a new stream on the empty journal. */
    method Commit(now: int, kept: seq<Record>, ghost table: seq<Record>, ghost projects: seq<string>, ghost live: Files)
      requires Wired() && !files.poisoned && Sane(k, history) && Fold(k, history) == Some(w.store) && sure <= |history|
      requires forall x :: x in seen ==> Safe(k, x)
      requires DistinctIds(table) && RecMap(table) == w.store.recs
      requires forall p :: p in projects <==> p in w.store.projects
      requires DistinctIds(kept) && kept == Kept(table, now, k.purgeAfter)
      requires Rewritable(live, table, projects, now, k.purgeAfter) && files.st.marker == None
      requires files.st.live == CompactedFiles(live, table, projects, now, k.purgeAfter)
      modifies this, files
      ensures Valid() && fresh(w) && !w.poisoned && sure == |history| >= old(sure)
      ensures history == old(history) + [Purged(now)] && w.store == Purge(old(w.store), now, k.purgeAfter)
      ensures forall x :: x in seen ==> x in old(seen) || (x.sure == sure && x.history == history)
    {
      hide Sane, Fold, Safe, Joined, Writer.Valid, Replay, Sound, CodecOk, StoreOk, Purge;
      hide CompactedFiles, Rewritable, Kept, SnapshotOf, RecMap, DistinctIds;
      Running(w);
      PurgedSane(k, history, w.store, now);
      AfterIsPurge(table, projects, w.store, now, k.purgeAfter);
      KeptStore(kept, table, projects, w.store, now, k.purgeAfter);
      history := history + [Purged(now)];
      Sealed(k, live, files.st, table, projects, now, history);
      w := new Writer(k.cx, k.oc, limits, policy, Store(RecMap(kept), w.store.projects));
      sealed, sure := |history|, |history|;
      Settle();
    }

    lemma Compactable(c: Compactor, table: seq<Record>, projects: seq<string>)
      requires Valid() && !w.poisoned && TableOk(table) && RecMap(table) == w.store.recs
      requires Sorted(projects) && forall p :: p in projects <==> p in w.store.projects
      requires c.files == files && c.table == table && c.projects == projects
      ensures c.Valid() && Named(table, projects) && DistinctIds(table) && files.st.marker == None
      ensures HoldsAll(k, files.st.live, history, sure, w.synced)
    {
      hide Sane, Fold, Writer.Valid, Replay, Sound, CodecOk, StoreOk, SnapshotOf, DistinctIds, RecMap, HoldsAll;
      Running(w);
      SaneWhole(k, history);
      CanCompact(files.st.live, w.base, w.issued, w.store, table, projects);
      RunningHolds(k, files.st, history, sealed, w.base, w.Now());
    }

    ghost function CompactImage(d: Disk, disk: Disk, now: int): Image
      reads this, w
    {
      Image(d, w.synced, if Recovered(k.hash, d) == Some(disk.live) then history else history + [Purged(now)], sure)
    }

    /** The images of one use of the stream join those seen before. */
    ghost method Witnessed(before: iset<Moment>, m: Moment, disk: Disk, op: Option<Op>)
      requires Joined(k, disk, history, sealed, w.base, m) && sure <= sealed + m.durable
      requires forall n :: n in w.seen && n !in before ==>
        && Sound(k.cx, k.oc, w.base, n) && n.durable >= m.durable && Extends(m.issued, m.issued, op, n.issued)
        && (op.Some? ==> Sane(k, history + [Did(op.value)]))
      requires forall x :: x in seen ==> Safe(k, x)
      modifies this`seen
      ensures forall x :: x in seen ==> Safe(k, x)
      ensures OnlySaw(if op.Some? then Some(Did(op.value)) else None)
    {
      hide Sane, Fold, Safe, Joined, Sound;
      JoinedSane(k, disk, history, sealed, w.base, m);
      forall n | n in w.seen && n !in before
        ensures var x := ImageOf(disk, history, sealed, n);
          && Safe(k, x) && x.sure >= sure
          && (x.history == history || (op.Some? && x.history == history + [Did(op.value)]))
      {
        NextJoined(k, disk, history, sealed, w.base, m, n, op);
      }
      seen := seen + iset n | n in w.seen && n !in before :: ImageOf(disk, history, sealed, n);
    }

  }

  /** The project files of a directory, as `asper_store_project_add` keeps them. */
  method Listing(live: Files) returns (slugs: seq<string>)
    ensures Sorted(slugs) && forall slug :: slug in slugs <==> SlugValid(slug) && ProjectRel(slug) in live
  {
    hide Less, SlugValid, ProjectRel;
    slugs := [];
    var rest := live.Keys;
    while rest != {}
      invariant rest <= live.Keys && Sorted(slugs)
      invariant forall slug :: slug in slugs <==> SlugValid(slug) && ProjectRel(slug) in live.Keys - rest
      decreases |rest|
    {
      var rel :| rel in rest;
      rest := rest - {rel};
      ProjectFile(rel);
      if |rel| > 14 && rel == ProjectRel(rel[9..|rel| - 5]) && SlugValid(rel[9..|rel| - 5]) {
        var slug := rel[9..|rel| - 5];
        var found, pos := LowerBound(slugs, slug);
        InsertSorted(slugs, slug, pos);
        ghost var before := slugs;
        slugs := slugs[..pos] + [slug] + slugs[pos..];
        Joins(before, pos, slug);
      }
    }
  }

  lemma ProjectFile(rel: string)
    ensures forall slug | SlugValid(slug) && ProjectRel(slug) == rel :: |rel| > 14 && slug == rel[9..|rel| - 5]
    ensures |rel| > 14 ==> forall slug | ProjectRel(slug) == ProjectRel(rel[9..|rel| - 5]) :: slug == rel[9..|rel| - 5]
  {
    forall slug | SlugValid(slug) && ProjectRel(slug) == rel ensures |rel| > 14 && slug == rel[9..|rel| - 5] {
      ProjectRelValid(slug);
    }
    if |rel| > 14 {
      var mine := rel[9..|rel| - 5];
      forall slug | ProjectRel(slug) == ProjectRel(mine) ensures slug == mine { ProjectRelInjective(slug, mine); }
    }
  }

  lemma Joins(s: seq<string>, pos: nat, slug: string)
    requires pos <= |s|
    ensures forall x :: x in s[..pos] + [slug] + s[pos..] <==> x in s || x == slug
  {
    assert s == s[..pos] + s[pos..];
  }

  /** `asper_store_open` on whatever a crash left: recover the transaction, load the section
      files, replay the journal. It opens as some prefix of the history with everything certain in
      it; interrupted or failing, it leaves images from which the same holds. */
  method Open(k: Setting, limits: Limits, policy: SyncPolicy, receiptPending: bool, d: Disk, ghost x: Image)
      returns (err: Err, mem: Memory?, left: Disk, ghost saw: iset<Image>)
    requires CodecOk(k.cx, k.oc) && Safe(k, x) && CrashOf(x.d, x.floor, d)
    ensures forall y :: y in saw ==> Safe(k, y) && y.history == x.history && y.sure == x.sure
    ensures exists y :: y in saw && y.d == left
    ensures err == Ok ==> mem != null && fresh(mem) && fresh(mem.w) && fresh(mem.files)
    ensures err == Ok ==> mem.k == k && mem.Valid() && !mem.w.poisoned && mem.sure == |mem.history|
    ensures err == Ok ==> x.sure <= |mem.history| <= |x.history| && mem.history == x.history[..|mem.history|]
  {
    hide Sane, Fold, Safe, Sound, CodecOk, SnapshotOf, StoreOk, HoldsBy, Joined, Recovered, Replay, Dids;
    mem := null;
    var files;
    err, files, saw := RecoverFiles(k, d, x);
    left := files.st;
    if err != Ok { return; }
    ghost var base, p, m := Parts(k, x.(d := left));
    PartsFacts(k, left.live, x, base, p, m);
    var loaded;
    err, loaded := Load(left.live, base);
    if err != Ok { return; }
    ghost var last;
    err, mem, last := Attach(k, limits, policy, receiptPending, files, loaded, x, p, m);
    left := files.st;
    saw := saw + iset{last};
  }

  /** Replay the journal over the loaded snapshot and start the stream. */
  method Attach(k: Setting, limits: Limits, policy: SyncPolicy, receiptPending: bool, files: StoreFiles, base: Store,
                ghost x: Image, ghost p: nat, ghost m: Moment)
      returns (err: Err, mem: Memory?, ghost last: Image)
    requires files.hash == k.hash && !files.poisoned && files.st.marker == None
    requires CodecOk(k.cx, k.oc) && Sane(k, x.history) && x.sure <= |x.history|
    requires HoldsBy(k, files.st.live, x.history, x.sure, x.floor, base, p, m)
    requires StoreOk(base) && Sound(k.cx, k.oc, base, m) && Leaves(m, JournalBytes(files.st.live))
    modifies files
    ensures Safe(k, last) && last.d == files.st && last.history == x.history && last.sure == x.sure
    ensures err == Ok ==> mem != null && fresh(mem) && fresh(mem.w) && mem.files == files
    ensures err == Ok ==> mem.k == k && mem.Valid() && !mem.w.poisoned && mem.sure == |mem.history|
    ensures err == Ok ==> x.sure <= |mem.history| <= |x.history| && mem.history == x.history[..|mem.history|]
  {
    hide Sane, Fold, Safe, Sound, CodecOk, SnapshotOf, StoreOk, HoldsBy, Joined, Replay, Dids, JournalBytes, Leaves, WithJournal, Writer.Valid;
    mem := null;
    var w := new Writer(k.cx, k.oc, limits, policy, base);
    ghost var settled := files.st;
    var bytes;
    ghost var i;
    err, bytes, i := w.Reopen(JournalBytes(files.st.live), m);
    ReopenedSafe(k, settled, x, base, p, m, bytes);
    files.st := WithJournal(files.st, bytes);
    last := Image(files.st, m.synced, x.history, x.sure);
    if err != Ok { return; }
    Running(w);
    ReopenedJoined(k, settled, bytes, x, base, p, m, w.Now(), i, w.store);
    JournalThere(settled, bytes);
    mem := new Memory(k, limits, policy, files, w, receiptPending, x.history[..p + i], p);
  }

  lemma JournalThere(d: Disk, bytes: string)
    ensures JOURNAL in WithJournal(d, bytes).live && WithJournal(d, bytes).live[JOURNAL] == Wal(bytes)
  {}

  /** `asper_compact_recover` at open: the image recovers to the same files as before. */
  method RecoverFiles(k: Setting, d: Disk, ghost x: Image) returns (err: Err, files: StoreFiles, ghost saw: iset<Image>)
    requires Safe(k, x) && CrashOf(x.d, x.floor, d)
    ensures forall y :: y in saw ==> Safe(k, y) && y.history == x.history && y.sure == x.sure
    ensures fresh(files) && files.hash == k.hash && !files.poisoned
    ensures x.(d := files.st) in saw
    ensures err == Ok ==> files.st.marker == None && Recovered(k.hash, files.st) == Some(files.st.live)
    ensures Sane(k, x.history) && x.sure <= |x.history|
  {
    hide Sane, Safe, Recovered;
    CrashSafe(k, x, d);
    ghost var here := x.(d := d);
    SafeRecovers(k, here);
    files := new StoreFiles(k.hash, d);
    err := files.Recover();
    NoMarker(k.hash, files.st);
    forall e | e in files.seen + iset{d, files.st} ensures Safe(k, x.(d := e)) { SameRecovery(k, here, e); }
    saw := iset e | e in files.seen + iset{d, files.st} :: x.(d := e);
  }

  lemma SafeRecovers(k: Setting, x: Image)
    requires Safe(k, x)
    ensures Recovered(k.hash, x.d).Some? && Sane(k, x.history) && x.sure <= |x.history|
  {}

  lemma Parts(k: Setting, x: Image) returns (base: Store, p: nat, m: Moment)
    requires Safe(k, x) && Recovered(k.hash, x.d) == Some(x.d.live)
    ensures HoldsBy(k, x.d.live, x.history, x.sure, x.floor, base, p, m)
  {
    hide HoldsBy, Recovered;
    base, p, m :| HoldsBy(k, x.d.live, x.history, x.sure, x.floor, base, p, m);
  }

  lemma PartsFacts(k: Setting, f: Files, x: Image, base: Store, p: nat, m: Moment)
    requires Sane(k, x.history) && HoldsBy(k, f, x.history, x.sure, x.floor, base, p, m)
    ensures StoreOk(base) && SnapshotOf(f, base) && Sound(k.cx, k.oc, base, m) && Leaves(m, JournalBytes(f))
  {
    hide Fold, Sound, SnapshotOf, JournalBytes, StoreOk, Homed;
    assert Proper(k, x.history, p);
    SyncedLength(k.cx, k.oc, base, m);
  }

  lemma ReopenedSafe(k: Setting, d: Disk, x: Image, base: Store, p: nat, m: Moment, bytes: string)
    requires Sane(k, x.history) && x.sure <= |x.history| && d.marker == None && Leaves(m, bytes)
    requires HoldsBy(k, d.live, x.history, x.sure, x.floor, base, p, m)
    ensures Safe(k, Image(WithJournal(d, bytes), m.synced, x.history, x.sure))
  {
    hide Sane, Fold, Sound, SnapshotOf;
    SnapshotIgnoresJournal(d.live, base, Wal(bytes));
    SoundCut(k.cx, k.oc, base, m, bytes);
    assert HoldsBy(k, WithJournal(d, bytes).live, x.history, x.sure, m.synced, base, p, m.(image := bytes));
  }

  lemma ReopenedJoined(k: Setting, d: Disk, bytes: string, x: Image, base: Store, p: nat, m: Moment,
                       now: Moment, i: nat, s: Store)
    requires Sane(k, x.history) && HoldsBy(k, d.live, x.history, x.sure, x.floor, base, p, m)
    requires d.marker == None && m.durable <= i <= |m.issued| && now.issued == m.issued[..i]
    requires Sound(k.cx, k.oc, base, now) && Replay(base, now.issued) == Some(s)
    ensures x.sure <= p + i <= |x.history| && Fold(k, x.history[..p + i]) == Some(s)
    ensures Joined(k, WithJournal(d, bytes), x.history[..p + i], p, base, now)
  {
    hide Sane, Fold, Sound, SnapshotOf, Replay;
    var h := x.history;
    SnapshotIgnoresJournal(d.live, base, Wal(bytes));
    assert |h[p..]| == |m.issued|;
    DidsTake(m.issued, i);
    SaneTake(k, h, p + i);
    PrefixFold(k, h, p, base, m.issued, i);
    assert h[..p + i][..p] == h[..p] && h[..p + i][p..] == h[p..][..i];
  }

  /** Load the section files; reading may fail. */
  method Load(live: Files, ghost base: Store) returns (err: Err, loaded: Store)
    requires SnapshotOf(live, base)
    ensures err == Ok || err == Io
    ensures err == Ok ==> loaded == base
  {
    hide SnapshotOf, SlugValid, ProjectRel, DistinctIds, Sorted;
    loaded := Store(map[], {});
    var fault: bool := *;
    if fault { return Io, loaded; }
    var slugs := Listing(live);
    SortedDistinct(slugs);
    var table;
    err, table := LoadStore(live, slugs);
    DistinctTable(table);
    loaded := Store(RecMap(table), set slug | slug in slugs);
    SnapshotUnique(live, loaded, base);
  }

  /** What a valid stream offers. */
  lemma Running(w: Writer)
    requires w.Valid()
    ensures CodecOk(w.cx, w.oc) && StoreOk(w.base) && Sound(w.cx, w.oc, w.base, w.Now())
    ensures forall m :: m in w.seen ==> Sound(w.cx, w.oc, w.base, m)
    ensures w.durable <= w.journalOps <= |w.issued|
    ensures !w.poisoned ==>
      w.file == w.image && w.Logged() == w.issued && Replay(w.base, w.issued) == Some(w.store)
  {
    assert !w.poisoned ==> w.issued[..w.journalOps] == w.issued;
  }

  /** Backups do not matter while no marker stands. */
  lemma SameLive(k: Setting, d: Disk, e: Disk, h: seq<Change>, p: nat, base: Store, m: Moment)
    requires Joined(k, d, h, p, base, m) && e.live == d.live && e.marker == None
    ensures Joined(k, e, h, p, base, m)
  {}

  lemma DistinctTable(table: seq<Record>)
    requires TableOk(table)
    ensures DistinctIds(table)
  {}

  lemma IssuedLength(k: Setting, d: Disk, h: seq<Change>, p: nat, base: Store, m: Moment)
    requires Joined(k, d, h, p, base, m)
    ensures p + |m.issued| == |h|
  {
    assert |h[p..]| == |m.issued|;
  }

  lemma KeptStore(kept: seq<Record>, table: seq<Record>, projects: seq<string>, s: Store, now: int, purgeAfter: int)
    requires DistinctIds(table) && DistinctIds(kept) && kept == Kept(table, now, purgeAfter)
    requires forall p :: p in projects <==> p in s.projects
    ensures Store(RecMap(kept), s.projects) == After(table, projects, now, purgeAfter)
  {
    assert (set p | p in projects) == s.projects;
  }

  /** A committed compaction joins to an empty stream. */
  lemma Sealed(k: Setting, live: Files, d: Disk, table: seq<Record>, projects: seq<string>, now: int, h: seq<Change>)
    requires Rewritable(live, table, projects, now, k.purgeAfter) && Sane(k, h)
    requires d.marker == None && d.live == CompactedFiles(live, table, projects, now, k.purgeAfter)
    requires DistinctIds(table) && Fold(k, h) == Some(After(table, projects, now, k.purgeAfter))
    ensures Joined(k, d, h, |h|, After(table, projects, now, k.purgeAfter), Moment("", 0, [], [], 0))
    ensures JOURNAL in d.live && d.live[JOURNAL] == Wal("")
    ensures StoreOk(After(table, projects, now, k.purgeAfter))
  {
    hide Sane, Fold, After, CompactedFiles, Rewritable, SnapshotOf, DistinctIds, Sound, StoreOk;
    CompactedHolds(k, live, table, projects, now, h, 0, 0);
    EmptySound(k.cx, k.oc, After(table, projects, now, k.purgeAfter));
    SaneWhole(k, h);
    assert h[..|h|] == h;
  }

  lemma JoinedSane(k: Setting, d: Disk, h: seq<Change>, p: nat, base: Store, m: Moment)
    requires Joined(k, d, h, p, base, m)
    ensures Sane(k, h) && p <= |h|
  {}
}
