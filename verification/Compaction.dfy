/** Compaction (src/store_compact.c): rewrite every section file from the live table
    without the purge-due records, empty the journal, commit, purge. */
module Compaction {
  import opened Outcomes
  import opened Records
  import opened Effects
  import opened StrOrder
  import opened Marker
  import opened Transaction
  import opened Snapshots
  import opened EventFrame
  import opened EventScan
  import opened Journal

  predicate PurgeDue(r: Record, now: int, purgeAfter: int) {
    r.deprecated && now - r.deprecatedAt >= purgeAfter
  }

  /** The live records that survive, in table order. */
  function Kept(table: seq<Record>, now: int, purgeAfter: int): seq<Record> {
    if table == [] then []
    else
      var r := table[|table| - 1];
      Kept(table[..|table| - 1], now, purgeAfter) + (if PurgeDue(r, now, purgeAfter) then [] else [r])
  }

  /** The surviving records that go to one file. */
  function Destined(table: seq<Record>, rel: string, now: int, purgeAfter: int): seq<Record> {
    if table == [] then []
    else
      var r := table[|table| - 1];
      Destined(table[..|table| - 1], rel, now, purgeAfter)
      + (if !PurgeDue(r, now, purgeAfter) && Home(r) == rel then [r] else [])
  }

  lemma {:induction false} KeptMembers(table: seq<Record>, now: int, purgeAfter: int)
    ensures forall r :: r in Kept(table, now, purgeAfter) <==> r in table && !PurgeDue(r, now, purgeAfter)
    ensures |Kept(table, now, purgeAfter)| <= |table|
  {
    if table != [] {
      hide PurgeDue;
      var n := |table| - 1;
      KeptMembers(table[..n], now, purgeAfter);
      assert table == table[..n] + [table[n]];
    }
  }

  /** What is kept is an order-keeping part of the table. */
  lemma KeptSifted(table: seq<Record>, now: int, purgeAfter: int)
    ensures Sifted(table, Kept(table, now, purgeAfter), now, purgeAfter)
  {
    var at := Sifting(table, now, purgeAfter);
  }

  lemma {:induction false} Sifting(table: seq<Record>, now: int, purgeAfter: int) returns (at: seq<int>)
    ensures SiftedAt(table, Kept(table, now, purgeAfter), at, now, purgeAfter)
  {
    at := [];
    if table != [] {
      hide SiftedAt;
      var n := |table| - 1;
      at := Sifting(table[..n], now, purgeAfter);
      assert table == table[..n] + [table[n]];
      SiftedSnoc(table[..n], Kept(table[..n], now, purgeAfter), at, table[n], now, purgeAfter);
      if !PurgeDue(table[n], now, purgeAfter) { at := at + [n]; }
      assert n == |table[..n]|;
    }
  }

  lemma SiftedSnoc(table: seq<Record>, left: seq<Record>, at: seq<int>, r: Record, now: int, purgeAfter: int)
    requires SiftedAt(table, left, at, now, purgeAfter)
    ensures SiftedAt(table + [r], left + (if PurgeDue(r, now, purgeAfter) then [] else [r]),
                     at + (if PurgeDue(r, now, purgeAfter) then [] else [|table|]), now, purgeAfter)
  {
    var more := if PurgeDue(r, now, purgeAfter) then [] else [|table|];
    assert forall j :: j in at ==> j in at + more;
    assert more != [] ==> (at + more)[|at|] == |table|;
  }

  /** The same of membership alone. */
  lemma SiftedMembers(table: seq<Record>, left: seq<Record>, now: int, purgeAfter: int)
    requires Sifted(table, left, now, purgeAfter)
    ensures forall r | r in table && (!r.deprecated || now - r.deprecatedAt < purgeAfter) :: r in left
    ensures forall r | r in left :: r in table && (!r.deprecated || now - r.deprecatedAt < purgeAfter)
  {
    var at :| SiftedAt(table, left, at, now, purgeAfter);
    forall r | r in table && (!r.deprecated || now - r.deprecatedAt < purgeAfter) ensures r in left {
      var j :| 0 <= j < |table| && table[j] == r;
      assert j in at;
      var i :| 0 <= i < |at| && at[i] == j;
      assert left[i] == r;
    }
  }

  lemma AfterSurvives(table: seq<Record>, projects: seq<string>, now: int, purgeAfter: int)
    requires DistinctIds(table)
    ensures Survivors(table, projects, After(table, projects, now, purgeAfter), now, purgeAfter)
  {
    hide Kept, DistinctIds, RecMap;
    KeptDistinct(table, now, purgeAfter);
    KeptSifted(table, now, purgeAfter);
    SiftedMembers(table, Kept(table, now, purgeAfter), now, purgeAfter);
    RecMapFacts(Kept(table, now, purgeAfter));
  }

  lemma {:induction false} DestinedMembers(table: seq<Record>, rel: string, now: int, purgeAfter: int)
    ensures forall r :: r in Destined(table, rel, now, purgeAfter)
                        <==> r in table && !PurgeDue(r, now, purgeAfter) && Home(r) == rel
  {
    if table != [] {
      hide PurgeDue, Home;
      var n := |table| - 1;
      DestinedMembers(table[..n], rel, now, purgeAfter);
      assert table == table[..n] + [table[n]];
    }
  }

  lemma {:induction false} KeptDistinct(table: seq<Record>, now: int, purgeAfter: int)
    requires DistinctIds(table)
    ensures DistinctIds(Kept(table, now, purgeAfter))
  {
    if table != [] {
      var n := |table| - 1;
      KeptDistinct(table[..n], now, purgeAfter);
      KeptMembers(table[..n], now, purgeAfter);
      DistinctLast(table, Kept(table[..n], now, purgeAfter));
    }
  }

  lemma {:induction false} DestinedDistinct(table: seq<Record>, rel: string, now: int, purgeAfter: int)
    requires DistinctIds(table)
    ensures DistinctIds(Destined(table, rel, now, purgeAfter))
  {
    if table != [] {
      var n := |table| - 1;
      DestinedDistinct(table[..n], rel, now, purgeAfter);
      DestinedMembers(table[..n], rel, now, purgeAfter);
      DistinctLast(table, Destined(table[..n], rel, now, purgeAfter));
    }
  }

  lemma DistinctLast(table: seq<Record>, part: seq<Record>)
    requires table != [] && DistinctIds(table) && DistinctIds(part)
    requires forall r | r in part :: r in table[..|table| - 1]
    ensures DistinctIds(part + [table[|table| - 1]])
  {
    var n := |table| - 1;
    forall i | 0 <= i < |part| ensures part[i].id != table[n].id {
      assert part[i] in part;
    }
  }

  // ---- the files compaction leaves --------------------------------------------

  function WithProjects(live: Files, projects: seq<string>, bufs: seq<seq<Record>>, k: nat): (files: Files)
    requires k <= |projects| && k <= |bufs|
  {
    if k == 0 then live
    else WithProjects(live, projects, bufs, k - 1)[ProjectRel(projects[k - 1]) := Snapshot(bufs[k - 1])]
  }

  function Compacted(live: Files, ident: seq<Record>, ctx: seq<Record>, projects: seq<string>,
      bufs: seq<seq<Record>>): Files
    requires |bufs| == |projects|
  {
    WithProjects(live[IDENTITY := Snapshot(ident)][CONTEXT := Snapshot(ctx)], projects, bufs, |projects|)[JOURNAL := Wal("")]
  }

  lemma {:induction false} WithProjectsAt(live: Files, projects: seq<string>, bufs: seq<seq<Record>>, k: nat)
    requires k <= |projects| && k <= |bufs|
    requires forall i, j | 0 <= i < j < |projects| :: projects[i] != projects[j]
    ensures forall i | 0 <= i < k :: ProjectRel(projects[i]) in WithProjects(live, projects, bufs, k)
              && WithProjects(live, projects, bufs, k)[ProjectRel(projects[i])] == Snapshot(bufs[i])
    ensures forall rel | (forall i | 0 <= i < k :: rel != ProjectRel(projects[i])) ::
              (rel in WithProjects(live, projects, bufs, k) <==> rel in live)
              && (rel in live ==> WithProjects(live, projects, bufs, k)[rel] == live[rel])
  {
    if k > 0 {
      hide ProjectRel;
      WithProjectsAt(live, projects, bufs, k - 1);
      forall i | 0 <= i < k - 1 ensures ProjectRel(projects[i]) != ProjectRel(projects[k - 1]) {
        if ProjectRel(projects[i]) == ProjectRel(projects[k - 1]) { ProjectRelInjective(projects[i], projects[k - 1]); }
      }
    }
  }

  /** Every project that has a file is known. */
  ghost predicate Registered(projects: seq<string>, live: Files) {
    forall slug | SlugValid(slug) && ProjectRel(slug) in live :: slug in projects
  }

  /** Every project a record names is known. */
  ghost predicate Named(table: seq<Record>, projects: seq<string>) {
    forall r | r in table && r.section == Project && r.project.Some? :: r.project.value in projects
  }

  /** What the store must satisfy for its files to be rewritten faithfully. */
  ghost predicate Rewritable(live: Files, table: seq<Record>, projects: seq<string>, now: int, purgeAfter: int) {
    && TableOk(table) && Sorted(projects) && |projects| <= PROJECT_LIMIT
    && (forall i | 0 <= i < |projects| :: SlugValid(projects[i]))
    && Registered(projects, live)
    && (forall r | r in table && !PurgeDue(r, now, purgeAfter) && r.section == Project ::
        r.project.Some? && r.project.value in projects)
  }

  ghost function After(table: seq<Record>, projects: seq<string>, now: int, purgeAfter: int): Store
    requires DistinctIds(table)
  {
    KeptDistinct(table, now, purgeAfter);
    Store(RecMap(Kept(table, now, purgeAfter)), set slug | slug in projects)
  }

  ghost function CompactedFiles(live: Files, table: seq<Record>, projects: seq<string>,
      now: int, purgeAfter: int): Files {
    Compacted(live, Destined(table, IDENTITY, now, purgeAfter), Destined(table, CONTEXT, now, purgeAfter),
              projects, Buffers(table, projects, now, purgeAfter))
  }

  function Buffers(table: seq<Record>, projects: seq<string>, now: int, purgeAfter: int): (bufs: seq<seq<Record>>)
    ensures |bufs| == |projects|
    ensures forall i | 0 <= i < |projects| :: bufs[i] == Destined(table, ProjectRel(projects[i]), now, purgeAfter)
  {
    seq(|projects|, i requires 0 <= i < |projects| => Destined(table, ProjectRel(projects[i]), now, purgeAfter))
  }

  lemma CompactedAt(live: Files, table: seq<Record>, projects: seq<string>, now: int, purgeAfter: int, rel: string)
    requires Rewritable(live, table, projects, now, purgeAfter) && IsSection(rel)
    ensures var files := CompactedFiles(live, table, projects, now, purgeAfter);
      && (rel in files <==>
          rel == IDENTITY || rel == CONTEXT || exists i :: 0 <= i < |projects| && rel == ProjectRel(projects[i]))
      && (rel in files ==> files[rel] == Snapshot(Destined(table, rel, now, purgeAfter)))
  {
    hide ProjectRel, Destined, SlugValid;
    SortedDistinct(projects);
    var bufs := Buffers(table, projects, now, purgeAfter);
    var base := live[IDENTITY := Snapshot(Destined(table, IDENTITY, now, purgeAfter))]
                    [CONTEXT := Snapshot(Destined(table, CONTEXT, now, purgeAfter))];
    WithProjectsAt(base, projects, bufs, |projects|);
    forall i | 0 <= i < |projects| ensures ProjectRel(projects[i]) != IDENTITY && ProjectRel(projects[i]) != CONTEXT {
      ProjectRelValid(projects[i]);
    }
    if rel != IDENTITY && rel != CONTEXT && rel in live {
      SectionNames(rel);
      var slug := rel[9..|rel| - 5];
      assert slug in projects;
    }
  }

  /** Reading back the rewritten files gives exactly the live records that are not purge
      due, and every known project: compaction is the inverse of loading. */
  lemma CompactedLoads(cx: Codec, oc: OpCodec, live: Files, table: seq<Record>, projects: seq<string>,
      now: int, purgeAfter: int)
    requires Rewritable(live, table, projects, now, purgeAfter)
    ensures Loads(cx, oc, CompactedFiles(live, table, projects, now, purgeAfter),
                  After(table, projects, now, purgeAfter))
  {
    var files := CompactedFiles(live, table, projects, now, purgeAfter);
    var s := After(table, projects, now, purgeAfter);
    hide CompactedFiles, After, SnapshotOf, Rewritable;
    CompactedSnapshot(live, table, projects, now, purgeAfter);
    EmptyJournal(cx, oc, live, table, projects, now, purgeAfter);
    assert Replay(s, []) == Some(s);
    assert LoadsBy(cx, oc, files, s, [], s);
  }

  lemma EmptyJournal(cx: Codec, oc: OpCodec, live: Files, table: seq<Record>, projects: seq<string>,
      now: int, purgeAfter: int)
    ensures JournalBytes(CompactedFiles(live, table, projects, now, purgeAfter)) == ""
    ensures Journaled(cx, oc, "", [])
  {
    StartOfLog(cx, []);
    assert Journals(cx, oc, [], []) && LogImage(cx, "", []);
  }

  lemma CompactedSnapshot(live: Files, table: seq<Record>, projects: seq<string>, now: int, purgeAfter: int)
    requires Rewritable(live, table, projects, now, purgeAfter)
    ensures SnapshotOf(CompactedFiles(live, table, projects, now, purgeAfter), After(table, projects, now, purgeAfter))
  {
    hide ProjectRel, SlugValid, Kept, CompactedFiles, RelValid, Home, SectionOk, Stored, RecMap, DistinctIds, Rewritable;
    var files := CompactedFiles(live, table, projects, now, purgeAfter);
    AfterFacts(live, table, projects, now, purgeAfter);
    var s := After(table, projects, now, purgeAfter);
    forall rel | rel in files && IsSection(rel)
      ensures SectionOk(files[rel], rel) && files[rel].Snapshot?
      ensures forall r | r in files[rel].recs :: r.id in s.recs && s.recs[r.id] == r
    {
      SectionRewritten(live, table, projects, now, purgeAfter, rel);
    }
    forall id | id in s.recs
      ensures Stored(files, s.recs[id]) && s.recs[id].id == id
    {
      RecordRewritten(live, table, projects, now, purgeAfter, s.recs[id]);
    }
    forall slug
      ensures slug in s.projects <==> SlugValid(slug) && ProjectRel(slug) in files
    {
      SlugStored(live, table, projects, now, purgeAfter, slug);
    }
  }

  lemma AfterFacts(live: Files, table: seq<Record>, projects: seq<string>, now: int, purgeAfter: int)
    requires Rewritable(live, table, projects, now, purgeAfter)
    ensures DistinctIds(table)
    ensures var s, kept := After(table, projects, now, purgeAfter), Kept(table, now, purgeAfter);
      && |s.recs| <= RECORD_LIMIT && |s.projects| <= PROJECT_LIMIT
      && (forall r | r in kept :: r.id in s.recs && s.recs[r.id] == r)
      && (forall id | id in s.recs :: s.recs[id] in kept && s.recs[id].id == id)
      && forall slug :: slug in s.projects <==> slug in projects
  {
    hide ProjectRel, SlugValid, Kept, RelValid, Home, PurgeDue;
    var kept := Kept(table, now, purgeAfter);
    KeptDistinct(table, now, purgeAfter);
    KeptMembers(table, now, purgeAfter);
    RecMapFacts(kept);
    RecMapSize(kept);
    SortedDistinct(projects);
    SetSize(projects);
  }

  lemma SectionRewritten(live: Files, table: seq<Record>, projects: seq<string>, now: int, purgeAfter: int, rel: string)
    requires Rewritable(live, table, projects, now, purgeAfter) && IsSection(rel)
    requires rel in CompactedFiles(live, table, projects, now, purgeAfter)
    ensures var c := CompactedFiles(live, table, projects, now, purgeAfter)[rel];
      SectionOk(c, rel) && c.Snapshot? && forall r | r in c.recs :: r in Kept(table, now, purgeAfter)
  {
    hide ProjectRel, Destined, SlugValid, Kept, CompactedFiles, RelValid, Home, PurgeDue;
    CompactedAt(live, table, projects, now, purgeAfter, rel);
    DestinedDistinct(table, rel, now, purgeAfter);
    DestinedMembers(table, rel, now, purgeAfter);
    KeptMembers(table, now, purgeAfter);
    assert forall r | r in table :: r.id != "" by {
      forall r | r in table ensures r.id != "" { var i :| 0 <= i < |table| && table[i] == r; }
    }
  }

  lemma RecordRewritten(live: Files, table: seq<Record>, projects: seq<string>, now: int, purgeAfter: int, r: Record)
    requires Rewritable(live, table, projects, now, purgeAfter) && r in Kept(table, now, purgeAfter)
    ensures Stored(CompactedFiles(live, table, projects, now, purgeAfter), r)
  {
    hide ProjectRel, Destined, SlugValid, Kept, CompactedFiles, RelValid, Home, PurgeDue;
    KeptMembers(table, now, purgeAfter);
    HomeKnown(live, table, projects, now, purgeAfter, r);
    DestinedMembers(table, Home(r), now, purgeAfter);
    CompactedAt(live, table, projects, now, purgeAfter, Home(r));
  }

  lemma HomeKnown(live: Files, table: seq<Record>, projects: seq<string>, now: int, purgeAfter: int, r: Record)
    requires Rewritable(live, table, projects, now, purgeAfter) && r in table && !PurgeDue(r, now, purgeAfter)
    ensures IsSection(Home(r))
    ensures Home(r) == IDENTITY || Home(r) == CONTEXT ||
      exists i :: 0 <= i < |projects| && Home(r) == ProjectRel(projects[i])
  {
    if r.section == Project { ProjectRelValid(r.project.value); }
  }

  lemma SlugStored(live: Files, table: seq<Record>, projects: seq<string>, now: int, purgeAfter: int, slug: string)
    requires Rewritable(live, table, projects, now, purgeAfter)
    ensures slug in projects <==>
      SlugValid(slug) && ProjectRel(slug) in CompactedFiles(live, table, projects, now, purgeAfter)
  {
    hide ProjectRel, Destined, CompactedFiles, RelValid;
    if SlugValid(slug) {
      ProjectRelValid(slug);
      CompactedAt(live, table, projects, now, purgeAfter, ProjectRel(slug));
      if i :| 0 <= i < |projects| && ProjectRel(slug) == ProjectRel(projects[i]) {
        ProjectRelInjective(slug, projects[i]);
      }
    }
  }

  /** What may become visible while the store is rewritten: images that recovery turns back
      into the old files, or images of the complete new ones. */
  ghost predicate Atomic(hash: Content -> Hash, d: Disk, old_: Files, table: seq<Record>, projects: seq<string>,
                         now: int, purgeAfter: int) {
    || Recovered(hash, d) == Some(old_)
    || (Rewritable(old_, table, projects, now, purgeAfter)
        && Recovered(hash, d) == Some(CompactedFiles(old_, table, projects, now, purgeAfter)))
  }

  /** Compaction is atomic: whatever image a crash leaves, recovery can complete, and the
      store that opens is the one before compaction or the live table without the purge-due
      records and with every known project; nothing in between. */
  lemma AtomicReopens(cx: Codec, oc: OpCodec, hash: Content -> Hash, d: Disk, old_: Files, before: Store,
                      table: seq<Record>, projects: seq<string>, now: int, purgeAfter: int)
    requires CodecOk(cx, oc) && Loads(cx, oc, old_, before) && DistinctIds(table)
    requires Atomic(hash, d, old_, table, projects, now, purgeAfter)
    ensures Recovered(hash, d).Some?
    ensures var files := Recovered(hash, d).value;
      forall s | Loads(cx, oc, files, s) :: s == before || s == After(table, projects, now, purgeAfter)
    ensures var files := Recovered(hash, d).value;
      Loads(cx, oc, files, before) || Loads(cx, oc, files, After(table, projects, now, purgeAfter))
    ensures var files := Recovered(hash, d).value;
      forall s | Loads(cx, oc, files, s) :: s == before || Survivors(table, projects, s, now, purgeAfter)
  {
    hide Recovered, Loads, CompactedFiles, After, Rewritable, CodecOk, Survivors;
    AfterSurvives(table, projects, now, purgeAfter);
    var files := Recovered(hash, d).value;
    if files != old_ { CompactedLoads(cx, oc, old_, table, projects, now, purgeAfter); }
    forall s | Loads(cx, oc, files, s)
      ensures s == before || s == After(table, projects, now, purgeAfter)
    {
      LoadUnique(cx, oc, files, s, if files == old_ then before else After(table, projects, now, purgeAfter));
    }
  }

  /** The rewritten store can be compacted again. */
  lemma Afterwards(live: Files, table: seq<Record>, projects: seq<string>, now: int, purgeAfter: int)
    requires Rewritable(live, table, projects, now, purgeAfter)
    ensures TableOk(Kept(table, now, purgeAfter))
    ensures Registered(projects, CompactedFiles(live, table, projects, now, purgeAfter))
  {
    hide CompactedFiles, ProjectRel, SlugValid, PurgeDue;
    KeptDistinct(table, now, purgeAfter);
    KeptMembers(table, now, purgeAfter);
    var kept := Kept(table, now, purgeAfter);
    forall i | 0 <= i < |kept| ensures kept[i].id != "" {
      assert kept[i] in kept;
      var j :| 0 <= j < |table| && table[j] == kept[i];
    }
    forall slug | SlugValid(slug) && ProjectRel(slug) in CompactedFiles(live, table, projects, now, purgeAfter)
      ensures slug in projects
    {
      SlugStored(live, table, projects, now, purgeAfter, slug);
    }
  }

  class Compactor {
    const files: StoreFiles
    const purgeAfter: int
    var table: seq<Record>
    var projects: seq<string>
    var journalOps: nat
    var streamOpen: bool
    var receiptPending: bool

    constructor (files: StoreFiles, purgeAfter: int, table: seq<Record>, projects: seq<string>,
        journalOps: nat, receiptPending: bool)
      ensures this.files == files && this.purgeAfter == purgeAfter && this.table == table && this.projects == projects
      ensures this.journalOps == journalOps && this.receiptPending == receiptPending
    {
      this.files, this.purgeAfter, this.table, this.projects := files, purgeAfter, table, projects;
      this.journalOps, streamOpen, this.receiptPending := journalOps, true, receiptPending;
    }

    ghost predicate Valid()
      reads this, files
    {
      && TableOk(table) && Sorted(projects) && |projects| <= PROJECT_LIMIT
      && (forall i | 0 <= i < |projects| :: SlugValid(projects[i]))
      && (!files.poisoned ==> Registered(projects, files.st.live))
    }

    /** `asper_store_project_add`: keep the registry sorted. */
    method ProjectAdd(slug: string) returns (err: Err)
      requires Sorted(projects) && |projects| <= PROJECT_LIMIT &&
        forall i | 0 <= i < |projects| :: SlugValid(projects[i])
      modifies this`projects
      ensures Sorted(projects) && |projects| <= PROJECT_LIMIT &&
        forall i | 0 <= i < |projects| :: SlugValid(projects[i])
      ensures forall p | p in old(projects) :: p in projects
      ensures forall p | p in projects :: p in old(projects) || p == slug
      ensures err == Ok ==> slug in projects
      ensures err != Ok ==> projects == old(projects)
      ensures err == Invalid <==> !SlugValid(slug)
      ensures err == Ok || err == Invalid || err == Limit
    {
      hide Less, SlugValid;
      if !SlugValid(slug) { return Invalid; }
      var found, pos := LowerBound(projects, slug);
      if found { return Ok; }
      if |projects| >= PROJECT_LIMIT { return Limit; }
      InsertSorted(projects, slug, pos);
      var next := projects[..pos] + [slug] + projects[pos..];
      assert next[pos] == slug;
      forall p | p in projects ensures p in next {
        var i :| 0 <= i < |projects| && projects[i] == p;
        assert next[if i < pos then i else i + 1] == p;
      }
      projects := next;
      return Ok;
    }

    /** Afterwards the registry knows the project of every record; it only grows, and not at all when
        it knew them before. */
    method RegisterProjects() returns (err: Err)
      requires Valid()
      modifies this`projects
      ensures Valid() && forall p | p in old(projects) :: p in projects
      ensures err == Ok ==> Named(table, projects)
      ensures Named(table, old(projects)) ==> projects == old(projects) && err == Ok
    {
      hide SlugValid, ProjectRel;
      err := Ok;
      var i := 0;
      while i < |table| && err == Ok
        invariant i <= |table| && Valid() && forall p | p in old(projects) :: p in projects
        invariant Named(table, old(projects)) ==> projects == old(projects) && err == Ok
        invariant err == Ok ==> forall k | 0 <= k < i && table[k].section == Project && table[k].project.Some? ::
          table[k].project.value in projects
      {
        var r := table[i];
        if r.section == Project && r.project.Some? && r.project.value !in projects {
          err := ProjectAdd(r.project.value);
        }
        i := i + 1;
      }
    }

    /** Distribute the table over its destination files, skipping purge-due records. */
    method Distribute(now: int) returns (err: Err, ident: seq<Record>, ctx: seq<Record>, bufs: seq<seq<Record>>)
      requires Valid() && Registered(projects, files.st.live)
      ensures err == Ok || err == Invalid
      ensures err == Ok ==>
        ident == Destined(table, IDENTITY, now, purgeAfter) && ctx == Destined(table, CONTEXT, now, purgeAfter)
      ensures err == Ok ==> bufs == Buffers(table, projects, now, purgeAfter)
      ensures err == Ok ==> Rewritable(files.st.live, table, projects, now, purgeAfter)
    {
      hide SlugValid, Destined, Buffers, ProjectRel, Less;
      ident, ctx, bufs, err := [], [], seq(|projects|, _ => []), Ok;
      NoneYet(projects, now, purgeAfter);
      var i := 0;
      while i < |table|
        invariant i <= |table| && |bufs| == |projects|
        invariant ident == Destined(table[..i], IDENTITY, now, purgeAfter) &&
          ctx == Destined(table[..i], CONTEXT, now, purgeAfter)
        invariant bufs == Buffers(table[..i], projects, now, purgeAfter)
        invariant forall k | 0 <= k < i && !PurgeDue(table[k], now, purgeAfter) && table[k].section == Project ::
          table[k].project.Some? && table[k].project.value in projects
      {
        var r := table[i];
        DestinedStep(table, i, IDENTITY, now, purgeAfter);
        DestinedStep(table, i, CONTEXT, now, purgeAfter);
        if PurgeDue(r, now, purgeAfter) {
          BuffersKeep(table, i, projects, now, purgeAfter);
        } else {
          match r.section {
            case Identity =>
              BuffersKeep(table, i, projects, now, purgeAfter);
              ident := ident + [r];
            case Context =>
              BuffersKeep(table, i, projects, now, purgeAfter);
              ctx := ctx + [r];
            case Project =>
              if r.project.None? { return Invalid, ident, ctx, bufs; }
              var found, at := LowerBound(projects, r.project.value);
              if !found { return Invalid, ident, ctx, bufs; }
              BuffersAdd(table, i, projects, at, now, purgeAfter);
              bufs := bufs[at := bufs[at] + [r]];
          }
        }
        i := i + 1;
      }
      assert table[..|table|] == table;
    }

    /** Rewrite every section and project file, then empty the journal, all under the armed
        transaction. */
    method Rewrite(ident: seq<Record>, ctx: seq<Record>, bufs: seq<seq<Record>>,
        ghost rows: seq<Row>, ghost old_: Files)
      returns (ok: bool)
      requires |bufs| == |projects| && files.Armed(rows) && Recovered(files.hash, files.st) == Some(old_)
      requires Listed(rows, IDENTITY) && Listed(rows, CONTEXT) && Listed(rows, JOURNAL)
      requires forall i | 0 <= i < |projects| :: Listed(rows, ProjectRel(projects[i]))
      modifies this`journalOps, this`streamOpen, files`st, files`seen
      ensures files.Armed(rows) && Recovered(files.hash, files.st) == Some(old_) && files.OnlySaw(old_)
      ensures ok ==> files.st.live == Compacted(old(files.st.live), ident, ctx, projects, bufs)
      ensures ok ==> journalOps == 0 && streamOpen
    {
      hide Recovered, MarkerIs, Backed, Listed, ProjectRel;
      ok := files.WriteListed(IDENTITY, Snapshot(ident), rows, old_);
      if !ok { return; }
      ok := files.WriteListed(CONTEXT, Snapshot(ctx), rows, old_);
      if !ok { return; }
      ghost var base := files.st.live;
      var i := 0;
      while i < |projects|
        invariant i <= |projects| && files.Armed(rows) && Recovered(files.hash, files.st) == Some(old_) &&
          files.OnlySaw(old_)
        invariant files.st.live == WithProjects(base, projects, bufs, i)
      {
        ok := files.WriteListed(ProjectRel(projects[i]), Snapshot(bufs[i]), rows, old_);
        if !ok { return; }
        i := i + 1;
      }
      streamOpen := false;
      ok := files.WriteListed(JOURNAL, Wal(""), rows, old_);
      var reopened: bool := *;
      streamOpen := reopened;
      if ok && reopened { journalOps := 0; }
      ok := ok && reopened;
    }

    /** `asper_store_compact`. A crash at any moment leaves an image that reopens as exactly
        the store before, or exactly the kept records with every known project. Unless the
        store is poisoned no marker remains, so nothing acknowledged later can be undone. */
    method Compact(now: int) returns (err: Err, committed: bool)
      requires Valid()
      modifies this, files
      ensures Valid() && (old(files.poisoned) ==> files.poisoned && files.st == old(files.st))
      ensures Named(old(table), old(projects)) ==> projects == old(projects)
      ensures old(files.poisoned) || old(receiptPending) ==>
        files.seen == old(files.seen) && files.poisoned == old(files.poisoned) &&
        err == (if old(files.poisoned) then Io else Busy) && !committed
      ensures forall p | p in old(projects) :: p in projects
      ensures !committed ==> table == old(table) && (files.poisoned || journalOps == old(journalOps))
      ensures committed ==> table == Kept(old(table), now, purgeAfter) && journalOps == 0 && !files.poisoned
      ensures committed ==> Sifted(old(table), table, now, purgeAfter)
      ensures forall r | r in old(table) ::
        r in table <==> !committed || !r.deprecated || now - r.deprecatedAt < purgeAfter
      ensures committed ==> Rewritable(old(files.st.live), old(table), projects, now, purgeAfter)
      ensures var new_ := CompactedFiles(old(files.st.live), old(table), projects, now, purgeAfter);
        old(files.st.marker) == None ==>
          && (forall d :: d in files.seen ==>
                d in old(files.seen) ||
                  Atomic(files.hash, d, old(files.st.live), old(table), projects, now, purgeAfter))
          && (committed ==> files.st.live == new_ && files.st.marker == None)
          && (!committed && !files.poisoned ==> files.st.live == old(files.st.live))
      ensures !files.poisoned ==> files.st.marker == None || files.st.marker == old(files.st.marker)
      ensures err == Ok ==> committed
    {
      hide Recovered, CompactedFiles, Rewritable, Kept, SlugValid, ProjectRel, Less, Atomic, TableOk, Sifted;
      committed := false;
      if files.poisoned { return Io, false; }
      if receiptPending { return Busy, false; }
      err := RegisterProjects();
      if err != Ok { return; }
      err, committed := Attempt(now);
      if committed { SiftedMembers(old(table), table, now, purgeAfter); }
    }

    /** Back up, rewrite, commit, purge. */
    method Attempt(now: int) returns (err: Err, committed: bool)
      requires Valid() && !files.poisoned
      modifies this`table, this`journalOps, this`streamOpen, files
      ensures Valid()
      ensures !committed ==> table == old(table) && (files.poisoned || journalOps == old(journalOps))
      ensures committed ==> table == Kept(old(table), now, purgeAfter) && journalOps == 0 && !files.poisoned
      ensures committed ==> Sifted(old(table), table, now, purgeAfter)
      ensures committed ==> Rewritable(old(files.st.live), old(table), projects, now, purgeAfter)
      ensures old(files.st.marker) == None ==> forall d :: d in files.seen ==>
        d in old(files.seen) || Atomic(files.hash, d, old(files.st.live), old(table), projects, now, purgeAfter)
      ensures committed ==>
        files.st.marker == None &&
        files.st.live == CompactedFiles(old(files.st.live), old(table), projects, now, purgeAfter)
      ensures !committed && !files.poisoned ==> files.st.live == old(files.st.live)
      ensures !files.poisoned ==> files.st.marker == None || files.st.marker == old(files.st.marker)
      ensures err == Ok ==> committed
    {
      hide Recovered, CompactedFiles, Rewritable, Kept, SlugValid, ProjectRel, Less, Listed, MarkerIs, Backed;
      hide Registered, TableOk, Sifted;
      ghost var old_ := files.st.live;
      var rels := TransactionFiles(projects);
      ghost var rows;
      err, rows := files.Begin(rels);
      committed := false;
      if err != Ok { return; }
      TransactionCovers(projects, rels, rows);
      committed := Transact(now, rels, rows, old_);
      if !committed { return Io, false; }
      Afterwards(old_, table, projects, now, purgeAfter);
      Purge(now);
      var saved: bool := *;
      err := if saved then Ok else Io;
    }

    /** Under the armed marker: rewrite, then commit or roll back. */
    method Transact(now: int, rels: seq<string>, ghost rows: seq<Row>, ghost old_: Files) returns (committed: bool)
      requires Valid() && Registered(projects, old_) && files.Armed(rows) && files.st.live == old_
      requires Recovered(files.hash, files.st) == Some(old_)
      requires Listed(rows, IDENTITY) && Listed(rows, CONTEXT) && Listed(rows, JOURNAL)
      requires forall i | 0 <= i < |projects| :: Listed(rows, ProjectRel(projects[i]))
      modifies this`journalOps, this`streamOpen, files
      ensures forall d :: d in files.seen ==>
        d in old(files.seen) || Atomic(files.hash, d, old_, table, projects, now, purgeAfter)
      ensures committed ==> Rewritable(old_, table, projects, now, purgeAfter)
      ensures committed ==> files.st.live == CompactedFiles(old_, table, projects, now, purgeAfter)
      ensures committed ==> files.st.marker == None && files.poisoned == old(files.poisoned) && journalOps == 0
      ensures !committed && !files.poisoned ==>
        files.st.marker == None && files.st.live == old_ && journalOps == old(journalOps)
    {
      hide Recovered, CompactedFiles, Rewritable, Destined, SlugValid, ProjectRel, Less, Listed, MarkerIs, Backed;
      var opsBefore := journalOps;
      committed := WriteUnder(now, rows, old_);
      if committed {
        committed := Seal(rels);
      } else {
        RollBack(opsBefore, old_);
      }
    }

    /** A failed compaction restores the old files at once; if even that fails, or the
        journal cannot be reopened, the store is poisoned. */
    method RollBack(opsBefore: nat, ghost old_: Files)
      requires Recovered(files.hash, files.st) == Some(old_)
      modifies this`streamOpen, this`journalOps, files
      ensures files.OnlySaw(old_) && journalOps == opsBefore
      ensures !files.poisoned ==> files.st.marker == None && files.st.live == old_
    {
      hide Recovered;
      streamOpen := false;
      var recovery := files.Recover();
      var reopened: bool := *;
      streamOpen := reopened;
      journalOps := opsBefore;
      if recovery != Ok || !reopened { files.poisoned := true; }
    }

    /** The commit point. Failing here, whether the marker is durably gone is unknown, so the
        store accepts nothing more. */
    method Seal(rels: seq<string>) returns (committed: bool)
      modifies this`streamOpen, files
      ensures files.st.live == old(files.st.live)
      ensures forall d :: d in files.seen ==>
        d in old(files.seen) || Recovered(files.hash, d) == Some(files.st.live) ||
          Recovered(files.hash, d) == Recovered(files.hash, old(files.st))
      ensures committed ==> files.st.marker == None && files.poisoned == old(files.poisoned)
      ensures !committed ==> files.poisoned
    {
      hide Recovered;
      var err := files.Commit(rels);
      var fault: bool := *;
      committed := err == Ok && !fault;
      if !committed {
        files.poisoned := true;
        streamOpen := false;
      }
    }

    /** From the armed marker to the point of commit, with the fault probes in between. */
    method WriteUnder(now: int, ghost rows: seq<Row>, ghost old_: Files) returns (ok: bool)
      requires Valid() && Registered(projects, old_) && files.Armed(rows) && files.st.live == old_
      requires Recovered(files.hash, files.st) == Some(old_)
      requires Listed(rows, IDENTITY) && Listed(rows, CONTEXT) && Listed(rows, JOURNAL)
      requires forall i | 0 <= i < |projects| :: Listed(rows, ProjectRel(projects[i]))
      modifies this`journalOps, this`streamOpen, files`st, files`seen
      ensures Recovered(files.hash, files.st) == Some(old_) && files.OnlySaw(old_)
      ensures ok ==> files.st.live == CompactedFiles(old_, table, projects, now, purgeAfter) && journalOps == 0
      ensures ok ==> Rewritable(old_, table, projects, now, purgeAfter)
    {
      hide Recovered, Rewritable, Destined, SlugValid, ProjectRel, Less, Compacted, MarkerIs, Backed, Listed;
      var fault: bool := *;
      if fault { return false; }
      var err, ident, ctx, bufs := Distribute(now);
      if err != Ok { return false; }
      ok := Rewrite(ident, ctx, bufs, rows, old_);
      fault := *;
      ok := ok && !fault;
    }

    /** Drop the purge-due records, from the last one down, in place. */
    method Purge(now: int)
      requires TableOk(table)
      modifies this`table
      ensures table == Kept(old(table), now, purgeAfter) && Sifted(old(table), table, now, purgeAfter)
    {
      hide Sifted;
      KeptSifted(table, now, purgeAfter);
      var i := |table|;
      assert table[i..] == [];
      while i > 0
        invariant i <= |old(table)| && i <= |table|
        invariant table[..i] == old(table)[..i]
        invariant table[i..] == Kept(old(table)[i..], now, purgeAfter)
      {
        i := i - 1;
        KeptFirst(old(table)[i..], now, purgeAfter);
        assert old(table)[i..][1..] == old(table)[i + 1..];
        assert table[i] == old(table)[..i + 1][i] == old(table)[i];
        ghost var rest := table[i + 1..];
        if PurgeDue(table[i], now, purgeAfter) {
          table := table[..i] + table[i + 1..];
          assert table[i..] == rest;
        } else {
          assert table[i..] == [table[i]] + rest;
        }
      }
      assert table[0..] == table && old(table)[0..] == old(table);
    }
  }

  lemma {:induction false} KeptFirst(table: seq<Record>, now: int, purgeAfter: int)
    requires table != []
    ensures Kept(table, now, purgeAfter)
            == (if PurgeDue(table[0], now, purgeAfter) then [] else [table[0]]) + Kept(table[1..], now, purgeAfter)
  {
    var n := |table| - 1;
    if n > 0 {
      KeptFirst(table[..n], now, purgeAfter);
      assert table[..n][1..] == table[1..][..n - 1];
    }
  }

  /** The files one compaction covers. */
  function TransactionFiles(projects: seq<string>): (rels: seq<string>)
    ensures |rels| == |projects| + 3 && rels[0] == IDENTITY && rels[1] == CONTEXT && rels[2] == JOURNAL
    ensures forall i | 0 <= i < |projects| :: rels[i + 3] == ProjectRel(projects[i])
  {
    [IDENTITY, CONTEXT, JOURNAL] + seq(|projects|, i requires 0 <= i < |projects| => ProjectRel(projects[i]))
  }

  lemma TransactionCovers(projects: seq<string>, rels: seq<string>, rows: seq<Row>)
    requires rels == TransactionFiles(projects)
    requires |rows| == |rels| && forall i | 0 <= i < |rels| :: rows[i].rel == rels[i]
    ensures Listed(rows, IDENTITY) && Listed(rows, CONTEXT) && Listed(rows, JOURNAL)
    ensures forall i | 0 <= i < |projects| :: Listed(rows, ProjectRel(projects[i]))
  {
    assert rows[0].rel == IDENTITY && rows[1].rel == CONTEXT && rows[2].rel == JOURNAL;
    forall i | 0 <= i < |projects| ensures Listed(rows, ProjectRel(projects[i])) {
      assert rows[i + 3].rel == rels[i + 3];
    }
  }

  lemma NoneYet(projects: seq<string>, now: int, purgeAfter: int)
    ensures Destined([], IDENTITY, now, purgeAfter) == [] && Destined([], CONTEXT, now, purgeAfter) == []
    ensures Buffers([], projects, now, purgeAfter) == seq(|projects|, _ => [])
  {}

  lemma DestinedStep(table: seq<Record>, i: nat, rel: string, now: int, purgeAfter: int)
    requires i < |table|
    ensures var r := table[i];
      Destined(table[..i + 1], rel, now, purgeAfter) == Destined(table[..i], rel, now, purgeAfter)
        + (if !PurgeDue(r, now, purgeAfter) && Home(r) == rel then [r] else [])
    ensures IDENTITY != CONTEXT
    ensures table[i].section == Project && table[i].project.Some? ==>
      Home(table[i]) != IDENTITY && Home(table[i]) != CONTEXT
  {
    assert table[..i + 1][..i] == table[..i];
    if table[i].section == Project && table[i].project.Some? { assert ProjectRel(table[i].project.value)[0] == 'p'; }
  }

  lemma BuffersKeep(table: seq<Record>, i: nat, projects: seq<string>, now: int, purgeAfter: int)
    requires i < |table| && (PurgeDue(table[i], now, purgeAfter) || table[i].section != Project)
    ensures Buffers(table[..i + 1], projects, now, purgeAfter) == Buffers(table[..i], projects, now, purgeAfter)
  {
    forall k | 0 <= k < |projects|
      ensures Buffers(table[..i + 1], projects, now, purgeAfter)[k] == Buffers(table[..i], projects, now, purgeAfter)[k]
    {
      DestinedStep(table, i, ProjectRel(projects[k]), now, purgeAfter);
      assert ProjectRel(projects[k])[0] == 'p';
    }
  }

  lemma BuffersAdd(table: seq<Record>, i: nat, projects: seq<string>, at: nat, now: int, purgeAfter: int)
    requires Sorted(projects) && at < |projects| && i < |table| && !PurgeDue(table[i], now, purgeAfter)
    requires table[i].section == Project && table[i].project == Some(projects[at])
    ensures var b := Buffers(table[..i], projects, now, purgeAfter);
      Buffers(table[..i + 1], projects, now, purgeAfter) == b[at := b[at] + [table[i]]]
  {
    HomeIndex(projects, projects[at], at);
    var b := Buffers(table[..i], projects, now, purgeAfter);
    var c := Buffers(table[..i + 1], projects, now, purgeAfter);
    var d := b[at := b[at] + [table[i]]];
    forall k | 0 <= k < |projects| ensures c[k] == d[k] {
      DestinedStep(table, i, ProjectRel(projects[k]), now, purgeAfter);
    }
  }

  lemma HomeIndex(projects: seq<string>, slug: string, at: nat)
    requires Sorted(projects) && at < |projects| && projects[at] == slug
    ensures forall i | 0 <= i < |projects| :: ProjectRel(projects[i]) == ProjectRel(slug) <==> i == at
    ensures ProjectRel(slug) != IDENTITY && ProjectRel(slug) != CONTEXT
  {
    SortedDistinct(projects);
    forall i | 0 <= i < |projects| ensures ProjectRel(projects[i]) == ProjectRel(slug) <==> i == at {
      if ProjectRel(projects[i]) == ProjectRel(slug) { ProjectRelInjective(projects[i], slug); }
    }
    assert ProjectRel(slug)[0] == 'p';
  }
}
