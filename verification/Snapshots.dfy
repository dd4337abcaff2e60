/** What the section files hold and how opening a store loads them (src/store.c,
    `store_load_section_file`, `store_load_projects`, `asper_store_open`). */
module Snapshots {
  import opened Outcomes
  import opened Records
  import opened Sets
  import opened Marker
  import opened Transaction
  import opened EventFrame
  import opened EventScan
  import opened Journal

  /** The file a record belongs to. */
  function Home(r: Record): string {
    match r.section
    case Identity => IDENTITY
    case Context => CONTEXT
    case Project => if r.project.Some? then ProjectRel(r.project.value) else ""
  }

  predicate IsSection(rel: string) { RelValid(rel) && rel != JOURNAL }

  ghost predicate DistinctIds(recs: seq<Record>) {
    forall i, j | 0 <= i < j < |recs| :: recs[i].id != recs[j].id
  }

  ghost predicate TableOk(recs: seq<Record>) {
    DistinctIds(recs) && |recs| <= RECORD_LIMIT && forall i | 0 <= i < |recs| :: recs[i].id != ""
  }

  function RecMap(recs: seq<Record>): map<string, Record>
    requires DistinctIds(recs)
  {
    map i | 0 <= i < |recs| :: recs[i].id := recs[i]
  }

  lemma RecMapFacts(recs: seq<Record>)
    requires DistinctIds(recs)
    ensures forall r | r in recs :: r.id in RecMap(recs) && RecMap(recs)[r.id] == r
    ensures forall id | id in RecMap(recs) :: RecMap(recs)[id] in recs && RecMap(recs)[id].id == id
  {}

  ghost function Ids(recs: seq<Record>): set<string> { set i | 0 <= i < |recs| :: recs[i].id }

  lemma {:induction false} IdsSize(recs: seq<Record>)
    requires DistinctIds(recs)
    ensures |Ids(recs)| == |recs|
  {
    if recs != [] {
      var n := |recs| - 1;
      IdsSize(recs[..n]);
      assert Ids(recs) == Ids(recs[..n]) + {recs[n].id};
    }
  }

  lemma RecMapSize(recs: seq<Record>)
    requires DistinctIds(recs)
    ensures |RecMap(recs)| == |recs|
  {
    IdsSize(recs);
    assert RecMap(recs).Keys == Ids(recs);
  }

  /** The section files and project files of `live` hold exactly the store s. */
  ghost predicate SnapshotOf(live: Files, s: Store) {
    && (forall rel | rel in live && IsSection(rel) :: SectionOk(live[rel], rel))
    && (forall rel, r | rel in live && IsSection(rel) && r in live[rel].recs :: r.id in s.recs && s.recs[r.id] == r)
    && (forall id | id in s.recs :: Stored(live, s.recs[id]) && s.recs[id].id == id)
    && (forall slug :: slug in s.projects <==> SlugValid(slug) && ProjectRel(slug) in live)
    && |s.recs| <= RECORD_LIMIT && |s.projects| <= PROJECT_LIMIT
  }

  ghost predicate SectionOk(c: Content, rel: string) {
    c.Snapshot? && DistinctIds(c.recs) && forall r | r in c.recs :: Home(r) == rel && r.id != ""
  }

  ghost predicate Stored(live: Files, r: Record) {
    Home(r) in live && IsSection(Home(r)) && live[Home(r)].Snapshot? && r in live[Home(r)].recs
  }

  function JournalBytes(live: Files): string {
    if JOURNAL in live && live[JOURNAL].Wal? then live[JOURNAL].bytes else ""
  }

  /** The complete frames of the file are those of the operations. */
  ghost predicate Journaled(cx: Codec, oc: OpCodec, bytes: string, ops: seq<Op>) {
    exists es :: Journals(cx, oc, es, ops) && LogImage(cx, bytes, es)
  }

  ghost predicate LoadsBy(cx: Codec, oc: OpCodec, live: Files, base: Store, ops: seq<Op>, s: Store) {
    SnapshotOf(live, base) && Journaled(cx, oc, JournalBytes(live), ops) && Replay(base, ops) == Some(s)
  }

  /** Opening the store on these files yields s: the snapshot, then the journal. */
  ghost predicate Loads(cx: Codec, oc: OpCodec, live: Files, s: Store) {
    exists base, ops :: LoadsBy(cx, oc, live, base, ops, s)
  }

  lemma SameJournal(cx: Codec, oc: OpCodec, bytes: string, a: seq<Op>, b: seq<Op>)
    requires CodecOk(cx, oc) && Journaled(cx, oc, bytes, a) && Journaled(cx, oc, bytes, b)
    ensures a == b
  {
    hide LogImage, CodecOk;
    var es :| Journals(cx, oc, es, a) && LogImage(cx, bytes, es);
    var fs :| Journals(cx, oc, fs, b) && LogImage(cx, bytes, fs);
    ImageUnique(cx, bytes, es, fs);
    forall i | 0 <= i < |a| ensures a[i] == b[i] {
      Journal.FrameAt(cx, oc, es, a, i);
      Journal.FrameAt(cx, oc, es, b, i);
    }
  }

  lemma SnapshotUnique(live: Files, s: Store, t: Store)
    requires SnapshotOf(live, s) && SnapshotOf(live, t)
    ensures s == t
  {
    hide SnapshotOf;
    forall id ensures id in s.recs ==> id in t.recs && s.recs[id] == t.recs[id] { SameRecord(live, s, t, id); }
    forall id ensures id in t.recs ==> id in s.recs { SameRecord(live, t, s, id); }
    assert s.recs == t.recs;
    forall slug ensures slug in s.projects <==> slug in t.projects { SameProject(live, s, t, slug); }
    assert s.projects == t.projects;
  }

  lemma SameRecord(live: Files, s: Store, t: Store, id: string)
    requires SnapshotOf(live, s) && SnapshotOf(live, t)
    ensures id in s.recs ==> id in t.recs && s.recs[id] == t.recs[id]
  {
    hide RelValid, SlugValid, ProjectRel, Home;
    if id in s.recs { assert Stored(live, s.recs[id]); }
  }

  lemma SameProject(live: Files, s: Store, t: Store, slug: string)
    requires SnapshotOf(live, s) && SnapshotOf(live, t)
    ensures slug in s.projects <==> slug in t.projects
  {
    hide RelValid, Home, SectionOk, Stored;
  }

  /** The files determine what opening them yields. */
  lemma LoadUnique(cx: Codec, oc: OpCodec, live: Files, s: Store, t: Store)
    requires CodecOk(cx, oc) && Loads(cx, oc, live, s) && Loads(cx, oc, live, t)
    ensures s == t
  {
    hide CodecOk, Journaled, Replay;
    var a, p :| LoadsBy(cx, oc, live, a, p, s);
    var b, q :| LoadsBy(cx, oc, live, b, q, t);
    SnapshotUnique(live, a, b);
    SameJournal(cx, oc, JournalBytes(live), p, q);
  }

  // ---- loading ---------------------------------------------------------------

  lemma DistinctConcat(a: seq<Record>, b: seq<Record>)
    ensures DistinctIds(a + b) <==>
      DistinctIds(a) && DistinctIds(b) && forall i, j | 0 <= i < |a| && 0 <= j < |b| :: a[i].id != b[j].id
  {
    var c := a + b;
    if DistinctIds(c) {
      forall i, j | 0 <= i < j < |a| ensures a[i].id != a[j].id { assert c[i].id != c[j].id; }
      forall i, j | 0 <= i < j < |b| ensures b[i].id != b[j].id { assert c[|a| + i].id != c[|a| + j].id; }
      forall i, j | 0 <= i < |a| && 0 <= j < |b| ensures a[i].id != b[j].id { assert c[i].id != c[|a| + j].id; }
    }
  }

  /** A longer table is acceptable only if the shorter one and the next record are. */
  lemma TableStep(table: seq<Record>, recs: seq<Record>, i: nat)
    requires i < |recs| && TableOk(table + recs)
    ensures TableOk(table + recs[..i]) && |table + recs[..i]| < RECORD_LIMIT && recs[i].id != ""
    ensures forall k | 0 <= k < |table + recs[..i]| :: (table + recs[..i])[k].id != recs[i].id
  {
    var c := table + recs;
    assert table + recs[..i] == c[..|table| + i];
    assert c[|table| + i] == recs[i];
  }

  /** `store_load_section_file`: every record must belong to this file and be new. */
  method LoadSection(c: Content, want: string, table: seq<Record>) returns (err: Err, out: seq<Record>)
    requires TableOk(table)
    ensures err == Ok || err == Parse || err == Limit
    ensures err == Ok <==> SectionOk(c, want) && TableOk(table + c.recs)
    ensures err == Ok ==> out == table + c.recs
  {
    hide Home, DistinctIds;
    out := table;
    if !c.Snapshot? { return Parse, out; }
    for i := 0 to |c.recs|
      invariant TableOk(out) && out == table + c.recs[..i]
      invariant forall j | 0 <= j < i :: Home(c.recs[j]) == want && c.recs[j].id != ""
    {
      var r := c.recs[i];
      assert r in c.recs;
      if TableOk(table + c.recs) { TableStep(table, c.recs, i); }
      if Home(r) != want || r.id == "" { return Parse, out; }
      if exists k :: 0 <= k < |out| && out[k].id == r.id { return Parse, out; }
      if |out| >= RECORD_LIMIT { return Limit, out; }
      assert c.recs[..i + 1] == c.recs[..i] + [r];
      DistinctConcat(out, [r]);
      OneDistinct(r);
      out := out + [r];
    }
    assert c.recs[..|c.recs|] == c.recs;
    DistinctConcat(table, c.recs);
    err := Ok;
  }

  lemma StoreFits(live: Files, s: Store)
    requires SnapshotOf(live, s)
    ensures |s.recs| <= RECORD_LIMIT
  {}

  lemma OneDistinct(r: Record)
    ensures DistinctIds([r])
  {}

  /** Every loaded record is the one the snapshot stores under its id. */
  ghost predicate Within(table: seq<Record>, s: Store) {
    forall r | r in table :: r.id in s.recs && s.recs[r.id] == r
  }

  /** No record of this file has been loaded yet. */
  ghost predicate Untouched(table: seq<Record>, rel: string) {
    forall r | r in table :: Home(r) != rel
  }

  lemma SectionFits(live: Files, s: Store, rel: string, table: seq<Record>)
    requires SnapshotOf(live, s) && rel in live && IsSection(rel)
    requires TableOk(table) && Within(table, s) && Untouched(table, rel) && |s.recs| <= RECORD_LIMIT
    ensures SectionOk(live[rel], rel) && TableOk(table + live[rel].recs) && Within(table + live[rel].recs, s)
  {
    var recs := live[rel].recs;
    var all := table + recs;
    assert SectionOk(live[rel], rel);
    hide SnapshotOf, RelValid;
    forall i, j | 0 <= i < |table| && 0 <= j < |recs| ensures table[i].id != recs[j].id {
      assert table[i] in table && recs[j] in recs;
    }
    DistinctConcat(table, recs);
    forall r | r in all ensures r.id in s.recs && s.recs[r.id] == r && r.id != "" {
      if r in table { var i :| 0 <= i < |table| && table[i] == r; }
    }
    FitsTable(all, s);
    assert forall i | 0 <= i < |all| :: all[i] in all;
  }

  lemma FitsTable(all: seq<Record>, s: Store)
    requires DistinctIds(all) && Within(all, s)
    ensures |all| <= |s.recs|
  {
    RecMapSize(all);
    RecMapFacts(all);
    SubsetSize(RecMap(all).Keys, s.recs.Keys);
    assert |RecMap(all)| == |RecMap(all).Keys|;
  }

  /** The files read so far account for the whole table. */
  ghost predicate LoadedFrom(live: Files, rels: seq<string>, table: seq<Record>) {
    && (forall k | 0 <= k < |rels| && rels[k] in live :: SectionOk(live[rels[k]], rels[k])
         && forall r | r in live[rels[k]].recs :: r in table)
    && (forall r | r in table :: Home(r) in rels && Stored(live, r))
  }

  /** Section files in opening order: identity, context, then the sorted project files.
      Loading succeeds exactly when the files hold some store, and then yields that one. */
  method LoadStore(live: Files, slugs: seq<string>) returns (err: Err, table: seq<Record>)
    requires forall i, j | 0 <= i < j < |slugs| :: slugs[i] != slugs[j]
    requires forall slug :: slug in slugs <==> SlugValid(slug) && ProjectRel(slug) in live
    ensures err == Ok ==> TableOk(table) && SnapshotOf(live, Store(RecMap(table), set slug | slug in slugs))
    ensures err != Ok ==> forall s :: !SnapshotOf(live, s)
  {
    hide SnapshotOf, ProjectRel, RelValid, SlugValid, Home, Stored;
    table := [];
    ghost var want := Store(map[], {});
    if exists s :: SnapshotOf(live, s) { want :| SnapshotOf(live, want); }
    if |slugs| > PROJECT_LIMIT {
      ManySlugs(live, want, slugs);
      return Limit, table;
    }
    var rels := [IDENTITY, CONTEXT] + seq(|slugs|, i requires 0 <= i < |slugs| => ProjectRel(slugs[i]));
    RelsDistinct(slugs, rels);
    var n := 0;
    while n < |rels|
      invariant n <= |rels| && TableOk(table) && LoadedFrom(live, rels[..n], table)
      invariant SnapshotOf(live, want) ==> Within(table, want)
    {
      err, table := LoadNext(live, rels, n, table, want);
      if err != Ok { return; }
      n := n + 1;
    }
    assert rels[..|rels|] == rels;
    LoadedAll(live, slugs, rels, table);
    err := Ok;
  }

  /** One file of the opening order. */
  method LoadNext(live: Files, rels: seq<string>, n: nat, table: seq<Record>, ghost want: Store)
      returns (err: Err, out: seq<Record>)
    requires n < |rels| && (forall i, j | 0 <= i < j < |rels| :: rels[i] != rels[j]) && IsSection(rels[n])
    requires TableOk(table) && LoadedFrom(live, rels[..n], table) && (SnapshotOf(live, want) ==> Within(table, want))
    ensures err == Ok ==> TableOk(out) && LoadedFrom(live, rels[..n + 1], out)
    ensures err == Ok && SnapshotOf(live, want) ==> Within(out, want)
    ensures err != Ok ==> !SnapshotOf(live, want)
  {
    hide SnapshotOf, RelValid, Home, Stored, TableOk;
    var rel := rels[n];
    assert rels[..n + 1] == rels[..n] + [rel];
    if rel !in live { return Ok, table; }
    assert rel !in rels[..n];
    assert Untouched(table, rel);
    if SnapshotOf(live, want) { StoreFits(live, want); SectionFits(live, want, rel, table); }
    err, out := LoadSection(live[rel], rel, table);
    if err == Ok { LoadedMore(live, rels[..n], table, rel); }
  }

  lemma LoadedMore(live: Files, rels: seq<string>, table: seq<Record>, rel: string)
    requires LoadedFrom(live, rels, table) && rel in live && IsSection(rel) && SectionOk(live[rel], rel)
    ensures LoadedFrom(live, rels + [rel], table + live[rel].recs)
  {
    var all := table + live[rel].recs;
    forall r | r in all ensures Home(r) in rels + [rel] && Stored(live, r) {
      if r !in table { assert r in live[rel].recs; }
    }
  }

  lemma RelsDistinct(slugs: seq<string>, rels: seq<string>)
    requires forall i, j | 0 <= i < j < |slugs| :: slugs[i] != slugs[j]
    requires forall i | 0 <= i < |slugs| :: SlugValid(slugs[i])
    requires rels == [IDENTITY, CONTEXT] + seq(|slugs|, i requires 0 <= i < |slugs| => ProjectRel(slugs[i]))
    ensures forall i, j | 0 <= i < j < |rels| :: rels[i] != rels[j]
    ensures forall i | 0 <= i < |rels| :: IsSection(rels[i])
  {
    hide ProjectRel, RelValid;
    IdentityIsSection();
    forall i | 0 <= i < |slugs| ensures IsSection(ProjectRel(slugs[i])) &&
      ProjectRel(slugs[i]) != IDENTITY && ProjectRel(slugs[i]) != CONTEXT {
      ProjectRelValid(slugs[i]);
    }
    forall i, j | 0 <= i < j < |rels| ensures rels[i] != rels[j] {
      if i >= 2 && rels[i] == rels[j] { ProjectRelInjective(slugs[i - 2], slugs[j - 2]); }
    }
  }

  lemma IdentityIsSection()
    ensures IsSection(IDENTITY) && IsSection(CONTEXT) && IDENTITY != CONTEXT
  {}

  lemma SectionNames(rel: string)
    requires IsSection(rel)
    ensures rel == IDENTITY || rel == CONTEXT ||
      (|rel| > 14 && SlugValid(rel[9..|rel| - 5]) && rel == ProjectRel(rel[9..|rel| - 5]))
  {}

  lemma ManySlugs(live: Files, s: Store, slugs: seq<string>)
    requires forall i, j | 0 <= i < j < |slugs| :: slugs[i] != slugs[j]
    requires forall slug :: slug in slugs <==> SlugValid(slug) && ProjectRel(slug) in live
    requires |slugs| > PROJECT_LIMIT
    ensures !SnapshotOf(live, s)
  {
    if SnapshotOf(live, s) {
      assert (set slug | slug in slugs) == s.projects;
      SetSize(slugs);
    }
  }

  lemma {:induction false} SetSize(slugs: seq<string>)
    requires forall i, j | 0 <= i < j < |slugs| :: slugs[i] != slugs[j]
    ensures |set slug | slug in slugs| == |slugs|
  {
    if slugs != [] {
      var n := |slugs| - 1;
      SetSize(slugs[..n]);
      assert (set slug | slug in slugs) == (set slug | slug in slugs[..n]) + {slugs[n]};
    }
  }

  lemma LoadedAll(live: Files, slugs: seq<string>, rels: seq<string>, table: seq<Record>)
    requires forall i, j | 0 <= i < j < |slugs| :: slugs[i] != slugs[j]
    requires forall slug :: slug in slugs <==> SlugValid(slug) && ProjectRel(slug) in live
    requires rels == [IDENTITY, CONTEXT] + seq(|slugs|, i requires 0 <= i < |slugs| => ProjectRel(slugs[i]))
    requires TableOk(table) && LoadedFrom(live, rels, table) && |slugs| <= PROJECT_LIMIT
    ensures SnapshotOf(live, Store(RecMap(table), set slug | slug in slugs))
  {
    hide Home, ProjectRel, RelValid, Stored, SectionOk, SlugValid;
    RecMapFacts(table);
    RecMapSize(table);
    SetSize(slugs);
    forall rel | rel in live && IsSection(rel)
      ensures SectionOk(live[rel], rel) && live[rel].Snapshot? && forall r | r in live[rel].recs :: r in table
    {
      SectionRead(live, slugs, rels, table, rel);
    }
  }

  /** Every section file is among those read. */
  lemma SectionRead(live: Files, slugs: seq<string>, rels: seq<string>, table: seq<Record>, rel: string)
    requires forall slug :: slug in slugs <==> SlugValid(slug) && ProjectRel(slug) in live
    requires rels == [IDENTITY, CONTEXT] + seq(|slugs|, i requires 0 <= i < |slugs| => ProjectRel(slugs[i]))
    requires LoadedFrom(live, rels, table) && rel in live && IsSection(rel)
    ensures SectionOk(live[rel], rel) && live[rel].Snapshot? && forall r | r in live[rel].recs :: r in table
  {
    SectionNames(rel);
    hide Home, ProjectRel, RelValid, Stored;
    if rel == IDENTITY { assert rels[0] == rel; }
    else if rel == CONTEXT { assert rels[1] == rel; }
    else {
      var i :| 0 <= i < |slugs| && slugs[i] == rel[9..|rel| - 5];
      assert rels[i + 2] == rel;
    }
  }
}
