/** The grounding store: validation with the pruned search, compare-and-set grounding, and
    replay of the log (src/knowledge_validate.c, src/knowledge_api.c:6-36,
    src/knowledge_store.c:42-105). Text, UUID and source checks are given as functions. */
module KnowledgeBase {
  import opened Outcomes
  import opened StrOrder
  import opened Knowledge
  import opened SupportGraph
  import opened Sets
  import opened Text

  const INT64_MAX: nat := 0x7FFF_FFFF_FFFF_FFFF

  datatype Checks = Checks(spanOk: Span -> bool, dependencyOk: Dependency -> bool, linkOk: Link -> bool,
                           reasonOk: Grounding -> bool, hash: string -> string)

  type Claims = map<string, Claim>

  /** 16 doubled until the record limit. */
  predicate CapOk(cap: nat) { cap in {0, 16, 32, 64, 128, 256, 512, 1024, 2048, 4096, 8192, 16384} }

  /** Not the continuation of a UTF-8 character; the terminator counts as a start. */
  predicate Boundary(text: string, i: nat) {
    i < |text| ==> !(0x80 <= text[i] as int < 0xC0)
  }

  predicate RangeOk(text: string, begin: nat, end: nat) {
    begin < end <= |text| && Boundary(text, begin) && Boundary(text, end)
  }

  /** The checks that do not look at a record. */
  ghost predicate Shape(c: Checks, g: Grounding) {
    && |g.spans| <= MAX_ITEMS && |g.dependencies| <= MAX_ITEMS && |g.links| <= MAX_ITEMS && c.reasonOk(g)
    && (forall s | s in g.spans :: c.spanOk(s) && s.claimBegin < s.claimEnd)
    && (forall d | d in g.dependencies :: c.dependencyOk(d))
    && (forall i, j | 0 <= i < j < |g.dependencies| :: g.dependencies[i].resource != g.dependencies[j].resource)
    && (forall l | l in g.links :: c.linkOk(l))
    && (forall i, j | 0 <= i < j < |g.links| :: g.links[i].id != g.links[j].id)
  }

  ghost predicate LinkFits(c: Checks, claims: Claims, defs: Defs, id: string, l: Link) {
    && l.id in claims && l.id != id && c.hash(claims[l.id].content) == l.hash
    && (l.kind == Supports ==> Safe(defs, id, l.id, DEPTH))
  }

  /** The checks against the record itself. */
  ghost predicate Fits(c: Checks, claims: Claims, defs: Defs, id: string, g: Grounding)
    requires id in claims
  {
    && |claims[id].content| <= MAX_CLAIM
    && (forall s | s in g.spans :: RangeOk(claims[id].content, s.claimBegin, s.claimEnd))
    && (forall l | l in g.links :: LinkFits(c, claims, defs, id, l))
  }

  /** A non-empty part of the claim that neither begins nor ends inside a UTF-8 character. */
  ghost predicate WholeCharacters(text: string, s: Span) {
    && s.claimBegin < s.claimEnd <= |text| && !(128 <= text[s.claimBegin] as int <= 191)
    && (s.claimEnd == |text| || !(128 <= text[s.claimEnd] as int <= 191))
  }

  lemma RangesWhole(text: string, spans: seq<Span>)
    ensures (forall s | s in spans :: RangeOk(text, s.claimBegin, s.claimEnd)) ==>
      forall s | s in spans :: WholeCharacters(text, s)
  {}

  /** An entry marked at the current depth or deeper has been searched without a find. */
  ghost predicate Explored(g: Defs, id: string, mark: nat, target: string, depth: nat) {
    mark <= DEPTH && (mark > depth ==> Safe(g, target, id, DEPTH + 1 - mark))
  }

  class Base {
    const checks: Checks
    var entries: seq<Entry>
    var cap: nat
    var poisoned: bool
    var file: seq<Definition>      // the complete frames of the knowledge log
    ghost var defs: Defs
    ghost var seen: iset<seq<Definition>>   // what a crash may find of the log

    ghost predicate Table()
      reads this
    {
      Holds(entries, defs) && |entries| <= cap && CapOk(cap)
    }

    /** Whatever happened before, the log replays to an acyclic graph, and it replays to the
        table itself unless an append was left uncertain. */
    ghost predicate Valid()
      reads this
    {
      && Table() && Acyclic(defs)
      && Replay(file).Some? && Acyclic(Replay(file).value)
      && (forall f :: f in seen ==> Replay(f).Some? && Acyclic(Replay(f).value))
      && (!poisoned ==> Replay(file).value == defs)
    }

    constructor (checks: Checks, file: seq<Definition>)
      ensures this.checks == checks && this.file == file && entries == [] && cap == 0 && !poisoned && defs == map[]
      ensures seen == iset{}
    {
      this.checks, this.file, entries, cap, poisoned, defs := checks, file, [], 0, false, map[];
      seen := iset{};
    }

    /** Every image of the log is the one before, or has this one definition more. */
    twostate predicate OnlySaw(d: Definition)
      reads this
    {
      forall f :: f in seen ==> f in old(seen) || f == old(file) || f == old(file) + [d]
    }

    /** `reaches`. `visited` holds one more than the greatest depth each entry was expanded
        at; the ghost `work` counts expansions, so every entry is expanded at most DEPTH
        times in one search. */
    method Reaches(from: string, target: string, depth: nat, visited: array<nat>, ghost work: seq<nat>)
        returns (found: bool, ghost done: seq<nat>)
      requires Table() && depth <= DEPTH && visited.Length > |entries| && |work| == |entries|
      requires forall i | 0 <= i < |entries| :: Explored(defs, entries[i].def.id, visited[i], target, depth)
      modifies visited
      ensures found <==> !Safe(defs, target, from, DEPTH - depth)
      ensures forall i | 0 <= i < |entries| ::
        visited[i] <= DEPTH && (visited[i] == old(visited[i]) || visited[i] > depth)
      ensures !found ==> forall i | 0 <= i < |entries| :: Explored(defs, entries[i].def.id, visited[i], target, depth)
      ensures |done| == |work| && forall i | 0 <= i < |work| :: done[i] + old(visited[i]) <= work[i] + visited[i]
      decreases DEPTH - depth
    {
      hide Holds;
      done := work;
      if from == target || depth >= DEPTH { return true, done; }
      var present, at := Find(entries, from, defs);
      if !present { return false, done; }
      if visited[at] >= depth + 1 {
        SafeMonotone(defs, target, from, DEPTH + 1 - visited[at], DEPTH - depth);
        return false, done;
      }
      visited[at] := depth + 1;
      done := done[at := done[at] + 1];
      var links := entries[at].def.grounding.links;
      var j := 0;
      while j < |links|
        invariant j <= |links| && |done| == |work| && at < |entries| && visited.Length > |entries|
        invariant visited[at] > depth
        invariant forall i | 0 <= i < |entries| && i != at :: visited[i] == old(visited[i]) || visited[i] > depth + 1
        invariant forall i | 0 <= i < |entries| :: Explored(defs, entries[i].def.id, visited[i], target, depth + 1)
        invariant forall k | 0 <= k < j &&
          links[k].kind == Supports :: Safe(defs, target, links[k].id, DEPTH - depth - 1)
        invariant forall i | 0 <= i < |work| :: done[i] + old(visited[i]) <= work[i] + visited[i]
      {
        if links[j].kind == Supports {
          ghost var before := visited[..];
          found, done := Reaches(links[j].id, target, depth + 1, visited, done);
          assert forall i | 0 <= i < |entries| :: visited[i] == before[i] || visited[i] > depth + 1;
          if found {
            assert Edge(defs, from, links[j].id);
            return true, done;
          }
        }
        j := j + 1;
      }
      found := false;
    }

    /** A fresh search: exact, and linear in the table for a fixed depth. */
    method Cycles(from: string, target: string) returns (found: bool, ghost work: seq<nat>)
      requires Table()
      ensures found <==> !Safe(defs, target, from, DEPTH)
      ensures found <==> exists p :: Refutes(defs, target, from, DEPTH, p)
      ensures |work| == |entries| && forall i | 0 <= i < |work| :: work[i] <= DEPTH
    {
      var visited := new nat[|entries| + 1](_ => 0);
      found, work := Reaches(from, target, 0, visited, seq(|entries|, _ => 0));
      SafeIsNoWalk(defs, target, from, DEPTH);
    }

    /** `knowledge_validate`. Without a record only the shape is checked. */
    method Validate(claims: Claims, id: Option<string>, g: Grounding) returns (err: Err)
      requires Table() && (id.Some? ==> id.value in claims)
      ensures err == Ok || err == Invalid || err == Limit || err == Busy
      ensures err == Ok <==> Shape(checks, g) && (id.Some? ==> Fits(checks, claims, defs, id.value, g))
      ensures err == Ok && id.Some? ==> forall s | s in g.spans :: WholeCharacters(claims[id.value].content, s)
      ensures err == Limit ==> id.Some? && |claims[id.value].content| > MAX_CLAIM
      ensures err == Busy ==>
        id.Some? && exists l :: l in g.links && l.id in claims && checks.hash(claims[l.id].content) != l.hash
    {
      hide Safe, RangeOk, WholeCharacters;
      if id.Some? { RangesWhole(claims[id.value].content, g.spans); }
      if |g.spans| > MAX_ITEMS || |g.dependencies| > MAX_ITEMS || |g.links| > MAX_ITEMS || !checks.reasonOk(g) {
        return Invalid;
      }
      if id.Some? && |claims[id.value].content| > MAX_CLAIM { return Limit; }
      for i := 0 to |g.spans|
        invariant forall s | s in g.spans[..i] :: checks.spanOk(s) && s.claimBegin < s.claimEnd
        invariant id.Some? ==>
          forall s | s in g.spans[..i] :: RangeOk(claims[id.value].content, s.claimBegin, s.claimEnd)
      {
        var s := g.spans[i];
        assert s in g.spans;
        if !checks.spanOk(s) || s.claimBegin >= s.claimEnd { return Invalid; }
        if id.Some? && !RangeOk(claims[id.value].content, s.claimBegin, s.claimEnd) { return Invalid; }
        assert g.spans[..i + 1] == g.spans[..i] + [s];
      }
      assert g.spans[..|g.spans|] == g.spans;
      for i := 0 to |g.dependencies|
        invariant forall d | d in g.dependencies[..i] :: checks.dependencyOk(d)
        invariant forall a, b | 0 <= a < b < i :: g.dependencies[a].resource != g.dependencies[b].resource
      {
        var d := g.dependencies[i];
        assert d in g.dependencies;
        if !checks.dependencyOk(d) { return Invalid; }
        for j := 0 to i
          invariant forall a | 0 <= a < j :: g.dependencies[a].resource != d.resource
        {
          if d.resource == g.dependencies[j].resource { return Invalid; }
        }
        assert g.dependencies[..i + 1] == g.dependencies[..i] + [d];
      }
      assert g.dependencies[..|g.dependencies|] == g.dependencies;
      err := ValidateLinks(claims, id, g.links);
    }

    method ValidateLinks(claims: Claims, id: Option<string>, links: seq<Link>) returns (err: Err)
      requires Table() && (id.Some? ==> id.value in claims)
      ensures err == Ok || err == Invalid || err == Busy
      ensures err == Ok <==> (forall l | l in links :: checks.linkOk(l))
                             && (forall i, j | 0 <= i < j < |links| :: links[i].id != links[j].id)
                             && (id.Some? ==> forall l | l in links :: LinkFits(checks, claims, defs, id.value, l))
      ensures err == Busy ==>
        id.Some? && exists l :: l in links && l.id in claims && checks.hash(claims[l.id].content) != l.hash
    {
      hide Safe;
      for i := 0 to |links|
        invariant forall l | l in links[..i] :: checks.linkOk(l)
        invariant forall a, b | 0 <= a < b < i :: links[a].id != links[b].id
        invariant id.Some? ==> forall l | l in links[..i] :: LinkFits(checks, claims, defs, id.value, l)
      {
        var l := links[i];
        assert l in links;
        if !checks.linkOk(l) { return Invalid; }
        for j := 0 to i
          invariant forall a | 0 <= a < j :: links[a].id != l.id
        {
          if l.id == links[j].id { return Invalid; }
        }
        if id.Some? {
          if l.id !in claims || l.id == id.value { return Invalid; }
          if checks.hash(claims[l.id].content) != l.hash { return Busy; }
          if l.kind == Supports {
            var cycle, _ := Cycles(l.id, id.value);
            if cycle { return Invalid; }
          }
        }
        assert links[..i + 1] == links[..i] + [l];
      }
      assert links[..|links|] == links;
      return Ok;
    }

    /** `reserve`: room for one more entry. */
    method Reserve() returns (err: Err)
      requires Table()
      modifies this`cap
      ensures Table() && (err == Ok ==> |entries| < cap)
      ensures err == if |entries| >= MAX_RECORDS then Limit else Ok
    {
      hide Holds;
      if |entries| < cap { return Ok; }
      if |entries| >= MAX_RECORDS { return Limit; }
      cap := if cap > 0 then cap * 2 else 16;
      return Ok;
    }

    /** `knowledge_commit`: an append that reports failure may or may not be on disk; whatever it
        reports, the store accepts nothing more. */
    method Commit(d: Definition) returns (err: Err)
      requires Valid() && !poisoned && d.revision == NextRevision(defs, d.id)
      requires forall l | l in d.grounding.links && l.kind == Supports :: Safe(defs, d.id, l.id, DEPTH)
      modifies this
      ensures Valid() && OnlySaw(d)
      ensures err == Ok ==> defs == old(defs)[d.id := d] && file == old(file) + [d] && !poisoned
      ensures err != Ok ==> defs == old(defs) && entries == old(entries)
      ensures d.id !in old(defs) && |old(entries)| >= MAX_RECORDS ==>
        err == Limit && !poisoned && file == old(file) && seen == old(seen)
      ensures err != Ok && !(d.id !in old(defs) && |old(entries)| >= MAX_RECORDS) ==>
        poisoned && (file == old(file) || file == old(file) + [d])
    {
      hide Holds, Safe, Acyclic, CapOk, Replay, NextRevision;
      var found, _ := Find(entries, d.id, defs);
      if !found {
        err := Reserve();
        if err != Ok { return; }
      }
      GroundingKeepsAcyclic(defs, d);
      ReplaySnoc(file, d, defs);
      var reached: bool := *;
      var outcome: Err := *;
      if reached { file := file + [d]; }
      seen := seen + iset{file};
      if outcome != Ok || !reached {
        poisoned := true;
        return if outcome == Ok then Io else outcome;
      }
      entries := Knowledge.Replace(entries, Entry(d, true), defs);
      defs := defs[d.id := d];
      return Ok;
    }

    /** What a grounding call must meet to be accepted: the caller names the revision and the
        content it has seen. */
    ghost predicate Admissible(claims: Claims, idOk: bool, id: string, hash: string, expected: nat, g: Grounding,
                               storePoisoned: bool, sources: Err)
      reads this
    {
      && idOk && HashText(hash) && expected < INT64_MAX && !storePoisoned && !poisoned
      && id in claims && !claims[id].deprecated && checks.hash(claims[id].content) == hash
      && expected + 1 == NextRevision(defs, id)
      && Shape(checks, g) && Fits(checks, claims, defs, id, g) && sources == Ok
      && (id in defs || |entries| < MAX_RECORDS)
    }

    /** `asper_memory_ground`; `sources` is what resolving the cited events returns. */
    method Ground(claims: Claims, idOk: bool, id: string, hash: string, expected: nat, g: Grounding,
                  storePoisoned: bool, sources: Err) returns (err: Err)
      requires Valid()
      modifies this
      ensures Valid() && OnlySaw(Definition(id, hash, expected + 1, g))
      ensures err == Ok ==> old(Admissible(claims, idOk, id, hash, expected, g, storePoisoned, sources))
      ensures old(Admissible(claims, idOk, id, hash, expected, g, storePoisoned, sources)) ==> err == Ok || poisoned
      ensures err == Ok ==> !poisoned && file == old(file) + [Definition(id, hash, expected + 1, g)]
      ensures err == Ok ==> defs == old(defs)[id := Definition(id, hash, expected + 1, g)]
      ensures err != Ok ==> defs == old(defs) && entries == old(entries) && (file == old(file) || poisoned)
    {
      hide Holds, Safe, Acyclic, Shape, HashText, CapOk;
      if !idOk || !HashText(hash) || expected >= INT64_MAX { return Invalid; }
      if storePoisoned || poisoned { return Io; }
      var found, at := Find(entries, id, defs);
      if id !in claims || claims[id].deprecated { return NotFound; }
      if expected != (if found then entries[at].def.revision else 0) { return Busy; }
      if checks.hash(claims[id].content) != hash { return Busy; }
      err := Validate(claims, Some(id), g);
      if err != Ok { return; }
      if sources != Ok { return sources; }
      FitsSupports(checks, claims, defs, id, g);
      err := Commit(Definition(id, hash, expected + 1, g));
    }

    /** `asper_knowledge_open` on any file. It succeeds exactly on a log whose definitions have
        the right shape and whose revisions count up; the table is then the replayed map, and
        an entry whose links no longer fit its record is not trusted. */
    method Open(claims: Claims, sources: Definition -> bool) returns (err: Err)
      requires entries == [] && cap == 0 && defs == map[] && !poisoned && seen == iset{}
      modifies this`entries, this`cap, this`defs
      ensures err == Ok <==> Replay(file).Some? && (forall d | d in file ::
        Shape(checks, d.grounding)) && |Replay(file).value| <= MAX_RECORDS
      ensures err == Ok ==> Table() && defs == Replay(file).value
      ensures err == Ok ==> forall e | e in entries :: Trusted(checks, claims, defs, sources, e)
      ensures err == Ok && Acyclic(Replay(file).value) ==> Valid()
    {
      hide Holds, Shape, Fits, Acyclic, Safe, Replay;
      err := ReadAll(sources);
      if err == Ok { Recheck(claims, sources); }
    }

    /** The pages of the log, definition by definition. */
    method ReadAll(sources: Definition -> bool) returns (err: Err)
      requires entries == [] && cap == 0 && defs == map[]
      modifies this`entries, this`cap, this`defs
      ensures err == Ok <==> Replay(file).Some? && (forall d | d in file ::
        Shape(checks, d.grounding)) && |Replay(file).value| <= MAX_RECORDS
      ensures err == Ok ==> Table() && defs == Replay(file).value
      ensures err == Ok ==> forall e | e in entries :: e.sourcesOk ==> sources(e.def)
    {
      hide Holds, Shape, Table, Replay;
      NothingRead();
      var n := 0;
      while n < |file|
        invariant n <= |file| && Read(n)
        invariant forall d | d in file[..n] :: Shape(checks, d.grounding)
        invariant forall e | e in entries :: e.sourcesOk ==> sources(e.def)
      {
        assert file[..n + 1] == file[..n] + [file[n]];
        err := ReadOne(n, sources);
        if err != Ok { return; }
        n := n + 1;
      }
      assert file[..n] == file;
      err := Ok;
    }

    /** The first n definitions of the log are in the table. */
    ghost predicate Read(n: nat)
      reads this
    {
      n <= |file| && Table() && Replay(file[..n]) == Some(defs) && |defs| == |entries| <= MAX_RECORDS
    }

    lemma NothingRead()
      requires entries == [] && cap == 0 && defs == map[]
      ensures Read(0)
    {
      EmptyHolds();
    }

    /** One definition: its shape, its revision, room for it. */
    method ReadOne(n: nat, sources: Definition -> bool) returns (err: Err)
      requires n < |file| && Read(n)
      modifies this`entries, this`cap, this`defs
      ensures err == Ok ==> Read(n + 1) && Shape(checks, file[n].grounding)
      ensures err == Ok ==> forall e | e in entries :: e in old(entries) || e == Entry(file[n], sources(file[n]))
      ensures err != Ok ==>
        Replay(file).None? || !Shape(checks, file[n].grounding) || |Replay(file).value| > MAX_RECORDS
    {
      hide Holds, Shape, CapOk;
      var d := file[n];
      TakeOne(file, n);
      err := Validate(map[], None, d.grounding);
      if err != Ok { return; }
      var found, at := Find(entries, d.id, defs);
      if d.revision != (if found then entries[at].def.revision + 1 else 1) {
        ReplayStops(file, n);
        return Parse;
      }
      assert Replay(file[..n + 1]) == Some(defs[d.id := d]);
      hide Replay;
      if !found {
        if |entries| >= MAX_RECORDS && Replay(file).Some? { ReplayGrows(file, n + 1); }
        err := Reserve();
        if err != Ok { return; }
      }
      Put(Entry(d, sources(d)));
    }

    method Put(e: Entry)
      requires Table() && (e.def.id in defs || |entries| < cap) && |defs| == |entries|
      modifies this`entries, this`defs
      ensures Table() && defs == old(defs)[e.def.id := e.def] && |defs| == |entries|
      ensures forall x | x in entries :: x == e || x in old(entries)
    {
      hide Holds, CapOk;
      entries := Knowledge.Replace(entries, e, defs);
      defs := defs[e.def.id := e.def];
    }

    /** The last loop of opening: an entry about the current text of its record is checked
        in full. */
    method Recheck(claims: Claims, ghost sources: Definition -> bool)
      requires Table() && forall e | e in entries :: e.sourcesOk ==> sources(e.def)
      modifies this`entries
      ensures Table() && forall e | e in entries :: Trusted(checks, claims, defs, sources, e)
    {
      hide Fits, Shape, Safe, Holds;
      var i := 0;
      while i < |entries|
        invariant i <= |entries| == |old(entries)| && Table()
        invariant forall k | i <= k < |entries| :: entries[k].sourcesOk ==> sources(entries[k].def)
        invariant forall k | 0 <= k < i :: Trusted(checks, claims, defs, sources, entries[k])
      {
        var e := entries[i];
        if e.def.id in claims && checks.hash(claims[e.def.id].content) == e.def.hash {
          var err := Validate(claims, Some(e.def.id), e.def.grounding);
          if err != Ok {
            Distrusted(entries, defs, i);
            entries := entries[i := e.(sourcesOk := false)];
          }
        }
        i := i + 1;
      }
    }
  }

  /** A trusted entry cites resolvable sources, and when it speaks about the current text of
      its record, all its links fit. */
  ghost predicate Trusted(c: Checks, claims: Claims, defs: Defs, sources: Definition -> bool, e: Entry) {
    e.sourcesOk ==>
      && sources(e.def)
      && (e.def.id in claims && c.hash(claims[e.def.id].content) == e.def.hash ==>
            Shape(c, e.def.grounding) && Fits(c, claims, defs, e.def.id, e.def.grounding))
  }

  lemma Distrusted(entries: seq<Entry>, defs: Defs, i: nat)
    requires Holds(entries, defs) && i < |entries|
    ensures Holds(entries[i := entries[i].(sourcesOk := false)], defs)
  {
    hide Sorted;
    var out := entries[i := entries[i].(sourcesOk := false)];
    assert Ids(out) == Ids(entries);
    forall k | 0 <= k < |out| ensures Holder(out[k].def, defs) { assert Holder(entries[k].def, defs); }
  }

  lemma FitsSupports(c: Checks, claims: Claims, defs: Defs, id: string, g: Grounding)
    requires id in claims && Fits(c, claims, defs, id, g)
    ensures forall l | l in g.links && l.kind == Supports :: Safe(defs, id, l.id, DEPTH)
  {
    hide Safe;
    assert forall l | l in g.links :: LinkFits(c, claims, defs, id, l);
  }

  lemma EmptyHolds()
    ensures Holds([], map[])
  {}

  lemma TakeOne(file: seq<Definition>, n: nat)
    requires n < |file|
    ensures file[..n + 1] == file[..n] + [file[n]] && file[..n + 1][..n] == file[..n]
  {}

  /** A revision gap anywhere spoils the whole log. */
  lemma ReplayStops(file: seq<Definition>, n: nat)
    requires n < |file| && Replay(file[..n]).Some? &&
      file[n].revision != NextRevision(Replay(file[..n]).value, file[n].id)
    ensures Replay(file).None?
  {
    TakeOne(file, n);
    assert Replay(file[..n + 1]).None?;
    if Replay(file).Some? { ReplayPrefix(file, n + 1); }
  }

  /** Definitions are replaced, never forgotten. */
  lemma {:induction false} ReplayGrows(file: seq<Definition>, n: nat)
    requires n <= |file|
    ensures Replay(file).Some? ==> Replay(file[..n]).Some? && Replay(file[..n]).value.Keys <= Replay(file).value.Keys
    ensures Replay(file).Some? ==> |Replay(file[..n]).value| <= |Replay(file).value|
  {
    if n < |file| {
      ReplayGrows(file[..|file| - 1], n);
      assert file[..|file| - 1][..n] == file[..n];
    } else {
      assert file[..n] == file;
    }
    if Replay(file).Some? {
      KeysMonotone(Replay(file[..n]).value, Replay(file).value);
    }
  }

  lemma KeysMonotone(a: Defs, b: Defs)
    ensures a.Keys <= b.Keys ==> |a| <= |b|
  {
    if a.Keys <= b.Keys { SubsetSize(a.Keys, b.Keys); }
  }
}
