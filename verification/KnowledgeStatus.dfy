/** The in-place validity projection (src/knowledge_status.c:33-117). Statuses are overwritten
    record by record in table order; the contracts equate the outcome with the order-free sets
    of Validity. */
module KnowledgeStatus {
  import opened Knowledge
  import opened StrOrder
  import opened Validity
  import opened StatusFold

  predicate Fresh(obs: seq<Dependency>, d: Dependency) {
    Lookup(obs, d.resource) != "" && Lookup(obs, d.resource) == d.version
  }

  /** A resource the claim depends on has not been observed, or differs from what was seen. */
  predicate Unknown(obs: seq<Dependency>, g: Grounding) {
    exists d :: d in g.dependencies && Lookup(obs, d.resource) == ""
  }

  predicate Outdated(obs: seq<Dependency>, g: Grounding) {
    exists d :: d in g.dependencies && Lookup(obs, d.resource) != d.version
  }

  /** A record that may be used at all. */
  ghost predicate Standing(w: World, x: string)
    requires x in w.view.claims
  {
    var c := w.view.claims[x];
    && !w.poisoned && !Retired(w, c)
    && (x in w.view.defs ==>
          && !w.view.defs[x].grounding.revoked && Same(w.view, x, w.view.defs[x].hash) && x in w.trusted
          && forall d | d in w.view.defs[x].grounding.dependencies :: Fresh(w.obs, d))
  }

  /** The host revoked the grounding of a record that is otherwise live. */
  ghost predicate Withdrawn(w: World, x: string)
    requires x in w.view.claims
  {
    var c := w.view.claims[x];
    !w.poisoned && !Retired(w, c) && x in w.view.defs && w.view.defs[x].grounding.revoked
  }

  ghost predicate SameRevoked(a: map<string, Status>, b: map<string, Status>) {
    a.Keys == b.Keys && forall y | y in a :: a[y] == Revoked <==> b[y] == Revoked
  }

  /** A standing record whose own evidence certifies it: every byte of the claim is cited, or
      another record supports it. */
  ghost predicate Certified(w: World, x: string)
    requires x in w.view.claims
  {
    && Standing(w, x) && x in w.view.defs
    && (HasSupport(w.view.defs[x].grounding)
        || forall b | 0 <= b < |w.view.claims[x].content| :: ByteCovered(w.view.defs[x].grounding.spans, b))
  }

  ghost function Fallen(w: World): set<string> { set x | x in w.view.claims && !Standing(w, x) }
  ghost function Uncertified(w: World): set<string> { set x | x in w.view.claims && !Certified(w, x) }

  ghost function WeakIn(st: map<string, Status>): set<string> { set x | x in st && st[x] != Current }

  lemma {:induction false} ObservationFacts(obs: seq<Dependency>, deps: seq<Dependency>)
    ensures Observation(obs, deps) == Current <==> forall d | d in deps :: Fresh(obs, d)
    ensures Observation(obs, deps) == Unavailable ==> exists d :: d in deps && Lookup(obs, d.resource) == ""
    ensures Observation(obs, deps) == Stale ==> exists d :: d in deps && Lookup(obs, d.resource) != d.version
    ensures Observation(obs, deps) in {Current, Unavailable, Stale}
  {
    if deps != [] {
      ObservationFacts(obs, deps[1..]);
      assert deps == [deps[0]] + deps[1..] && deps[0] in deps;
      assert forall d | d in deps[1..] :: d in deps;
    }
  }

  /** What the first status of a record says about it. */
  lemma InitiallyFacts(w: World, x: string)
    requires x in w.view.claims
    ensures var s := Initially(w, x);
      && (Usable(s) <==> Standing(w, x)) && (s == Current <==> Certified(w, x)) && (s == Revoked <==> Withdrawn(w, x))
      && s != Contested && (w.poisoned ==> s == Unavailable)
      && (!w.poisoned && Retired(w, w.view.claims[x]) ==> s == Stale)
      && (!w.poisoned && s == Unavailable ==>
           x in w.view.defs && (x !in w.trusted || Unknown(w.obs, w.view.defs[x].grounding)))
      && (!w.poisoned && s == Stale ==>
           Retired(w, w.view.claims[x]) ||
           (x in w.view.defs && (!Same(w.view, x, w.view.defs[x].hash) || Outdated(w.obs, w.view.defs[x].grounding))))
  {
    if x in w.view.defs { ObservationFacts(w.obs, w.view.defs[x].grounding.dependencies); }
  }

  /** How many spans end at or before `end`: each pass of `covered` consumes one more, or is
      the last that matters. */
  ghost function Consumed(spans: seq<Span>, end: nat): nat {
    if spans == [] then 0 else (if spans[0].claimEnd <= end then 1 else 0) + Consumed(spans[1..], end)
  }

  /** No listed span starts within what is covered and ends beyond it. */
  ghost predicate Stuck(spans: seq<Span>, end: nat, n: nat) {
    forall i | 0 <= i < n && i < |spans| :: !(spans[i].claimBegin <= end < spans[i].claimEnd)
  }

  lemma {:induction false} ConsumedGrows(spans: seq<Span>, a: nat, b: nat, k: nat)
    requires a <= b
    ensures Consumed(spans, a) <= Consumed(spans, b)
    ensures k < |spans| && a < spans[k].claimEnd <= b ==> Consumed(spans, a) < Consumed(spans, b)
  {
    if spans != [] {
      ConsumedGrows(spans[1..], a, b, if k > 0 then k - 1 else |spans|);
    }
  }

  lemma {:induction false} ConsumedAll(spans: seq<Span>, end: nat)
    ensures Consumed(spans, end) <= |spans|
    ensures Consumed(spans, end) == |spans| ==> Stuck(spans, end, |spans|)
  {
    if spans != [] {
      ConsumedAll(spans[1..], end);
      assert forall i | 0 < i < |spans| :: spans[i] == spans[1..][i - 1];
    }
  }

  /** `covered`: as many passes as spans, in whatever order they are listed. */
  method Covered(spans: seq<Span>, size: nat) returns (yes: bool)
    ensures yes <==> forall b | 0 <= b < size :: ByteCovered(spans, b)
  {
    var end: nat := 0;
    for pass := 0 to |spans|
      invariant Stuck(spans, end, |spans|) || Consumed(spans, end) >= pass
      invariant forall b | 0 <= b < end :: ByteCovered(spans, b)
    {
      ghost var before: nat := end;
      for i := 0 to |spans|
        invariant end >= before && (Stuck(spans, before, |spans|) ==> end == before)
        invariant if end == before then Stuck(spans, end, i) else Consumed(spans, before) < Consumed(spans, end)
        invariant forall b | 0 <= b < end :: ByteCovered(spans, b)
      {
        if spans[i].claimBegin <= end && spans[i].claimEnd > end {
          forall b | end <= b < spans[i].claimEnd ensures ByteCovered(spans, b) { assert spans[i] in spans; }
          ConsumedGrows(spans, end, spans[i].claimEnd, i);
          end := spans[i].claimEnd;
        }
      }
    }
    ConsumedAll(spans, end);
    yes := end >= size;
    assert !ByteCovered(spans, end);
  }

  /** The entries list exactly the definitions, in any order. */
  ghost predicate Lists(entries: seq<Entry>, defs: Defs) {
    && (forall id | id in defs :: id in Ids(entries))
    && (forall i | 0 <= i < |entries| :: Holder(entries[i].def, defs))
  }

  class Projection {
    const hash: string -> string
    const claims: map<string, Claim>
    var entries: seq<Entry>
    var obs: seq<Dependency>
    var now: int
    var poisoned: bool
    var status: map<string, Status>
    ghost var defs: Defs

    ghost function V(): View reads this`defs { View(hash, claims, defs) }

    ghost function W(): World reads this {
      World(V(), set i | 0 <= i < |entries| && entries[i].sourcesOk :: entries[i].def.id, obs, now, poisoned)
    }

    /** The host's clock, observations and grounding table, and the records of the store. */
    constructor (hash: string -> string, claims: map<string, Claim>, entries: seq<Entry>, obs: seq<Dependency>,
                 now: int, poisoned: bool, ghost defs: Defs)
      requires Holds(entries, defs)
      ensures this.hash == hash && this.claims == claims && this.entries == entries && this.obs == obs
      ensures this.now == now && this.poisoned == poisoned && this.defs == defs && Holds(this.entries, this.defs)
    {
      this.hash, this.claims, this.entries, this.obs, this.now, this.poisoned := hash, claims, entries, obs, now, poisoned;
      this.status, this.defs := map[], defs;
    }

    /** `initial`. */
    method Initial(x: string) returns (s: Status)
      requires Holds(entries, defs) && x in claims
      ensures s == Initially(W(), x)
      ensures Usable(s) <==> Standing(W(), x)
      ensures s == Current <==> Certified(W(), x)
      ensures s == Revoked <==> Withdrawn(W(), x)
      ensures s != Contested
      ensures poisoned ==> s == Unavailable
      ensures !poisoned && Retired(W(), claims[x]) ==> s == Stale
      ensures !poisoned && s == Unavailable ==> x in defs && (x !in W().trusted || Unknown(obs, defs[x].grounding))
      ensures !poisoned && s == Stale ==>
        Retired(W(), claims[x]) || (x in defs && (!Same(V(), x, defs[x].hash) || Outdated(obs, defs[x].grounding)))
    {
      hide Holds;
      InitiallyFacts(W(), x);
      hide Standing, Certified, Withdrawn, Unknown, Outdated;
      if poisoned { return Unavailable; }
      if claims[x].deprecated || (claims[x].expires != 0 && now >= claims[x].expires) { return Stale; }
      var found, at := Find(entries, x, defs);
      if !found { return Unverified; }
      var e := entries[at];
      if e.def.grounding.revoked { return Revoked; }
      if hash(claims[x].content) != e.def.hash { return Stale; }
      TrustedAt(x, at);
      if !e.sourcesOk { return Unavailable; }
      var deps := e.def.grounding.dependencies;
      for i := 0 to |deps|
        invariant Observation(obs, deps) == Observation(obs, deps[i..])
      {
        assert deps[i..][0] == deps[i] && deps[i..][1..] == deps[i + 1..];
        var seen := Observed(deps[i].resource);
        if seen == "" { return Unavailable; }
        if seen != deps[i].version { return Stale; }
      }
      var whole := Covered(e.def.grounding.spans, |claims[x].content|);
      if whole { return Current; }
      var links := e.def.grounding.links;
      for i := 0 to |links|
        invariant forall l | l in links[..i] :: l.kind != Supports
      {
        if links[i].kind == Supports { assert links[i] in links; return Current; }
        assert links[..i + 1] == links[..i] + [links[i]];
      }
      assert links[..|links|] == links;
      return Unverified;
    }

    lemma TrustedAt(x: string, at: nat)
      requires Holds(entries, defs) && at < |entries| && entries[at].def.id == x
      ensures x in W().trusted <==> entries[at].sourcesOk
    {
      SortedDistinct(Ids(entries));
      if x in W().trusted {
        var i :| 0 <= i < |entries| && entries[i].sourcesOk && entries[i].def.id == x;
        assert Ids(entries)[i] == Ids(entries)[at];
      }
    }

    /** The inner loop over the observations: the first match decides. */
    method Observed(resource: string) returns (version: string)
      ensures version == Lookup(obs, resource)
    {
      for j := 0 to |obs|
        invariant Lookup(obs, resource) == Lookup(obs[j..], resource)
      {
        if obs[j].resource == resource { return obs[j].version; }
        assert obs[j..][1..] == obs[j + 1..];
      }
      return "";
    }

    /** One entry of a propagation pass. */
    method Visit(x: string, links: seq<Link>) returns (changed: bool)
      requires status.Keys == claims.Keys && x in defs && defs[x].grounding.links == links
      modifies this`status
      ensures status.Keys == claims.Keys && forall y | y in status && y != x :: status[y] == old(status)[y]
      ensures DeadIn(status) == Step(V(), old(DeadIn(status)), x)
      ensures WeakIn(status) == Step(V(), old(WeakIn(status)), x)
      ensures forall y | y in status && !Usable(old(status)[y]) :: status[y] == old(status)[y]
      ensures (forall y | y in status :: old(status)[y] != Contested) ==>
        forall y | y in status :: status[y] != Contested
      ensures SameRevoked(old(status), status)
      ensures !changed ==> status == old(status)
      ensures status == VisitOf(V(), old(status), x)
      ensures x in status && status[x] != old(status)[x] && !Usable(status[x]) ==>
                exists l :: l in links && l.kind == Supports && status[x] == Inherited(V(), old(status), l)
    {
      changed := false;
      VisitSkips(V(), status, x);
      if x !in claims || !Usable(status[x]) { return; }
      ghost var v, st := V(), status;
      hide Step, Climbed, DeadIn, WeakIn, Inherited, Inherit, Heir;
      changed := Climb(x, links);
      ClimbStart(v, st, x, links);
      assert links[0..] == links && st[x := st[x]] == st;
      ghost var j := HeirClimbed(v, st, st, x, links, 0);
      ClimbEnd(v, st, status, x, links, j);
    }

    /** The link loop of an entry that is still usable. */
    method Climb(x: string, links: seq<Link>) returns (changed: bool)
      requires status.Keys == claims.Keys && x in status
      modifies this`status
      ensures status == old(status)[x := Heir(V(), old(status), x, links)]
      ensures !changed ==> status == old(status)
    {
      hide Inherit, Heir;
      ghost var v, st := V(), status;
      changed := false;
      var j := 0;
      while j < |links| && Usable(status[x])
        invariant j <= |links| && x in status && status.Keys == claims.Keys && status == st[x := status[x]]
        invariant !changed ==> status[x] == st[x]
        invariant Heir(v, st, x, links) == Heir(v, status, x, links[j..])
        decreases |links| - j
      {
        var l := links[j];
        assert links[j..][0] == l && links[j..][1..] == links[j + 1..];
        HeirStep(v, status, x, links[j..]);
        Unrelated(v, status, status[x], l);
        if l.kind == Supports {
          var next := Handed(x, l);
          if next != status[x] { changed := true; }
          status := status[x := next];
        } else {
          assert status[x := status[x]] == status;
        }
        j := j + 1;
      }
      HeirEnd(v, status, x, links[j..]);
    }

    /** What one support hands to x. */
    method Handed(x: string, l: Link) returns (next: Status)
      requires status.Keys == claims.Keys && x in status && l.kind == Supports
      ensures next == Inherit(V(), status, status[x], l)
    {
      next := status[x];
      if !(l.id in claims && hash(claims[l.id].content) == l.hash) { next := Stale; }
      else if !Usable(status[l.id]) { next := if status[l.id] == Revoked then Stale else status[l.id]; }
      else if status[l.id] == Unverified { next := Unverified; }
    }

    /** One pass of `propagate_support` over the table. */
    method Pass() returns (changed: bool)
      requires status.Keys == claims.Keys && Lists(entries, defs)
      modifies this`status
      ensures status.Keys == claims.Keys
      ensures DeadIn(status) == Sweep(V(), old(DeadIn(status)), Ids(entries))
      ensures WeakIn(status) == Sweep(V(), old(WeakIn(status)), Ids(entries))
      ensures forall y | y in status && !Usable(old(status)[y]) :: status[y] == old(status)[y]
      ensures (forall y | y in status :: old(status)[y] != Contested) ==>
        forall y | y in status :: status[y] != Contested
      ensures SameRevoked(old(status), status)
      ensures !changed ==> status == old(status)
      ensures status == PassOf(V(), old(status), Ids(entries))
    {
      hide Step, DeadIn, WeakIn, Sweep, Usable, Lists, VisitOf, PassOf;
      PassStep(V(), status, Ids(entries), 0);
      ghost var v, ids, dead, weak := V(), Ids(entries), DeadIn(status), WeakIn(status);
      SweepStep(v, dead, ids, 0);
      SweepStep(v, weak, ids, 0);
      changed := false;
      var i := 0;
      while i < |entries|
        invariant i <= |entries| && status.Keys == claims.Keys
        invariant DeadIn(status) == Sweep(v, dead, ids[..i]) && WeakIn(status) == Sweep(v, weak, ids[..i])
        invariant forall y | y in status && !Usable(old(status)[y]) :: status[y] == old(status)[y]
        invariant (forall y | y in status :: old(status)[y] != Contested) ==>
          forall y | y in status :: status[y] != Contested
        invariant SameRevoked(old(status), status)
        invariant !changed ==> status == old(status)
        invariant status == PassOf(v, old(status), ids[..i])
      {
        var d := entries[i].def;
        PassStep(v, old(status), ids, i);
        ListedAt(entries, defs, i);
        SweepStep(v, dead, ids, i);
        SweepStep(v, weak, ids, i);
        var here := Visit(d.id, d.grounding.links);
        changed := changed || here;
        i := i + 1;
      }
      assert Ids(entries)[..|entries|] == Ids(entries);
    }

    /** `propagate_support`: at most one pass per entry, stopping early when a pass changes
        nothing. Either way the least closed sets are reached. */
    method Propagate()
      requires status.Keys == claims.Keys && Lists(entries, defs)
      modifies this`status
      ensures status.Keys == claims.Keys
      ensures DeadIn(status) == Spread(V(), old(DeadIn(status)))
      ensures WeakIn(status) == Spread(V(), old(WeakIn(status)))
      ensures forall y | y in status && !Usable(old(status)[y]) :: status[y] == old(status)[y]
      ensures (forall y | y in status :: old(status)[y] != Contested) ==>
        forall y | y in status :: status[y] != Contested
      ensures SameRevoked(old(status), status)
      ensures status == Passes(V(), old(status), Ids(entries), |entries|)
    {
      hide Lists, Spread, Sweep, PassOf;
      ghost var v, ids := V(), Ids(entries);
      ghost var dead, weak := DeadIn(status), WeakIn(status);
      assert Covers(v, ids) && dead <= v.claims.Keys &&
        weak <= v.claims.Keys by { assert V().defs == defs; ListingCovers(V(), entries, defs); }
      var pass := 0;
      while pass < |entries|
        invariant pass <= |entries| && status.Keys == claims.Keys
        invariant DeadIn(status) == Sweeps(v, dead, ids, pass) && WeakIn(status) == Sweeps(v, weak, ids, pass)
        invariant forall y | y in status && !Usable(old(status)[y]) :: status[y] == old(status)[y]
        invariant (forall y | y in status :: old(status)[y] != Contested) ==>
          forall y | y in status :: status[y] != Contested
        invariant SameRevoked(old(status), status)
        invariant status == Passes(v, old(status), ids, pass)
      {
        var changed := Pass();
        if !changed {
          PassesStay(v, old(status), ids, pass, |entries|);
          StablePass(v, dead, ids, pass);
          StablePass(v, weak, ids, pass);
          return;
        }
        pass := pass + 1;
      }
      EnoughPasses(v, dead, ids, pass);
      EnoughPasses(v, weak, ids, pass);
    }

    /** `apply_relations` for SUPERSEDES, one entry. */
    method SupersedeBy(a: string, links: seq<Link>)
      requires status.Keys == claims.Keys && a in defs && defs[a].grounding.links == links
      modifies this`status
      ensures status.Keys == claims.Keys
      ensures forall y | y in status ::
        status[y] == if SupersededBy(V(), a, y) && old(status)[y] != Revoked then Stale else old(status)[y]
    {
      for j := 0 to |links|
        invariant status.Keys == claims.Keys
        invariant forall y | y in status ::
          status[y] == old(status)[y] || (old(status)[y] != Revoked && SupersededBy(V(), a, y) && status[y] == Stale)
        invariant forall l | l in links[..j] && l.kind == Supersedes &&
          Same(V(), l.id, l.hash) :: status[l.id] == Stale || old(status)[l.id] == Revoked
      {
        var l := links[j];
        assert l in links && links[..j + 1] == links[..j] + [l];
        if l.kind == Supersedes && l.id in claims && hash(claims[l.id].content) == l.hash && status[l.id] != Revoked {
          status := status[l.id := Stale];
        }
      }
      assert links[..|links|] == links;
    }

    method Supersede()
      requires status.Keys == claims.Keys && Lists(entries, defs)
      modifies this`status
      ensures status.Keys == claims.Keys
      ensures forall y | y in status ::
        status[y] == if IsSuperseded(V(), y) && old(status)[y] != Revoked then Stale else old(status)[y]
    {
      hide SupersededBy, Lists;
      ghost var v, ids := V(), Ids(entries);
      var i := 0;
      while i < |entries|
        invariant i <= |entries| && status.Keys == claims.Keys
        invariant forall y | y in status ::
          status[y] == old(status)[y] || (old(status)[y] != Revoked && IsSuperseded(v, y) && status[y] == Stale)
        invariant forall k, y | 0 <= k < i && y in status &&
          SupersededBy(v, ids[k], y) :: status[y] == Stale || old(status)[y] == Revoked
      {
        ListedAt(entries, defs, i);
        SupersedeBy(entries[i].def.id, entries[i].def.grounding.links);
        i := i + 1;
      }
      forall a, y | SupersededBy(v, a, y) ensures a in ids { RelatedListed(v, entries, defs, {}, a, y); }
    }

    /** `apply_relations` for CONTRADICTS, one entry; `before` are the statuses the phase
        started from. */
    method ContestBy(a: string, own: string, links: seq<Link>, ghost before: map<string, Status>)
      requires status.Keys == before.Keys == claims.Keys && a in defs &&
        defs[a].grounding.links == links && defs[a].hash == own
      requires forall y | y in before :: Contestable(before, status, y)
      modifies this`status
      ensures status.Keys == claims.Keys
      ensures forall y | y in status ::
          status[y] == if ConflictBy(V(), DeadIn(before), a, y) then Contested else old(status)[y]
    {
      ghost var v, st := V(), status;
      hide ConflictBy, ContestedSoFar, Contestable, Open;
      ContestStart(v, before, st, a, links);
      for j := 0 to |links|
        invariant status.Keys == claims.Keys && ContestedSoFar(v, before, st, status, a, links, j)
      {
        var l := links[j];
        ContestStep(v, before, st, status, a, links, j);
        if l.kind == Contradicts && l.id in claims && hash(claims[l.id].content) == l.hash &&
            a in claims && hash(claims[a].content) == own && Open(status[a]) && Open(status[l.id]) {
          status := status[a := Contested][l.id := Contested];
        }
      }
      ContestEnd(v, before, st, status, a, links);
    }

    method Contest()
      requires status.Keys == claims.Keys && Lists(entries, defs) && forall y | y in status :: status[y] != Contested
      modifies this`status
      ensures status.Keys == claims.Keys
      ensures forall y | y in status ::
        status[y] == if InConflict(V(), old(DeadIn(status)), y) then Contested else old(status)[y]
      ensures forall y | y in status && InConflict(V(), old(DeadIn(status)), y) :: Usable(old(status)[y])
    {
      hide ConflictBy, Lists, DeadIn;
      ghost var v, ids, before, dead := V(), Ids(entries), status, DeadIn(status);
      forall a, y | ConflictBy(v, dead, a, y) &&
        y in before ensures Usable(before[y]) { ContestsUsable(v, before, a, y); }
      var i := 0;
      while i < |entries|
        invariant i <= |entries| && status.Keys == claims.Keys
        invariant forall y | y in status :: status[y] == before[y] || (status[y] == Contested && InConflict(v, dead, y))
        invariant forall k, y | 0 <= k < i && y in status && ConflictBy(v, dead, ids[k], y) :: status[y] == Contested
      {
        ListedAt(entries, defs, i);
        ContestBy(entries[i].def.id, entries[i].def.hash, entries[i].def.grounding.links, before);
        i := i + 1;
      }
      forall a, y | ConflictBy(v, dead, a, y) ensures a in ids { RelatedListed(v, entries, defs, dead, a, y); }
    }

    /** The first loop of `asper_knowledge_refresh`, over the records in table order. */
    method Initialise(order: seq<string>)
      requires Holds(entries, defs) && (forall x :: x in claims <==> x in order)
      modifies this`status
      ensures status.Keys == claims.Keys && forall x | x in status :: status[x] != Contested
      ensures DeadIn(status) == Fallen(W()) && WeakIn(status) == Uncertified(W())
      ensures forall x | x in status :: status[x] == Revoked <==> Withdrawn(W(), x)
      ensures status == map x | x in claims :: Initially(W(), x)
    {
      hide Holds, Standing, Certified, Withdrawn, Initially;
      status := map[];
      var i := 0;
      while i < |order|
        invariant i <= |order| && status.Keys == set x | x in order[..i]
        invariant forall x | x in status :: x in claims && status[x] == Initially(W(), x)
      {
        assert order[i] in order && order[..i + 1] == order[..i] + [order[i]];
        var s := Initial(order[i]);
        status := status[order[i] := s];
        i := i + 1;
      }
      assert order[..i] == order;
      forall x | x in status
        ensures (Usable(status[x]) <==> Standing(W(), x)) && (status[x] == Current <==> Certified(W(), x))
        ensures status[x] != Contested && (status[x] == Revoked <==> Withdrawn(W(), x))
      {
        InitiallyFacts(W(), x);
      }
    }

    /** `asper_knowledge_refresh`. The verdict on every record is the one Validity states on
        maps, so neither the order of records nor of entries shows in it. */
    method Refresh(order: seq<string>)
      requires Holds(entries, defs) && (forall x :: x in claims <==> x in order)
      modifies this`status
      ensures status.Keys == claims.Keys && Verdict(W(), status)
      ensures forall x | x in status :: status[x] == Revoked <==> Withdrawn(W(), x)
      ensures status == Outcome(W(), Ids(entries))
    {
      hide Initially, Passes, Withdrawn, Holds, Lists, Spread, DeadIn, WeakIn, Fallen, Uncertified,
           Superseded, Conflicted, SupersededOf, ContestedOf;
      HoldsLists(entries, defs);
      Initialise(order);
      Retire();
      Dispute();
    }

    /** The first half: superseded records, and what rests on them. */
    method Retire()
      requires status.Keys == claims.Keys && Lists(entries, defs) && forall y | y in status :: status[y] != Contested
      modifies this`status
      ensures status.Keys == claims.Keys && (forall y | y in status :: status[y] != Contested)
      ensures DeadIn(status) == Spread(V(), old(DeadIn(status)) + Superseded(V()))
      ensures WeakIn(status) == Spread(V(), old(WeakIn(status)) + Superseded(V()))
      ensures SameRevoked(old(status), status)
      ensures status == Passes(V(), SupersededOf(V(), old(status)), Ids(entries), |entries|)
    {
      hide Usable, Lists, Spread, DeadIn, WeakIn, Superseded, IsSuperseded, Passes;
      Supersede();
      AfterSuperseding(V(), old(status), status);
      SameMap(status, SupersededOf(V(), old(status)));
      Propagate();
    }

    /** The second half: live contradictions, and what rests on their parties. */
    method Dispute()
      requires status.Keys == claims.Keys && Lists(entries, defs) && forall y | y in status :: status[y] != Contested
      modifies this`status
      ensures status.Keys == claims.Keys && SameRevoked(old(status), status)
      ensures DeadIn(status) == Spread(V(), old(DeadIn(status)) + Conflicted(V(), old(DeadIn(status))))
      ensures WeakIn(status) == Spread(V(), old(WeakIn(status)) + Conflicted(V(), old(DeadIn(status))))
      ensures status == Passes(V(), ContestedOf(V(), old(status)), Ids(entries), |entries|)
    {
      hide Usable, Lists, Spread, DeadIn, WeakIn, Conflicted, InConflict, Passes;
      Contest();
      AfterContesting(V(), old(status), status);
      SameMap(status, ContestedOf(V(), old(status)));
      Propagate();
    }
  }

  /** A record is unusable, or usable but not current, exactly as Validity says. */
  ghost predicate Verdict(w: World, st: map<string, Status>) {
    && DeadIn(st) == Unusables(w.view, Fallen(w))
    && WeakIn(st) == NotCurrents(w.view, Fallen(w), Uncertified(w))
  }

  /** What a refresh guarantees about the statuses themselves. */
  lemma VerdictFacts(w: World, st: map<string, Status>, x: string)
    requires Verdict(w, st) && st.Keys == w.view.claims.Keys && x in st
    ensures st[x] == Current ==> Certified(w, x)
    ensures Usable(st[x]) ==> Standing(w, x) && !IsSuperseded(w.view, x)
    ensures x in w.view.defs ==>
      forall l | l in w.view.defs[x].grounding.links && l.kind == Supports && Usable(st[x]) ::
                Same(w.view, l.id, l.hash) && Usable(st[l.id]) && (st[x] == Current ==> st[l.id] == Current)
    ensures x in w.view.defs ==>
      forall l | l in w.view.defs[x].grounding.links && l.kind == Contradicts && Same(w.view, l.id, l.hash) ::
                !Usable(st[x]) || !Usable(st[l.id])
  {
    hide Spread, Certified, Conflicted, Unusables, NotCurrents;
    var dead, weak := Fallen(w), Uncertified(w);
    SpreadKeeps(w.view, dead, weak);
    SupersededUnusable(w.view, dead);
    UnusableIsNotCurrent(w.view, dead, weak) by { assert dead <= weak by { FallenUncertified(w); } }
    assert x in DeadIn(st) <==> !Usable(st[x]);
    assert x in WeakIn(st) <==> st[x] != Current;
    if x in w.view.defs {
      forall l | l in w.view.defs[x].grounding.links && l.kind == Supports && Usable(st[x])
        ensures Same(w.view, l.id, l.hash) && Usable(st[l.id]) && (st[x] == Current ==> st[l.id] == Current)
      {
        CurrentRestsOnCurrent(w.view, dead, weak, x, l);
      }
      forall l | l in w.view.defs[x].grounding.links && l.kind == Contradicts && Same(w.view, l.id, l.hash)
        ensures !Usable(st[x]) || !Usable(st[l.id])
      {
        NoUsableContradiction(w.view, dead, x, l);
      }
    }
  }

  lemma FallenUncertified(w: World)
    ensures Fallen(w) <= Uncertified(w)
  {}

  lemma SpreadKeeps(v: View, dead: set<string>, weak: set<string>)
    ensures forall x | x in dead && x in v.claims :: x in Unusables(v, dead)
    ensures forall x | x in weak && x in v.claims :: x in NotCurrents(v, dead, weak)
  {
    var d := Spread(v, dead + Superseded(v));
    SpreadClosed(v, dead + Superseded(v));
    SpreadClosed(v, weak + Superseded(v));
    SpreadClosed(v, d + Conflicted(v, d));
    SpreadClosed(v, Spread(v, weak + Superseded(v)) + Conflicted(v, d));
  }

  lemma AfterSuperseding(v: View, a: map<string, Status>, b: map<string, Status>)
    requires a.Keys == b.Keys == v.claims.Keys
    requires forall y | y in b :: b[y] == if IsSuperseded(v, y) && a[y] != Revoked then Stale else a[y]
    ensures DeadIn(b) == DeadIn(a) + Superseded(v) && WeakIn(b) == WeakIn(a) + Superseded(v)
    ensures (forall y | y in a :: a[y] != Contested) ==> forall y | y in b :: b[y] != Contested
    ensures SameRevoked(a, b)
  {
    hide IsSuperseded;
  }

  lemma AfterContesting(v: View, a: map<string, Status>, b: map<string, Status>)
    requires a.Keys == b.Keys == v.claims.Keys
    requires forall y | y in b :: b[y] == if InConflict(v, DeadIn(a), y) then Contested else a[y]
    requires forall y | y in b && InConflict(v, DeadIn(a), y) :: Usable(a[y])
    ensures SameRevoked(a, b)
    ensures DeadIn(b) == DeadIn(a) + Conflicted(v, DeadIn(a)) && WeakIn(b) == WeakIn(a) + Conflicted(v, DeadIn(a))
  {
    hide InConflict;
  }

  lemma SweepStep(v: View, bad: set<string>, ids: seq<string>, i: nat)
    ensures Sweep(v, bad, ids[..0]) == bad
    ensures i < |ids| ==> Sweep(v, bad, ids[..i + 1]) == Step(v, Sweep(v, bad, ids[..i]), ids[i])
  {
    if i < |ids| { assert ids[..i + 1][..i] == ids[..i]; }
  }

  /** What a support that failed hands on: a changed or revoked one makes its dependants stale. */
  function Inherited(v: View, st: map<string, Status>, l: Link): Status {
    if !Same(v, l.id, l.hash) || l.id !in st || st[l.id] == Revoked then Stale else st[l.id]
  }

  predicate Sound(v: View, st: map<string, Status>, l: Link) {
    Same(v, l.id, l.hash) && l.id in st && Usable(st[l.id])
  }

  lemma VisitSkips(v: View, st: map<string, Status>, x: string)
    requires st.Keys == v.claims.Keys
    ensures x !in st || !Usable(st[x]) ==> Step(v, DeadIn(st), x) == DeadIn(st) && Step(v, WeakIn(st), x) == WeakIn(st)
  {}

  /** The status of x after the first j of its links. */
  ghost predicate Climbed(v: View, st: map<string, Status>, own: Status, x: string, links: seq<Link>, j: nat) {
    && (Usable(own) ==> forall k | 0 <= k < j && k < |links| && links[k].kind == Supports :: Sound(v, st, links[k]))
    && (own == Current ==> forall k | 0 <= k < j && k < |links| && links[k].kind == Supports ::
          links[k].id in st && st[links[k].id] == Current)
    && (!Usable(own) ==> Undermined(v, DeadIn(st), x))
    && (own != Current ==> (x in st && st[x] != Current) || Undermined(v, WeakIn(st), x))
    && (x in st && st[x] != Current ==> own != Current) && own != Revoked
    && (own == Contested ==> exists y :: y in st && st[y] == Contested)
    && (!Usable(own) ==> exists l :: l in links && l.kind == Supports && own == Inherited(v, st, l))
  }

  lemma HeirStep(v: View, st: map<string, Status>, x: string, links: seq<Link>)
    requires x in st && links != [] && Usable(st[x])
    ensures Heir(v, st, x, links) == Heir(v, st[x := Inherit(v, st, st[x], links[0])], x, links[1..])
  {}

  lemma HeirEnd(v: View, st: map<string, Status>, x: string, links: seq<Link>)
    requires x in st && (links == [] || !Usable(st[x]))
    ensures Heir(v, st, x, links) == st[x]
  {}

  lemma Unrelated(v: View, st: map<string, Status>, own: Status, l: Link)
    ensures l.kind != Supports ==> Inherit(v, st, own, l) == own
  {}

  lemma SameMap(a: map<string, Status>, b: map<string, Status>)
    requires a.Keys == b.Keys && forall y | y in a :: a[y] == b[y]
    ensures a == b
  {}

  lemma ClimbStart(v: View, st: map<string, Status>, x: string, links: seq<Link>)
    requires x in st && Usable(st[x])
    ensures Climbed(v, st, st[x], x, links, 0)
  {}

  lemma ClimbStep(v: View, st: map<string, Status>, own: Status, x: string, links: seq<Link>, j: nat)
    requires Climbed(v, st, own, x, links, j) && Usable(own) && j < |links|
    requires x in st && Usable(st[x]) && x in v.defs && v.defs[x].grounding.links == links && st.Keys == v.claims.Keys
    ensures Climbed(v, st, Inherit(v, st[x := own], own, links[j]), x, links, j + 1)
  {
    assert links[j] in links;
    assert forall y | y in st && y != x :: st[x := own][y] == st[y];
  }

  lemma {:induction false} HeirClimbed(v: View, st: map<string, Status>, cur: map<string, Status>, x: string,
      links: seq<Link>, j: nat) returns (n: nat)
    requires x in st && Usable(st[x]) && x in v.defs && v.defs[x].grounding.links == links && st.Keys == v.claims.Keys
    requires x in cur && cur == st[x := cur[x]] && j <= |links| && Climbed(v, st, cur[x], x, links, j)
    ensures n <= |links| && Climbed(v, st, Heir(v, cur, x, links[j..]), x, links, n)
    ensures n == |links| || !Usable(Heir(v, cur, x, links[j..]))
    decreases |links| - j
  {
    hide Climbed, Inherit, Heir;
    n := j;
    if j == |links| || !Usable(cur[x]) {
      HeirEnd(v, cur, x, links[j..]);
    } else {
      assert links[j..][0] == links[j] && links[j..][1..] == links[j + 1..];
      ClimbStep(v, st, cur[x], x, links, j);
      HeirStep(v, cur, x, links[j..]);
      n := HeirClimbed(v, st, cur[x := Inherit(v, cur, cur[x], links[j])], x, links, j + 1);
    }
  }

  lemma ClimbEnd(v: View, st: map<string, Status>, now: map<string, Status>, x: string, links: seq<Link>, j: nat)
    requires st.Keys == v.claims.Keys && x in st && Usable(st[x]) && x in v.defs && v.defs[x].grounding.links == links
    requires x in now && now == st[x := now[x]] && Climbed(v, st, now[x], x, links, j) && j <= |links|
    requires j == |links| || !Usable(now[x])
    ensures DeadIn(now) == Step(v, DeadIn(st), x) && WeakIn(now) == Step(v, WeakIn(st), x)
    ensures now[x] != Revoked && (now[x] == Contested ==> exists y :: y in st && st[y] == Contested)
    ensures !Usable(now[x]) ==> exists l :: l in links && l.kind == Supports && now[x] == Inherited(v, st, l)
  {
    hide Step, Undermined, Inherited, DeadIn, WeakIn;
    Visited(v, st, now, x, links);
  }

  /** What the link loop leaves behind is one step on both sets. */
  lemma Visited(v: View, st: map<string, Status>, now: map<string, Status>, x: string, links: seq<Link>)
    requires st.Keys == v.claims.Keys && x in st && Usable(st[x]) && x in v.defs && v.defs[x].grounding.links == links
    requires x in now && now == st[x := now[x]] && (st[x] != Current ==> now[x] != Current)
    requires !Usable(now[x]) ==> Undermined(v, DeadIn(st), x)
    requires now[x] != Current ==> st[x] != Current || Undermined(v, WeakIn(st), x)
    requires Usable(now[x]) ==> forall k | 0 <= k < |links| && links[k].kind == Supports :: Sound(v, st, links[k])
    requires now[x] == Current ==>
      forall k | 0 <= k < |links| && links[k].kind == Supports :: links[k].id in st && st[links[k].id] == Current
    ensures DeadIn(now) == Step(v, DeadIn(st), x) && WeakIn(now) == Step(v, WeakIn(st), x)
  {
    assert Undermined(v, DeadIn(st), x) ==> Undermined(v, WeakIn(st), x);
  }

  /** The first j links of an entry have been applied. */
  ghost predicate ContestedSoFar(v: View, before: map<string, Status>, st: map<string, Status>,
      now: map<string, Status>, a: string, links: seq<Link>, j: nat)
  {
    && now.Keys == st.Keys
    && (forall y | y in now :: now[y] == st[y] || (now[y] == Contested && ConflictBy(v, DeadIn(before), a, y)))
    && (forall k | 0 <= k < j && k < |links| && Conflict(v, DeadIn(before), a, links[k]) ::
          a in now && now[a] == Contested && links[k].id in now && now[links[k].id] == Contested)
  }

  lemma ContestStart(v: View, before: map<string, Status>, st: map<string, Status>, a: string, links: seq<Link>)
    ensures ContestedSoFar(v, before, st, st, a, links, 0)
  {}

  /** A live contradiction is one between records that are still open. */
  lemma OpenConflict(v: View, before: map<string, Status>, st: map<string, Status>, now: map<string, Status>,
      a: string, links: seq<Link>, j: nat)
    requires before.Keys == st.Keys == v.claims.Keys && a in v.defs && v.defs[a].grounding.links == links && j < |links|
    requires (forall y | y in before :: Contestable(before, st, y)) && ContestedSoFar(v, before, st, now, a, links, j)
    requires links[j].kind == Contradicts && Same(v, a, v.defs[a].hash) && Same(v, links[j].id, links[j].hash)
    ensures Conflict(v, DeadIn(before), a, links[j]) <==> Open(now[a]) && Open(now[links[j].id])
  {
    assert links[j] in links;
    assert Contestable(before, st, a) && Contestable(before, st, links[j].id);
    OpenBefore(v, before, st, now, a, a);
    OpenBefore(v, before, st, now, a, links[j].id);
  }

  lemma ContestStep(v: View, before: map<string, Status>, st: map<string, Status>, now: map<string, Status>,
      a: string, links: seq<Link>, j: nat)
    requires before.Keys == st.Keys == v.claims.Keys && a in v.defs && v.defs[a].grounding.links == links && j < |links|
    requires (forall y | y in before :: Contestable(before, st, y)) && ContestedSoFar(v, before, st, now, a, links, j)
    ensures var l := links[j];
      var hit := l.kind == Contradicts && Same(v, l.id, l.hash) && Same(v, a, v.defs[a].hash)
        && Open(now[a]) && Open(now[l.id]);
      ContestedSoFar(v, before, st, if hit then now[a := Contested][l.id := Contested] else now, a, links, j + 1)
  {
    var l := links[j];
    if l.kind == Contradicts && Same(v, a, v.defs[a].hash) && Same(v, l.id, l.hash) {
      OpenConflict(v, before, st, now, a, links, j);
    }
  }

  lemma ContestEnd(v: View, before: map<string, Status>, st: map<string, Status>, now: map<string, Status>,
      a: string, links: seq<Link>)
    requires a in v.defs && v.defs[a].grounding.links == links && ContestedSoFar(v, before, st, now, a, links, |links|)
    ensures forall y | y in now :: now[y] == if ConflictBy(v, DeadIn(before), a, y) then Contested else st[y]
  {
    hide Conflict;
    forall y | y in now && ConflictBy(v, DeadIn(before), a, y) ensures now[y] == Contested {
      var l :| Conflict(v, DeadIn(before), a, l) && (y == a || y == l.id);
      LinkOf(v, DeadIn(before), a, l);
      var k :| 0 <= k < |links| && links[k] == l;
    }
  }

  lemma LinkOf(v: View, dead: set<string>, a: string, l: Link)
    requires Conflict(v, dead, a, l)
    ensures a in v.defs && l in v.defs[a].grounding.links
  {}

  predicate Open(s: Status) { Usable(s) || s == Contested }

  /** Within the phase a status is as before, or contested from usable. */
  ghost predicate Contestable(before: map<string, Status>, now: map<string, Status>, y: string)
    requires y in before && now.Keys == before.Keys
  {
    before[y] != Contested && (now[y] == before[y] || (now[y] == Contested && Usable(before[y])))
  }

  lemma OpenBefore(v: View, before: map<string, Status>, mid: map<string, Status>,
      now: map<string, Status>, a: string, y: string)
    requires y in before && mid.Keys == now.Keys == before.Keys && Contestable(before, mid, y)
    requires now[y] == mid[y] || ConflictBy(v, DeadIn(before), a, y)
    ensures Open(now[y]) && y in v.claims ==> y !in DeadIn(before)
  {}

  lemma HoldsLists(entries: seq<Entry>, defs: Defs)
    requires Holds(entries, defs)
    ensures Lists(entries, defs)
  {}

  lemma ContestsUsable(v: View, before: map<string, Status>, a: string, y: string)
    requires before.Keys == v.claims.Keys && y in before && ConflictBy(v, DeadIn(before), a, y)
    ensures Usable(before[y])
  {}

  lemma ListingCovers(v: View, entries: seq<Entry>, defs: Defs)
    requires Lists(entries, defs) && v.defs == defs
    ensures Covers(v, Ids(entries)) && forall a | a in defs :: a in Ids(entries)
  {}

  lemma ListedAt(entries: seq<Entry>, defs: Defs, i: nat)
    requires Lists(entries, defs) && i < |entries|
    ensures entries[i].def.id in defs && defs[entries[i].def.id] == entries[i].def
  {
    assert Holder(entries[i].def, defs);
  }

  /** Only listed entries supersede or contradict. */
  lemma RelatedListed(v: View, entries: seq<Entry>, defs: Defs, dead: set<string>, a: string, y: string)
    requires Lists(entries, defs) && v.defs == defs && (SupersededBy(v, a, y) || ConflictBy(v, dead, a, y))
    ensures a in Ids(entries)
  {}
}
