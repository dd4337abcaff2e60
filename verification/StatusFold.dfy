/** What `asper_knowledge_refresh` makes of every single status, as a fold over the entries in id
    order (src/knowledge_status.c:38-117). The order of the record table does not occur in it. */
module StatusFold {
  import opened Knowledge
  import opened StrOrder
  import opened Validity
  import A = Acknowledgements

  /** The version last observed for a resource; "" when unknown. */
  function Lookup(obs: seq<Dependency>, resource: string): string {
    if obs == [] then "" else if obs[0].resource == resource then obs[0].version else Lookup(obs[1..], resource)
  }

  predicate ByteCovered(spans: seq<Span>, b: nat) {
    exists s :: s in spans && s.claimBegin <= b < s.claimEnd
  }

  predicate HasSupport(g: Grounding) { exists l :: l in g.links && l.kind == Supports }

  /** A record whose time is over. */
  predicate Retired(w: World, c: Claim) { c.deprecated || (c.expires != 0 && w.now >= c.expires) }

  /** Everything `initial` looks at besides the record itself. */
  datatype World = World(view: View, trusted: set<string>, obs: seq<Dependency>, now: int, poisoned: bool)

  /** The first dependency that is not as recorded decides; Current when all are. */
  function Observation(obs: seq<Dependency>, deps: seq<Dependency>): Status {
    if deps == [] then Current
    else if Lookup(obs, deps[0].resource) == "" then Unavailable
    else if Lookup(obs, deps[0].resource) != deps[0].version then Stale
    else Observation(obs, deps[1..])
  }

  ghost predicate Cited(content: string, spans: seq<Span>) {
    forall b | 0 <= b < |content| :: ByteCovered(spans, b)
  }

  ghost function Initially(w: World, x: string): Status
    requires x in w.view.claims
  {
    var c := w.view.claims[x];
    if w.poisoned then Unavailable
    else if Retired(w, c) then Stale
    else if x !in w.view.defs then Unverified
    else
      var d := w.view.defs[x];
      if d.grounding.revoked then Revoked
      else if !Same(w.view, x, d.hash) then Stale
      else if x !in w.trusted then Unavailable
      else if Observation(w.obs, d.grounding.dependencies) != Current then Observation(w.obs, d.grounding.dependencies)
      else if Cited(c.content, d.grounding.spans) || HasSupport(d.grounding) then Current
      else Unverified
  }

  /** What one support link makes of the status of the record that has it. */
  function Inherit(v: View, st: map<string, Status>, own: Status, l: Link): Status {
    if l.kind != Supports then own
    else if !Same(v, l.id, l.hash) || l.id !in st then Stale
    else if !Usable(st[l.id]) then if st[l.id] == Revoked then Stale else st[l.id]
    else if st[l.id] == Unverified then Unverified
    else own
  }

  /** The links in turn, until the record is unusable. */
  function Heir(v: View, st: map<string, Status>, x: string, links: seq<Link>): Status
    requires x in st
  {
    if links == [] || !Usable(st[x]) then st[x]
    else Heir(v, st[x := Inherit(v, st, st[x], links[0])], x, links[1..])
  }

  function VisitOf(v: View, st: map<string, Status>, x: string): map<string, Status> {
    if x in st && x in v.defs then st[x := Heir(v, st, x, v.defs[x].grounding.links)] else st
  }

  function PassOf(v: View, st: map<string, Status>, ids: seq<string>): map<string, Status> {
    if ids == [] then st else VisitOf(v, PassOf(v, st, ids[..|ids| - 1]), ids[|ids| - 1])
  }

  function Passes(v: View, st: map<string, Status>, ids: seq<string>, k: nat): map<string, Status> {
    if k == 0 then st else PassOf(v, Passes(v, st, ids, k - 1), ids)
  }

  ghost function SupersededOf(v: View, st: map<string, Status>): map<string, Status> {
    map y | y in st :: if IsSuperseded(v, y) && st[y] != Revoked then Stale else st[y]
  }

  ghost function ContestedOf(v: View, st: map<string, Status>): map<string, Status> {
    map y | y in st :: if InConflict(v, DeadIn(st), y) then Contested else st[y]
  }

  ghost function DeadIn(st: map<string, Status>): set<string> { set x | x in st && !Usable(st[x]) }

  /** The status of every record, given the entries in this order. */
  ghost function Outcome(w: World, ids: seq<string>): map<string, Status> {
    var s := SupersededOf(w.view, map x | x in w.view.claims :: Initially(w, x));
    Passes(w.view, ContestedOf(w.view, Passes(w.view, s, ids, |ids|)), ids, |ids|)
  }

  lemma PassStep(v: View, st: map<string, Status>, ids: seq<string>, i: nat)
    ensures PassOf(v, st, ids[..0]) == st
    ensures i < |ids| ==> PassOf(v, st, ids[..i + 1]) == VisitOf(v, PassOf(v, st, ids[..i]), ids[i])
  {
    if i < |ids| { assert ids[..i + 1][..i] == ids[..i]; }
  }

  /** After a pass that changes nothing, further passes change nothing. */
  lemma {:induction false} PassesStay(v: View, st: map<string, Status>, ids: seq<string>, j: nat, k: nat)
    requires j <= k && PassOf(v, Passes(v, st, ids, j), ids) == Passes(v, st, ids, j)
    ensures Passes(v, st, ids, k) == Passes(v, st, ids, j)
  {
    if j < k { PassesStay(v, st, ids, j, k - 1); }
  }

  /** The table is sorted by id, so the definitions fix its order. */
  lemma OneListing(a: seq<Entry>, b: seq<Entry>, defs: Defs)
    requires Holds(a, defs) && Holds(b, defs)
    ensures Ids(a) == Ids(b)
  {
    forall y ensures y in Ids(a) <==> y in Ids(b) {
      if y in Ids(a) { var i :| 0 <= i < |a| && Ids(a)[i] == y; assert Holder(a[i].def, defs); }
      if y in Ids(b) { var i :| 0 <= i < |b| && Ids(b)[i] == y; assert Holder(b[i].def, defs); }
    }
    A.SortedSetUnique(Ids(a), Ids(b));
  }
}
