/** Why a record is not usable: every such status has its ground in the record, in a relation to it,
    or in a record it rests on (src/knowledge_status.c:38-117). */
module Reasons {
  import opened Knowledge
  import opened Validity
  import opened StatusFold
  import opened KnowledgeStatus
  import opened Verdicts

  ghost predicate Says(v: View, id: string, hash: string) {
    id in v.claims && v.hash(v.claims[id].content) == hash
  }

  ghost predicate Corrected(v: View, x: string) {
    exists a, l :: a in v.defs && l in v.defs[a].grounding.links && l.kind == Supersedes && l.id == x &&
      Says(v, x, l.hash)
  }

  /** The record and another one contradict each other, and both still say what was grounded. */
  ghost predicate Disputed(v: View, x: string) {
    exists a, l :: a in v.defs && l in v.defs[a].grounding.links && l.kind == Contradicts && (x == a || x == l.id) &&
      Says(v, a, v.defs[a].hash) && Says(v, l.id, l.hash)
  }

  ghost predicate Unseen(obs: seq<Dependency>, resource: string) { forall version :: !Seen(obs, resource, version) }

  /** A ground in the record itself or in a relation somebody stated about it. */
  ghost predicate OwnReason(w: World, x: string, s: Status)
    requires x in w.view.claims
  {
    var c := w.view.claims[x];
    match s
    case Unavailable =>
      || w.poisoned
      || (x in w.view.defs && (x !in w.trusted ||
            exists d :: d in w.view.defs[x].grounding.dependencies && Unseen(w.obs, d.resource)))
    case Stale =>
      || c.deprecated || (c.expires != 0 && c.expires <= w.now) || Corrected(w.view, x)
      || (x in w.view.defs && (w.view.hash(c.content) != w.view.defs[x].hash ||
            exists d :: d in w.view.defs[x].grounding.dependencies && !Seen(w.obs, d.resource, d.version)))
    case Contested => Disputed(w.view, x)
    case Revoked => !w.poisoned && x in w.view.defs && w.view.defs[x].grounding.revoked
    case _ => true
  }

  /** A ground in a record it rests on. */
  ghost predicate Handed(v: View, st: map<string, Status>, x: string, s: Status) {
    x in v.defs && exists l :: l in v.defs[x].grounding.links && l.kind == Supports && HandedBy(v, st, l, s)
  }

  ghost predicate HandedBy(v: View, st: map<string, Status>, l: Link, s: Status) {
    || (s == Stale && (!Says(v, l.id, l.hash) || (l.id in st && st[l.id] in {Stale, Revoked})))
    || (s in {Unavailable, Contested} && l.id in st && st[l.id] == s)
  }

  ghost predicate Reasoned(w: World, st: map<string, Status>) {
    st.Keys == w.view.claims.Keys && forall x | x in st :: OwnReason(w, x, st[x]) || Handed(w.view, st, x, st[x])
  }

  lemma UnseenMeans(obs: seq<Dependency>, resource: string)
    requires Lookup(obs, resource) == ""
    ensures Unseen(obs, resource)
  {
    forall version ensures !Seen(obs, resource, version) { LookupMeans(obs, Dependency(resource, version)); }
  }

  lemma InitiallyReason(w: World, x: string)
    requires x in w.view.claims
    ensures OwnReason(w, x, Initially(w, x))
  {
    InitiallyFacts(w, x);
    hide Initially, Seen;
    if x in w.view.defs {
      forall d | d in w.view.defs[x].grounding.dependencies && Lookup(w.obs, d.resource) == ""
        ensures Unseen(w.obs, d.resource)
      {
        UnseenMeans(w.obs, d.resource);
      }
      forall d | d in w.view.defs[x].grounding.dependencies && Lookup(w.obs, d.resource) != d.version
        ensures !Seen(w.obs, d.resource, d.version)
      {
        LookupMeans(w.obs, d);
      }
    }
  }

  lemma CorrectedMeans(v: View, x: string)
    requires IsSuperseded(v, x)
    ensures Corrected(v, x)
  {
    var a :| SupersededBy(v, a, x);
    var l :| l in v.defs[a].grounding.links && l.kind == Supersedes && l.id == x && Same(v, x, l.hash);
    assert Says(v, x, l.hash);
  }

  lemma DisputedMeans(v: View, dead: set<string>, x: string)
    requires InConflict(v, dead, x)
    ensures Disputed(v, x) && x !in dead
  {
    var a :| ConflictBy(v, dead, a, x);
    var l :| Conflict(v, dead, a, l) && (x == a || x == l.id);
    assert Says(v, a, v.defs[a].hash) && Says(v, l.id, l.hash);
  }

  /** Statuses that are settled stay; what changes has its reason. */
  ghost predicate Moves(w: World, st: map<string, Status>, t: map<string, Status>) {
    && t.Keys == st.Keys == w.view.claims.Keys && (forall y | y in st && !Usable(st[y]) :: t[y] == st[y])
    && forall y | y in st && t[y] != st[y] :: OwnReason(w, y, t[y]) || Handed(w.view, st, y, t[y])
  }

  lemma HandedStays(v: View, st: map<string, Status>, t: map<string, Status>, x: string, s: Status)
    requires Handed(v, st, x, s) && t.Keys == st.Keys && forall y | y in st && !Usable(st[y]) :: t[y] == st[y]
    ensures Handed(v, t, x, s)
  {
    var l :| l in v.defs[x].grounding.links && l.kind == Supports && HandedBy(v, st, l, s);
    assert HandedBy(v, t, l, s);
  }

  lemma MovesKeep(w: World, st: map<string, Status>, t: map<string, Status>)
    requires Reasoned(w, st) && Moves(w, st, t)
    ensures Reasoned(w, t)
  {
    hide OwnReason, Handed;
    forall x | x in t ensures OwnReason(w, x, t[x]) || Handed(w.view, t, x, t[x]) {
      if Handed(w.view, st, x, t[x]) { HandedStays(w.view, st, t, x, t[x]); }
    }
  }

  lemma {:induction false} HeirReason(v: View, st: map<string, Status>, now: map<string, Status>, x: string,
      links: seq<Link>)
    requires x in st && st.Keys == v.claims.Keys && Usable(st[x])
    requires x in now && now == st[x := now[x]] && Usable(now[x])
    ensures var s := Heir(v, now, x, links);
      Usable(s) || exists l :: l in links && l.kind == Supports && HandedBy(v, st, l, s)
  {
    if links != [] {
      var l, next := links[0], Inherit(v, now, now[x], links[0]);
      assert l in links;
      if Usable(next) {
        HeirReason(v, st, now[x := next], x, links[1..]);
        assert forall k | k in links[1..] :: k in links;
      } else {
        assert HandedBy(v, st, l, next);
      }
    }
  }

  lemma VisitMoves(w: World, st: map<string, Status>, x: string)
    requires st.Keys == w.view.claims.Keys
    ensures Moves(w, st, VisitOf(w.view, st, x))
  {
    hide OwnReason, HandedBy;
    if x in st && x in w.view.defs && Usable(st[x]) {
      HeirReason(w.view, st, st, x, w.view.defs[x].grounding.links);
      UsableHasReason(w, x, VisitOf(w.view, st, x)[x]);
    }
  }

  lemma UsableHasReason(w: World, x: string, s: Status)
    requires x in w.view.claims
    ensures Usable(s) ==> OwnReason(w, x, s)
  {}

  lemma {:induction false} PassReasoned(w: World, st: map<string, Status>, ids: seq<string>)
    requires Reasoned(w, st)
    ensures Reasoned(w, PassOf(w.view, st, ids))
  {
    if ids != [] {
      var before := PassOf(w.view, st, ids[..|ids| - 1]);
      PassReasoned(w, st, ids[..|ids| - 1]);
      VisitMoves(w, before, ids[|ids| - 1]);
      MovesKeep(w, before, VisitOf(w.view, before, ids[|ids| - 1]));
    }
  }

  lemma {:induction false} PassesReasoned(w: World, st: map<string, Status>, ids: seq<string>, k: nat)
    requires Reasoned(w, st)
    ensures Reasoned(w, Passes(w.view, st, ids, k))
  {
    if k > 0 {
      PassesReasoned(w, st, ids, k - 1);
      PassReasoned(w, Passes(w.view, st, ids, k - 1), ids);
    }
  }

  lemma SupersededReasoned(w: World)
    ensures Reasoned(w, SupersededOf(w.view, map x | x in w.view.claims :: Initially(w, x)))
  {
    hide Initially, IsSuperseded;
    var st := map x | x in w.view.claims :: Initially(w, x);
    var t := SupersededOf(w.view, st);
    forall x | x in t ensures OwnReason(w, x, t[x]) {
      InitiallyReason(w, x);
      if IsSuperseded(w.view, x) { CorrectedMeans(w.view, x); }
    }
  }

  lemma ContestedReasoned(w: World, st: map<string, Status>)
    requires Reasoned(w, st)
    ensures Reasoned(w, ContestedOf(w.view, st))
  {
    hide InConflict, Handed;
    var t := ContestedOf(w.view, st);
    forall x | x in st && InConflict(w.view, DeadIn(st), x) ensures Disputed(w.view, x) && Usable(st[x]) {
      DisputedMeans(w.view, DeadIn(st), x);
    }
    hide Disputed;
    MovesKeep(w, st, t);
  }

  /** Every status has its reason, at the end of a refresh in any order of the entries. */
  lemma OutcomeReasoned(w: World, ids: seq<string>)
    ensures Reasoned(w, Outcome(w, ids))
  {
    hide Reasoned, Passes, SupersededOf, ContestedOf, Initially;
    var s := SupersededOf(w.view, map x | x in w.view.claims :: Initially(w, x));
    SupersededReasoned(w);
    PassesReasoned(w, s, ids, |ids|);
    ContestedReasoned(w, Passes(w.view, s, ids, |ids|));
    PassesReasoned(w, ContestedOf(w.view, Passes(w.view, s, ids, |ids|)), ids, |ids|);
  }
}
