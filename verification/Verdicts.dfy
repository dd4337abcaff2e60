/** What the status of a record says about the record and its grounding, field by field
    (src/knowledge_status.c:33-117). */
module Verdicts {
  import opened Knowledge
  import opened Validity
  import opened StatusFold
  import opened KnowledgeStatus

  /** The last observation of the resource is this version. */
  ghost predicate Seen(obs: seq<Dependency>, resource: string, version: string) {
    version != "" && exists i :: 0 <= i < |obs| && FirstSeen(obs, i, resource) && obs[i].version == version
  }

  ghost predicate FirstSeen(obs: seq<Dependency>, i: nat, resource: string) {
    i < |obs| && obs[i].resource == resource && forall j | 0 <= j < i :: obs[j].resource != resource
  }

  lemma {:induction false} LookupMeans(obs: seq<Dependency>, d: Dependency)
    ensures Fresh(obs, d) <==> Seen(obs, d.resource, d.version)
  {
    if obs != [] {
      LookupMeans(obs[1..], d);
      if i :| 0 <= i < |obs| && FirstSeen(obs, i, d.resource) && obs[i].version == d.version {
        assert i > 0 ==> FirstSeen(obs[1..], i - 1, d.resource);
      }
      if obs[0].resource == d.resource { assert FirstSeen(obs, 0, d.resource); }
      if i :| 0 <= i < |obs[1..]| && FirstSeen(obs[1..], i, d.resource) && obs[1..][i].version == d.version {
        assert obs[0].resource != d.resource ==> FirstSeen(obs, i + 1, d.resource);
      }
    }
  }

  /** The record's own state and grounding let it be used. */
  ghost predicate Fit(w: World, x: string)
    requires x in w.view.claims
  {
    var c := w.view.claims[x];
    && !w.poisoned && !c.deprecated && (c.expires == 0 || w.now < c.expires)
    && (x in w.view.defs ==>
          var d := w.view.defs[x];
          && !d.grounding.revoked && w.view.hash(c.content) == d.hash && x in w.trusted
          && forall y | y in d.grounding.dependencies :: Seen(w.obs, y.resource, y.version))
  }

  ghost predicate InSpan(spans: seq<Span>, b: nat) {
    exists s :: 0 <= s < |spans| && spans[s].claimBegin <= b && b < spans[s].claimEnd
  }

  /** Every byte of the claim lies in a cited span. */
  ghost predicate Whole(w: World, x: string)
    requires x in w.view.claims && x in w.view.defs
  {
    forall b | 0 <= b < |w.view.claims[x].content| :: InSpan(w.view.defs[x].grounding.spans, b)
  }

  ghost predicate Backed(g: Grounding) { exists l :: l in g.links && l.kind == Supports }

  lemma InSpanMeans(spans: seq<Span>, b: nat)
    ensures ByteCovered(spans, b) <==> InSpan(spans, b)
  {
    if s :| 0 <= s < |spans| && spans[s].claimBegin <= b && b < spans[s].claimEnd { assert spans[s] in spans; }
  }

  lemma FitIsStanding(w: World, x: string)
    requires x in w.view.claims
    ensures Standing(w, x) <==> Fit(w, x)
  {
    hide Fresh, Seen;
    if x in w.view.defs {
      forall d | d in w.view.defs[x].grounding.dependencies
        ensures Fresh(w.obs, d) <==> Seen(w.obs, d.resource, d.version)
      {
        LookupMeans(w.obs, d);
      }
    }
  }

  lemma CertifiedMeans(w: World, x: string)
    requires x in w.view.claims
    ensures Certified(w, x) <==> Fit(w, x) && x in w.view.defs && (Whole(w, x) || Backed(w.view.defs[x].grounding))
  {
    FitIsStanding(w, x);
    hide Standing, Fit;
    if x in w.view.defs {
      var spans := w.view.defs[x].grounding.spans;
      hide ByteCovered, InSpan;
      forall b: nat ensures ByteCovered(spans, b) <==> InSpan(spans, b) { InSpanMeans(spans, b); }
    }
  }

  /** A record in use is fit, and nobody corrected it; a current one is also fully cited or
      supported. */
  lemma UsableMeans(w: World, st: map<string, Status>, x: string)
    requires Verdict(w, st) && st.Keys == w.view.claims.Keys && x in st
    ensures st[x] == Current || st[x] == Unverified ==> Fit(w, x)
    ensures st[x] == Current || st[x] == Unverified ==>
      forall a, l | a in w.view.defs && l in w.view.defs[a].grounding.links && l.kind == Supersedes ::
        l.id != x || w.view.hash(w.view.claims[x].content) != l.hash
    ensures st[x] == Current ==> x in w.view.defs && (Whole(w, x) || Backed(w.view.defs[x].grounding))
  {
    VerdictFacts(w, st, x);
    FitIsStanding(w, x);
    CertifiedMeans(w, x);
    hide Fit, Standing, Certified, Verdict, Whole;
    forall a, l | Usable(st[x]) && a in w.view.defs && l in w.view.defs[a].grounding.links && l.kind == Supersedes
      ensures l.id != x || w.view.hash(w.view.claims[x].content) != l.hash
    {
      assert !SupersededBy(w.view, a, x);
    }
  }

  /** No link but a support leads to the record, and its own links neither support nor contradict. */
  ghost predicate Alone(v: View, x: string) {
    && (forall a, l | a in v.defs && l in v.defs[a].grounding.links && l.kind != Supports :: l.id != x)
    && (x in v.defs ==> forall l | l in v.defs[x].grounding.links :: l.kind == Supersedes)
  }

  lemma AloneSpreads(v: View, seed: set<string>, x: string)
    requires Alone(v, x) && x in v.claims
    ensures x in Spread(v, seed) <==> x in seed
  {
    SpreadClosed(v, seed);
    if x in Spread(v, seed) {
      var k: nat :| TaintedIn(v, seed, x, k);
    }
  }

  lemma AloneUnrelated(v: View, dead: set<string>, x: string)
    requires Alone(v, x)
    ensures x !in Superseded(v) && x !in Conflicted(v, dead)
  {}

  /** For a record that only its own grounding can affect, the status is decided by that grounding:
      usable exactly when fit, current exactly when also fully cited. */
  lemma AloneDecides(w: World, st: map<string, Status>, x: string)
    requires Verdict(w, st) && st.Keys == w.view.claims.Keys && x in st && Alone(w.view, x)
    ensures st[x] == Current || st[x] == Unverified <==> Fit(w, x)
    ensures st[x] == Current <==> Fit(w, x) && x in w.view.defs && Whole(w, x)
  {
    var v := w.view;
    FitIsStanding(w, x);
    CertifiedMeans(w, x);
    hide Fit, Whole, Standing, Certified, Spread, Conflicted, Superseded, Alone;
    if x in v.defs { OwnLinks(v, x); }
    hide Backed;
    var d := Spread(v, Fallen(w) + Superseded(v));
    AloneUnrelated(v, d, x);
    AloneSpreads(v, Fallen(w) + Superseded(v), x);
    AloneSpreads(v, d + Conflicted(v, d), x);
    AloneSpreads(v, Uncertified(w) + Superseded(v), x);
    AloneSpreads(v, Spread(v, Uncertified(w) + Superseded(v)) + Conflicted(v, d), x);
    assert x in DeadIn(st) <==> !Usable(st[x]);
    assert x in WeakIn(st) <==> st[x] != Current;
  }

  lemma OwnLinks(v: View, x: string)
    requires Alone(v, x) && x in v.defs
    ensures !Backed(v.defs[x].grounding)
  {}
}
