/** What the validity projection of src/knowledge_status.c computes, stated on maps, so that
    no order of records or entries enters: the least sets of unusable and of not-current
    records closed under the support links. */
module Validity {
  import opened Knowledge
  import opened Sets

  datatype Status = Unverified | Current | Stale | Contested | Revoked | Unavailable

  predicate Usable(s: Status) { s == Unverified || s == Current }

  /** The live records, their content digests and the grounding definitions. */
  datatype View = View(hash: string -> string, claims: map<string, Claim>, defs: Defs)

  /** `same_claim`: the record exists and still says what the link was made for. */
  predicate Same(v: View, id: string, hash: string) {
    id in v.claims && v.hash(v.claims[id].content) == hash
  }

  /** A support of x changed its claim, or lies in the set. */
  ghost predicate Undermined(v: View, bad: set<string>, x: string) {
    x in v.defs && exists l ::
      l in v.defs[x].grounding.links && l.kind == Supports && (!Same(v, l.id, l.hash) || l.id in bad)
  }

  /** A chain of at most k supports leads from x to the seed or to a changed claim. */
  ghost predicate TaintedIn(v: View, seed: set<string>, x: string, k: nat)
    decreases k
  {
    && x in v.claims
    && (x in seed
        || (k > 0 && x in v.defs
            && (exists l :: l in v.defs[x].grounding.links && l.kind == Supports
                           && (!Same(v, l.id, l.hash) || TaintedIn(v, seed, l.id, k - 1)))))
  }

  ghost predicate Tainted(v: View, seed: set<string>, x: string) { exists k: nat :: TaintedIn(v, seed, x, k) }

  ghost function Spread(v: View, seed: set<string>): set<string> {
    set x | x in v.claims && Tainted(v, seed, x)
  }

  ghost predicate Closed(v: View, bad: set<string>) {
    forall x | x in v.claims && Undermined(v, bad, x) :: x in bad
  }

  /** Spread is closed ... */
  lemma SpreadClosed(v: View, seed: set<string>)
    ensures Closed(v, Spread(v, seed))
    ensures forall x | x in seed && x in v.claims :: x in Spread(v, seed)
  {
    var all := Spread(v, seed);
    forall x | x in v.claims && Undermined(v, all, x) ensures x in all {
      var l :| l in v.defs[x].grounding.links && l.kind == Supports && (!Same(v, l.id, l.hash) || l.id in all);
      if l.id in all {
        var k: nat :| TaintedIn(v, seed, l.id, k);
        assert TaintedIn(v, seed, x, k + 1);
      } else {
        assert TaintedIn(v, seed, x, 1);
      }
    }
    assert forall x | x in seed && x in v.claims :: TaintedIn(v, seed, x, 0);
  }

  /** ... and the least closed set above its seed. */
  lemma {:induction false} SpreadLeast(v: View, seed: set<string>, bad: set<string>, x: string, k: nat)
    requires Closed(v, bad) && (forall y | y in seed && y in v.claims :: y in bad) && TaintedIn(v, seed, x, k)
    ensures x in bad
    decreases k
  {
    if x !in seed {
      var l :| l in v.defs[x].grounding.links && l.kind == Supports &&
        (!Same(v, l.id, l.hash) || TaintedIn(v, seed, l.id, k - 1));
      if Same(v, l.id, l.hash) { SpreadLeast(v, seed, bad, l.id, k - 1); }
      assert Undermined(v, bad, x);
    }
  }

  lemma SpreadWithin(v: View, seed: set<string>, bad: set<string>)
    requires Closed(v, bad) && forall y | y in seed && y in v.claims :: y in bad
    ensures Spread(v, seed) <= bad
  {
    forall x | x in Spread(v, seed) ensures x in bad {
      var k: nat :| TaintedIn(v, seed, x, k);
      SpreadLeast(v, seed, bad, x, k);
    }
  }

  lemma SpreadMonotone(v: View, a: set<string>, b: set<string>)
    requires a <= b
    ensures Spread(v, a) <= Spread(v, b)
  {
    SpreadClosed(v, b);
    SpreadWithin(v, a, Spread(v, b));
  }

  // ----- In-place passes over some listing of the entries -----

  ghost function Step(v: View, bad: set<string>, x: string): set<string> {
    if x in v.claims && Undermined(v, bad, x) then bad + {x} else bad
  }

  ghost function Sweep(v: View, bad: set<string>, ids: seq<string>): set<string> {
    if ids == [] then bad else Step(v, Sweep(v, bad, ids[..|ids| - 1]), ids[|ids| - 1])
  }

  ghost predicate Covers(v: View, ids: seq<string>) { forall x | x in v.defs :: x in ids }

  lemma {:induction false} SweepStays(v: View, seed: set<string>, bad: set<string>, ids: seq<string>)
    ensures bad <= Sweep(v, bad, ids)
    ensures forall x | x in Sweep(v, bad, ids) :: x in bad || (x in ids && x in v.claims)
    ensures bad <= Spread(v, seed) ==> Sweep(v, bad, ids) <= Spread(v, seed)
  {
    if ids != [] {
      var rest := ids[..|ids| - 1];
      SweepStays(v, seed, bad, rest);
      SpreadClosed(v, seed);
      var before, x := Sweep(v, bad, rest), ids[|ids| - 1];
      assert Undermined(v, before, x) && before <= Spread(v, seed) ==> Undermined(v, Spread(v, seed), x);
    }
  }

  /** A pass that adds nothing has checked every entry against the final set. */
  lemma {:induction false} StableSweep(v: View, bad: set<string>, ids: seq<string>)
    ensures Sweep(v, bad, ids) == bad ==> forall x | x in ids && x in v.claims && Undermined(v, bad, x) :: x in bad
    ensures (forall x | x in ids && x in v.claims && Undermined(v, bad, x) :: x in bad) ==> Sweep(v, bad, ids) == bad
  {
    if ids != [] {
      var rest := ids[..|ids| - 1];
      assert ids == rest + [ids[|ids| - 1]];
      StableSweep(v, bad, rest);
      SweepStays(v, bad, bad, rest);
      assert Sweep(v, bad, rest) <= Sweep(v, bad, ids);
    }
  }

  lemma StableIsClosed(v: View, bad: set<string>, ids: seq<string>)
    requires Covers(v, ids)
    ensures Sweep(v, bad, ids) == bad <==> Closed(v, bad)
  {
    StableSweep(v, bad, ids);
  }

  ghost function Sweeps(v: View, bad: set<string>, ids: seq<string>, k: nat): set<string> {
    if k == 0 then bad else Sweep(v, Sweeps(v, bad, ids, k - 1), ids)
  }

  ghost function Pending(v: View, bad: set<string>, ids: seq<string>): set<string> {
    set x | x in ids && x in v.claims && x !in bad
  }

  /** Each pass is the last or settles at least one more entry. */
  lemma {:induction false} SweepsSettle(v: View, bad: set<string>, ids: seq<string>, k: nat)
    requires Covers(v, ids)
    ensures Closed(v, Sweeps(v, bad, ids, k)) || |Pending(v, Sweeps(v, bad, ids, k), ids)| + k <= |ids|
  {
    hide Closed, Sweep, Covers;
    if k == 0 {
      PendingBound(v, bad, ids);
    } else {
      SweepsSettle(v, bad, ids, k - 1);
      var b := Sweeps(v, bad, ids, k - 1);
      StableIsClosed(v, b, ids);
      var c := Sweep(v, b, ids);
      SweepStays(v, b, b, ids);
      if c != b {
        var x :| x in c && x !in b;
        var p, q := Pending(v, b, ids), Pending(v, c, ids);
        assert q <= p - {x};
        SubsetSize(q, p - {x});
      }
    }
  }

  lemma {:induction false} PendingBound(v: View, bad: set<string>, ids: seq<string>)
    ensures |Pending(v, bad, ids)| <= |ids|
  {
    if ids != [] {
      var rest, x := ids[..|ids| - 1], ids[|ids| - 1];
      assert ids == rest + [x];
      PendingBound(v, bad, rest);
      assert Pending(v, bad, ids) <= Pending(v, bad, rest) + {x};
      SubsetSize(Pending(v, bad, ids), Pending(v, bad, rest) + {x});
    }
  }

  lemma {:induction false} SweepsWithin(v: View, seed: set<string>, ids: seq<string>, k: nat)
    requires seed <= v.claims.Keys
    ensures seed <= Sweeps(v, seed, ids, k) <= Spread(v, seed)
  {
    SpreadClosed(v, seed);
    if k > 0 {
      SweepsWithin(v, seed, ids, k - 1);
      SweepStays(v, seed, Sweeps(v, seed, ids, k - 1), ids);
    }
  }

  /** One pass per entry reaches the least closed set, for every graph and every order of the
      entries: cycles and long chains included. */
  lemma EnoughPasses(v: View, seed: set<string>, ids: seq<string>, k: nat)
    requires Covers(v, ids) && seed <= v.claims.Keys && k >= |ids|
    ensures Sweeps(v, seed, ids, k) == Spread(v, seed)
  {
    var last := Sweeps(v, seed, ids, k);
    SweepsSettle(v, seed, ids, k);
    SweepsWithin(v, seed, ids, k);
    forall x | x in v.claims && Undermined(v, last, x) ensures x in last {
      assert x !in last ==> x in Pending(v, last, ids);
    }
    SpreadWithin(v, seed, last);
  }

  /** So does any earlier pass that changes nothing. */
  lemma StablePass(v: View, seed: set<string>, ids: seq<string>, k: nat)
    requires Covers(v, ids) && seed <= v.claims.Keys
    requires Sweep(v, Sweeps(v, seed, ids, k), ids) == Sweeps(v, seed, ids, k)
    ensures Sweeps(v, seed, ids, k) == Spread(v, seed)
  {
    StableIsClosed(v, Sweeps(v, seed, ids, k), ids);
    SweepsWithin(v, seed, ids, k);
    SpreadWithin(v, seed, Sweeps(v, seed, ids, k));
  }

  // ----- The verdict -----

  ghost predicate SupersededBy(v: View, a: string, x: string) {
    a in v.defs && exists l :: l in v.defs[a].grounding.links && l.kind == Supersedes && l.id == x && Same(v, x, l.hash)
  }

  ghost predicate IsSuperseded(v: View, x: string) { exists a :: SupersededBy(v, a, x) }

  ghost function Superseded(v: View): set<string> { set x | x in v.claims && IsSuperseded(v, x) }

  /** A live contradiction between two records outside the set. */
  predicate Conflict(v: View, dead: set<string>, a: string, l: Link) {
    && a in v.defs && l in v.defs[a].grounding.links && l.kind == Contradicts
    && Same(v, a, v.defs[a].hash) && Same(v, l.id, l.hash) && a !in dead && l.id !in dead
  }

  ghost predicate ConflictBy(v: View, dead: set<string>, a: string, x: string) {
    exists l :: Conflict(v, dead, a, l) && (x == a || x == l.id)
  }

  ghost predicate InConflict(v: View, dead: set<string>, x: string) { exists a :: ConflictBy(v, dead, a, x) }

  ghost function Conflicted(v: View, dead: set<string>): set<string> {
    set x | x in v.claims && InConflict(v, dead, x)
  }

  /** Retire superseded claims, spread, contest what is left in conflict, spread again. */
  ghost function Unusables(v: View, dead: set<string>): set<string> {
    var d := Spread(v, dead + Superseded(v));
    Spread(v, d + Conflicted(v, d))
  }

  ghost function NotCurrents(v: View, dead: set<string>, weak: set<string>): set<string> {
    Spread(v, Spread(v, weak + Superseded(v)) + Conflicted(v, Spread(v, dead + Superseded(v))))
  }

  /** A current record rests only on current records with unchanged claims; a usable one only
      on usable ones. */
  lemma CurrentRestsOnCurrent(v: View, dead: set<string>, weak: set<string>, x: string, l: Link)
    requires x in v.claims && x in v.defs && l in v.defs[x].grounding.links && l.kind == Supports
    ensures x !in NotCurrents(v, dead, weak) ==> Same(v, l.id, l.hash) && l.id !in NotCurrents(v, dead, weak)
    ensures x !in Unusables(v, dead) ==> Same(v, l.id, l.hash) && l.id !in Unusables(v, dead)
  {
    var d := Spread(v, dead + Superseded(v));
    SpreadClosed(v, Spread(v, weak + Superseded(v)) + Conflicted(v, d));
    SpreadClosed(v, d + Conflicted(v, d));
    assert !Same(v, l.id, l.hash) || l.id in NotCurrents(v, dead, weak) ==>
      Undermined(v, NotCurrents(v, dead, weak), x);
    assert !Same(v, l.id, l.hash) || l.id in Unusables(v, dead) ==> Undermined(v, Unusables(v, dead), x);
  }

  /** A superseded claim is unusable whatever became of the record that supersedes it. */
  lemma SupersededUnusable(v: View, dead: set<string>)
    ensures Superseded(v) <= Unusables(v, dead)
  {
    var d := Spread(v, dead + Superseded(v));
    SpreadClosed(v, dead + Superseded(v));
    SpreadClosed(v, d + Conflicted(v, d));
  }

  /** No two usable records contradict each other. */
  lemma NoUsableContradiction(v: View, dead: set<string>, a: string, l: Link)
    requires forall x | x in v.claims && x in v.defs && !Same(v, x, v.defs[x].hash) :: x in dead
    requires a in v.claims && a in v.defs && l in v.defs[a].grounding.links &&
      l.kind == Contradicts && Same(v, l.id, l.hash)
    ensures a in Unusables(v, dead) || l.id in Unusables(v, dead)
  {
    var d := Spread(v, dead + Superseded(v));
    SpreadClosed(v, dead + Superseded(v));
    SpreadClosed(v, d + Conflicted(v, d));
    assert Same(v, a, v.defs[a].hash) && a !in d && l.id !in d ==> Conflict(v, d, a, l) && ConflictBy(v, d, a, a);
  }

  lemma UnusableIsNotCurrent(v: View, dead: set<string>, weak: set<string>)
    requires dead <= weak
    ensures Unusables(v, dead) <= NotCurrents(v, dead, weak)
  {
    SpreadMonotone(v, dead + Superseded(v), weak + Superseded(v));
    var d := Spread(v, dead + Superseded(v));
    SpreadMonotone(v, d + Conflicted(v, d), Spread(v, weak + Superseded(v)) + Conflicted(v, d));
  }
}
