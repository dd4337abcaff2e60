/** The graph of SUPPORTS links: what `reaches` (src/knowledge_validate.c:15-29) decides,
    and why the links it accepts never close a cycle. */
module SupportGraph {
  import opened Knowledge

  const DEPTH: nat := 32

  predicate Edge(g: Defs, x: string, y: string) {
    x in g && exists l :: l in g[x].grounding.links && l.kind == Supports && l.id == y
  }

  ghost predicate Walk(g: Defs, p: seq<string>) {
    p != [] && forall i | 0 <= i < |p| - 1 :: Edge(g, p[i], p[i + 1])
  }

  /** No walk of positive length comes back to where it started. */
  ghost predicate Acyclic(g: Defs) {
    forall p | Walk(g, p) && |p| >= 2 :: p[0] != p[|p| - 1]
  }

  /** What the unpruned search with k levels left finds nothing in. */
  ghost predicate Safe(g: Defs, target: string, x: string, k: nat)
    decreases k
  {
    k > 0 && x != target && forall y | Edge(g, x, y) :: Safe(g, target, y, k - 1)
  }

  lemma {:induction false} SafeMonotone(g: Defs, target: string, x: string, k: nat, m: nat)
    requires Safe(g, target, x, k) && k <= m
    ensures Safe(g, target, x, m)
    decreases k
  {
    forall y | Edge(g, x, y) ensures Safe(g, target, y, m - 1) { SafeMonotone(g, target, y, k - 1, m - 1); }
  }

  /** A walk that refutes an acceptance: it meets the target or has k edges. */
  ghost predicate Refutes(g: Defs, target: string, x: string, k: nat, p: seq<string>) {
    Walk(g, p) && p[0] == x && (p[|p| - 1] == target || |p| > k)
  }

  lemma {:induction false} SafeRefutesNothing(g: Defs, target: string, x: string, k: nat, p: seq<string>)
    requires Safe(g, target, x, k) && Walk(g, p) && p[0] == x
    ensures p[|p| - 1] != target && |p| <= k
    decreases k
  {
    if |p| > 1 {
      assert Edge(g, p[0], p[1]);
      assert forall i | 0 <= i < |p[1..]| - 1 :: Edge(g, p[1..][i], p[1..][i + 1]);
      SafeRefutesNothing(g, target, p[1], k - 1, p[1..]);
    }
  }

  lemma {:induction false} UnsafeHasWalk(g: Defs, target: string, x: string, k: nat) returns (p: seq<string>)
    requires !Safe(g, target, x, k)
    ensures Refutes(g, target, x, k, p)
    decreases k
  {
    p := [x];
    if k > 0 && x != target {
      var y :| Edge(g, x, y) && !Safe(g, target, y, k - 1);
      var q := UnsafeHasWalk(g, target, y, k - 1);
      p := [x] + q;
      assert forall i | 0 < i < |p| - 1 :: p[i] == q[i - 1] && p[i + 1] == q[i] && Edge(g, q[i - 1], q[i]);
    }
  }

  /** The search accepts exactly when no walk from x meets the target and every walk from x
      has fewer than k edges. */
  lemma SafeIsNoWalk(g: Defs, target: string, x: string, k: nat)
    ensures Safe(g, target, x, k) <==> !exists p :: Refutes(g, target, x, k, p)
  {
    if Safe(g, target, x, k) {
      forall p | Walk(g, p) && p[0] == x ensures !Refutes(g, target, x, k, p) {
        SafeRefutesNothing(g, target, x, k, p);
      }
    } else {
      var p := UnsafeHasWalk(g, target, x, k);
    }
  }

  lemma Shifted(p: seq<string>, i: nat, k: nat)
    requires i < |p| && p[0] == p[|p| - 1] && k < |p| - 1
    ensures var at := if k < |p| - 1 - i then k + i else k + i - (|p| - 1);
            (p[i..] + p[1..i + 1])[k] == p[at] && (p[i..] + p[1..i + 1])[k + 1] == p[at + 1]
  {}

  /** A closed walk may start at any of its nodes. */
  lemma Rotate(h: Defs, p: seq<string>, i: nat) returns (q: seq<string>)
    requires Walk(h, p) && p[0] == p[|p| - 1] && i < |p| - 1
    ensures Walk(h, q) && |q| == |p| && q[0] == q[|q| - 1] == p[i]
  {
    hide Edge;
    q := p[i..] + p[1..i + 1];
    forall k | 0 <= k < |q| - 1 ensures Edge(h, q[k], q[k + 1]) {
      Shifted(p, i, k);
      var at := if k < |p| - 1 - i then k + i else k + i - (|p| - 1);
      assert Edge(h, p[at], p[at + 1]);
    }
  }

  /** Away from r the new graph is the old one. */
  lemma OldWalk(g: Defs, d: Definition, p: seq<string>)
    requires Walk(g[d.id := d], p) && forall i | 0 <= i < |p| - 1 :: p[i] != d.id
    ensures Walk(g, p)
  {
    forall i | 0 <= i < |p| - 1 ensures Edge(g, p[i], p[i + 1]) { assert Edge(g[d.id := d], p[i], p[i + 1]); }
  }

  /** A walk of the new graph from r to r leaves by a support of the new definition, from
      which the old graph already led back to r. */
  lemma ReturnWalk(g: Defs, d: Definition, q: seq<string>) returns (l: Link, w: seq<string>)
    requires Walk(g[d.id := d], q) && |q| >= 2 && q[0] == d.id && q[|q| - 1] == d.id
    ensures l in d.grounding.links && l.kind == Supports && Walk(g, w) && w[0] == l.id && w[|w| - 1] == d.id
  {
    var h := g[d.id := d];
    var j := FirstReturn(q, d.id);
    assert Edge(h, q[0], q[1]);
    l :| l in d.grounding.links && l.kind == Supports && l.id == q[1];
    w := q[1..j + 1];
    forall k | 0 <= k < |w| - 1 ensures Edge(h, w[k], w[k + 1]) && w[k] != d.id {
      assert q[k + 1] != d.id && Edge(h, q[k + 1], q[k + 2]);
    }
    OldWalk(g, d, w);
  }

  /** Replacing the definition of r keeps the graph acyclic when no support of the new
      definition could reach r before. */
  lemma GroundingKeepsAcyclic(g: Defs, d: Definition)
    requires Acyclic(g)
    requires forall l | l in d.grounding.links && l.kind == Supports :: Safe(g, d.id, l.id, DEPTH)
    ensures Acyclic(g[d.id := d])
  {
    var h := g[d.id := d];
    forall p | Walk(h, p) && |p| >= 2 ensures p[0] != p[|p| - 1] {
      if p[0] == p[|p| - 1] {
        if i :| 0 <= i < |p| - 1 && p[i] == d.id {
          var q := Rotate(h, p, i);
          var l, w := ReturnWalk(g, d, q);
          SafeRefutesNothing(g, d.id, l.id, DEPTH, w);
        } else {
          OldWalk(g, d, p);
        }
        assert false;
      }
    }
  }

  lemma FirstReturn(q: seq<string>, x: string) returns (j: nat)
    requires |q| >= 2 && q[|q| - 1] == x
    ensures 1 <= j < |q| && q[j] == x && forall k | 1 <= k < j :: q[k] != x
  {
    j := 1;
    while q[j] != x
      invariant 1 <= j < |q| && forall k | 1 <= k < j :: q[k] != x
      decreases |q| - j
    {
      j := j + 1;
    }
  }
}
