/** Linear probing over slots that hold index + 1, 0 when empty (src/record_table.c:107-163). */
module Probing {
  /** The slot d steps after home, wrapping around. */
  function At(cap: nat, home: nat, d: nat): (p: nat)
    requires home < cap && d < cap
    ensures p < cap
  {
    if home + d < cap then home + d else home + d - cap
  }

  function NonZero(slots: seq<nat>): nat {
    if slots == [] then 0 else NonZero(slots[..|slots| - 1]) + (if slots[|slots| - 1] == 0 then 0 else 1)
  }

  /** Entry i sits d steps after its home and every slot in between is taken. */
  ghost predicate ReachedAt(slots: seq<nat>, home: nat, i: nat, d: nat)
    requires home < |slots|
  {
    d < |slots| && slots[At(|slots|, home, d)] == i + 1 && forall k | 0 <= k < d :: slots[At(|slots|, home, k)] != 0
  }

  ghost predicate Reached(slots: seq<nat>, home: nat, i: nat)
    requires home < |slots|
  {
    exists d: nat :: ReachedAt(slots, home, i, d)
  }

  lemma {:induction false} NonZeroBound(slots: seq<nat>)
    ensures NonZero(slots) <= |slots|
    ensures NonZero(slots) < |slots| ==> exists p :: 0 <= p < |slots| && slots[p] == 0
  {
    if slots != [] {
      var rest := slots[..|slots| - 1];
      NonZeroBound(rest);
      if NonZero(rest) < |rest| {
        var p :| 0 <= p < |rest| && rest[p] == 0;
        assert slots[p] == 0;
      }
    }
  }

  lemma {:induction false} NonZeroFill(slots: seq<nat>, p: nat, v: nat)
    requires p < |slots| && slots[p] == 0 && v != 0
    ensures NonZero(slots[p := v]) == NonZero(slots) + 1
  {
    var rest := slots[..|slots| - 1];
    if p < |rest| {
      NonZeroFill(rest, p, v);
      assert slots[p := v][..|rest|] == rest[p := v];
    } else {
      assert slots[p := v][..|rest|] == rest;
    }
  }

  lemma {:induction false} NonZeroEmpty(n: nat)
    ensures NonZero(seq(n, _ => 0)) == 0
  {
    if n > 0 {
      NonZeroEmpty(n - 1);
      assert seq(n, _ => 0)[..n - 1] == seq(n - 1, _ => 0);
    }
  }

  /** Filling an empty slot interrupts no probe path. */
  lemma StillReached(slots: seq<nat>, p: nat, v: nat, home: nat, i: nat)
    requires p < |slots| && slots[p] == 0 && v != 0 && home < |slots| && Reached(slots, home, i)
    ensures Reached(slots[p := v], home, i)
  {
    var d: nat :| ReachedAt(slots, home, i, d);
    assert ReachedAt(slots[p := v], home, i, d);
  }

  lemma FilledReached(slots: seq<nat>, home: nat, i: nat, d: nat)
    requires home < |slots| && d < |slots| && forall k | 0 <= k < d :: slots[At(|slots|, home, k)] != 0
    requires slots[At(|slots|, home, d)] == 0
    ensures Reached(slots[At(|slots|, home, d) := i + 1], home, i)
  {
    assert ReachedAt(slots[At(|slots|, home, d) := i + 1], home, i, d);
  }

  /** A probe that met an empty slot after d taken ones has met every entry of this home. */
  lemma NotBeyond(slots: seq<nat>, home: nat, i: nat, d: nat)
    requires home < |slots| && d < |slots| && slots[At(|slots|, home, d)] == 0 && Reached(slots, home, i)
    ensures exists k :: 0 <= k < d && slots[At(|slots|, home, k)] == i + 1
  {
    var e: nat :| ReachedAt(slots, home, i, e);
    assert e < d;
  }

  /** While an empty slot lies ahead, a full turn cannot have passed. */
  lemma EmptyAhead(slots: seq<nat>, home: nat, d: nat)
    requires home < |slots| && d <= |slots| && NonZero(slots) < |slots|
    requires forall k | 0 <= k < d :: slots[At(|slots|, home, k)] != 0
    ensures d < |slots|
  {
    NonZeroBound(slots);
    var p :| 0 <= p < |slots| && slots[p] == 0;
    var k := if p >= home then p - home else p + |slots| - home;
    assert At(|slots|, home, k) == p;
  }
}
