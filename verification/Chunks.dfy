/** Concatenated chunks and the byte offsets at which they end. */
module Chunks {
  function Join(cs: seq<string>): string {
    if cs == [] then "" else Join(cs[..|cs| - 1]) + cs[|cs| - 1]
  }

  function End(cs: seq<string>, k: nat): nat
    requires k <= |cs|
  {
    |Join(cs[..k])|
  }

  lemma JoinSnoc(cs: seq<string>, c: string)
    ensures Join(cs + [c]) == Join(cs) + c
  {
    assert (cs + [c])[..|cs|] == cs;
  }

  lemma EndStep(cs: seq<string>, k: nat)
    requires k < |cs|
    ensures Join(cs[..k + 1]) == Join(cs[..k]) + cs[k]
    ensures End(cs, k + 1) == End(cs, k) + |cs[k]|
  {
    assert cs[..k + 1] == cs[..k] + [cs[k]];
    JoinSnoc(cs[..k], cs[k]);
  }

  lemma {:induction false} JoinPrefix(cs: seq<string>, k: nat)
    requires k <= |cs|
    ensures Join(cs[..k]) <= Join(cs)
    decreases |cs| - k
  {
    if k < |cs| {
      EndStep(cs, k);
      JoinPrefix(cs, k + 1);
    } else {
      assert cs[..k] == cs;
    }
  }

  lemma {:induction false} EndMonotone(cs: seq<string>, j: nat, k: nat)
    requires j < k <= |cs| && forall i | 0 <= i < |cs| :: cs[i] != ""
    ensures End(cs, j) < End(cs, k)
    decreases k
  {
    EndStep(cs, k - 1);
    if j < k - 1 { EndMonotone(cs, j, k - 1); }
  }

  lemma {:induction false} EndAtLeast(cs: seq<string>, k: nat)
    requires k <= |cs| && forall i | 0 <= i < |cs| :: cs[i] != ""
    ensures End(cs, k) >= k
  {
    if k > 0 {
      EndAtLeast(cs, k - 1);
      EndStep(cs, k - 1);
    }
  }

  /** Chunk k starts where chunk k - 1 ends. */
  lemma ChunkAt(cs: seq<string>, s: string, k: nat)
    requires k < |cs| && Join(cs) <= s
    ensures End(cs, k) + |cs[k]| == End(cs, k + 1) <= |s|
    ensures cs[k] <= s[End(cs, k)..]
    ensures Join(cs[..k]) == s[..End(cs, k)]
  {
    EndStep(cs, k);
    JoinPrefix(cs, k);
    JoinPrefix(cs, k + 1);
    var a, b := End(cs, k), End(cs, k + 1);
    assert s[..b] == Join(cs[..k + 1]);
    assert s[a..][..b - a] == s[..b][a..] == cs[k];
  }

  /** How many chunks end at or before byte n. */
  ghost function Complete(cs: seq<string>, n: nat): (k: nat)
    ensures k <= |cs| && End(cs, k) <= n && (k < |cs| ==> n < End(cs, k + 1))
  {
    CompleteFrom(cs, n, 0)
  }

  ghost function CompleteFrom(cs: seq<string>, n: nat, k: nat): (r: nat)
    requires k <= |cs| && End(cs, k) <= n
    ensures r <= |cs| && End(cs, r) <= n && (r < |cs| ==> n < End(cs, r + 1))
    decreases |cs| - k
  {
    if k == |cs| || n < End(cs, k + 1) then k else CompleteFrom(cs, n, k + 1)
  }

  /** A cut falls inside exactly one chunk, or at the very end. */
  lemma CutJoin(cs: seq<string>, n: nat)
    requires n <= |Join(cs)|
    ensures var k := Complete(cs, n);
      && Join(cs[..k]) <= Join(cs)[..n]
      && (k < |cs| ==> n - End(cs, k) < |cs[k]| && Join(cs)[..n][End(cs, k)..] == cs[k][..n - End(cs, k)])
      && (k == |cs| ==> Join(cs)[..n] == Join(cs[..k]))
  {
    var k := Complete(cs, n);
    JoinPrefix(cs, k);
    if k < |cs| {
      ChunkAt(cs, Join(cs), k);
      var a := End(cs, k);
      assert Join(cs)[..n][a..] == Join(cs)[a..][..n - a] == cs[k][..n - a];
    } else {
      assert cs[..k] == cs;
    }
  }

  lemma TakeNext<T>(a: seq<T>, b: seq<T>, k: nat)
    requires k < |a| && k < |b| && a[..k] == b[..k] && a[k] == b[k]
    ensures a[..k + 1] == b[..k + 1]
  {
    assert a[..k + 1] == a[..k] + [a[k]] && b[..k + 1] == b[..k] + [b[k]];
  }

  lemma {:induction false} FixedEnd(cs: seq<string>, w: nat, k: nat)
    requires k <= |cs| && forall i | 0 <= i < |cs| :: |cs[i]| == w
    ensures End(cs, k) == w * k
  {
    if k > 0 {
      FixedEnd(cs, w, k - 1);
      EndStep(cs, k - 1);
    }
  }

  /** Chunks of one width are found by multiplication. */
  lemma FixedAt(cs: seq<string>, w: nat, s: string, k: nat)
    requires k < |cs| && forall i | 0 <= i < |cs| :: |cs[i]| == w
    requires s <= Join(cs) && w * k + w <= |s|
    ensures s[w * k..w * k + w] == cs[k]
  {
    FixedEnd(cs, w, k);
    ChunkAt(cs, Join(cs), k);
    assert s[w * k..w * k + w] == Join(cs)[w * k..][..w];
  }
}
