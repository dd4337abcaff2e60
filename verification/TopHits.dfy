/** The order of search hits (src/index.c:158-175, src/decay.c:56-67) and what the first k of
    them are. */
module TopHits {
  import opened StrOrder

  /** `rank` is the cosine or the composite score, whichever the caller ranks by. */
  datatype Hit = Hit(rank: real, updatedAt: int, id: string)

  predicate Before(a: Hit, b: Hit) {
    || a.rank > b.rank
    || (a.rank == b.rank && (a.updatedAt > b.updatedAt || (a.updatedAt == b.updatedAt && Less(a.id, b.id))))
  }

  lemma BeforeTotal(a: Hit, b: Hit)
    ensures Before(a, b) || Before(b, a) || a == b
    ensures !(Before(a, b) && Before(b, a)) && !Before(a, a)
  {
    LessTotal(a.id, b.id);
    LessIrreflexive(a.id);
    if Less(a.id, b.id) && Less(b.id, a.id) { LessTransitive(a.id, b.id, a.id); }
  }

  lemma BeforeTransitive(a: Hit, b: Hit, c: Hit)
    requires Before(a, b) && Before(b, c)
    ensures Before(a, c)
  {
    if Less(a.id, b.id) && Less(b.id, c.id) { LessTransitive(a.id, b.id, c.id); }
  }

  ghost predicate Ranked(hits: seq<Hit>) { forall i, j | 0 <= i < j < |hits| :: Before(hits[i], hits[j]) }

  /** The first k of a set of hits: in order, and every hit left out comes after a full list. */
  ghost predicate Top(hits: seq<Hit>, all: seq<Hit>, k: nat) {
    && Ranked(hits) && |hits| <= k && (forall h | h in hits :: h in all)
    && forall h | h in all && h !in hits :: |hits| == k && forall i | 0 <= i < k :: Before(hits[i], h)
  }

  /** There is only one such list. */
  lemma {:induction false} TopUnique(a: seq<Hit>, b: seq<Hit>, all: seq<Hit>, k: nat, n: nat)
    requires Top(a, all, k) && Top(b, all, k) && n <= |a| && n <= |b|
    ensures |a| == |b| && a[..n] == b[..n]
  {
    if n > 0 {
      TopUnique(a, b, all, k, n - 1);
      SameNext(a, b, all, k, n - 1);
      SameNext(b, a, all, k, n - 1);
      BeforeTotal(a[n - 1], b[n - 1]);
      assert a[..n] == a[..n - 1] + [a[n - 1]] && b[..n] == b[..n - 1] + [b[n - 1]];
    } else {
      SameLength(a, b, all, k);
      SameLength(b, a, all, k);
    }
  }

  lemma TopIsOne(a: seq<Hit>, b: seq<Hit>, all: seq<Hit>, k: nat)
    requires Top(a, all, k) && Top(b, all, k)
    ensures a == b
  {
    TopUnique(a, b, all, k, 0);
    TopUnique(a, b, all, k, |a|);
    assert a[..|a|] == a && b[..|b|] == b;
  }

  /** A list that stops early has left nothing out. */
  lemma {:induction false} SameLength(a: seq<Hit>, b: seq<Hit>, all: seq<Hit>, k: nat)
    requires Top(a, all, k) && Top(b, all, k)
    ensures |b| <= |a|
  {
    if |a| < k {
      forall h | h in b ensures h in a { assert h in all; }
      Injects(b, a);
    }
  }

  lemma {:induction false} Injects(b: seq<Hit>, a: seq<Hit>)
    requires Ranked(b) && forall h | h in b :: h in a
    ensures |b| <= |a|
  {
    if b != [] {
      var last, rest := b[|b| - 1], b[..|b| - 1];
      assert last in a;
      var i :| 0 <= i < |a| && a[i] == last;
      var less := a[..i] + a[i + 1..];
      forall h | h in rest ensures h in less {
        var j :| 0 <= j < |rest| && rest[j] == h;
        BeforeTotal(b[j], last);
        assert h in b && h in a;
        var m :| 0 <= m < |a| && a[m] == h;
        assert less[if m < i then m else m - 1] == h;
      }
      Injects(rest, less);
    }
  }

  lemma SameNext(a: seq<Hit>, b: seq<Hit>, all: seq<Hit>, k: nat, n: nat)
    requires Top(a, all, k) && Top(b, all, k) && n < |a| && n < |b| && a[..n] == b[..n]
    ensures a[n] == b[n] || Before(b[n], a[n])
  {
    assert a[n] in a;
    forall i | 0 <= i < n ensures b[i] != a[n] {
      assert a[..n][i] == b[..n][i];
      BeforeTotal(a[i], a[n]);
    }
    if a[n] in b {
      var j :| 0 <= j < |b| && b[j] == a[n];
      assert n < j ==> Before(b[n], b[j]);
    }
  }

  /** `asper_index_scan`'s insertion of one hit into the list so far. */
  method InsertHit(hits: seq<Hit>, h: Hit, k: nat, ghost all: seq<Hit>) returns (out: seq<Hit>)
    requires k > 0 && Top(hits, all, k) && h !in all
    ensures Top(out, all + [h], k)
  {
    var pos: nat := |hits|;
    forall i | 0 <= i < |hits| ensures Before(hits[i], h) || Before(h, hits[i]) {
      assert hits[i] in hits;
      BeforeTotal(hits[i], h);
    }
    while pos > 0 && Before(h, hits[pos - 1])
      invariant pos <= |hits| && forall i | pos <= i < |hits| :: Before(h, hits[i])
    {
      pos := pos - 1;
    }
    forall i | 0 <= i < pos ensures Before(hits[i], h) {
      if i < pos - 1 { BeforeTransitive(hits[i], hits[pos - 1], h); }
    }
    if pos == k {
      out := hits;
      return;
    }
    var count := if |hits| < k then |hits| + 1 else |hits|;
    out := hits[..pos] + [h] + hits[pos..count - 1];
    assert With(hits, h, k, pos, out);
    Inserted(hits, h, k, all, pos, out);
  }

  /** The list with h at place pos, without what no longer fits. */
  ghost predicate With(hits: seq<Hit>, h: Hit, k: nat, pos: nat, out: seq<Hit>) {
    && pos <= |hits| && pos < k && |out| == (if |hits| < k then |hits| + 1 else |hits|)
    && (forall i | 0 <= i < pos :: out[i] == hits[i]) && out[pos] == h
    && forall i | pos < i < |out| :: out[i] == hits[i - 1]
  }

  lemma Inserted(hits: seq<Hit>, h: Hit, k: nat, all: seq<Hit>, pos: nat, out: seq<Hit>)
    requires k > 0 && Top(hits, all, k) && h !in all && With(hits, h, k, pos, out)
    requires (forall i | 0 <= i < pos :: Before(hits[i], h)) && forall i | pos <= i < |hits| :: Before(h, hits[i])
    ensures Top(out, all + [h], k)
  {
    assert out[pos] == h;
    forall x | x in out ensures x in all + [h] {
      var i :| 0 <= i < |out| && out[i] == x;
      if i != pos { assert x == hits[if i < pos then i else i - 1] && x in hits; }
    }
    forall x | x in all + [h] && x !in out ensures |out| == k && forall i | 0 <= i < k :: Before(out[i], x) {
      OnlyLast(hits, h, k, all, pos, out, x);
    }
  }

  /** Only the old last hit of a full list can have dropped out. */
  lemma OnlyLast(hits: seq<Hit>, h: Hit, k: nat, all: seq<Hit>, pos: nat, out: seq<Hit>, x: Hit)
    requires k > 0 && Top(hits, all, k) && With(hits, h, k, pos, out)
    requires (forall i | 0 <= i < pos :: Before(hits[i], h)) && forall i | pos <= i < |hits| :: Before(h, hits[i])
    requires x in all && x !in out
    ensures |out| == k && forall i | 0 <= i < k :: Before(out[i], x)
  {
    Carried(hits, h, k, pos, out);
    Dropped(hits, h, k, all, out, x);
  }

  lemma Dropped(hits: seq<Hit>, h: Hit, k: nat, all: seq<Hit>, out: seq<Hit>, x: Hit)
    requires k > 0 && Top(hits, all, k) && x in all && x !in out
    requires |hits| == k ==> Before(h, hits[k - 1])
    requires |out| == if |hits| < k then |hits| + 1 else |hits|
    requires forall j | 0 <= j < |hits| && (j < |hits| - 1 || |hits| < k) :: hits[j] in out
    requires forall y | y in out && y != h :: y in hits
    ensures |out| == k && forall i | 0 <= i < k :: Before(out[i], x)
  {
    hide Before;
    if x in hits {
      var j :| 0 <= j < |hits| && hits[j] == x;
      assert |hits| == k && j == k - 1;
    } else {
      assert |hits| == k && Before(hits[k - 1], x);
      BeforeTransitive(h, hits[k - 1], x);
    }
    forall y | y in hits && y != x ensures Before(y, x) {
      var i :| 0 <= i < |hits| && hits[i] == y;
    }
    forall i | 0 <= i < k ensures Before(out[i], x) { assert out[i] in out; }
  }

  /** Every hit but the last of a full list stays, and only h is new. */
  lemma Carried(hits: seq<Hit>, h: Hit, k: nat, pos: nat, out: seq<Hit>)
    requires With(hits, h, k, pos, out) && |hits| <= k
    ensures |out| == if |hits| < k then |hits| + 1 else |hits|
    ensures forall j | 0 <= j < |hits| && (j < |hits| - 1 || |hits| < k) :: hits[j] in out
    ensures forall y | y in out && y != h :: y in hits
  {
    forall j | 0 <= j < |hits| && (j < |hits| - 1 || |hits| < k) ensures hits[j] in out {
      if j < pos { assert out[j] == hits[j]; } else { assert out[j + 1] == hits[j]; }
    }
    forall y | y in out && y != h ensures y in hits {
      var i :| 0 <= i < |out| && out[i] == y;
      if i < pos { assert out[i] == hits[i]; } else { assert i != pos && out[i] == hits[i - 1]; }
    }
  }
}
