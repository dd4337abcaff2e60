/** The embedding rows and the search over them (src/index.c:44-116, 138-226). Scores are
    exact reals; the vector and score functions are given. */
module VectorIndex {
  import opened Outcomes
  import opened TopHits
  import opened StrOrder
  import R = Records

  const INT_MAX: nat := 0x7FFF_FFFF

  type Vec = seq<real>

  /** A record as the index sees it: `row` is its place, or -1. */
  class Item {
    var row: int
    var rec: R.Record
    var usable: bool          // current or unverified, as src/knowledge_status.c projects

    constructor (rec: R.Record, usable: bool)
      ensures row == -1 && this.rec == rec && this.usable == usable
    {
      row, this.rec, this.usable := -1, rec, usable;
    }
  }

  /** `asper_scan_match`; no section stands for any. */
  predicate Match(r: R.Record, usable: bool, section: Option<R.Section>, project: Option<string>) {
    && !r.deprecated && usable
    && (section.Some? ==> r.section == section.value)
    && (r.section == R.Project ==> project.Some? && r.project == project)
  }

  datatype Query = Query(vec: Vec, section: Option<R.Section>, project: Option<string>, now: int, minSim: real,
                         cosine: (Vec, Vec) -> real, rank: (R.Record, real) -> real)

  predicate Wanted(q: Query, r: R.Record, usable: bool, row: Vec) {
    && Match(r, usable, q.section, q.project)
    && !(r.evidence.expiresAt > 0 && q.now >= r.evidence.expiresAt)
    && q.cosine(q.vec, row) >= q.minSim
  }

  function HitOf(q: Query, r: R.Record, row: Vec): Hit {
    Hit(q.rank(r, q.cosine(q.vec, row)), r.updatedAt, r.id)
  }

  /** Row by row, the vector last put for that item. */
  ghost predicate Tied(recs: seq<Item>, rows: seq<Vec>, last: map<Item, Vec>, norm: Vec -> Vec) {
    && |recs| == |rows| && (forall x | x in last :: x in recs)
    && (forall i | 0 <= i < |recs| :: recs[i] in last && rows[i] == norm(last[recs[i]]))
  }

  class Index {
    const norm: Vec -> Vec
    var recs: seq<Item>
    var rows: seq<Vec>
    ghost var last: map<Item, Vec>     // what was last put for each indexed item

    ghost predicate Valid()
      reads this, recs
    {
      |recs| <= INT_MAX && (forall i | 0 <= i < |recs| :: recs[i].row == i) && Tied(recs, rows, last, norm)
    }

    constructor (norm: Vec -> Vec)
      ensures Valid() && recs == [] && last == map[] && this.norm == norm
    {
      this.norm, recs, rows, last := norm, [], [], map[];
    }

    /** `asper_index_put`: overwrite in place, or take the next row. */
    method Put(r: Item, vec: Vec) returns (err: Err)
      requires Valid()
      modifies this, r`row
      ensures Valid() && recs == (if err == Ok && r !in old(recs) then old(recs) + [r] else old(recs))
      ensures err == Ok || err == Invalid
      ensures r in old(recs) ==> err == Ok
      ensures r !in old(recs) ==> (err == Ok <==> old(r.row) < 0 && |old(recs)| < INT_MAX)
      ensures last == if err == Ok then old(last)[r := vec] else old(last)
    {
      Distinct(r);
      if r.row >= 0 {
        var row := r.row;
        if row >= |recs| || recs[row] != r { return Invalid; }
        rows := rows[row := norm(vec)];
        last := last[r := vec];
        return Ok;
      }
      if |recs| >= INT_MAX { return Invalid; }
      r.row := |recs|;
      recs := recs + [r];
      rows := rows + [norm(vec)];
      last := last[r := vec];
      return Ok;
    }

    lemma Distinct(r: Item)
      requires Valid()
      ensures |recs| == |rows| && forall i, j | 0 <= i < j < |recs| :: recs[i] != recs[j]
      ensures r in recs <==> 0 <= r.row < |recs| && recs[r.row] == r
    {}

    /** `asper_index_remove`: the last row moves into the hole. */
    method Remove(r: Item)
      requires Valid()
      modifies this, recs`row, r`row
      ensures Valid() && r.row < 0
      ensures last == old(last) - {r} && forall x :: x in recs <==> x in old(recs) && x != r
    {
      hide Tied;
      Distinct(r);
      if r.row < 0 { Unchanged(r); return; }
      var row := r.row;
      if row >= |recs| || recs[row] != r {
        r.row := -1;
        Unchanged(r);
        return;
      }
      Cut(row);
      if row < |recs| { recs[row].row := row; }
      r.row := -1;
    }

    lemma Unchanged(r: Item)
      requires Tied(recs, rows, last, norm) && r !in recs
      ensures last - {r} == last
    {}

    /** Move the last row and its item into the hole. */
    method Cut(row: nat)
      requires row < |recs| && Tied(recs, rows, last, norm) && forall i, j | 0 <= i < j < |recs| :: recs[i] != recs[j]
      modifies this
      ensures Tied(recs, rows, last, norm) && last == old(last) - {old(recs)[row]} && |recs| == |old(recs)| - 1
      ensures forall x :: x in recs <==> x in old(recs) && x != old(recs)[row]
      ensures forall i | 0 <= i < |recs| :: recs[i] == old(recs)[if i == row then |recs| else i]
    {
      var end := |recs| - 1;
      assert |rows| == |recs|;
      SwapOut(recs, row);
      SwapAt(recs, row);
      TiedSwap(recs, rows, last, norm, row);
      hide Tied;
      last := last - {recs[row]};
      var moved, vecs := recs, rows;
      if row != end {
        vecs := vecs[row := vecs[end]];
        moved := moved[row := moved[end]];
      }
      recs, rows := moved[..end], vecs[..end];
    }

    /** All hits of a query, in row order. */
    ghost function Hits(q: Query, n: nat): seq<Hit>
      requires n <= |recs| == |rows|
      reads this, recs
    {
      if n == 0 then []
      else
        var last := recs[n - 1];
        Hits(q, n - 1) + (if Wanted(q, last.rec, last.usable, rows[n - 1]) then [HitOf(q, last.rec, rows[n - 1])] else [])
    }

    /** Record i is to be found: live, usable, not expired, of the asked section, of the asked
        project when it belongs to one, and similar enough. */
    ghost predicate Sought(q: Query, i: nat)
      requires i < |recs| && i < |rows|
      reads this, recs
    {
      var r := recs[i].rec;
      && !r.deprecated && recs[i].usable && (r.evidence.expiresAt > 0 ==> q.now < r.evidence.expiresAt)
      && (q.section.Some? ==> q.section.value == r.section)
      && (r.section == R.Project ==> q.project.Some? && r.project.Some? && q.project.value == r.project.value)
      && q.minSim <= q.cosine(q.vec, rows[i])
    }

    ghost predicate Shows(h: Hit, q: Query, i: nat)
      requires i < |recs| && i < |rows|
      reads this, recs
    {
      && h.id == recs[i].rec.id && h.updatedAt == recs[i].rec.updatedAt
      && h.rank == q.rank(recs[i].rec, q.cosine(q.vec, rows[i]))
    }

    ghost predicate Listed(hits: seq<Hit>, q: Query, i: nat)
      requires i < |recs| && i < |rows|
      reads this, recs
    {
      exists j :: 0 <= j < |hits| && Shows(hits[j], q, i)
    }

    /** The list falls by rank, then by recency, then rises by id. */
    ghost predicate Falling(hits: seq<Hit>) {
      forall a, b | 0 <= a < b < |hits| ::
        || hits[a].rank > hits[b].rank || (hits[a].rank == hits[b].rank && hits[a].updatedAt > hits[b].updatedAt)
        || (hits[a].rank == hits[b].rank && hits[a].updatedAt == hits[b].updatedAt && Less(hits[a].id, hits[b].id))
    }

    /** Record i does not come before the hit. */
    ghost predicate Behind(h: Hit, q: Query, i: nat)
      requires i < |recs| && i < |rows|
      reads this, recs
    {
      var r, rank := recs[i].rec, q.rank(recs[i].rec, q.cosine(q.vec, rows[i]));
      || h.rank > rank || (h.rank == rank && h.updatedAt > r.updatedAt)
      || (h.rank == rank && h.updatedAt == r.updatedAt && Less(h.id, r.id))
    }

    /** `asper_index_scan`: exactly the first k of all hits in ranking order. */
    method Scan(q: Query, k: nat) returns (hits: seq<Hit>)
      requires Valid() && forall i, j | 0 <= i < j < |recs| :: recs[i].rec.id != recs[j].rec.id
      ensures Top(hits, Hits(q, |recs|), k) && |hits| <= k && Falling(hits)
      ensures forall h | h in hits :: exists i :: 0 <= i < |recs| && Sought(q, i) && Shows(h, q, i)
      ensures forall i | 0 <= i < |recs| && Sought(q, i) ::
        Listed(hits, q, i) || (|hits| == k && forall h | h in hits :: Behind(h, q, i))
    {
      hide Hits, Wanted, HitOf, Top, Sought, Shows, Falling, Listed, Behind;
      hits := [];
      NoHits(q, k);
      if k == 0 { TopMeans(q, k, hits); return; }
      for i := 0 to |recs|
        invariant Top(hits, Hits(q, i), k)
      {
        NextHit(q, i);
        if Wanted(q, recs[i].rec, recs[i].usable, rows[i]) {
          hits := InsertHit(hits, HitOf(q, recs[i].rec, rows[i]), k, Hits(q, i));
        } else {
          assert Hits(q, i) + [] == Hits(q, i);
        }
      }
      TopMeans(q, k, hits);
    }

    lemma {:induction false} HitsMean(q: Query, n: nat)
      requires n <= |recs| == |rows|
      ensures forall h | h in Hits(q, n) :: exists i :: 0 <= i < n && Sought(q, i) && Shows(h, q, i)
      ensures forall i | 0 <= i < n && Sought(q, i) :: Shows(HitOf(q, recs[i].rec, rows[i]), q, i)
      ensures forall i | 0 <= i < n && Sought(q, i) :: HitOf(q, recs[i].rec, rows[i]) in Hits(q, n)
    {
      if n > 0 {
        HitsMean(q, n - 1);
        assert Wanted(q, recs[n - 1].rec, recs[n - 1].usable, rows[n - 1]) <==> Sought(q, n - 1);
        assert Shows(HitOf(q, recs[n - 1].rec, rows[n - 1]), q, n - 1);
        hide Sought, Wanted, Shows, HitOf;
        forall h | h in Hits(q, n) ensures exists i :: 0 <= i < n && Sought(q, i) && Shows(h, q, i) {
          if h !in Hits(q, n - 1) { assert Sought(q, n - 1) && Shows(h, q, n - 1); }
        }
      }
    }

    lemma TopMeans(q: Query, k: nat, hits: seq<Hit>)
      requires |recs| == |rows| && Top(hits, Hits(q, |recs|), k)
      ensures |hits| <= k && Falling(hits)
      ensures forall h | h in hits :: exists i :: 0 <= i < |recs| && Sought(q, i) && Shows(h, q, i)
      ensures forall i | 0 <= i < |recs| && Sought(q, i) ::
        Listed(hits, q, i) || (|hits| == k && forall h | h in hits :: Behind(h, q, i))
    {
      hide Hits, HitOf, Sought, Shows, Behind;
      HitsMean(q, |recs|);
      forall i | 0 <= i < |recs| && Sought(q, i)
        ensures Listed(hits, q, i) || (|hits| == k && forall h | h in hits :: Behind(h, q, i))
      {
        var x := HitOf(q, recs[i].rec, rows[i]);
        if x !in hits {
          forall h | h in hits ensures Behind(h, q, i) {
            var j :| 0 <= j < |hits| && hits[j] == h;
            OrderMeans(h, x, q, i);
          }
        }
      }
    }

    lemma OrderMeans(h: Hit, x: Hit, q: Query, i: nat)
      requires i < |recs| && i < |rows| && Before(h, x) && Shows(x, q, i)
      ensures Behind(h, q, i)
    {}

    lemma NoHits(q: Query, k: nat)
      requires |recs| == |rows|
      ensures Top([], Hits(q, 0), k) && (k == 0 ==> Top([], Hits(q, |recs|), k))
    {
      var none: seq<Hit> := [];
      assert k == 0 ==> forall h | h in Hits(q, |recs|) :: |none| == k;
    }

    lemma NextHit(q: Query, n: nat)
      requires n < |recs| == |rows| && forall i, j | 0 <= i < j < |recs| :: recs[i].rec.id != recs[j].rec.id
      ensures var h := HitOf(q, recs[n].rec, rows[n]);
        && h !in Hits(q, n)
        && Hits(q, n + 1) == Hits(q, n) + (if Wanted(q, recs[n].rec, recs[n].usable, rows[n]) then [h] else [])
    {
      HitIds(q, n);
    }

    lemma {:induction false} HitIds(q: Query, n: nat)
      requires n <= |recs| == |rows|
      ensures forall h | h in Hits(q, n) :: exists i :: 0 <= i < n && h.id == recs[i].rec.id
    {
      if n > 0 {
        HitIds(q, n - 1);
        forall h | h in Hits(q, n) ensures exists i :: 0 <= i < n && h.id == recs[i].rec.id {
          if h !in Hits(q, n - 1) { assert h.id == recs[n - 1].rec.id; }
        }
      }
    }
  }

  /** The sequence with its last element moved into place `row`. */
  function SwapCut<T>(s: seq<T>, row: nat): seq<T>
    requires row < |s|
  {
    var end := |s| - 1;
    (if row != end then s[row := s[end]] else s)[..end]
  }

  lemma SwapOut<T>(s: seq<T>, row: nat)
    requires row < |s| && forall i, j | 0 <= i < j < |s| :: s[i] != s[j]
    ensures forall x :: x in SwapCut(s, row) <==> x in s && x != s[row]
  {
    var end := |s| - 1;
    forall x | x in s && x != s[row] ensures x in SwapCut(s, row) {
      var i :| 0 <= i < |s| && s[i] == x;
      assert SwapCut(s, row)[if i == end then row else i] == x;
    }
  }

  lemma SwapAt<T>(s: seq<T>, row: nat)
    requires row < |s|
    ensures |SwapCut(s, row)| == |s| - 1
    ensures forall i | 0 <= i < |s| - 1 :: SwapCut(s, row)[i] == s[if i == row then |s| - 1 else i]
  {}

  lemma TiedSwap(recs: seq<Item>, rows: seq<Vec>, last: map<Item, Vec>, norm: Vec -> Vec, row: nat)
    requires Tied(recs, rows, last, norm) && row < |recs| && row < |rows|
    requires forall i, j | 0 <= i < j < |recs| :: recs[i] != recs[j]
    ensures Tied(SwapCut(recs, row), SwapCut(rows, row), last - {recs[row]}, norm)
  {
    SwapOut(recs, row);
    SwapAt(recs, row);
    SwapAt(rows, row);
    hide SwapCut;
  }
}
