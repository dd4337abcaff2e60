/** The acknowledgement file (src/source_replay.c): the sorted set of curated source ids,
    replaced atomically. */
module Acknowledgements {
  import opened Outcomes
  import opened StrOrder

  const CURATED_BYTES: nat := 8 * 1024 * 1024
  const ID_LINE: nat := 37

  /** `qsort` by id, as insertion; duplicates stay. */
  ghost predicate Ascending(s: seq<string>) {
    forall i, j | 0 <= i < j < |s| :: s[i] == s[j] || Less(s[i], s[j])
  }

  function Insert(s: seq<string>, x: string): (r: seq<string>)
    ensures |r| == |s| + 1
  {
    if s == [] || Less(x, s[0]) then [x] + s else [s[0]] + Insert(s[1..], x)
  }

  lemma {:induction false} InsertMembers(s: seq<string>, x: string)
    ensures forall y :: y in Insert(s, x) <==> y == x || y in s
  {
    if s != [] && !Less(x, s[0]) {
      InsertMembers(s[1..], x);
      assert s == [s[0]] + s[1..];
    }
  }

  lemma {:induction false} InsertAscending(s: seq<string>, x: string)
    requires Ascending(s)
    ensures Ascending(Insert(s, x))
  {
    if s == [] {
    } else if Less(x, s[0]) {
      forall j | 0 <= j < |s| ensures Less(x, s[j]) {
        if j > 0 && s[0] != s[j] { LessTransitive(x, s[0], s[j]); }
      }
    } else {
      InsertAscending(s[1..], x);
      InsertMembers(s[1..], x);
      LessTotal(x, s[0]);
      var r := Insert(s[1..], x);
      forall j | 0 <= j < |r| ensures s[0] == r[j] || Less(s[0], r[j]) {
        assert r[j] in r;
        if r[j] != x { var i :| 0 <= i < |s[1..]| && s[1..][i] == r[j]; assert s[i + 1] == r[j]; }
      }
    }
  }

  function Sort(s: seq<string>): seq<string> {
    if s == [] then [] else Insert(Sort(s[1..]), s[0])
  }

  lemma {:induction false} SortFacts(s: seq<string>)
    ensures Ascending(Sort(s)) && forall y :: y in Sort(s) <==> y in s
  {
    if s != [] {
      SortFacts(s[1..]);
      InsertAscending(Sort(s[1..]), s[0]);
      InsertMembers(Sort(s[1..]), s[0]);
      assert s == [s[0]] + s[1..];
    }
  }

  /** Skip every element equal to its predecessor. */
  method Dedup(s: seq<string>) returns (out: seq<string>)
    requires Ascending(s)
    ensures Sorted(out) && forall y :: y in out <==> y in s
  {
    out := [];
    for i := 0 to |s|
      invariant Sorted(out) && forall y :: y in out <==> y in s[..i]
      invariant i == 0 ==> out == []
      invariant i > 0 ==> out != [] && out[|out| - 1] == s[i - 1]
    {
      assert s[..i + 1] == s[..i] + [s[i]];
      if i > 0 && s[i - 1] == s[i] {
      } else {
        assert i > 0 ==> Less(s[i - 1], s[i]);
        forall k | 0 <= k < |out| ensures Less(out[k], s[i]) {
          if k < |out| - 1 { LessTransitive(out[k], out[|out| - 1], s[i]); }
        }
        out := out + [s[i]];
      }
    }
    assert s[..|s|] == s;
  }

  /** Two sorted files with the same ids are the same file. */
  lemma {:induction false} SortedSetUnique(a: seq<string>, b: seq<string>)
    requires Sorted(a) && Sorted(b) && forall y :: y in a <==> y in b
    ensures a == b
  {
    assert a != [] ==> a[0] in a;
    assert b != [] ==> b[0] in b;
    if a != [] && b != [] {
      SameFirst(a, b);
      forall y ensures y in a[1..] <==> y in b[1..] {
        SortedRest(a, y);
        SortedRest(b, y);
      }
      SortedSetUnique(a[1..], b[1..]);
      assert a == [a[0]] + a[1..] && b == [b[0]] + b[1..];
    }
  }

  lemma SameFirst(a: seq<string>, b: seq<string>)
    requires Sorted(a) && Sorted(b) && a != [] && b != [] && forall y :: y in a <==> y in b
    ensures a[0] == b[0]
  {
    var i :| 0 <= i < |b| && b[i] == a[0] by { assert a[0] in a; }
    var j :| 0 <= j < |a| && a[j] == b[0] by { assert b[0] in b; }
    if i > 0 && j > 0 {
      LessTransitive(a[0], b[0], a[0]);
      LessIrreflexive(a[0]);
    }
  }

  lemma SortedRest(a: seq<string>, y: string)
    requires Sorted(a) && a != []
    ensures y in a[1..] <==> y in a && y != a[0]
  {
    LessIrreflexive(a[0]);
    assert a == [a[0]] + a[1..];
    if y in a[1..] { var i :| 0 <= i < |a[1..]| && a[1..][i] == y; assert Less(a[0], a[i + 1]); }
  }

  /** `asper_source_mark_curated` on the parsed file: the new file is the sorted union, so
      repeating an acknowledgement changes nothing, even at the quota. */
  method MarkCurated(file: seq<string>, ids: seq<string>) returns (err: Err, out: seq<string>)
    ensures err == Ok || err == Limit
    ensures Sorted(out) && forall y :: y in out <==> y in file || y in ids
    ensures err == Limit <==> |out| * ID_LINE > CURATED_BYTES
    ensures Sorted(file) && (forall y | y in ids :: y in file) ==> out == file
  {
    var all := Sort(file + ids);
    SortFacts(file + ids);
    out := Dedup(all);
    err := if |out| * ID_LINE > CURATED_BYTES then Limit else Ok;
    if Sorted(file) && (forall y | y in ids :: y in file) { SortedSetUnique(out, file); }
  }
}
