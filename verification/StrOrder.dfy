/** The `strcmp` order, and sorted arrays of distinct strings (src/store.c project
    registry; the same lower bound serves src/knowledge_store.c). */
module StrOrder {
  predicate Less(a: string, b: string) {
    b != "" && (a == "" || a[0] < b[0] || (a[0] == b[0] && Less(a[1..], b[1..])))
  }

  lemma {:induction false} LessTotal(a: string, b: string)
    ensures a == b || Less(a, b) || Less(b, a)
  {
    if a != "" && b != "" && a[0] == b[0] {
      LessTotal(a[1..], b[1..]);
      assert a == [a[0]] + a[1..] && b == [b[0]] + b[1..];
    }
  }

  lemma {:induction false} LessIrreflexive(a: string)
    ensures !Less(a, a)
  {
    if a != "" { LessIrreflexive(a[1..]); }
  }

  lemma {:induction false} LessTransitive(a: string, b: string, c: string)
    requires Less(a, b) && Less(b, c)
    ensures Less(a, c)
  {
    if a != "" && a[0] == b[0] && b[0] == c[0] {
      LessTransitive(a[1..], b[1..], c[1..]);
    }
  }

  /** Behind a common beginning, a ends or has the smaller character. */
  lemma {:induction false} LessMeans(a: string, b: string)
    ensures Less(a, b) <==> exists n :: FirstLess(a, b, n)
  {
    if a != "" && b != "" && a[0] == b[0] {
      LessMeans(a[1..], b[1..]);
      if n :| FirstLess(a[1..], b[1..], n) { assert FirstLess(a, b, n + 1); }
      if n :| FirstLess(a, b, n) { assert FirstLess(a[1..], b[1..], n - 1); }
    } else if Less(a, b) {
      assert FirstLess(a, b, 0);
    }
  }

  ghost predicate FirstLess(a: string, b: string, n: int) {
    0 <= n <= |a| && n < |b| && (forall i | 0 <= i < n :: a[i] == b[i]) && (n == |a| || a[n] < b[n])
  }

  ghost predicate Sorted(s: seq<string>) {
    forall i, j | 0 <= i < j < |s| :: Less(s[i], s[j])
  }

  /** Strictly ascending, so every element occurs once. */
  lemma SortedDistinct(s: seq<string>)
    requires Sorted(s)
    ensures forall i, j | 0 <= i < j < |s| :: s[i] != s[j]
  {
    forall i, j | 0 <= i < j < |s| ensures s[i] != s[j] { LessIrreflexive(s[i]); }
  }

  /** `asper_store_project_index` / `lower_bound`: the first position whose element is not
      below the key; it holds the key exactly when the key occurs at all. */
  method LowerBound(s: seq<string>, key: string) returns (found: bool, pos: nat)
    requires Sorted(s)
    ensures pos <= |s|
    ensures forall i | 0 <= i < pos :: Less(s[i], key)
    ensures forall i | pos <= i < |s| :: s[i] == key || Less(key, s[i])
    ensures found <==> key in s
    ensures found ==> pos < |s| && s[pos] == key
  {
    var lo, hi := 0, |s|;
    while lo < hi
      invariant lo <= hi <= |s|
      invariant forall i | 0 <= i < lo :: Less(s[i], key)
      invariant forall i | hi <= i < |s| :: Less(key, s[i])
    {
      var mid := lo + (hi - lo) / 2;
      LessTotal(s[mid], key);
      if s[mid] == key {
        forall i | 0 <= i < mid ensures Less(s[i], key) { assert Less(s[i], s[mid]); }
        forall i | mid < i < |s| ensures Less(key, s[i]) { assert Less(s[mid], s[i]); }
        return true, mid;
      }
      if Less(s[mid], key) {
        forall i | 0 <= i < mid ensures Less(s[i], key) { LessTransitive(s[i], s[mid], key); }
        lo := mid + 1;
      } else {
        forall i | mid < i < |s| ensures Less(key, s[i]) { LessTransitive(key, s[mid], s[i]); }
        hi := mid;
      }
    }
    LessIrreflexive(key);
    return false, lo;
  }

  /** Inserting an absent key at its lower bound keeps the array sorted. */
  lemma InsertSorted(s: seq<string>, key: string, pos: nat)
    requires Sorted(s) && pos <= |s|
    requires forall i | 0 <= i < pos :: Less(s[i], key)
    requires forall i | pos <= i < |s| :: Less(key, s[i])
    ensures Sorted(s[..pos] + [key] + s[pos..])
  {
    var t := s[..pos] + [key] + s[pos..];
    forall i, j | 0 <= i < j < |t| ensures Less(t[i], t[j]) {
      if i < pos < j { LessTransitive(s[i], key, s[j - 1]); }
    }
  }
}
