/** `asper_str_trim` and its laws. */
module Trimming {
  import opened Text

  function TrimLeft(s: string): string {
    if s != "" && IsSpace(s[0]) then TrimLeft(s[1..]) else s
  }

  function TrimRight(s: string): string {
    if s != "" && IsSpace(s[|s| - 1]) then TrimRight(s[..|s| - 1]) else s
  }

  function Trim(s: string): string { TrimRight(TrimLeft(s)) }

  /** Two cursors move inwards over white space. */
  method TrimIt(s: string) returns (t: string)
    ensures t == Trim(s)
  {
    hide TrimLeft, TrimRight;
    var lo := 0;
    assert s[0..] == s;
    while lo < |s| && IsSpace(s[lo])
      invariant lo <= |s| && TrimLeft(s[lo..]) == TrimLeft(s)
    {
      LeftStep(s, lo);
      lo := lo + 1;
    }
    LeftDone(s[lo..]);
    var hi := |s|;
    assert s[lo..hi] == s[lo..];
    while hi > lo && IsSpace(s[hi - 1])
      invariant lo <= hi <= |s| && TrimRight(s[lo..hi]) == TrimRight(s[lo..])
    {
      RightStep(s[lo..hi], s[lo..hi - 1]);
      hi := hi - 1;
    }
    RightDone(s[lo..hi]);
    t := s[lo..hi];
  }

  lemma LeftStep(s: string, lo: nat)
    requires lo < |s| && IsSpace(s[lo])
    ensures TrimLeft(s[lo + 1..]) == TrimLeft(s[lo..])
  {
    assert s[lo..][1..] == s[lo + 1..];
  }

  lemma LeftDone(s: string)
    requires s == "" || !IsSpace(s[0])
    ensures TrimLeft(s) == s
  {}

  lemma RightStep(s: string, t: string)
    requires s != "" && IsSpace(s[|s| - 1]) && t == s[..|s| - 1]
    ensures TrimRight(t) == TrimRight(s)
  {}

  lemma RightDone(s: string)
    requires s == "" || !IsSpace(s[|s| - 1])
    ensures TrimRight(s) == s
  {}

  lemma {:induction false} TrimRightBlank(s: string)
    ensures Blank(s) <==> TrimRight(s) == ""
    ensures TrimRight(s) <= s && (TrimRight(s) != "" ==> !IsSpace(TrimRight(s)[|TrimRight(s)| - 1]))
  {
    if s != "" && IsSpace(s[|s| - 1]) {
      TrimRightBlank(s[..|s| - 1]);
      assert s == s[..|s| - 1] + [s[|s| - 1]];
    }
  }

  /** White space at the end goes; the rest stays. */
  lemma {:induction false} TrimRightJoin(a: string, b: string)
    ensures TrimRight(a + b) == if Blank(b) then TrimRight(a) else a + TrimRight(b)
    decreases |b|
  {
    if b == "" {
      assert a + b == a;
    } else if IsSpace(b[|b| - 1]) {
      TrimRightJoin(a, b[..|b| - 1]);
      assert (a + b)[..|a + b| - 1] == a + b[..|b| - 1];
      assert b == b[..|b| - 1] + [b[|b| - 1]];
    }
  }

  lemma {:induction false} TrimLeftBlank(s: string)
    ensures Blank(s) <==> TrimLeft(s) == ""
  {
    if s != "" && IsSpace(s[0]) {
      TrimLeftBlank(s[1..]);
      assert s == [s[0]] + s[1..];
    }
  }

  /** Both ends may be trimmed in either order. */
  lemma {:induction false} TrimOrder(s: string)
    ensures TrimLeft(TrimRight(s)) == Trim(s)
  {
    TrimRightBlank(s);
    if s != "" && IsSpace(s[0]) {
      TrimOrder(s[1..]);
      TrimRightJoin([s[0]], s[1..]);
      assert s == [s[0]] + s[1..];
      if Blank(s[1..]) {
        TrimLeftBlank(s);
        assert Blank(s);
      } else {
        var r := TrimRight(s[1..]);
        assert TrimRight(s) == [s[0]] + r;
        assert ([s[0]] + r)[1..] == r;
      }
    } else if TrimRight(s) != "" {
      assert TrimRight(s)[0] == s[0];
    }
  }

  lemma TrimFrontSpace(y: string)
    ensures Trim(" " + y) == Trim(y)
  {
    assert (" " + y)[1..] == y;
  }

  /** Trimming what is already trimmed on the right. */
  lemma TrimTrimmed(s: string)
    ensures Trim(TrimRight(s)) == Trim(s)
  {
    hide TrimLeft;
    TrimOrder(s);
    TrimRightBlank(TrimLeft(s));
  }

  ghost predicate TrimAt(s: string, t: string, lo: nat, hi: nat) {
    && lo <= hi <= |s| && t == s[lo..hi] && (forall i | 0 <= i < |s| && !(lo <= i < hi) :: White(s[i]))
    && (lo < hi ==> !White(s[lo]) && !White(s[hi - 1]))
  }

  predicate White(c: char) { c in " \t\n\r" || c as int == 11 || c as int == 12 }

  lemma {:induction false} LeftCut(s: string) returns (lo: nat)
    ensures lo <= |s| && TrimLeft(s) == s[lo..] && (forall i | 0 <= i < lo :: White(s[i]))
    ensures lo < |s| ==> !White(s[lo])
  {
    lo := 0;
    if s != "" && IsSpace(s[0]) {
      var n := LeftCut(s[1..]);
      lo := n + 1;
    }
  }

  lemma {:induction false} RightCut(s: string) returns (hi: nat)
    ensures hi <= |s| && TrimRight(s) == s[..hi] && (forall i | hi <= i < |s| :: White(s[i]))
    ensures 0 < hi ==> !White(s[hi - 1])
  {
    hi := |s|;
    if s != "" && IsSpace(s[|s| - 1]) {
      hi := RightCut(s[..|s| - 1]);
    }
  }

  /** What is left is the part from the first to the last character that is no white space. */
  lemma TrimMeans(s: string)
    ensures exists lo, hi :: TrimAt(s, Trim(s), lo, hi)
  {
    var lo := LeftCut(s);
    var n := RightCut(s[lo..]);
    assert TrimAt(s, Trim(s), lo, lo + n);
  }
}
