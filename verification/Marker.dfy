/** The compaction marker (src/store_transaction.c, `relative_valid`, `parse` and the
    printing in `asper_compact_begin`): one line per backed-up file. */
module Marker {
  import opened Outcomes
  import opened Records
  import opened Text
  import C = Chunks

  const MAX_FILES: nat := 4096
  const MARKER_LIMIT: nat := 1024 * 1024

  datatype Row = Row(existed: bool, hash: string, rel: string)

  type Hash = s: string | HashText(s) witness seq(64, _ => '0')

  const IDENTITY: string := "identity.xcdn"
  const CONTEXT: string := "context.xcdn"
  const JOURNAL: string := "journal.xcdn"

  function ProjectRel(slug: string): string { "projects/" + slug + ".xcdn" }

  predicate RelValid(rel: string) {
    || rel == IDENTITY || rel == CONTEXT || rel == JOURNAL
    || (|rel| > 14 && rel[..9] == "projects/" && rel[|rel| - 5..] == ".xcdn" && SlugValid(rel[9..|rel| - 5]))
  }

  lemma ProjectRelValid(slug: string)
    requires SlugValid(slug)
    ensures RelValid(ProjectRel(slug)) && ProjectRel(slug)[9..|ProjectRel(slug)| - 5] == slug
    ensures ProjectRel(slug) != IDENTITY && ProjectRel(slug) != CONTEXT && ProjectRel(slug) != JOURNAL
  {
    var rel := ProjectRel(slug);
    assert rel[..9] == "projects/" && rel[|rel| - 5..] == ".xcdn" && rel[9..|rel| - 5] == slug;
    assert rel[0] == 'p';
  }

  lemma ProjectRelInjective(a: string, b: string)
    requires ProjectRel(a) == ProjectRel(b)
    ensures a == b
  {
    var r := ProjectRel(a);
    assert r[9..|r| - 5] == a && r[9..|r| - 5] == b;
  }

  lemma RelPlain(rel: string)
    requires RelValid(rel)
    ensures '\n' !in rel && rel != "" && |rel| <= 78
  {
    if rel != IDENTITY && rel != CONTEXT && rel != JOURNAL {
      var slug := rel[9..|rel| - 5];
      assert rel == "projects/" + slug + ".xcdn";
    }
  }

  predicate RowValid(r: Row) { RelValid(r.rel) && (if r.existed then HashText(r.hash) else r.hash == "") }

  ghost predicate Distinct(rows: seq<Row>) {
    forall i, j | 0 <= i < j < |rows| :: rows[i].rel != rows[j].rel
  }

  ghost predicate RowsValid(rows: seq<Row>) {
    && 1 <= |rows| <= MAX_FILES && Distinct(rows)
    && forall i | 0 <= i < |rows| :: RowValid(rows[i])
  }

  function Line(r: Row): string {
    if r.existed then "E " + r.hash + " " + r.rel else "M - " + r.rel
  }

  function Lines(rows: seq<Row>): (cs: seq<string>)
    ensures |cs| == |rows| && forall i | 0 <= i < |rows| :: cs[i] == Line(rows[i]) + "\n"
  {
    seq(|rows|, i requires 0 <= i < |rows| => Line(rows[i]) + "\n")
  }

  function Format(rows: seq<Row>): string { C.Join(Lines(rows)) }

  lemma FormatSnoc(rows: seq<Row>, r: Row)
    ensures Format(rows + [r]) == Format(rows) + (Line(r) + "\n")
  {
    assert Lines(rows + [r]) == Lines(rows) + [Line(r) + "\n"];
    C.JoinSnoc(Lines(rows), Line(r) + "\n");
  }

  lemma LineShape(r: Row)
    requires RowValid(r)
    ensures '\n' !in Line(r) && |Line(r)| <= 145 && |Line(r)| >= 5
    ensures r.existed ==> Line(r)[0] == 'E' && Line(r)[1] == ' ' && Line(r)[2..66] == r.hash && Line(r)[66] == ' '
                          && Line(r)[67..] == r.rel && |Line(r)| >= 68
    ensures !r.existed ==> Line(r)[..4] == "M - " && Line(r)[4..] == r.rel
  {
    RelPlain(r.rel);
    if r.existed {
      assert forall i | 0 <= i < 64 :: r.hash[i] != '\n';
    }
  }

  lemma {:induction false} MarkerLength(rows: seq<Row>)
    requires forall i | 0 <= i < |rows| :: RowValid(rows[i])
    ensures |Format(rows)| <= 146 * |rows|
  {
    hide *;
    FormatNone();
    if rows != [] {
      var n := |rows| - 1;
      MarkerLength(rows[..n]);
      FormatSnoc(rows[..n], rows[n]);
      assert rows[..n] + [rows[n]] == rows;
      LineShape(rows[n]);
    }
  }

  /** A marker for the largest transaction still fits what recovery agrees to read. */
  lemma MarkerFits(rows: seq<Row>)
    requires RowsValid(rows)
    ensures |Format(rows)| < MARKER_LIMIT
  {
    MarkerLength(rows);
  }

  /** One line, without its newline: the row it is the print of, if any. */
  method ParseLine(line: string) returns (ok: bool, r: Row)
    requires '\n' !in line
    ensures ok ==> RowValid(r) && Line(r) == line
    ensures (exists x :: RowValid(x) && Line(x) == line) ==> ok
  {
    forall x | RowValid(x) && Line(x) == line
      ensures x.existed ==>
        |line| >= 68 && line[0] == 'E' && line[1] == ' ' && line[66] == ' ' &&
        HashText(line[2..66]) && RelValid(line[67..])
      ensures !x.existed ==> |line| >= 5 && line[..4] == "M - " && line[0] != 'E' && RelValid(line[4..])
    {
      LineShape(x);
      assert !x.existed ==> line[0] == line[..4][0];
    }
    r := Row(false, "", "");
    if |line| >= 68 && line[0] == 'E' && line[1] == ' ' && line[66] == ' ' {
      if !HashText(line[2..66]) || !RelValid(line[67..]) { return false, r; }
      assert line == "E " + line[2..66] + " " + line[67..];
      return true, Row(true, line[2..66], line[67..]);
    }
    if |line| >= 4 && line[..4] == "M - " {
      if !RelValid(line[4..]) { return false, r; }
      return true, Row(false, "", line[4..]);
    }
    return false, r;
  }

  /** A text that starts with a line and its newline: the first newline is that one. */
  lemma FirstNewline(s: string, line: string, end: nat)
    requires line + "\n" <= s && '\n' !in line
    requires end <= |s| && '\n' !in s[..end] && (end < |s| ==> s[end] == '\n')
    ensures end == |line| < |s| && s[..end] == line
  {
    assert s[|line|] == (line + "\n")[|line|] == '\n';
    assert forall i | 0 <= i < |line| :: s[i] == (line + "\n")[i] == line[i] != '\n';
    assert forall i | 0 <= i < end :: s[i] == s[..end][i] != '\n';
    assert end == |line|;
    assert s[..end] == (line + "\n")[..end] == line;
  }

  lemma LineInjective(a: Row, b: Row)
    requires RowValid(a) && RowValid(b) && Line(a) == Line(b)
    ensures a == b
  {
    LineShape(a);
    LineShape(b);
    assert !a.existed ==> Line(a)[0] == Line(a)[..4][0] == 'M';
    assert !b.existed ==> Line(b)[0] == Line(b)[..4][0] == 'M';
  }

  lemma NextLine(want: seq<Row>, text: string, n: nat, at: nat, end: nat)
    requires RowsValid(want) && Format(want) == text && n <= |want|
    requires at < |text| && Format(want[..n]) == text[..at]
    requires at <= end <= |text| && '\n' !in text[at..end] && (end < |text| ==> text[end] == '\n')
    ensures n < |want| && end < |text| && text[at..end] == Line(want[n])
  {
    hide Line, RowValid, C.Join;
    assert Lines(want)[..n] == Lines(want[..n]);
    assert want[..|want|] == want;
    if n < |want| {
      C.ChunkAt(Lines(want), text, n);
      assert RowValid(want[n]);
      LineShape(want[n]);
      assert text[at..][..end - at] == text[at..end];
      FirstNewline(text[at..], Line(want[n]), end - at);
    }
  }

  lemma AllRows(want: seq<Row>, n: nat)
    requires n <= |want| && Format(want[..n]) == Format(want)
    ensures n == |want|
  {
    assert Lines(want)[..n] == Lines(want[..n]);
    if n < |want| { C.EndMonotone(Lines(want), n, |want|); }
    assert Lines(want)[..|want|] == Lines(want);
  }

  /** `parse`: accepts exactly the texts a transaction prints, and recovers its rows. The
      ghost argument names those rows when there are any. */
  method ParseMarker(text: string, ghost want: seq<Row>) returns (err: Err, rows: seq<Row>)
    ensures err == Ok || err == Parse
    ensures err == Ok ==> RowsValid(rows) && Format(rows) == text
    ensures RowsValid(want) && Format(want) == text ==> err == Ok && rows == want
  {
    hide Format, Line, RowValid;
    rows := [];
    var at := 0;
    err := Ok;
    ghost var good := RowsValid(want) && Format(want) == text;
    assert Format([]) == text[..0] by { FormatNone(); }
    while at < |text|
      invariant at <= |text| && err == Ok
      invariant |rows| <= MAX_FILES && Distinct(rows) && forall i | 0 <= i < |rows| :: RowValid(rows[i])
      invariant Format(rows) == text[..at]
      invariant good ==> |rows| <= |want| && rows == want[..|rows|]
    {
      var end := at;
      while end < |text| && text[end] != '\n'
        invariant at <= end <= |text| && '\n' !in text[at..end]
      {
        end := end + 1;
      }
      if good { NextLine(want, text, |rows|, at, end); }
      if end == |text| || |rows| == MAX_FILES { return Parse, rows; }
      var ok, r := ParseLine(text[at..end]);
      if good {
        assert RowValid(want[|rows|]);
        LineInjective(r, want[|rows|]);
      }
      if !ok || exists i :: 0 <= i < |rows| && rows[i].rel == r.rel { return Parse, rows; }
      FormatSnoc(rows, r);
      assert text[..end + 1] == text[..at] + (text[at..end] + "\n");
      rows := rows + [r];
      at := end + 1;
    }
    assert text[..at] == text;
    if good { AllRows(want, |rows|); assert want[..|want|] == want; }
    if rows == [] { err := Parse; }
  }

  lemma FormatNone()
    ensures Format([]) == ""
  {}

  lemma {:induction false} SamePrefix(a: seq<Row>, b: seq<Row>, k: nat)
    requires RowsValid(a) && RowsValid(b) && Format(a) == Format(b) && k <= |a|
    ensures k <= |b| && a[..k] == b[..k]
    decreases k
  {
    hide Line, RowValid, C.Join;
    if k > 0 {
      SamePrefix(a, b, k - 1);
      var n, text := k - 1, Format(a);
      C.ChunkAt(Lines(a), text, n);
      assert Lines(a)[..n] == Lines(a[..n]);
      assert RowValid(a[n]);
      LineShape(a[n]);
      var at := |Format(a[..n])|;
      var end := at + |Line(a[n])|;
      var chunk := Line(a[n]) + "\n";
      assert text[at..][..|chunk|] == chunk;
      assert text[at..end] == chunk[..|Line(a[n])|] == Line(a[n]);
      assert text[end] == chunk[|chunk| - 1];
      NextLine(b, text, n, at, end);
      assert RowValid(b[n]);
      LineInjective(a[n], b[n]);
      assert a[..k] == a[..n] + [a[n]] && b[..k] == b[..n] + [b[n]];
    }
  }

  /** A marker text stands for one list of rows only. */
  lemma FormatInjective(a: seq<Row>, b: seq<Row>)
    requires RowsValid(a) && RowsValid(b) && Format(a) == Format(b)
    ensures a == b
  {
    SamePrefix(a, b, |a|);
    SamePrefix(b, a, |b|);
    assert a[..|a|] == a && b[..|b|] == b;
  }
}
