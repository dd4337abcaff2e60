/** Reading and writing event frames on a stream (src/event_frame.c), proved against
    the definitions of EventFrame: the reader accepts exactly the canonical frames. */
module FrameIO {
  import opened Outcomes
  import opened Decimal
  import opened EventFrame

  /** A stdio stream open for reading. */
  class InStream {
    const data: string
    var pos: nat
    var eof: bool

    ghost predicate Valid() reads this { pos <= |data| }

    ghost function Rest(): string
      reads this
      requires Valid()
    {
      data[pos..]
    }

    constructor (data: string)
      ensures Valid() && this.data == data && Rest() == data
    {
      this.data := data;
      pos, eof := 0, false;
    }

    method Gets(size: nat) returns (line: string)
      requires Valid() && size >= 2
      modifies this
      ensures Valid() && line <= old(Rest()) && Rest() == old(Rest())[|line|..]
      ensures |line| < size && forall i | 0 <= i < |line| - 1 :: line[i] != '\n'
      ensures eof <==> (|line| < size - 1 && '\n' !in line)
      ensures eof ==> line == old(Rest())
      ensures line == "" <==> old(Rest()) == ""
      ensures |line| == size - 1 || eof || (line != "" && line[|line| - 1] == '\n')
    {
      var start := pos;
      while pos < |data| && pos - start < size - 1 && (pos == start || data[pos - 1] != '\n')
        invariant start <= pos <= |data| && pos - start <= size - 1
        invariant forall i | start <= i < pos - 1 :: data[i] != '\n'
      {
        pos := pos + 1;
      }
      line := data[start..pos];
      assert data[start..][..pos - start] == line && data[start..][pos - start..] == data[pos..];
      assert pos > start ==> line[pos - start - 1] == data[pos - 1];
      eof := pos - start < size - 1 && (pos == start || data[pos - 1] != '\n');
    }

    method Read(n: nat) returns (s: string)
      requires Valid()
      modifies this
      ensures Valid() && s == old(Rest())[..Min(n, |old(Rest())|)] && Rest() == old(Rest())[|s|..]
      ensures |s| == Min(n, |old(Rest())|)
    {
      var k := Min(n, |data| - pos);
      s := data[pos..pos + k];
      pos := pos + k;
      eof := eof || k < n;
    }
  }

  // ---- writing -------------------------------------------------------------

  /** What the C types alone guarantee of an event handed to the writer. */
  predicate EventTyped(e: Event) {
    && 0 <= e.sequence <= ULLONG_MAX && LLONG_MIN <= e.at <= LLONG_MAX
    && 0 <= e.kind && 0 <= e.pinned
  }

  /** Append one frame. A failing device may leave any prefix of it behind. */
  method FrameWrite(cx: Codec, data: string, e: Event) returns (err: Err, out: string)
    requires EventTyped(e)
    ensures err == Invalid <==> (|e.text| > EVENT_BYTES || |Head(MetaOf(e))| >= HEAD_SIZE)
    ensures err == Invalid ==> out == data
    ensures err == Ok ==> out == data + FrameBytes(cx, e)
    ensures err == Ok ==> var head := HeadText(e);
      out == data + (head + " " + cx.hash(head) + " " + cx.hash(head + e.objectRef + e.text) + "\n"
                     + e.objectRef + e.text + "\n")
    ensures err == Io ==> exists k: nat :: k <= |FrameBytes(cx, e)| && out == data + FrameBytes(cx, e)[..k]
    ensures err == Ok || err == Io || err == Invalid
  {
    FrameText(cx, e);
    var m := MetaOf(e);
    var head := Head(m);
    if |e.text| > EVENT_BYTES || |head| >= HEAD_SIZE {
      return Invalid, data;
    }
    var header_hash := cx.hash(head);
    var hash := cx.hash(head + e.objectRef + e.text);
    var line := head + " " + header_hash + " " + hash + "\n";
    var frame := line + e.objectRef + e.text + "\n";
    assert line == HeaderLine(cx, m, hash);
    assert frame == FrameBytes(cx, e);
    var failed: bool := *;
    if failed {
      var written :| 0 <= written <= |frame|;
      return Io, data + frame[..written];
    }
    return Ok, data + frame;
  }

  /** The metadata of an event as text. */
  function HeadText(e: Event): string
    requires EventTyped(e)
  {
    "AEV2 " + Print(e.sequence) + " " + PrintInt(e.at) + " " + Print(e.kind) + " " + Print(e.pinned) + " " + e.id
    + " " + Print(|e.objectRef|) + " " + Print(|e.text|)
  }

  lemma HeadIs(e: Event)
    requires EventTyped(e)
    ensures Head(MetaOf(e)) == HeadText(e)
  {
    hide Print, PrintInt;
  }

  /** Every byte of a frame: the metadata, its digest, the digest of it and the payload, and the payload. */
  lemma FrameText(cx: Codec, e: Event)
    requires EventTyped(e)
    ensures var head := HeadText(e);
      FrameBytes(cx, e) ==
        head + " " + cx.hash(head) + " " + cx.hash(head + e.objectRef + e.text) + "\n" + e.objectRef + e.text + "\n"
  {
    HeadIs(e);
    hide HeadText, Head;
  }

  /** A valid event always fits the head buffer and the frame limit. */
  lemma ValidEventWritable(cx: Codec, e: Event)
    requires EventValid(cx, e)
    ensures EventTyped(e) && |e.text| <= EVENT_BYTES && |Head(MetaOf(e))| < HEAD_SIZE
  {
    HeadShape(MetaOf(e));
  }

  // ---- reading numbers -----------------------------------------------------

  lemma DigitRun(s: string, n: nat, rest: string, i: nat)
    requires s == Print(n) + (" " + rest)
    requires i <= |s| && (forall j | 0 <= j < i :: IsDigit(s[j])) && (i < |s| ==> !IsDigit(s[i]))
    ensures i == |Print(n)| && s[..i] == Print(n) && s[i] == ' ' && s[i + 1..] == rest
  {
    var d := Print(n);
    assert forall j | 0 <= j < |d| :: s[j] == d[j] && IsDigit(d[j]);
    assert s[|d|] == ' ';
    assert i == |d|;
  }

  lemma OneRun(line: string, p: nat, e: nat, end: nat)
    requires p <= end <= |line| && p < e < |line| && AllDigits(line[p..e]) && line[e] == ' '
    requires AllDigits(line[p..end]) && (end < |line| ==> !IsDigit(line[end]))
    ensures e == end
  {
    RunDigits(line, p, e);
    RunDigits(line, p, end);
  }

  lemma RunDigits(line: string, p: nat, e: nat)
    requires p <= e <= |line| && AllDigits(line[p..e])
    ensures forall j | p <= j < e :: IsDigit(line[j])
  {
    forall j | p <= j < e ensures IsDigit(line[j]) { assert line[p..e][j - p] == line[j]; }
  }

  /** A run of digits worth at most max, then a space. */
  predicate NumberAt(line: string, p: nat, e: nat, max: nat) {
    p < e < |line| && AllDigits(line[p..e]) && line[e] == ' ' && Value(line[p..e]) <= max
  }

  /** `number`: a digit run, at most max, followed by one space. The ghost arguments
      name the number and the text after it when the line is a printed one. */
  method Number(line: string, p: nat, max: nat, ghost n: nat, ghost rest: string)
    returns (ok: bool, v: nat, q: nat)
    requires p <= |line|
    ensures ok <==> exists e :: NumberAt(line, p, e, max)
    ensures ok ==> p < q <= |line| && v <= max && NumberAt(line, p, q - 1, max) && v == Value(line[p..q - 1])
    ensures n <= max && line[p..] == Print(n) + (" " + rest) ==> ok && v == n && line[q..] == rest
  {
    v, q := Digits(line, p);
    ghost var end := q;
    forall e | NumberAt(line, p, e, max) ensures e == end { OneRun(line, p, e, end); }
    ok := p < q < |line| && v <= max && line[q] == ' ';
    assert ok ==> NumberAt(line, p, end, max);
    if ok {
      q := q + 1;
    }
    if n <= max && line[p..] == Print(n) + (" " + rest) { PrintedRun(line, p, n, rest, end); }
  }

  /** All digits from p on. */
  method Digits(line: string, p: nat) returns (v: nat, q: nat)
    requires p <= |line|
    ensures p <= q <= |line| && AllDigits(line[p..q]) && v == Value(line[p..q])
    ensures q < |line| ==> !IsDigit(line[q])
  {
    v, q := 0, p;
    while q < |line| && IsDigit(line[q])
      invariant p <= q <= |line|
      invariant AllDigits(line[p..q]) && v == Value(line[p..q])
    {
      assert line[p..q + 1] == line[p..q] + [line[q]];
      v := v * 10 + DigitValue(line[q]);
      q := q + 1;
    }
  }

  lemma PrintedRun(line: string, p: nat, n: nat, rest: string, end: nat)
    requires p <= end <= |line| && AllDigits(line[p..end]) && (end < |line| ==> !IsDigit(line[end]))
    requires line[p..] == Print(n) + (" " + rest)
    ensures p < end < |line| && line[end] == ' ' && Value(line[p..end]) == n && line[end + 1..] == rest
  {
    hide Value, Print;
    assert forall j | 0 <= j < end - p :: line[p..][j] == line[p..end][j];
    DigitRun(line[p..], n, rest, end - p);
    assert line[p..end] == line[p..][..end - p];
    ValueOfPrint(n);
    assert line[end + 1..] == line[p..][end - p + 1..];
  }

  /** The signed time field: an optional minus sign, then as above. */
  method Signed(line: string, p: nat, ghost n: int, ghost rest: string)
    returns (ok: bool, v: int, q: nat)
    requires p <= |line|
    ensures ok ==> p < q <= |line| && LLONG_MIN <= v <= LLONG_MAX
    ensures LLONG_MIN <= n <= LLONG_MAX && line[p..] == PrintInt(n) + (" " + rest)
            ==> ok && v == n && line[q..] == rest
  {
    var negative := p < |line| && line[p] == '-';
    var start := if negative then p + 1 else p;
    if LLONG_MIN <= n <= LLONG_MAX && line[p..] == PrintInt(n) + (" " + rest) {
      assert line[p] == line[p..][0] == PrintInt(n)[0];
      if n < 0 {
        assert line[start..] == line[p..][1..] == Print(-n) + (" " + rest);
      } else {
        assert IsDigit(Print(n)[0]);
        assert line[start..] == Print(n) + (" " + rest);
      }
    }
    var u;
    ok, u, q := Number(line, start, if negative then -LLONG_MIN else LLONG_MAX, Abs(n), rest);
    v := if negative then -(u as int) else u as int;
  }

  // ---- reading a header ----------------------------------------------------

  lemma HeaderIsLine(cx: Codec, s: string, line: string, m: Meta, d: string)
    requires StartsWithHeader(cx, s, m, d)
    requires line <= s && |line| < LINE_SIZE && forall i | 0 <= i < |line| - 1 :: line[i] != '\n'
    requires |line| == LINE_SIZE - 1 || line == s || (line != "" && line[|line| - 1] == '\n')
    ensures line == HeaderLine(cx, m, d)
  {
    LineShape(cx, m, d);
    var l := HeaderLine(cx, m, d);
    assert s[|l| - 1] == '\n';
    assert forall i | 0 <= i < |l| - 1 :: s[i] == l[..|l| - 1][i] != '\n';
    assert |line| <= |l|;
    assert |line| == |l|;
    assert line == s[..|line|];
  }

  lemma AfterFields(line: string, p: nat, m: Meta, cx: Codec, d: string)
    requires p <= |line| && Printable64(d)
    requires line[p..] == Tail(cx, m, d)
    ensures |line| - p == 130 && line[p..][..64] == cx.hash(Head(m)) && line[p + 64] == ' '
    ensures line[p + 65..][..64] == d && line[p + 129] == '\n'
  {
    var t := Tail(cx, m, d);
    assert t[..64] == cx.hash(Head(m)) && t[64] == ' ' && t[65..129] == d && t[129] == '\n';
    assert line[p + 65..][..64] == t[65..129];
    assert line[p + 64] == line[p..][64] && line[p + 129] == line[p..][129];
  }

  /** The fields of a header line, in the order the code reads them; ok does not yet
      mean canonical. Complete on every canonical line. */
  method ParseFields(line: string, ghost n: Meta, ghost z: string) returns (ok: bool, m: Meta, p: nat)
    ensures ok ==> p <= |line| && MetaValid(m)
    ensures MetaValid(n) && line == "AEV2 " + FromSequence(n, " " + z) ==> ok && m == n && line[p..] == z
  {
    ok, m, p := false, Meta(0, 0, 0, 0, "", 0, 0), 0;
    ghost var want := MetaValid(n) && line == "AEV2 " + FromSequence(n, " " + z);
    if want { assert line[5..] == FromSequence(n, " " + z) && line[..5] == "AEV2 "; }
    if |line| < 5 || line[..5] != "AEV2 " { return; }
    var got, sequence, q := Number(line, 5, ULLONG_MAX, Abs(n.sequence), FromAt(n, " " + z));
    if !got || sequence == 0 { return; }
    var at;
    got, at, q := Signed(line, q, n.at, FromKind(n, " " + z));
    if !got { return; }
    var kind;
    got, kind, q := Number(line, q, 7, Abs(n.kind), FromPinned(n, " " + z));
    if !got { return; }
    var pinned;
    got, pinned, q := Number(line, q, 1, Abs(n.pinned), FromId(n, " " + z));
    if !got { return; }
    var back, id, obj, text, r := ParseTail(line, q, n, z);
    if !back { return; }
    ok, m, p := true, Meta(sequence, at, kind, pinned, id, obj, text), r;
  }

  method ParseTail(line: string, p: nat, ghost n: Meta, ghost z: string)
    returns (ok: bool, id: string, obj: nat, text: nat, q: nat)
    requires p <= |line|
    ensures ok ==> q <= |line| && UuidValid(id) && (obj == 0 || obj == 71) && text <= EVENT_BYTES
    ensures MetaValid(n) && line[p..] == FromId(n, " " + z)
            ==> ok && id == n.id && obj == n.objectBytes && text == n.textBytes && line[q..] == z
  {
    ok, id, obj, text, q := false, "", 0, 0, p;
    if MetaValid(n) && line[p..] == FromId(n, " " + z) {
      assert line[p..][..36] == n.id && line[p..][36] == ' ' && line[p..][37..] == FromObject(n, " " + z);
    }
    if |line| - p < 37 || line[p + 36] != ' ' { return; }
    id := line[p..p + 36];
    assert id == line[p..][..36] && line[p + 37..] == line[p..][37..];
    q := p + 37;
    if !UuidValid(id) { return; }
    var got;
    got, obj, q := Number(line, q, 71, Abs(n.objectBytes), FromText(n, " " + z));
    if !got || (obj != 0 && obj != 71) { return; }
    got, text, q := Number(line, q, EVENT_BYTES, Abs(n.textBytes), z);
    ok := got;
  }

  /** The canonical form test: the fields print back to the very line. */
  method HeaderMatches(cx: Codec, line: string, m: Meta, p: nat, ghost d: string)
    returns (ok: bool, digest: string)
    requires MetaValid(m) && p <= |line|
    requires '\0' !in line && forall i | 0 <= i < |line| - 1 :: line[i] != '\n'
    ensures ok ==> CanonicalLine(cx, line, m, digest)
    ensures CanonicalLine(cx, line, m, d) && line[p..] == Tail(cx, m, d) ==> ok && digest == d
  {
    ok, digest := false, "";
    var head := Head(m);
    if CanonicalLine(cx, line, m, d) && line[p..] == Tail(cx, m, d) {
      AfterFields(line, p, m, cx, d);
      LineShape(cx, m, d);
      assert line == Head(m) + (" " + Tail(cx, m, d));
    }
    if |line| - p != 130 || line[p + 64] != ' ' || line[p + 129] != '\n' { return; }
    var header_hash, hash := line[p..p + 64], line[p + 65..p + 129];
    var used := p + 129;
    assert header_hash == line[p..][..64] && hash == line[p + 65..][..64];
    HeadShape(m);
    if |head| >= HEAD_SIZE || used != |head| + 130 || line[..|head|] != head || line[|head|] != ' ' { return; }
    if header_hash != cx.hash(head) { return; }
    assert Printable64(hash) by {
      assert forall i | 0 <= i < 64 :: hash[i] == line[p + 65 + i];
    }
    assert line == HeaderLine(cx, m, hash) by {
      assert line == line[..|head|] + ([line[|head|]] + (line[p..p + 64] + ([line[p + 64]] + (line[p + 65..p + 129] + [line[p + 129]]))));
    }
    ok, digest := true, hash;
  }

  ghost predicate CanonicalLine(cx: Codec, line: string, m: Meta, digest: string) {
    MetaValid(m) && Printable64(digest) && line == HeaderLine(cx, m, digest)
  }

  lemma CanonicalFields(cx: Codec, line: string, m: Meta, digest: string)
    requires CanonicalLine(cx, line, m, digest)
    ensures line == "AEV2 " + FromSequence(m, " " + Tail(cx, m, digest))
  {
    LineFields(cx, m, digest);
    LineShape(cx, m, digest);
    assert line == line[..5] + line[5..];
  }

  /** A line without NUL, up to and including its newline: accepted exactly when it is
      the canonical header of its own fields. */
  method ParseLine(cx: Codec, line: string) returns (ok: bool, m: Meta, digest: string)
    requires '\0' !in line && forall i | 0 <= i < |line| - 1 :: line[i] != '\n'
    ensures ok ==> CanonicalLine(cx, line, m, digest)
    ensures (exists n, d :: CanonicalLine(cx, line, n, d)) ==> ok
  {
    ghost var n, g := Meta(0, 0, 0, 0, "", 0, 0), "";
    if exists n, d :: CanonicalLine(cx, line, n, d) {
      n, g :| CanonicalLine(cx, line, n, g);
      CanonicalFields(cx, line, n, g);
    }
    digest := "";
    var p;
    ok, m, p := ParseFields(line, n, Tail(cx, n, g));
    if !ok { return; }
    ok, digest := HeaderMatches(cx, line, m, p, g);
  }

  /** The line the stream yields decides every header the text can begin with. */
  lemma LineDecides(cx: Codec, s: string, line: string)
    requires line <= s && |line| < LINE_SIZE && forall i | 0 <= i < |line| - 1 :: line[i] != '\n'
    requires |line| == LINE_SIZE - 1 || line == s || (line != "" && line[|line| - 1] == '\n')
    ensures forall n, d | StartsWithHeader(cx, s, n, d) :: CanonicalLine(cx, line, n, d)
    ensures forall n, d | StartsWithHeader(cx, s, n, d) :: '\n' in line && '\0' !in line
  {
    forall n, d | StartsWithHeader(cx, s, n, d)
      ensures CanonicalLine(cx, line, n, d) && '\n' in line && '\0' !in line
    {
      HeaderIsLine(cx, s, line, n, d);
      LineShape(cx, n, d);
    }
  }

  /** `asper_event_frame_head`: exactly the canonical headers are accepted, and
      NotFound is answered exactly when the file ends inside a possible header. */
  method HeadRead(cx: Codec, f: InStream) returns (err: Err, m: Meta, digest: string)
    requires f.Valid()
    modifies f
    ensures f.Valid()
    ensures err == Ok || err == NotFound || err == Parse
    ensures err == Ok ==> StartsWithHeader(cx, old(f.Rest()), m, digest)
                          && f.Rest() == old(f.Rest())[|HeaderLine(cx, m, digest)|..]
    ensures (exists n, d :: StartsWithHeader(cx, old(f.Rest()), n, d)) ==> err == Ok
    ensures err == NotFound <==> CutHeader(old(f.Rest()))
  {
    ghost var s := f.Rest();
    m, digest := Meta(0, 0, 0, 0, "", 0, 0), "";
    var raw := f.Gets(LINE_SIZE);
    LineDecides(cx, s, raw);
    if raw == "" {
      assert CString(s) == "";
      return NotFound, m, digest;
    }
    var line := CString(raw);
    if '\n' !in line {
      if f.eof && PrefixOk(raw) {
        return NotFound, m, digest;
      }
      assert !CutHeader(s) by { CutNeedsEof(s, raw, f.eof); }
      return Parse, m, digest;
    }
    assert line == raw && '\n' in s;
    var ok;
    ok, m, digest := ParseLine(cx, line);
    return if ok then Ok else Parse, m, digest;
  }

  lemma CutNeedsEof(s: string, raw: string, eof: bool)
    requires raw <= s && |raw| < LINE_SIZE
    requires eof ==> raw == s
    requires eof <==> (|raw| < LINE_SIZE - 1 && '\n' !in raw)
    requires !(eof && PrefixOk(raw))
    ensures !CutHeader(s)
  {
    if '\n' !in s {
      assert forall c | c in raw :: c in s;
    }
  }

  // ---- reading a frame -----------------------------------------------------

  /** The payload that completes header m into the frame of e. */
  ghost predicate PayloadIs(cx: Codec, rest: string, m: Meta, digest: string, e: Event) {
    && EventValid(cx, e) && MetaOf(e) == m
    && digest == PayloadDigest(cx, m, e.objectRef, e.text)
    && |rest| > m.objectBytes + m.textBytes
    && e.objectRef == rest[..m.objectBytes]
    && e.text == rest[m.objectBytes..][..m.textBytes]
    && rest[m.objectBytes + m.textBytes] == '\n'
  }

  /** With the header known, the payload decides: which frame it is, and whether it is torn. */
  lemma HeaderDecides(cx: Codec, s: string, m: Meta, digest: string)
    requires StartsWithHeader(cx, s, m, digest)
    ensures var rest := s[|HeaderLine(cx, m, digest)|..];
      && (Torn(cx, s) <==> CutPayload(m, rest))
      && (forall e :: StartsWith(cx, s, e) <==> PayloadIs(cx, rest, m, digest, e))
  {
    var rest := s[|HeaderLine(cx, m, digest)|..];
    LineShape(cx, m, digest);
    assert s[|HeaderLine(cx, m, digest)| - 1] == '\n';
    forall n, g | StartsWithHeader(cx, s, n, g)
      ensures n == m && g == digest
    {
      HeaderUnique(cx, s, m, digest, n, g);
    }
    forall e
      ensures StartsWith(cx, s, e) <==> PayloadIs(cx, rest, m, digest, e)
    {
      if StartsWith(cx, s, e) { FrameHeader(cx, s, e); }
      if PayloadIs(cx, rest, m, digest, e) { AssembleFrame(cx, s, m, digest, e); }
    }
  }

  lemma AssembleFrame(cx: Codec, s: string, m: Meta, digest: string, e: Event)
    requires StartsWithHeader(cx, s, m, digest)
    requires PayloadIs(cx, s[|HeaderLine(cx, m, digest)|..], m, digest, e)
    ensures StartsWith(cx, s, e)
    ensures s[|FrameBytes(cx, e)|..] == s[|HeaderLine(cx, m, digest)|..][m.objectBytes + m.textBytes + 1..]
  {
    hide HeaderLine, PayloadDigest, ObjectRefValid;
    var line := HeaderLine(cx, m, digest);
    var rest := s[|line|..];
    var k := m.objectBytes + m.textBytes + 1;
    assert rest[..k] == e.objectRef + (e.text + "\n");
    assert s == line + rest;
    assert s[..|line| + k] == line + rest[..k] == FrameBytes(cx, e);
  }

  /** The three reads after the header: Parse only for a whole but invalid object reference. */
  method PayloadRead(f: InStream, m: Meta) returns (err: Err, objectRef: string, text: string, term: string)
    requires f.Valid() && MetaValid(m)
    modifies f
    ensures f.Valid() && (err == Ok || err == NotFound || err == Parse)
    ensures err == NotFound <==> CutPayload(m, old(f.Rest()))
    ensures err == Parse ==> |old(f.Rest())| >= m.objectBytes && !ObjectRefValid(old(f.Rest())[..m.objectBytes])
    ensures err == Ok ==>
      var rest := old(f.Rest());
      && |rest| > m.objectBytes + m.textBytes && |term| == 1
      && objectRef == rest[..m.objectBytes] && ObjectRefValid(objectRef)
      && text == rest[m.objectBytes..][..m.textBytes]
      && term[0] == rest[m.objectBytes + m.textBytes]
      && f.Rest() == rest[m.objectBytes + m.textBytes + 1..]
  {
    ghost var rest := f.Rest();
    text, term := "", "";
    objectRef := f.Read(m.objectBytes);
    if |objectRef| != m.objectBytes { return NotFound, objectRef, text, term; }
    if !ObjectRefValid(objectRef) { return Parse, objectRef, text, term; }
    text := f.Read(m.textBytes);
    if |text| != m.textBytes { return NotFound, objectRef, text, term; }
    assert f.Rest() == rest[m.objectBytes + m.textBytes..];
    term := f.Read(1);
    if term == "" { return NotFound, objectRef, text, term; }
    return Ok, objectRef, text, term;
  }

  /** `asper_event_frame_read`: Ok exactly on the texts that begin with a complete
      valid frame, which is consumed exactly; NotFound exactly on torn tails; every
      other text is damage and reads as Parse. */
  method FrameRead(cx: Codec, f: InStream) returns (err: Err, e: Event)
    requires f.Valid()
    modifies f
    ensures f.Valid()
    ensures err == Ok || err == NotFound || err == Parse
    ensures err == Ok ==> StartsWith(cx, old(f.Rest()), e) && f.Rest() == old(f.Rest())[|FrameBytes(cx, e)|..]
    ensures (exists d :: StartsWith(cx, old(f.Rest()), d)) ==> err == Ok
    ensures err == NotFound <==> Torn(cx, old(f.Rest()))
  {
    ghost var s := f.Rest();
    e := Event(0, 0, 0, 0, "", "", "");
    var m, hash;
    err, m, hash := HeadRead(cx, f);
    if err != Ok {
      forall d | StartsWith(cx, s, d) ensures exists n, g :: StartsWithHeader(cx, s, n, g) { FrameHeader(cx, s, d); }
      return;
    }
    hide HeaderLine, FrameBytes, Torn, StartsWith, PayloadIs, CutPayload;
    HeaderDecides(cx, s, m, hash);
    err, e := BodyRead(cx, f, m, hash);
    if err == Ok { AssembleFrame(cx, s, m, hash, e); }
  }

  /** What follows a checked header. */
  method BodyRead(cx: Codec, f: InStream, m: Meta, hash: string) returns (err: Err, e: Event)
    requires f.Valid() && MetaValid(m)
    modifies f
    ensures f.Valid() && (err == Ok || err == NotFound || err == Parse)
    ensures err == NotFound <==> CutPayload(m, old(f.Rest()))
    ensures err == Ok ==> PayloadIs(cx, old(f.Rest()), m, hash, e)
    ensures err == Ok ==> f.Rest() == old(f.Rest())[m.objectBytes + m.textBytes + 1..]
    ensures forall d | PayloadIs(cx, old(f.Rest()), m, hash, d) :: err == Ok
  {
    hide Head, ObjectRefValid, UuidValid;
    e := Event(0, 0, 0, 0, "", "", "");
    var objectRef, text, term;
    err, objectRef, text, term := PayloadRead(f, m);
    if err != Ok { return; }
    if term != "\n" || '\0' in text || !cx.utf8(text) || hash != cx.hash(Head(m) + objectRef + text) {
      return Parse, e;
    }
    e := Event(m.sequence, m.at, m.kind, m.pinned, m.id, objectRef, text);
  }
}
