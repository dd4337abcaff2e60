/** AEV2 event frames (src/event_frame.c): a text header with decimal metadata, a
    header digest and a payload digest, followed by the object reference, the text
    and a newline.

    Bytes are characters, a file is a string. The digest and the UTF-8 test are
    arbitrary functions: nothing here needs them to be collision free. */
module EventFrame {
  import opened Outcomes
  import opened Decimal

  const EVENT_BYTES: nat := 16 * 1024 * 1024
  const ULLONG_MAX: nat := 0xFFFF_FFFF_FFFF_FFFF
  const LLONG_MAX: int := 0x7FFF_FFFF_FFFF_FFFF
  const LLONG_MIN: int := -0x8000_0000_0000_0000
  const LINE_SIZE: nat := 352
  const HEAD_SIZE: nat := 192

  predicate Printable64(s: string) {
    |s| == 64 && forall i | 0 <= i < 64 :: s[i] != '\n' && s[i] != '\0'
  }

  type Digest = s: string | Printable64(s) witness seq(64, _ => '0')

  datatype Codec = Codec(hash: string -> Digest, utf8: string -> bool)

  datatype Event = Event(sequence: int, at: int, kind: int, pinned: int, id: string,
                         objectRef: string, text: string)

  datatype Meta = Meta(sequence: int, at: int, kind: int, pinned: int, id: string,
                       objectBytes: int, textBytes: int)

  // ---- what a frame is ---------------------------------------------------

  predicate IsHex(c: char) { '0' <= c <= '9' || 'a' <= c <= 'f' || 'A' <= c <= 'F' }

  predicate UuidValid(s: string) {
    |s| == 36 && forall i | 0 <= i < 36 ::
      if i == 8 || i == 13 || i == 18 || i == 23 then s[i] == '-' else IsHex(s[i])
  }

  predicate ObjectRefValid(s: string) {
    s == "" || (|s| == 71 && s[..7] == "sha256:" && forall i | 7 <= i < 71 :: IsHex(s[i]))
  }

  predicate MetaValid(m: Meta) {
    && 1 <= m.sequence <= ULLONG_MAX
    && LLONG_MIN <= m.at <= LLONG_MAX
    && 0 <= m.kind <= 7
    && 0 <= m.pinned <= 1
    && UuidValid(m.id)
    && (m.objectBytes == 0 || m.objectBytes == 71)
    && 0 <= m.textBytes <= EVENT_BYTES
  }

  function MetaOf(e: Event): Meta {
    Meta(e.sequence, e.at, e.kind, e.pinned, e.id, |e.objectRef|, |e.text|)
  }

  /** An event the store may hold: the C struct filled by a valid producer. */
  predicate EventValid(cx: Codec, e: Event) {
    && MetaValid(MetaOf(e))
    && ObjectRefValid(e.objectRef)
    && '\0' !in e.text
    && cx.utf8(e.text)
  }

  // The header, one field at a time; `z` is whatever follows the fields.
  function FromText(m: Meta, z: string): string { Print(Abs(m.textBytes)) + z }
  function FromObject(m: Meta, z: string): string { Print(Abs(m.objectBytes)) + (" " + FromText(m, z)) }
  function FromId(m: Meta, z: string): string { m.id + (" " + FromObject(m, z)) }
  function FromPinned(m: Meta, z: string): string { Print(Abs(m.pinned)) + (" " + FromId(m, z)) }
  function FromKind(m: Meta, z: string): string { Print(Abs(m.kind)) + (" " + FromPinned(m, z)) }
  function FromAt(m: Meta, z: string): string { PrintInt(m.at) + (" " + FromKind(m, z)) }
  function FromSequence(m: Meta, z: string): string { Print(Abs(m.sequence)) + (" " + FromAt(m, z)) }

  function Abs(i: int): nat { if i < 0 then -i else i }

  function Head(m: Meta): string { "AEV2 " + FromSequence(m, "") }

  function Digests(cx: Codec, m: Meta, digest: string): string {
    " " + (cx.hash(Head(m)) + (" " + (digest + "\n")))
  }

  function HeaderLine(cx: Codec, m: Meta, digest: string): string {
    Head(m) + Digests(cx, m, digest)
  }

  function PayloadDigest(cx: Codec, m: Meta, objectRef: string, text: string): Digest {
    cx.hash(Head(m) + objectRef + text)
  }

  function FrameBytes(cx: Codec, e: Event): string {
    HeaderLine(cx, MetaOf(e), PayloadDigest(cx, MetaOf(e), e.objectRef, e.text))
    + (e.objectRef + (e.text + "\n"))
  }

  ghost predicate StartsWith(cx: Codec, s: string, e: Event) {
    EventValid(cx, e) && FrameBytes(cx, e) <= s
  }

  // ---- what a torn tail is -----------------------------------------------

  /** The bytes up to the first NUL: what the C string functions see. */
  function CString(s: string): (r: string)
    ensures r <= s && '\0' !in r
    ensures '\0' !in s ==> r == s
    ensures |r| < |s| ==> s[|r|] == '\0'
  {
    if s == "" || s[0] == '\0' then "" else [s[0]] + CString(s[1..])
  }

  function Min(a: int, b: int): int { if a < b then a else b }

  predicate PrefixOk(s: string) {
    var c := CString(s);
    var n := Min(|c|, 5);
    c[..n] == "AEV2 "[..n]
  }

  /** The file ends inside something that can still be a header line. */
  predicate CutHeader(s: string) {
    |s| < LINE_SIZE - 1 && '\n' !in s && PrefixOk(s)
  }

  /** The header is whole and checked, and the file ends inside the payload. */
  predicate CutPayload(m: Meta, payload: string) {
    |payload| < m.objectBytes
    || (0 <= m.objectBytes <= |payload| && ObjectRefValid(payload[..m.objectBytes])
        && |payload| < m.objectBytes + m.textBytes + 1)
  }

  ghost predicate StartsWithHeader(cx: Codec, s: string, m: Meta, digest: string) {
    MetaValid(m) && Printable64(digest) && HeaderLine(cx, m, digest) <= s
  }

  ghost predicate Torn(cx: Codec, s: string) {
    CutHeader(s)
    || exists m, digest :: StartsWithHeader(cx, s, m, digest)
                           && CutPayload(m, s[|HeaderLine(cx, m, digest)|..])
  }

  /** Only what ends too early is torn: a beginning of a header line, or fewer bytes than an intact
      header promises. Damage inside a complete frame is never taken for a torn tail. */
  lemma TornIsShort(cx: Codec, s: string)
    requires Torn(cx, s)
    ensures
      || ('\n' !in s && |s| <= 350 && forall i | 0 <= i < 5 && i < |s| && '\0' !in s[..i + 1] :: s[i] == "AEV2 "[i])
      || exists m, digest :: StartsWithHeader(cx, s, m, digest)
           && |s| <= |HeaderLine(cx, m, digest)| + m.objectBytes + m.textBytes
  {
    if CutHeader(s) {
      var c := CString(s);
      forall i | 0 <= i < 5 && i < |s| && '\0' !in s[..i + 1] ensures s[i] == "AEV2 "[i] {
        if |c| <= i { NulAt(s, i, |c|); }
        var n := Min(|c|, 5);
        assert c[..n][i] == "AEV2 "[..n][i];
      }
    } else {
      var m, digest :| StartsWithHeader(cx, s, m, digest) && CutPayload(m, s[|HeaderLine(cx, m, digest)|..]);
      hide HeaderLine, MetaValid;
      assert |s| <= |HeaderLine(cx, m, digest)| + m.objectBytes + m.textBytes by { Nonnegative(m); }
    }
  }

  lemma NulAt(s: string, i: nat, k: nat)
    requires k <= i < |s| && s[k] == '\0'
    ensures '\0' in s[..i + 1]
  {
    assert s[..i + 1][k] == '\0';
  }

  lemma Nonnegative(m: Meta)
    requires MetaValid(m)
    ensures m.textBytes >= 0
  {}

  // ---- shape of the header -----------------------------------------------

  lemma HeadSplit(m: Meta, z: string)
    ensures "AEV2 " + FromSequence(m, z) == Head(m) + z
  {
    hide Print, PrintInt;
    Glue(Print(Abs(m.objectBytes)), FromText(m, ""), z);
    Glue(m.id, FromObject(m, ""), z);
    Glue(Print(Abs(m.pinned)), FromId(m, ""), z);
    Glue(Print(Abs(m.kind)), FromPinned(m, ""), z);
    Glue(PrintInt(m.at), FromKind(m, ""), z);
    Glue(Print(Abs(m.sequence)), FromAt(m, ""), z);
    assert "AEV2 " + (FromSequence(m, "") + z) == Head(m) + z;
  }

  lemma Glue(field: string, rest: string, z: string)
    ensures field + (" " + (rest + z)) == (field + (" " + rest)) + z
  {}

  predicate Plain(s: string) { forall i | 0 <= i < |s| :: s[i] != '\n' && s[i] != '\0' }

  lemma PlainConcat(a: string, b: string)
    requires Plain(a) && Plain(b)
    ensures Plain(a + b)
  {}

  lemma DigitsPlain(n: nat, k: nat)
    requires 1 <= k && n < Pow10(k)
    ensures Plain(Print(n)) && |Print(n)| <= k
  {
    PrintLength(n, k);
  }

  lemma Powers()
    ensures Pow10(1) == 10 && Pow10(2) == 100 && Pow10(8) == 1_0000_0000
    ensures Pow10(20) == 1_0000_0000_0000_0000_0000
  {
    assert Pow10(4) == 1_0000;
    assert Pow10(8) == 1_0000_0000;
    assert Pow10(12) == 1_0000_0000_0000;
    assert Pow10(16) == 1_0000_0000_0000_0000;
  }

  lemma PlainField(field: string, rest: string)
    requires Plain(field) && Plain(rest)
    ensures Plain(field + (" " + rest))
  {
    PlainConcat(" ", rest);
    PlainConcat(field, " " + rest);
  }

  lemma TailShape(m: Meta)
    requires MetaValid(m)
    ensures Plain(FromPinned(m, "")) && |FromPinned(m, "")| <= 50
  {
    Powers();
    DigitsPlain(m.textBytes, 8);
    assert FromText(m, "") == Print(m.textBytes);
    DigitsPlain(m.objectBytes, 2);
    PlainField(Print(m.objectBytes), FromText(m, ""));
    PlainField(m.id, FromObject(m, ""));
    DigitsPlain(m.pinned, 1);
    PlainField(Print(m.pinned), FromId(m, ""));
  }

  /** Valid metadata print without NUL or newline, within the fixed head buffer. */
  lemma HeadShape(m: Meta)
    requires MetaValid(m)
    ensures Plain(Head(m)) && 5 <= |Head(m)| <= 100 && Head(m)[..5] == "AEV2 "
  {
    Powers();
    TailShape(m);
    DigitsPlain(m.kind, 1);
    PlainField(Print(m.kind), FromPinned(m, ""));
    DigitsPlain(Abs(m.at), 20);
    PlainField(PrintInt(m.at), FromKind(m, ""));
    DigitsPlain(m.sequence, 20);
    PlainField(Print(m.sequence), FromAt(m, ""));
    PlainConcat("AEV2 ", FromSequence(m, ""));
  }

  lemma LineShape(cx: Codec, m: Meta, digest: string)
    requires MetaValid(m) && Printable64(digest)
    ensures var l := HeaderLine(cx, m, digest);
      |l| == |Head(m)| + 131 < LINE_SIZE - 1 && l[|l| - 1] == '\n' && Plain(l[..|l| - 1])
      && '\0' !in l && l[..|Head(m)|] == Head(m) && l[..5] == "AEV2 "
  {
    HeadShape(m);
    var h := Head(m);
    var l := HeaderLine(cx, m, digest);
    assert Plain(cx.hash(h)) && Plain(digest);
    assert l[..|l| - 1] == h + (" " + (cx.hash(h) + (" " + digest)));
    PlainConcat(" ", digest);
    PlainConcat(cx.hash(h), " " + digest);
    PlainConcat(" ", cx.hash(h) + (" " + digest));
    PlainConcat(h, " " + (cx.hash(h) + (" " + digest)));
    assert l[..5] == h[..5];
    assert l == l[..|l| - 1] + "\n";
  }

  // ---- a text starts with at most one frame ------------------------------

  lemma SplitAtSpace(a: string, x: string, b: string, y: string)
    requires a + (" " + x) == b + (" " + y)
    requires ' ' !in a && ' ' !in b
    ensures a == b && x == y
  {
    var s := a + (" " + x);
    assert s[|a|] == ' ' && s[|b|] == ' ';
    assert forall i | 0 <= i < |a| :: s[i] != ' ';
    assert forall i | 0 <= i < |b| :: s[i] != ' ';
    assert |a| == |b|;
    assert s[..|a|] == a && s[..|b|] == b;
    assert s[|a| + 1..] == x && s[|b| + 1..] == y;
  }

  lemma NoSpace(n: nat)
    ensures ' ' !in Print(n)
  {}

  lemma PrintInjective(a: nat, b: nat)
    requires Print(a) == Print(b)
    ensures a == b
  {
    ValueOfPrint(a);
    ValueOfPrint(b);
  }

  lemma PrintIntInjective(a: int, b: int)
    requires PrintInt(a) == PrintInt(b)
    ensures a == b
  {
    if a < 0 && b < 0 {
      assert Print(-a) == PrintInt(a)[1..] && Print(-b) == PrintInt(b)[1..];
      PrintInjective(-a, -b);
    } else if a >= 0 && b >= 0 {
      PrintInjective(a, b);
    }
  }

  lemma FieldsUnique(m: Meta, n: Meta, y: string, z: string)
    requires MetaValid(m) && MetaValid(n)
    requires FromSequence(m, " " + y) == FromSequence(n, " " + z)
    ensures m == n && y == z
  {
    var s, t := " " + y, " " + z;
    NoSpace(m.sequence); NoSpace(n.sequence);
    SplitAtSpace(Print(m.sequence), FromAt(m, s), Print(n.sequence), FromAt(n, t));
    PrintInjective(m.sequence, n.sequence);
    SplitAtSpace(PrintInt(m.at), FromKind(m, s), PrintInt(n.at), FromKind(n, t));
    PrintIntInjective(m.at, n.at);
    NoSpace(m.kind); NoSpace(n.kind);
    SplitAtSpace(Print(m.kind), FromPinned(m, s), Print(n.kind), FromPinned(n, t));
    PrintInjective(m.kind, n.kind);
    NoSpace(m.pinned); NoSpace(n.pinned);
    SplitAtSpace(Print(m.pinned), FromId(m, s), Print(n.pinned), FromId(n, t));
    PrintInjective(m.pinned, n.pinned);
    SplitAtSpace(m.id, FromObject(m, s), n.id, FromObject(n, t));
    NoSpace(m.objectBytes); NoSpace(n.objectBytes);
    SplitAtSpace(Print(m.objectBytes), FromText(m, s), Print(n.objectBytes), FromText(n, t));
    PrintInjective(m.objectBytes, n.objectBytes);
    NoSpace(m.textBytes); NoSpace(n.textBytes);
    SplitAtSpace(Print(m.textBytes), y, Print(n.textBytes), z);
    PrintInjective(m.textBytes, n.textBytes);
  }

  lemma FirstLineUnique(s: string, k: string, l: string)
    requires k <= s && l <= s && |k| > 0 && |l| > 0
    requires k[|k| - 1] == '\n' && Plain(k[..|k| - 1])
    requires l[|l| - 1] == '\n' && Plain(l[..|l| - 1])
    ensures k == l
  {
    assert s[|k| - 1] == '\n' && s[|l| - 1] == '\n';
    assert forall i | 0 <= i < |k| - 1 :: s[i] == k[..|k| - 1][i] != '\n';
    assert forall i | 0 <= i < |l| - 1 :: s[i] == l[..|l| - 1][i] != '\n';
    assert |k| == |l|;
    assert k == s[..|k|] && l == s[..|l|];
  }

  function Tail(cx: Codec, m: Meta, digest: string): string {
    cx.hash(Head(m)) + (" " + (digest + "\n"))
  }

  lemma LineFields(cx: Codec, m: Meta, digest: string)
    ensures HeaderLine(cx, m, digest)[5..] == FromSequence(m, " " + Tail(cx, m, digest))
  {
    HeadSplit(m, " " + Tail(cx, m, digest));
    var r := FromSequence(m, " " + Tail(cx, m, digest));
    assert HeaderLine(cx, m, digest) == "AEV2 " + r;
  }

  /** Whatever the text, at most one header line begins it: a header that is read
      back is the canonical print of the only fields it can stand for. */
  lemma HeaderUnique(cx: Codec, s: string, m: Meta, d: string, n: Meta, e: string)
    requires StartsWithHeader(cx, s, m, d) && StartsWithHeader(cx, s, n, e)
    ensures m == n && d == e
  {
    hide HeaderLine, Tail, FromSequence, Plain, Head, PrintInt;
    LineShape(cx, m, d);
    LineShape(cx, n, e);
    FirstLineUnique(s, HeaderLine(cx, m, d), HeaderLine(cx, n, e));
    LineFields(cx, m, d);
    LineFields(cx, n, e);
    FieldsUnique(m, n, Tail(cx, m, d), Tail(cx, n, e));
    TailDigest(cx, m, d);
    TailDigest(cx, n, e);
  }

  lemma TailDigest(cx: Codec, m: Meta, digest: string)
    requires Printable64(digest)
    ensures |Tail(cx, m, digest)| == 130 && Tail(cx, m, digest)[65..][..64] == digest
  {
    hide Head;
  }

  lemma FrameHeader(cx: Codec, s: string, e: Event)
    requires StartsWith(cx, s, e)
    ensures StartsWithHeader(cx, s, MetaOf(e), PayloadDigest(cx, MetaOf(e), e.objectRef, e.text))
    ensures var line := HeaderLine(cx, MetaOf(e), PayloadDigest(cx, MetaOf(e), e.objectRef, e.text));
      var rest := s[|line|..];
      |rest| >= |e.objectRef| + |e.text| + 1
      && rest[..|e.objectRef|] == e.objectRef
      && rest[|e.objectRef|..][..|e.text|] == e.text
      && rest[|e.objectRef| + |e.text|] == '\n'
  {
    var line := HeaderLine(cx, MetaOf(e), PayloadDigest(cx, MetaOf(e), e.objectRef, e.text));
    var payload := e.objectRef + (e.text + "\n");
    assert FrameBytes(cx, e) == line + payload;
    assert line == FrameBytes(cx, e)[..|line|] == s[..|line|];
    var rest := s[|line|..];
    assert rest[..|payload|] == FrameBytes(cx, e)[|line|..] == payload;
    assert rest[..|payload|][..|e.objectRef|] == e.objectRef;
    assert rest[..|payload|][|e.objectRef|..][..|e.text|] == e.text;
  }

  /** Frames are prefix-free: a text begins with at most one complete frame. */
  lemma FrameUnique(cx: Codec, s: string, d: Event, e: Event)
    requires StartsWith(cx, s, d) && StartsWith(cx, s, e)
    ensures d == e
  {
    FrameHeader(cx, s, d);
    FrameHeader(cx, s, e);
    HeaderUnique(cx, s, MetaOf(d), PayloadDigest(cx, MetaOf(d), d.objectRef, d.text),
                 MetaOf(e), PayloadDigest(cx, MetaOf(e), e.objectRef, e.text));
  }

  /** A torn verdict is never given to a text that begins with a complete frame. */
  lemma TornHidesNoFrame(cx: Codec, s: string, e: Event)
    requires StartsWith(cx, s, e)
    ensures !Torn(cx, s)
  {
    var m, d := MetaOf(e), PayloadDigest(cx, MetaOf(e), e.objectRef, e.text);
    FrameHeader(cx, s, e);
    LineShape(cx, m, d);
    var l := HeaderLine(cx, m, d);
    assert s[|l| - 1] == '\n';
    forall n, g | StartsWithHeader(cx, s, n, g)
      ensures !CutPayload(n, s[|HeaderLine(cx, n, g)|..])
    {
      HeaderUnique(cx, s, m, d, n, g);
    }
  }

  /** Every strict prefix of a frame, however short, reads as torn. */
  lemma StrictPrefixTorn(cx: Codec, e: Event, s: string)
    requires EventValid(cx, e) && s < FrameBytes(cx, e)
    ensures Torn(cx, s)
  {
    var m, d := MetaOf(e), PayloadDigest(cx, MetaOf(e), e.objectRef, e.text);
    hide HeaderLine, PayloadDigest, Plain, Head;
    var l := HeaderLine(cx, m, d);
    LineShape(cx, m, d);
    if |s| < |l| {
      assert s == l[..|s|];
      CutInLine(l, s);
    } else {
      assert s[..|l|] == l && s[|l|..] == (e.objectRef + (e.text + "\n"))[..|s| - |l|];
      CutInPayload(cx, e, s[|l|..]);
      assert StartsWithHeader(cx, s, m, d);
    }
  }

  lemma CutInLine(l: string, s: string)
    requires 5 <= |l| < LINE_SIZE && Plain(l[..|l| - 1]) && l[..5] == "AEV2 " && s < l
    ensures CutHeader(s)
  {
    var k := |s|;
    forall i | 0 <= i < k ensures s[i] != '\n' && s[i] != '\0' { assert s[i] == l[..|l| - 1][i]; }
    var n := Min(k, 5);
    assert CString(s) == s;
    assert s[..n] == l[..5][..n];
  }

  lemma CutInPayload(cx: Codec, e: Event, payload: string)
    requires EventValid(cx, e) && payload < e.objectRef + (e.text + "\n")
    ensures CutPayload(MetaOf(e), payload)
  {
    hide ObjectRefValid;
    if |payload| >= |e.objectRef| { assert payload[..|e.objectRef|] == e.objectRef; }
  }
}
