/** RFC 3339 timestamps (section 5.6) as src/time.c:72-160 reads and writes them. */
module Rfc3339 {
  import opened Outcomes
  import opened Decimal
  import opened Calendar

  // ----- The grammar -----

  predicate HeadOk(s: string) {
    && |s| >= 19 && AllDigits(s[..4]) && s[4] == '-' && AllDigits(s[5..7]) && s[7] == '-' && AllDigits(s[8..10])
    && (s[10] == 'T' || s[10] == 't')
    && AllDigits(s[11..13]) && s[13] == ':' && AllDigits(s[14..16]) && s[16] == ':' && AllDigits(s[17..19])
  }

  predicate FractionOk(f: string) { f == "" || (|f| > 1 && f[0] == '.' && AllDigits(f[1..])) }

  predicate ZoneOk(z: string) {
    || z == "Z" || z == "z"
    || (|z| == 6 && (z[0] == '+' || z[0] == '-') && AllDigits(z[1..3]) && z[3] == ':' && AllDigits(z[4..6])
        && Value(z[1..3]) <= 23 && Value(z[4..6]) <= 59)
  }

  function Offset(z: string): int
    requires ZoneOk(z)
  {
    if |z| == 1 then 0
    else (if z[0] == '+' then -1 else 1) * (Value(z[1..3]) * 3600 + Value(z[4..6]) * 60)
  }

  function DateOf(s: string): Date
    requires HeadOk(s)
  {
    Date(Value(s[..4]), Value(s[5..7]), Value(s[8..10]))
  }

  function SecondOfDay(s: string): int
    requires HeadOk(s)
  {
    Value(s[11..13]) * 3600 + Value(s[14..16]) * 60 + Value(s[17..19])
  }

  /** A second of 60 is a leap second. */
  predicate InRange(s: string)
    requires HeadOk(s)
  {
    Valid(DateOf(s)) && Value(s[11..13]) <= 23 && Value(s[14..16]) <= 59 && Value(s[17..19]) <= 60
  }

  /** A timestamp whose fraction ends before place n. */
  predicate Stamp(s: string, n: nat) {
    HeadOk(s) && 19 <= n <= |s| && FractionOk(s[19..n]) && ZoneOk(s[n..]) && InRange(s)
  }

  function Instant(s: string, n: nat): int
    requires Stamp(s, n)
  {
    DaysFromCivil(DateOf(s)) * 86400 + SecondOfDay(s) + Offset(s[n..])
  }

  /** What a text means; the place of the zone is not a choice (ZoneUnique). */
  ghost function Meaning(s: string): Option<int> {
    if n: nat :| Stamp(s, n) then Some(Instant(s, n)) else None
  }

  lemma FractionChars(s: string, b: nat)
    requires 19 <= b <= |s| && FractionOk(s[19..b])
    ensures forall i | 19 <= i < b :: s[i] == '.' || IsDigit(s[i])
  {
    forall i | 19 <= i < b ensures s[i] == '.' || IsDigit(s[i]) {
      assert s[19..b][i - 19] == s[i];
      assert i > 19 ==> s[19..b][1..][i - 20] == s[i];
    }
  }

  lemma ZoneChar(s: string, a: nat)
    requires a <= |s| && ZoneOk(s[a..])
    ensures a < |s| && s[a] != '.' && !IsDigit(s[a])
  {
    assert s[a..][0] == s[a];
  }

  lemma ZoneUnique(s: string, a: nat, b: nat)
    requires Stamp(s, a) && Stamp(s, b)
    ensures a == b
  {
    hide HeadOk, InRange;
    FractionChars(s, a);
    FractionChars(s, b);
    ZoneChar(s, a);
    ZoneChar(s, b);
  }

  lemma MeaningIs(s: string, n: nat)
    requires Stamp(s, n)
    ensures Meaning(s) == Some(Instant(s, n))
  {
    hide HeadOk, InRange, ZoneOk, FractionOk;
    var m: nat :| Stamp(s, m) && Meaning(s) == Some(Instant(s, m));
    ZoneUnique(s, m, n);
  }

  // ----- The parser -----

  /** A byte of a terminated string. */
  function At(s: string, i: nat): char { if i < |s| then s[i] else '\0' }

  /** `parse_digits`. */
  method ParseDigits(s: string, i: nat, n: nat) returns (ok: bool, v: nat)
    requires i <= |s|
    ensures ok <==> i + n <= |s| && AllDigits(s[i..i + n])
    ensures ok ==> v == Value(s[i..i + n])
  {
    v := 0;
    for k := 0 to n
      invariant i + k <= |s| && AllDigits(s[i..i + k]) && v == Value(s[i..i + k])
    {
      if !IsDigit(At(s, i + k)) {
        assert i + n <= |s| ==> s[i..i + n][k] == s[i + k];
        return false, v;
      }
      ghost var longer := s[i..i + (k + 1)];
      assert longer[..|longer| - 1] == s[i..i + k] && longer[k] == s[i + k] && longer == s[i..i + k] + [s[i + k]];
      v := v * 10 + DigitValue(s[i + k]);
    }
    return true, v;
  }

  /** Skip `.` and its digits; at least one digit must follow the point. No other place for
      the zone is possible. */
  method ParseFraction(s: string) returns (ok: bool, n: nat)
    requires |s| >= 19
    ensures ok ==> 19 <= n <= |s| && FractionOk(s[19..n])
    ensures forall m | 19 <= m <= |s| && FractionOk(s[19..m]) && ZoneOk(s[m..]) :: ok && m == n
  {
    n := 19;
    forall m | 19 <= m <= |s| && FractionOk(s[19..m]) && ZoneOk(s[m..])
      ensures m < |s| && s[m] != '.' && !IsDigit(s[m]) &&
        (m > 19 ==> s[19] == '.' && forall i | 20 <= i < m :: IsDigit(s[i]))
    {
      ZoneChar(s, m);
      FractionDigits(s, m);
    }
    if At(s, n) != '.' { return true, n; }
    n := 20;
    if !IsDigit(At(s, n)) { return false, n; }
    while IsDigit(At(s, n))
      invariant 20 <= n <= |s| && forall i | 20 <= i < n :: IsDigit(s[i])
      invariant n == 20 ==> IsDigit(At(s, 20))
      decreases |s| - n
    {
      n := n + 1;
    }
    assert forall i | 0 <= i < n - 20 :: s[19..n][1..][i] == s[20 + i];
    return true, n;
  }

  lemma FractionDigits(s: string, m: nat)
    requires 19 <= m <= |s| && FractionOk(s[19..m])
    ensures m > 19 ==> s[19] == '.' && forall i | 20 <= i < m :: IsDigit(s[i])
  {
    assert forall i | 20 <= i < m :: s[19..m][1..][i - 20] == s[i];
  }

  method ParseZone(s: string, n: nat) returns (ok: bool, off: int)
    requires n <= |s| && (forall i | 0 <= i < |s| :: s[i] != '\0')
    ensures ok <==> ZoneOk(s[n..])
    ensures ok ==> off == Offset(s[n..])
  {
    hide Value;
    ghost var z := s[n..];
    off := 0;
    var sign, p := At(s, n), n;
    if sign == 'Z' || sign == 'z' {
      p := p + 1;
    } else if sign == '+' || sign == '-' {
      p := p + 1;
      var h, m;
      ok, h := ParseDigits(s, p, 2);
      assert |z| >= 3 ==> z[1..3] == s[p..p + 2];
      if !ok { return; }
      if At(s, p + 2) != ':' { return false, off; }
      ok, m := ParseDigits(s, p + 3, 2);
      assert |z| >= 6 ==> z[4..6] == s[p + 3..p + 5];
      if !ok { return; }
      p := p + 5;
      if h > 23 || m > 59 { return false, off; }
      off := h * 3600 + m * 60;
      if sign == '+' { off := -off; }
    } else {
      return false, off;
    }
    ok := At(s, p) == '\0';
  }

  /** The fixed part: `YYYY-MM-DDThh:mm:ss`. */
  method ParseHead(s: string) returns (ok: bool, c: Date, h: nat, mi: nat, se: nat)
    ensures ok <==> HeadOk(s)
    ensures ok ==> c == DateOf(s) && h == Value(s[11..13]) && mi == Value(s[14..16]) && se == Value(s[17..19])
  {
    hide Value, AllDigits;
    c, h, mi, se := Date(0, 0, 0), 0, 0, 0;
    var y, mo, d;
    ok, y := ParseDigits(s, 0, 4);
    assert |s| >= 4 ==> s[0..4] == s[..4];
    if !ok { return; }
    if At(s, 4) != '-' { return false, c, h, mi, se; }
    ok, mo := ParseDigits(s, 5, 2);
    if !ok { return; }
    if At(s, 7) != '-' { return false, c, h, mi, se; }
    ok, d := ParseDigits(s, 8, 2);
    if !ok { return; }
    if At(s, 10) != 'T' && At(s, 10) != 't' { return false, c, h, mi, se; }
    ok, h := ParseDigits(s, 11, 2);
    if !ok { return; }
    if At(s, 13) != ':' { return false, c, h, mi, se; }
    ok, mi := ParseDigits(s, 14, 2);
    if !ok { return; }
    if At(s, 16) != ':' { return false, c, h, mi, se; }
    ok, se := ParseDigits(s, 17, 2);
    if !ok { return; }
    c := Date(y, mo, d);
  }

  /** `asper_time_parse_rfc3339`: it accepts exactly the timestamps and yields their instant. */
  method Parse(s: string) returns (t: Option<int>)
    requires forall i | 0 <= i < |s| :: s[i] != '\0'
    ensures t == Meaning(s)
  {
    hide Value, AllDigits, HeadOk, FractionOk, ZoneOk, Valid, DaysFromCivil;
    var ok, c, h, mi, se := ParseHead(s);
    if !ok { return None; }
    HeadLength(s);
    var n;
    ok, n := ParseFraction(s);
    if !ok { return None; }
    var off;
    ok, off := ParseZone(s, n);
    if !ok { return None; }
    if c.m < 1 || c.m > 12 { NotValid(c); return None; }
    if c.d < 1 || c.d > DaysInMonth(c.y, c.m) { NotValid(c); return None; }
    if h > 23 || mi > 59 || se > 60 { return None; }
    IsValid(c);
    MeaningIs(s, n);
    return Some(DaysFromCivil(c) * 86400 + h * 3600 + mi * 60 + se + off);
  }

  lemma HeadLength(s: string)
    requires HeadOk(s)
    ensures |s| >= 19
  {}

  lemma NotValid(c: Date)
    ensures c.m < 1 || c.m > 12 || c.d < 1 || c.d > DaysInMonth(c.y, c.m) ==> !Valid(c)
  {}

  lemma IsValid(c: Date)
    ensures 1 <= c.m <= 12 && 1 <= c.d <= DaysInMonth(c.y, c.m) ==> Valid(c)
  {}

  // ----- The formatter -----

  function Two(n: nat): string
    requires n < 100
  {
    [DigitChar(n / 10), DigitChar(n % 10)]
  }

  function Zeros(n: nat): string { seq(n, _ => '0') }

  /** `%0wd` of a natural number. */
  function Padded(n: nat, w: nat): string { (if |Print(n)| < w then Zeros(w - |Print(n)|) else "") + Print(n) }

  /** `%04lld`. */
  function Year(y: int): string { if y < 0 then "-" + Padded(-y, 3) else Padded(y, 4) }

  function Text(c: Date, sod: nat): string
    requires Valid(c) && sod < 86400
  {
    Year(c.y) + "-" + Two(c.m) + "-" + Two(c.d) + "T" + Two(sod / 3600) + ":" + Two(sod / 60 % 60) + ":" + Two(sod % 60) + "Z"
  }

  /** The text of an instant: its day by the calendar, its second within that day. */
  function Format(t: int): string {
    DaysRoundTrip(t / 86400);
    Text(CivilFromDays(t / 86400), t % 86400)
  }

  /** `asper_time_format_rfc3339`: truncation corrected to whole days before the instant. */
  method FormatTime(t: int) returns (out: string)
    ensures out == Format(t)
  {
    hide DaysFromCivil, CivilFromDays, Valid;
    var days := TruncDiv(t, 86400);
    var sod := t - days * 86400;
    if sod < 0 {
      sod := sod + 86400;
      days := days - 1;
    }
    assert t == 86400 * (t / 86400) + t % 86400;
    assert days == t / 86400 && sod == t % 86400;
    DaysRoundTrip(days);
    out := Text(CivilFromDays(days), sod);
  }

  lemma TwoValue(n: nat)
    requires n < 100
    ensures AllDigits(Two(n)) && Value(Two(n)) == n
  {
    var s := Two(n);
    assert |s| == 2 && s[..1] == [DigitChar(n / 10)] && s[..1][..0] == "";
    assert Value(s[..1]) == n / 10;
  }

  lemma {:induction false} ZerosValue(k: nat, s: string)
    requires AllDigits(s)
    ensures AllDigits(Zeros(k) + s) && Value(Zeros(k) + s) == Value(s)
    decreases k, |s|
  {
    if s == "" {
      if k > 0 {
        ZerosValue(k - 1, "");
        assert Zeros(k) + "" == Zeros(k - 1) + "" + "0";
        assert (Zeros(k) + "")[..k - 1] == Zeros(k - 1) + "";
      }
    } else {
      ZerosValue(k, s[..|s| - 1]);
      assert (Zeros(k) + s)[..|Zeros(k) + s| - 1] == Zeros(k) + s[..|s| - 1];
    }
  }

  /** Years 0 to 9999 print as exactly four digits; any other year does not. */
  lemma YearShape(y: int)
    ensures 0 <= y < 10000 ==> |Year(y)| == 4 && AllDigits(Year(y)) && Value(Year(y)) == y
    ensures y >= 10000 ==> |Year(y)| > 4 && AllDigits(Year(y))
    ensures y < 0 ==> Year(y)[0] == '-'
  {
    if y >= 0 {
      ValueOfPrint(y);
      if y < 10000 {
        assert Pow10(4) == 10000 by { assert Pow10(2) == 100; }
        PrintLength(y, 4);
        ZerosValue(4 - |Print(y)|, Print(y));
        assert |Print(y)| == 4 ==> Year(y) == Print(y);
      } else {
        LongPrint(y);
        assert Year(y) == Print(y);
      }
    }
  }

  lemma LongPrint(n: nat)
    requires n >= 10000
    ensures |Print(n)| > 4
  {
    assert |Print(n / 10 / 10 / 10)| >= 2;
    assert |Print(n / 10 / 10)| >= 3;
  }

  /** Reading a written time gives the same instant exactly when its year has four digits. */
  lemma RoundTrip(t: int)
    ensures 0 <= CivilFromDays(t / 86400).y < 10000 ==> Meaning(Format(t)) == Some(t)
    ensures !(0 <= CivilFromDays(t / 86400).y < 10000) ==> Meaning(Format(t)) == None
  {
    hide DaysFromCivil, CivilFromDays, Year, Value;
    DaysRoundTrip(t / 86400);
    var c, sod := CivilFromDays(t / 86400), t % 86400;
    YearShape(c.y);
    if 0 <= c.y < 10000 {
      FormatStamp(c, sod);
      MeaningIs(Format(t), 19);
      assert t == 86400 * (t / 86400) + sod;
    } else {
      BadYear(c, sod);
    }
  }

  /** The same instant on a clock that runs h:m ahead of or behind UTC. */
  function Zoned(t: int, ahead: bool, h: nat, m: nat): string
    requires h < 24 && m < 60
  {
    var shift := h * 3600 + m * 60;
    var local := Format(if ahead then t + shift else t - shift);
    local[..|local| - 1] + (if ahead then "+" else "-") + Two(h) + ":" + Two(m)
  }

  /** A local time with its offset from UTC means the instant of UTC, on every clock. */
  lemma ZonedRoundTrip(t: int, ahead: bool, h: nat, m: nat)
    requires h < 24 && m < 60
    ensures var local := if ahead then t + (h * 3600 + m * 60) else t - (h * 3600 + m * 60);
      0 <= CivilFromDays(local / 86400).y < 10000 ==> Meaning(Zoned(t, ahead, h, m)) == Some(t)
  {
    hide DaysFromCivil, CivilFromDays, Year, Value, Text, HeadOk, ZoneOk, Stamp, Instant;
    var local := if ahead then t + (h * 3600 + m * 60) else t - (h * 3600 + m * 60);
    DaysRoundTrip(local / 86400);
    var c, sod := CivilFromDays(local / 86400), local % 86400;
    YearShape(c.y);
    if 0 <= c.y < 10000 {
      FormatStamp(c, sod);
      var f, s := Text(c, sod), Zoned(t, ahead, h, m);
      TextLength(c, sod);
      assert s[..19] == f[..19];
      ZoneShape(ahead, h, m);
      assert s[19..] == (if ahead then "+" else "-") + Two(h) + ":" + Two(m);
      OtherZone(f, s);
      MeaningIs(s, 19);
      assert local == 86400 * (local / 86400) + sod;
    }
  }

  lemma TextLength(c: Date, sod: nat)
    requires Valid(c) && sod < 86400 && |Year(c.y)| == 4
    ensures |Text(c, sod)| == 20 && Text(c, sod)[19..] == "Z"
  {
    SecondParts(sod);
    Slices(Year(c.y), Two(c.m), Two(c.d), Two(sod / 3600), Two(sod / 60 % 60), Two(sod % 60));
  }

  lemma ZoneShape(ahead: bool, h: nat, m: nat)
    requires h < 24 && m < 60
    ensures var z := (if ahead then "+" else "-") + Two(h) + ":" + Two(m);
      ZoneOk(z) && Offset(z) == if ahead then -(h * 3600 + m * 60) else h * 3600 + m * 60
  {
    hide Value;
    var z := (if ahead then "+" else "-") + Two(h) + ":" + Two(m);
    TwoValue(h);
    TwoValue(m);
    assert z[1..3] == Two(h) && z[4..6] == Two(m);
  }

  lemma OtherZone(f: string, s: string)
    requires Stamp(f, 19) && f[19..] == "Z" && |s| >= 19 && s[..19] == f[..19] && ZoneOk(s[19..])
    ensures Stamp(s, 19) && Instant(s, 19) == Instant(f, 19) + Offset(s[19..])
  {
    hide Value, AllDigits, ZoneOk, DaysFromCivil;
    assert forall i | 0 <= i < 19 :: s[i] == s[..19][i] == f[..19][i] == f[i];
    assert s[..4] == f[..4] && s[5..7] == f[5..7] && s[8..10] == f[8..10] && s[11..13] == f[11..13];
    assert s[14..16] == f[14..16] && s[17..19] == f[17..19] && s[19..19] == "";
  }

  lemma SecondParts(sod: nat)
    requires sod < 86400
    ensures sod / 3600 < 24 && sod / 60 % 60 < 60 && sod % 60 < 60
    ensures sod / 3600 * 3600 + sod / 60 % 60 * 60 + sod % 60 == sod
  {}

  lemma FormatStamp(c: Date, sod: nat)
    requires Valid(c) && sod < 86400 && |Year(c.y)| == 4 && AllDigits(Year(c.y)) && Value(Year(c.y)) == c.y
    ensures var s := Text(c, sod); Stamp(s, 19) && Instant(s, 19) == DaysFromCivil(c) * 86400 + sod
  {
    hide Year, Value, DaysFromCivil;
    SecondParts(sod);
    TwoValue(c.m);
    TwoValue(c.d);
    TwoValue(sod / 3600);
    TwoValue(sod / 60 % 60);
    TwoValue(sod % 60);
    Slices(Year(c.y), Two(c.m), Two(c.d), Two(sod / 3600), Two(sod / 60 % 60), Two(sod % 60));
    assert Text(c, sod)[19..19] == "";
  }

  lemma Slices(y: string, mo: string, d: string, h: string, mi: string, se: string)
    requires |y| == 4 && |mo| == |d| == |h| == |mi| == |se| == 2
    ensures var s := y + "-" + mo + "-" + d + "T" + h + ":" + mi + ":" + se + "Z";
            && |s| == 20 && s[..4] == y && s[4] == '-' && s[5..7] == mo && s[7] == '-' && s[8..10] == d && s[10] == 'T'
            && s[11..13] == h && s[13] == ':' && s[14..16] == mi && s[16] == ':' && s[17..19] == se && s[19..] == "Z"
  {
    var a := y + "-" + mo + "-" + d + "T";
    assert a[..4] == y && a[5..7] == mo && a[8..10] == d;
    var b := h + ":" + mi + ":" + se + "Z";
    assert b[..2] == h && b[3..5] == mi && b[6..8] == se && b[8..] == "Z";
    var s := a + b;
    assert s == y + "-" + mo + "-" + d + "T" + h + ":" + mi + ":" + se + "Z";
    assert forall i | 0 <= i < 11 :: s[i] == a[i];
    assert forall i | 0 <= i < 9 :: s[11 + i] == b[i];
    assert s[11..13] == b[..2] && s[14..16] == b[3..5] && s[17..19] == b[6..8] && s[19..] == b[8..];
  }

  lemma BadYear(c: Date, sod: nat)
    requires Valid(c) && sod < 86400 && (Year(c.y)[0] == '-' || (|Year(c.y)| > 4 && AllDigits(Year(c.y))))
    ensures !HeadOk(Text(c, sod))
  {
    hide Year, Value;
    var s := Text(c, sod);
    assert forall i | 0 <= i < |Year(c.y)| :: s[i] == Year(c.y)[i];
    assert |s| >= 19 ==> s[..4][0] == s[0];
  }
}
