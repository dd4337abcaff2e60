/** The offset index file: a magic number and one checked 48-byte row per frame. */
module IndexRows {
  import C = Chunks
  import opened Arithmetic

  const MAGIC: string := "AEIDX2\r\n"
  const INDEX_RECORD: nat := 48
  const U64: nat := 0x1_0000_0000_0000_0000

  type Sum = s: string | |s| == 32 witness seq(32, _ => '0')

  function Put(n: nat, width: nat): (s: string)
    ensures |s| == width && forall i | 0 <= i < width :: (s[i] as int) < 256
  {
    if width == 0 then "" else [(n % 256) as char] + Put(n / 256, width - 1)
  }

  function Get(s: string): nat {
    if s == "" then 0 else (s[0] as int) + 256 * Get(s[1..])
  }

  function Pow256(k: nat): (p: nat)
    ensures p > 0
  {
    if k == 0 then 1 else 256 * Pow256(k - 1)
  }

  /** Byte i is the i-th digit to the base 256, the lowest first. */
  lemma {:induction false} PutByte(n: nat, width: nat, i: nat)
    requires i < width
    ensures Put(n, width)[i] as int == n / Pow256(i) % 256
  {
    if i > 0 {
      PutByte(n / 256, width - 1, i - 1);
      DivideTwice(n, Pow256(i - 1));
    }
  }

  lemma DivideTwice(n: nat, p: nat)
    requires p > 0
    ensures n / 256 / p == n / (256 * p)
  {
    var q, r := n / 256, n % 256;
    var a, b := q / p, q % p;
    assert n == 256 * q + r && q == p * a + b;
    assert 256 * (p * a) == (256 * p) * a;
    Quotient(n, 256 * p, a, 256 * b + r);
  }

  lemma {:induction false} GetOfPut(n: nat, width: nat)
    requires n < Pow256(width)
    ensures Get(Put(n, width)) == n
  {
    if width > 0 {
      GetOfPut(n / 256, width - 1);
      assert Put(n, width)[1..] == Put(n / 256, width - 1);
    }
  }

  lemma Get64(n: nat)
    requires n < U64
    ensures Get(Put(n, 8)) == n
  {
    assert Pow256(4) == 0x1_0000_0000;
    assert Pow256(8) == U64;
    GetOfPut(n, 8);
  }

  function Row(sum: string -> Sum, start: nat, end: nat): (row: string)
    ensures |row| == INDEX_RECORD
  {
    Put(start, 8) + Put(end, 8) + sum(Put(start, 8) + Put(end, 8))
  }

  /** One row per consecutive pair of offsets. */
  function Rows(sum: string -> Sum, ends: seq<nat>): (cs: seq<string>)
    requires ends != []
    ensures |cs| == |ends| - 1 &&
      forall k | 0 <= k < |cs| :: cs[k] == Row(sum, ends[k], ends[k + 1]) && |cs[k]| == INDEX_RECORD
  {
    seq(|ends| - 1, k requires 0 <= k < |ends| - 1 => Row(sum, ends[k], ends[k + 1]))
  }

  function IndexBytes(sum: string -> Sum, ends: seq<nat>): string
    requires ends != []
  {
    MAGIC + C.Join(Rows(sum, ends))
  }

  lemma IndexSnoc(sum: string -> Sum, ends: seq<nat>, end: nat)
    requires ends != []
    ensures IndexBytes(sum, ends + [end]) == IndexBytes(sum, ends) + Row(sum, ends[|ends| - 1], end)
  {
    assert Rows(sum, ends + [end]) == Rows(sum, ends) + [Row(sum, ends[|ends| - 1], end)];
    C.JoinSnoc(Rows(sum, ends), Row(sum, ends[|ends| - 1], end));
  }

  lemma IndexLength(sum: string -> Sum, ends: seq<nat>)
    requires ends != []
    ensures |IndexBytes(sum, ends)| == 8 + INDEX_RECORD * (|ends| - 1)
  {
    var rows := Rows(sum, ends);
    C.FixedEnd(rows, INDEX_RECORD, |rows|);
    assert rows[..|rows|] == rows;
  }

  lemma Shift(head: string, body: string, s: string, a: nat, n: nat)
    requires s <= head + body && |head| + a + n <= |s|
    ensures s[|head|..] <= body && s[|head| + a..|head| + a + n] == s[|head|..][a..a + n]
  {
    assert body == (head + body)[|head|..];
  }

  /** The k-th row of any prefix of the index that reaches it. */
  lemma RowAt(sum: string -> Sum, ends: seq<nat>, idx: string, k: nat)
    requires ends != [] && idx <= IndexBytes(sum, ends) && k + 1 < |ends|
    requires 8 + INDEX_RECORD * k + INDEX_RECORD <= |idx|
    ensures idx[8 + INDEX_RECORD * k..8 + INDEX_RECORD * k + INDEX_RECORD] == Row(sum, ends[k], ends[k + 1])
  {
    hide Put, Get, Pow256, Row;
    var rows := Rows(sum, ends);
    var a := INDEX_RECORD * k;
    Shift(MAGIC, C.Join(rows), idx, a, INDEX_RECORD);
    C.FixedAt(rows, INDEX_RECORD, idx[|MAGIC|..], k);
  }

  lemma RowFields(sum: string -> Sum, start: nat, end: nat)
    requires start < U64 && end < U64
    ensures var row := Row(sum, start, end);
      Get(row[..8]) == start && Get(row[8..16]) == end && row[16..] == sum(row[..16])
  {
    var row := Row(sum, start, end);
    Get64(start);
    Get64(end);
    assert row[..8] == Put(start, 8) && row[8..16] == Put(end, 8);
    assert row[..16] == Put(start, 8) + Put(end, 8);
  }
}
