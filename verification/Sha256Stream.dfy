/** The streaming SHA-256 of src/sha256.c:31-147: whatever the split into updates, the digest is
    the one of the whole message. */
module Sha256Stream {
  import opened Sha256

  function Values(words: seq<Word>): State
    requires |words| == 8
  {
    State(words[0], words[1], words[2], words[3], words[4], words[5], words[6], words[7])
  }

  /** `ROR`: rotation by two shifts. */
  function Ror(x: Word, n: nat): Word
    requires 0 < n < 32
  {
    (x >> n) | (x << (32 - n))
  }

  lemma RorIsRotate(x: Word)
    ensures Ror(x, 2) == Rotr(x, 2) && Ror(x, 6) == Rotr(x, 6) && Ror(x, 7) == Rotr(x, 7)
    ensures Ror(x, 11) == Rotr(x, 11) && Ror(x, 13) == Rotr(x, 13) && Ror(x, 17) == Rotr(x, 17)
    ensures Ror(x, 18) == Rotr(x, 18) && Ror(x, 19) == Rotr(x, 19) && Ror(x, 22) == Rotr(x, 22)
    ensures Ror(x, 25) == Rotr(x, 25)
  {}

  // The four mixing expressions of the transform.

  method Mix0(x: Word) returns (s: Word)
    ensures s == Sigma0(x)
  {
    RorIsRotate(x);
    hide Ror, Rotr, Xor3;
    s := Xor3(Ror(x, 7), Ror(x, 18), x >> 3);
  }

  method Mix1(x: Word) returns (s: Word)
    ensures s == Sigma1(x)
  {
    RorIsRotate(x);
    hide Ror, Rotr, Xor3;
    s := Xor3(Ror(x, 17), Ror(x, 19), x >> 10);
  }

  method Turn0(x: Word) returns (s: Word)
    ensures s == BigSigma0(x)
  {
    RorIsRotate(x);
    hide Ror, Rotr, Xor3;
    s := Xor3(Ror(x, 2), Ror(x, 13), Ror(x, 22));
  }

  method Turn1(x: Word) returns (s: Word)
    ensures s == BigSigma1(x)
  {
    RorIsRotate(x);
    hide Ror, Rotr, Xor3;
    s := Xor3(Ror(x, 6), Ror(x, 11), Ror(x, 25));
  }

  class Context {
    const state: array<Word>
    const buffer: array<Byte>
    var bitlen: nat
    var buflen: nat
    ghost var message: seq<Byte>      // everything fed so far

    /** The state has absorbed the whole blocks and the buffer holds the rest. */
    ghost predicate Buffered()
      reads `buflen, `message, state, buffer
    {
      && state.Length == 8 && buffer.Length == 64
      && buflen < 64 && buflen <= |message| && (|message| - buflen) % 64 == 0
      && buffer[..buflen] == message[|message| - buflen..]
      && Values(state[..]) == Fold(message[..|message| - buflen])
    }

    ghost predicate Valid()
      reads this, state, buffer
    {
      Buffered() && bitlen == 8 * |message| % TWO64
    }

    /** `asper_sha256_init`. */
    constructor ()
      ensures Valid() && message == [] && fresh(state) && fresh(buffer)
    {
      hide *;
      var words := InitialWords();
      state, buffer, bitlen, buflen, message := words, new Byte[64], 0, 0, [];
      new;
      Nothing();
    }

    lemma Nothing()
      requires state.Length == 8 && buffer.Length == 64 && buflen == bitlen == 0 &&
        message == [] && Values(state[..]) == H0
      ensures Valid()
    {
      assert message[..0] == [];
    }

    static method InitialWords() returns (words: array<Word>)
      ensures fresh(words) && words.Length == 8 && Values(words[..]) == H0
    {
      words := new Word[8];
      words[0], words[1], words[2], words[3] := 0x6a09e667, 0xbb67ae85, 0x3c6ef372, 0xa54ff53a;
      words[4], words[5], words[6], words[7] := 0x510e527f, 0x9b05688c, 0x1f83d9ab, 0x5be0cd19;
    }

    /** The message schedule, filled in place. */
    static method Expand(block: seq<Byte>) returns (w: array<Word>)
      requires |block| == 64
      ensures fresh(w) && w.Length == 64 && forall t | 0 <= t < 64 :: w[t] == Schedule(block, t)
    {
      hide *;
      w := new Word[64];
      for i := 0 to 16
        invariant forall t | 0 <= t < i :: w[t] == Schedule(block, t)
      {
        ScheduleFirst(block, i);
        w[i] := Load(block[i * 4], block[i * 4 + 1], block[i * 4 + 2], block[i * 4 + 3]);
      }
      for i := 16 to 64
        invariant forall t | 0 <= t < i :: w[t] == Schedule(block, t)
      {
        ScheduleNext(block, i);
        var s0 := Mix0(w[i - 15]);
        var s1 := Mix1(w[i - 2]);
        w[i] := Add(Add(Add(w[i - 16], s0), w[i - 7]), s1);
      }
    }

    static method Load(b0: Byte, b1: Byte, b2: Byte, b3: Byte) returns (w: Word)
      ensures w == Join(b0, b1, b2, b3)
    {
      w := ((b0 as Word) << 24) | ((b1 as Word) << 16) | ((b2 as Word) << 8) | (b3 as Word);
    }

    static lemma ScheduleFirst(block: seq<Byte>, t: nat)
      requires |block| == 64 && t < 16
      ensures Schedule(block, t) == Join(block[4 * t], block[4 * t + 1], block[4 * t + 2], block[4 * t + 3])
    {
      hide Add, Sigma0, Sigma1, Join;
    }

    static lemma ScheduleNext(block: seq<Byte>, t: nat)
      requires |block| == 64 && 16 <= t < 64
      ensures Schedule(block, t) ==
              Add(Add(Add(Schedule(block, t - 16), Sigma0(Schedule(block, t - 15))), Schedule(block, t - 7)),
                  Sigma1(Schedule(block, t - 2)))
    {
      hide Add, Sigma0, Sigma1, Join;
    }

    /** One round on the eight working variables. */
    static method Mix(s: State, k: Word, w: Word) returns (next: State)
      ensures next == Round(s, k, w)
    {
      hide Add, BigSigma0, BigSigma1, Ch, Maj;
      var a, b, c, d, e, f, g, h := s.a, s.b, s.c, s.d, s.e, s.f, s.g, s.h;
      var s1 := Turn1(e);
      var ch := Ch(e, f, g);
      var t1 := Add(Add(Add(Add(h, s1), ch), k), w);
      var s0 := Turn0(a);
      var maj := Maj(a, b, c);
      var t2 := Add(s0, maj);
      h := g;
      g := f;
      f := e;
      e := Add(d, t1);
      d := c;
      c := b;
      b := a;
      a := Add(t1, t2);
      next := State(a, b, c, d, e, f, g, h);
    }

    static lemma RoundsStep(s: State, block: seq<Byte>, t: nat)
      requires |block| == 64 && t < 64
      ensures Rounds(s, block, 0) == s &&
        Rounds(s, block, t + 1) == Round(Rounds(s, block, t), Constant(t), Schedule(block, t))
    {
      hide Round, Schedule, Constant;
    }

    /** `sha256_transform`. */
    method Transform(block: seq<Byte>)
      requires |block| == 64 && state.Length == 8
      modifies state
      ensures Values(state[..]) == Compress(old(Values(state[..])), block)
    {
      hide Schedule, Round, Rounds, Constant, Add;
      var w := Expand(block);
      var s := State(state[0], state[1], state[2], state[3], state[4], state[5], state[6], state[7]);
      ghost var start := s;
      RoundsStep(start, block, 0);
      for i := 0 to 64
        invariant s == Rounds(start, block, i)
        invariant forall t | 0 <= t < 64 :: w[t] == Schedule(block, t)
        invariant state[..] == old(state[..])
      {
        RoundsStep(start, block, i);
        s := Mix(s, Constant(i), w[i]);
      }
      state[0], state[1], state[2], state[3] := Add(state[0], s.a), Add(state[1], s.b), Add(state[2], s.c), Add(state[3], s.d);
      state[4], state[5], state[6], state[7] := Add(state[4], s.e), Add(state[5], s.f), Add(state[6], s.g), Add(state[7], s.h);
    }

    /** `asper_sha256_update`: whole blocks go straight to the transform, the rest waits in the
        buffer. */
    method Update(data: seq<Byte>)
      requires Valid()
      modifies this`bitlen, this`buflen, this`message, state, buffer
      ensures Valid() && message == old(message) + data
    {
      hide Fold, Compress, Values;
      ghost var start := message;
      BitLength(|message|, |data|);
      bitlen := (bitlen + |data| * 8 % TWO64) % TWO64;
      var i := 0;
      assert data[..0] == [];
      while i < |data|
        invariant i <= |data| && message == start + data[..i] && Buffered()
        invariant bitlen == 8 * (|start| + |data|) % TWO64
      {
        if buflen == 0 && |data| - i >= 64 {
          Feed(start, data, i, 64);
          Direct(data[i..i + 64]);
          i := i + 64;
        } else {
          var take := 64 - buflen;
          if take > |data| - i { take := |data| - i; }
          Feed(start, data, i, take);
          Fill(data[i..i + take]);
          i := i + take;
        }
      }
      assert data[..|data|] == data;
    }

    /** A whole block while the buffer is empty. */
    method Direct(block: seq<Byte>)
      requires Buffered() && buflen == 0 && |block| == 64
      modifies this`message, state
      ensures Buffered() && message == old(message) + block
    {
      hide Fold, Compress, Values;
      FoldBlock(message, block);
      assert message[..|message|] == message;
      Transform(block);
      message := message + block;
      assert message[..|message|] == message;
    }

    static lemma BitLength(n: nat, len: nat)
      ensures (8 * n % TWO64 + len * 8 % TWO64) % TWO64 == 8 * (n + len) % TWO64
    {
      var a, b := 8 * n, len * 8;
      assert a == TWO64 * (a / TWO64) + a % TWO64 && b == TWO64 * (b / TWO64) + b % TWO64;
      Multiple(a % TWO64 + b % TWO64, a / TWO64 + b / TWO64);
    }

    static lemma Multiple(r: nat, q: nat)
      ensures (r + TWO64 * q) % TWO64 == r % TWO64
    {}

    static lemma Feed(start: seq<Byte>, data: seq<Byte>, i: nat, take: nat)
      requires i + take <= |data|
      ensures start + data[..i] + data[i..i + take] == start + data[..i + take]
    {}

    /** Append to the buffer; transform it when it is full. */
    method Fill(part: seq<Byte>)
      requires Buffered() && 0 < |part| <= 64 - buflen
      modifies this`buflen, this`message, state, buffer
      ensures Buffered() && message == old(message) + part
    {
      hide Fold, Compress, Values;
      ghost var whole := message[..|message| - buflen];
      forall k | 0 <= k < |part| { buffer[buflen + k] := part[k]; }
      message := message + part;
      buflen := buflen + |part|;
      assert message[..|message| - buflen] == whole;
      assert buffer[..buflen] == message[|message| - buflen..];
      assert state[..] == old(state[..]);
      if buflen == 64 {
        FoldBlock(whole, buffer[..]);
        assert message == whole + buffer[..] == message[..|message|];
        Transform(buffer[..]);
        buflen := 0;
      }
    }

    lemma Remainder()
      requires Buffered()
      ensures buflen == |message| % 64
    {
      hide Fold;
    }

    /** Among the paddings up to the prescribed one, only it leaves 56 bytes in the buffer. */
    static lemma Aligned(n: nat, k: nat)
      requires k <= Zeros(n)
      ensures (n + 1 + k) % 64 == 56 <==> k == Zeros(n)
    {}

    static lemma OneMore(m: seq<Byte>, k: nat)
      ensures m + [0x80] + seq(k, _ => 0) + [0] == m + [0x80] + seq(k + 1, _ => 0)
      ensures |m + [0x80] + seq(k, _ => 0)| == |m| + 1 + k
    {}

    /** The bit length, most significant byte first. */
    static method Closing(bits: nat) returns (tail: seq<Byte>)
      ensures tail == Length64(bits)
    {
      hide ByteOf;
      tail := [];
      for i := 0 to 8
        invariant |tail| == i && forall k | 0 <= k < i :: tail[k] == ByteOf(bits, k)
      {
        ShiftedByte(bits, i);
        tail := tail + [(ShiftRight(bits, 56 - 8 * i) % 256) as Byte];
      }
    }

    /** A shift to the right by whole bytes. */
    static function ShiftRight(n: nat, bits: nat): nat
      requires bits % 8 == 0
    {
      if bits == 0 then n else ShiftRight(n / 256, bits - 8)
    }

    static lemma {:induction false} ShiftAbove(n: nat, k: nat, j: nat)
      ensures ShiftRight(Above(n, j), 8 * k) == Above(n, j + k)
      decreases k
    {
      if k > 0 { ShiftAbove(n, k - 1, j + 1); }
    }

    static lemma ShiftedByte(bits: nat, i: nat)
      requires i < 8
      ensures (ShiftRight(bits, 56 - 8 * i) % 256) as Byte == ByteOf(bits, i)
    {
      ShiftAbove(bits, 7 - i, 0);
    }

    method Output() returns (out: seq<Byte>)
      requires state.Length == 8
      ensures out == Digest(Values(state[..]))
    {
      hide Split;
      out := [];
      for i := 0 to 8
        invariant out == Bytes(state[..i])
      {
        assert state[..i + 1][..i] == state[..i];
        out := out + Split(state[i]);
      }
      var s := Values(state[..]);
      assert state[..8] == [s.a, s.b, s.c, s.d, s.e, s.f, s.g, s.h];
    }

    /** The padding goes through the same updates: a one bit, then zero bytes until eight are
        missing. */
    method Terminate()
      requires Valid()
      modifies this`bitlen, this`buflen, this`message, state, buffer
      ensures Valid() && message == old(message) + [0x80] + seq(Zeros(|old(message)|), _ => 0)
    {
      hide Fold, Compress, Buffered, Zeros, Values;
      ghost var m := message;
      Update([0x80]);
      ghost var k := 0;
      assert message == m + [0x80] + seq(0, _ => 0);
      Remainder();
      while buflen != 56
        invariant Valid() && message == m + [0x80] + seq(k, _ => 0) && k <= Zeros(|m|)
        invariant buflen == (|m| + 1 + k) % 64
        decreases Zeros(|m|) - k
      {
        Aligned(|m|, k);
        Update([0]);
        OneMore(m, k);
        k := k + 1;
        OneMore(m, k);
        Remainder();
      }
      Aligned(|m|, k);
    }

    /** `asper_sha256_final`. */
    method Final() returns (out: seq<Byte>)
      requires Valid()
      modifies this`bitlen, this`buflen, this`message, state, buffer
      ensures out == Hash(old(message))
    {
      hide Fold, Compress, Buffered, Zeros, Length64, Values, Digest;
      var bits := bitlen;
      ghost var m := message;
      Terminate();
      var tail := Closing(bits);
      Update(tail);
      Whole(m);
      out := Output();
    }

    lemma Whole(m: seq<Byte>)
      requires Buffered() && message == Pad(m)
      ensures |message| % 64 == 0 && state.Length == 8
      ensures Values(state[..]) == Fold(message)
    {
      hide Fold, Pad;
      PadWhole(m);
      Remainder();
      assert message[..|message|] == message;
    }
  }

  function Concat(parts: seq<seq<Byte>>): seq<Byte> {
    if parts == [] then [] else Concat(parts[..|parts| - 1]) + parts[|parts| - 1]
  }

  /** However a message is cut into updates, the digest is the hash of the message. */
  method HashParts(parts: seq<seq<Byte>>) returns (out: seq<Byte>)
    ensures out == Hash(Concat(parts))
  {
    hide Hash;
    var ctx := new Context();
    for i := 0 to |parts|
      invariant ctx.Valid() && ctx.message == Concat(parts[..i]) && fresh(ctx) && fresh(ctx.state) && fresh(ctx.buffer)
    {
      assert parts[..i + 1][..i] == parts[..i];
      ctx.Update(parts[i]);
    }
    assert parts[..|parts|] == parts;
    out := ctx.Final();
  }
}
