/** Journal takes any serializer of operations whose texts can be read back. Here is one: an
    operation as a list of fields, a list of fields as a text of two characters. */
module OpText {
  import opened Outcomes
  import opened EventFrame
  import opened Records
  import opened Journal

  // ----- lists of blocks as one list -----

  ghost predicate Positive(b: seq<nat>) { forall i | 0 <= i < |b| :: b[i] > 0 }

  /** Every block, closed by a zero. */
  function Blocks(bs: seq<seq<nat>>): seq<nat> {
    if bs == [] then [] else bs[0] + [0] + Blocks(bs[1..])
  }

  lemma FirstBlock(a: seq<nat>, b: seq<nat>, x: seq<nat>, y: seq<nat>)
    requires Positive(a) && Positive(b) && a + [0] + x == b + [0] + y
    ensures a == b && x == y
  {
    var s := a + [0] + x;
    assert s[|a|] == 0 && s[|b|] == 0;
    assert forall i | 0 <= i < |a| :: s[i] == a[i];
    assert forall i | 0 <= i < |b| :: s[i] == b[i];
    assert |a| == |b|;
    assert a == s[..|a|] && b == s[..|b|] && x == s[|a| + 1..] && y == s[|b| + 1..];
  }

  lemma {:induction false} BlocksInjective(a: seq<seq<nat>>, b: seq<seq<nat>>)
    requires (forall i | 0 <= i < |a| :: Positive(a[i])) && (forall i | 0 <= i < |b| :: Positive(b[i]))
    requires Blocks(a) == Blocks(b)
    ensures a == b
  {
    if a != [] && b != [] {
      FirstBlock(a[0], b[0], Blocks(a[1..]), Blocks(b[1..]));
      BlocksInjective(a[1..], b[1..]);
      assert a == [a[0]] + a[1..] && b == [b[0]] + b[1..];
    }
  }

  // ----- strings and lists of strings -----

  function Codes(s: string): (b: seq<nat>)
    ensures Positive(b)
  {
    seq(|s|, i requires 0 <= i < |s| => s[i] as nat + 1)
  }

  function Tally(n: nat): (b: seq<nat>)
    ensures Positive(b)
  {
    seq(n, _ => 1)
  }

  function CodesOf(ss: seq<string>): (bs: seq<seq<nat>>)
    ensures forall i | 0 <= i < |bs| :: Positive(bs[i])
  {
    seq(|ss|, i requires 0 <= i < |ss| => Codes(ss[i]))
  }

  function Tallies(ns: seq<nat>): (bs: seq<seq<nat>>)
    ensures forall i | 0 <= i < |bs| :: Positive(bs[i])
  {
    seq(|ns|, i requires 0 <= i < |ns| => Tally(ns[i]))
  }

  function Letters(ns: seq<nat>): (s: string)
    ensures |s| == |ns| && forall i | 0 <= i < |s| :: s[i] == if ns[i] == 0 then '0' else '1'
  {
    seq(|ns|, i requires 0 <= i < |ns| => if ns[i] == 0 then '0' else '1')
  }

  lemma {:induction false} BlocksBits(bs: seq<seq<nat>>)
    requires forall i, j | 0 <= i < |bs| && 0 <= j < |bs[i]| :: bs[i][j] == 1
    ensures forall i | 0 <= i < |Blocks(bs)| :: Blocks(bs)[i] <= 1
  {
    if bs != [] { BlocksBits(bs[1..]); }
  }

  /** One text for a list of texts. */
  function Pack(ss: seq<string>): string { Letters(Blocks(Tallies(Blocks(CodesOf(ss))))) }

  lemma PackInjective(a: seq<string>, b: seq<string>)
    requires Pack(a) == Pack(b)
    ensures a == b
  {
    var p, q := Blocks(CodesOf(a)), Blocks(CodesOf(b));
    var x, y := Blocks(Tallies(p)), Blocks(Tallies(q));
    BlocksBits(Tallies(p));
    BlocksBits(Tallies(q));
    assert x == y by {
      assert forall i | 0 <= i < |x| :: Letters(x)[i] == Letters(y)[i];
    }
    BlocksInjective(Tallies(p), Tallies(q));
    assert forall i | 0 <= i < |p| :: p[i] == |Tallies(p)[i]| == |Tallies(q)[i]| == q[i];
    assert p == q;
    BlocksInjective(CodesOf(a), CodesOf(b));
    forall i | 0 <= i < |a| ensures a[i] == b[i] {
      assert Codes(a[i]) == CodesOf(a)[i] == CodesOf(b)[i] == Codes(b[i]);
      forall j | 0 <= j < |a[i]| ensures a[i][j] == b[i][j] { assert Codes(a[i])[j] == Codes(b[i])[j]; }
    }
  }

  // ----- fields -----

  function Number(n: int): string { (if n < 0 then "-" else "+") + seq(Abs(n), _ => '1') }

  lemma NumberInjective(a: int, b: int)
    requires Number(a) == Number(b)
    ensures a == b
  {
    assert Number(a)[0] == Number(b)[0];
  }

  function Truth(b: bool): string { if b then "1" else "0" }

  function Perhaps(o: Option<string>): seq<string> { if o.Some? then [o.value] else [] }

  ghost function Parts(x: Fraction): (p: (int, int))
    ensures Quotient(x, p.0, p.1)
  {
    assert Rational(x);
    var n, d :| Quotient(x, n, d);
    (n, d)
  }

  ghost function FractionText(x: Fraction): string { Pack([Number(Parts(x).0), Number(Parts(x).1)]) }

  lemma SameQuotient(x: real, y: real, n: int, d: int)
    requires Quotient(x, n, d) && Quotient(y, n, d)
    ensures x == y
  {
    assert (x - y) * d as real == 0.0;
  }

  lemma FractionInjective(x: Fraction, y: Fraction)
    requires FractionText(x) == FractionText(y)
    ensures x == y
  {
    hide Pack, Number;
    var a, b := [Number(Parts(x).0), Number(Parts(x).1)], [Number(Parts(y).0), Number(Parts(y).1)];
    PackInjective(a, b);
    assert a[0] == b[0] && a[1] == b[1];
    NumberInjective(Parts(x).0, Parts(y).0);
    NumberInjective(Parts(x).1, Parts(y).1);
    SameQuotient(x, y, Parts(x).0, Parts(x).1);
  }

  ghost function EvidenceFields(e: Evidence): seq<string> {
    [match e.kind case Declared => "d" case Observed => "o" case Inferred => "i",
     match e.confidenceKind case Unknown => "u" case Heuristic => "h" case Measured => "m",
     FractionText(e.confidence), Number(e.observedAt), Number(e.expiresAt), e.provenance, e.workspace, e.commit]
  }

  lemma EvidenceInjective(a: Evidence, b: Evidence)
    requires EvidenceFields(a) == EvidenceFields(b)
    ensures a == b
  {
    hide Number, FractionText;
    var s, t := EvidenceFields(a), EvidenceFields(b);
    assert s[0] == t[0] && s[1] == t[1] && s[2] == t[2] && s[3] == t[3];
    assert s[4] == t[4] && s[5] == t[5] && s[6] == t[6] && s[7] == t[7];
    FractionInjective(a.confidence, b.confidence);
    NumberInjective(a.observedAt, b.observedAt);
    NumberInjective(a.expiresAt, b.expiresAt);
  }

  ghost function RecordFields(r: Record): seq<string> {
    [r.id, match r.section case Identity => "i" case Context => "c" case Project => "p",
     Pack(Perhaps(r.project)), r.content, Number(r.source), Pack(EvidenceFields(r.evidence)),
     Number(r.createdAt), Number(r.updatedAt), Number(r.lastAccess), Number(r.accessCount),
     FractionText(r.relevance), Truth(r.locked), Truth(r.deprecated), Number(r.deprecatedAt),
     Pack(r.tags), Pack(r.sourceRefs)]
  }

  lemma RecordInjective(a: Record, b: Record)
    requires RecordFields(a) == RecordFields(b)
    ensures a == b
  {
    hide Number, FractionText, Pack, EvidenceFields;
    var s, t := RecordFields(a), RecordFields(b);
    assert s[0] == t[0] && s[1] == t[1] && s[2] == t[2] && s[3] == t[3];
    assert s[4] == t[4] && s[5] == t[5] && s[6] == t[6] && s[7] == t[7];
    assert s[8] == t[8] && s[9] == t[9] && s[10] == t[10] && s[11] == t[11];
    assert s[12] == t[12] && s[13] == t[13] && s[14] == t[14] && s[15] == t[15];
    PackInjective(Perhaps(a.project), Perhaps(b.project));
    PackInjective(EvidenceFields(a.evidence), EvidenceFields(b.evidence));
    EvidenceInjective(a.evidence, b.evidence);
    PackInjective(a.tags, b.tags);
    PackInjective(a.sourceRefs, b.sourceRefs);
    NumberInjective(a.source, b.source);
    NumberInjective(a.createdAt, b.createdAt);
    NumberInjective(a.updatedAt, b.updatedAt);
    NumberInjective(a.lastAccess, b.lastAccess);
    NumberInjective(a.accessCount, b.accessCount);
    NumberInjective(a.deprecatedAt, b.deprecatedAt);
    FractionInjective(a.relevance, b.relevance);
  }

  ghost function OpFields(op: Op): seq<string> {
    match op
    case Insert(at, r) => ["insert", Number(at), Pack(RecordFields(r))]
    case Update(at, id, content, declared) => ["update", Number(at), id, content, Truth(declared)]
    case Deprecate(at, id, reason) => ["deprecate", Number(at), id, reason]
    case Keep(at, id) => ["keep", Number(at), id]
    case SetLocked(at, id, value) => ["set_locked", Number(at), id, Truth(value)]
    case Access(at, ids) => ["access", Number(at), Pack(ids)]
    case ProjectCreate(at, project) => ["project_create", Number(at), project]
  }

  lemma OpFieldsInjective(a: Op, b: Op)
    requires OpFields(a) == OpFields(b)
    ensures a == b
  {
    hide Number, Pack, RecordFields;
    var s, t := OpFields(a), OpFields(b);
    assert s[0] == t[0] && s[1] == t[1] && s[2] == t[2];
    assert |s| == |t| && (|s| > 3 ==> s[3] == t[3]) && (|s| > 4 ==> s[4] == t[4]);
    NumberInjective(a.at, b.at);
    if a.Insert? {
      PackInjective(RecordFields(a.record), RecordFields(b.record));
      RecordInjective(a.record, b.record);
    }
    if a.Access? { PackInjective(a.ids, b.ids); }
  }

  ghost function Encode(op: Op): string { Pack(OpFields(op)) }

  lemma EncodeInjective(a: Op, b: Op)
    requires Encode(a) == Encode(b)
    ensures a == b
  {
    PackInjective(OpFields(a), OpFields(b));
    OpFieldsInjective(a, b);
  }

  ghost function Decode(s: string): Option<Op> {
    if exists op :: Encode(op) == s then var op :| Encode(op) == s; Some(op) else None
  }

  lemma Decoded(op: Op)
    ensures Decode(Encode(op)) == Some(op)
  {
    hide Encode;
    var s := Encode(op);
    var back := Decode(s).value;
    assert Encode(back) == s;
    EncodeInjective(op, back);
  }

  lemma Plain(op: Op)
    ensures forall i | 0 <= i < |Encode(op)| :: Encode(op)[i] in "01"
  {
    hide OpFields, Blocks, Tallies, CodesOf;
  }

  /** There is a serializer as Journal requires it, for every UTF-8 test that accepts ASCII. */
  lemma CodecExists(cx: Codec) returns (oc: OpCodec)
    requires forall s: string | (forall i | 0 <= i < |s| :: s[i] in "01") :: cx.utf8(s)
    ensures CodecOk(cx, oc)
  {
    hide Encode, Decode;
    oc := OpCodec(op => Encode(op), s => Decode(s));
    forall op: Op ensures oc.dec(oc.enc(op)) == Some(op) && '\0' !in oc.enc(op) && cx.utf8(oc.enc(op)) {
      Decoded(op);
      Plain(op);
    }
  }
}
