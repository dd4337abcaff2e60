/** A log as a sequence of frames: which events a file image holds, and why a torn
    tail is the only thing a cut can leave behind. */
module EventScan {
  import opened EventFrame
  import C = Chunks

  function FrameChunks(cx: Codec, es: seq<Event>): (cs: seq<string>)
    ensures |cs| == |es| && forall i | 0 <= i < |es| :: cs[i] == FrameBytes(cx, es[i]) && cs[i] != ""
  {
    seq(|es|, i requires 0 <= i < |es| => FrameBytes(cx, es[i]))
  }

  function Frames(cx: Codec, es: seq<Event>): string { C.Join(FrameChunks(cx, es)) }

  function End(cx: Codec, es: seq<Event>, k: nat): nat
    requires k <= |es|
  {
    |Frames(cx, es[..k])|
  }

  /** Sequence numbers count from one without a gap. */
  ghost predicate LogValid(cx: Codec, es: seq<Event>) {
    forall i | 0 <= i < |es| :: EventValid(cx, es[i]) && es[i].sequence == i + 1
  }

  /** The complete frames of the file image are exactly `es`; what follows is torn. */
  ghost predicate LogImage(cx: Codec, log: string, es: seq<Event>) {
    && LogValid(cx, es)
    && Frames(cx, es) <= log
    && (log == Frames(cx, es) || Torn(cx, log[|Frames(cx, es)|..]))
  }

  lemma ChunksTake(cx: Codec, es: seq<Event>, k: nat)
    requires k <= |es|
    ensures FrameChunks(cx, es[..k]) == FrameChunks(cx, es)[..k]
    ensures End(cx, es, k) == C.End(FrameChunks(cx, es), k)
  {}

  lemma FramesSnoc(cx: Codec, es: seq<Event>, e: Event)
    ensures Frames(cx, es + [e]) == Frames(cx, es) + FrameBytes(cx, e)
  {
    assert FrameChunks(cx, es + [e]) == FrameChunks(cx, es) + [FrameBytes(cx, e)];
    C.JoinSnoc(FrameChunks(cx, es), FrameBytes(cx, e));
  }

  lemma EndMonotone(cx: Codec, es: seq<Event>, j: nat, k: nat)
    requires j < k <= |es|
    ensures k <= End(cx, es, k) && End(cx, es, j) < End(cx, es, k)
  {
    C.EndAtLeast(FrameChunks(cx, es), k);
    ChunksTake(cx, es, j);
    ChunksTake(cx, es, k);
    C.EndMonotone(FrameChunks(cx, es), j, k);
  }

  /** Frame k starts where frame k - 1 ends. */
  lemma FrameAt(cx: Codec, log: string, es: seq<Event>, k: nat)
    requires LogValid(cx, es) && k < |es| && Frames(cx, es) <= log
    ensures End(cx, es, k) <= End(cx, es, k + 1) <= |log| && StartsWith(cx, log[End(cx, es, k)..], es[k])
    ensures End(cx, es, k + 1) == End(cx, es, k) + |FrameBytes(cx, es[k])|
  {
    ChunksTake(cx, es, k);
    ChunksTake(cx, es, k + 1);
    C.ChunkAt(FrameChunks(cx, es), log, k);
  }

  lemma SameNext(cx: Codec, log: string, es: seq<Event>, fs: seq<Event>, k: nat)
    requires LogValid(cx, es) && LogValid(cx, fs) && Frames(cx, es) <= log && Frames(cx, fs) <= log
    requires k < |es| && k < |fs| && es[..k] == fs[..k]
    ensures es[k] == fs[k]
  {
    FrameAt(cx, log, es, k);
    FrameAt(cx, log, fs, k);
    FrameUnique(cx, log[End(cx, es, k)..], es[k], fs[k]);
  }

  lemma {:induction false} ImagePrefix(cx: Codec, log: string, es: seq<Event>, fs: seq<Event>, k: nat)
    requires LogValid(cx, es) && LogValid(cx, fs) && Frames(cx, es) <= log && Frames(cx, fs) <= log
    requires k <= |es| && k <= |fs|
    ensures es[..k] == fs[..k]
    decreases k
  {
    if k > 0 {
      ImagePrefix(cx, log, es, fs, k - 1);
      SameNext(cx, log, es, fs, k - 1);
      C.TakeNext(es, fs, k - 1);
    }
  }

  lemma ShorterIsAll(cx: Codec, log: string, es: seq<Event>, fs: seq<Event>)
    requires LogImage(cx, log, es) && LogImage(cx, log, fs) && |es| <= |fs|
    ensures es == fs
  {
    ImagePrefix(cx, log, es, fs, |es|);
    assert es == fs[..|es|];
    if |es| < |fs| {
      FrameAt(cx, log, fs, |es|);
      assert |log| > |Frames(cx, es)| by { EndMonotone(cx, fs, |es|, |es| + 1); }
      TornHidesNoFrame(cx, log[|Frames(cx, es)|..], fs[|es|]);
    } else {
      assert fs[..|es|] == fs;
    }
  }

  /** A file image determines its events: no two readings of the same bytes differ. */
  lemma ImageUnique(cx: Codec, log: string, es: seq<Event>, fs: seq<Event>)
    requires LogImage(cx, log, es) && LogImage(cx, log, fs)
    ensures es == fs
  {
    if |es| <= |fs| { ShorterIsAll(cx, log, es, fs); } else { ShorterIsAll(cx, log, fs, es); }
  }

  lemma LogValidTake(cx: Codec, es: seq<Event>, k: nat)
    requires LogValid(cx, es) && k <= |es|
    ensures LogValid(cx, es[..k])
  {}

  /** What follows the frames that end before the cut is empty or torn. */
  lemma CutTail(cx: Codec, es: seq<Event>, n: nat, tail: string)
    requires LogValid(cx, es) && n <= |Frames(cx, es)|
    requires var k := Complete(cx, es, n); End(cx, es, k) <= n && tail == Frames(cx, es)[..n][End(cx, es, k)..]
    ensures tail == "" || Torn(cx, tail)
  {
    var k := Complete(cx, es, n);
    var cs := FrameChunks(cx, es);
    C.CutJoin(cs, n);
    ChunksTake(cx, es, k);
    if k < |es| {
      assert tail < cs[k];
      StrictPrefixTorn(cx, es[k], tail);
    } else {
      assert Frames(cx, es)[..n] == Frames(cx, es[..k]);
    }
  }

  ghost function Complete(cx: Codec, es: seq<Event>, n: nat): (k: nat)
    ensures k <= |es|
  {
    C.Complete(FrameChunks(cx, es), n)
  }

  /** Cutting a log at any byte leaves exactly the frames that end before the cut:
      none of them is lost, nothing else appears, and the rest is torn, not damaged. */
  lemma CutLog(cx: Codec, es: seq<Event>, n: nat)
    requires LogValid(cx, es) && n <= |Frames(cx, es)|
    ensures var k := Complete(cx, es, n);
      && LogImage(cx, Frames(cx, es)[..n], es[..k])
      && End(cx, es, k) <= n && (k < |es| ==> n < End(cx, es, k + 1))
  {
    var k := Complete(cx, es, n);
    C.CutJoin(FrameChunks(cx, es), n);
    ChunksTake(cx, es, k);
    if k < |es| { ChunksTake(cx, es, k + 1); }
    LogValidTake(cx, es, k);
    var log := Frames(cx, es)[..n];
    CutTail(cx, es, n, log[End(cx, es, k)..]);
    assert log[End(cx, es, k)..] == "" ==> log == Frames(cx, es[..k]);
  }

  lemma EndAll(cx: Codec, es: seq<Event>)
    ensures End(cx, es, |es|) == |Frames(cx, es)|
  {
    assert es[..|es|] == es;
  }

  lemma EndWithin(cx: Codec, log: string, es: seq<Event>, k: nat)
    requires Frames(cx, es) <= log && k <= |es|
    ensures End(cx, es, k) <= |log| && k <= |log|
  {
    hide *;
    EndAll(cx, es);
    if 0 < k { EndMonotone(cx, es, 0, k); }
    if k < |es| { EndMonotone(cx, es, k, |es|); }
  }

  /** One event more, once its frame is whole. */
  lemma Appended(cx: Codec, es: seq<Event>, e: Event)
    requires LogValid(cx, es) && EventValid(cx, e) && e.sequence == |es| + 1
    ensures LogImage(cx, Frames(cx, es) + FrameBytes(cx, e), es + [e])
    ensures Frames(cx, es) + FrameBytes(cx, e) == Frames(cx, es + [e])
  {
    FramesSnoc(cx, es, e);
  }

  /** A frame cut while it is written is a torn tail. */
  lemma PartlyAppended(cx: Codec, es: seq<Event>, e: Event, part: string)
    requires LogValid(cx, es) && EventValid(cx, e) && part < FrameBytes(cx, e)
    ensures LogImage(cx, Frames(cx, es) + part, es)
  {
    StrictPrefixTorn(cx, e, part);
    assert (Frames(cx, es) + part)[|Frames(cx, es)|..] == part;
  }

  lemma FrameFits(cx: Codec, e: Event)
    requires EventValid(cx, e)
    ensures |FrameBytes(cx, e)| <= |e.text| + 512
  {
    LineShape(cx, MetaOf(e), PayloadDigest(cx, MetaOf(e), e.objectRef, e.text));
    HeadShape(MetaOf(e));
  }

  /** At the end of frame k the reader finds frame k + 1, or the torn end of the log. */
  lemma NextFrame(cx: Codec, log: string, es: seq<Event>, k: nat)
    requires LogImage(cx, log, es) && k <= |es|
    ensures End(cx, es, k) <= |log|
    ensures k < |es| ==> StartsWith(cx, log[End(cx, es, k)..], es[k])
                         && End(cx, es, k + 1) == End(cx, es, k) + |FrameBytes(cx, es[k])| <= |log|
    ensures k == |es| && End(cx, es, k) < |log| ==> Torn(cx, log[End(cx, es, k)..])
  {
    EndWithin(cx, log, es, k);
    if k < |es| {
      FrameAt(cx, log, es, k);
    } else {
      EndAll(cx, es);
    }
  }

  /** Scanning from the end of frame n: either the log is torn there and n is the last
      frame, or the next read yields frame n + 1 and nothing else. */
  lemma ScanStep(cx: Codec, log: string, es: seq<Event>, n: nat)
    requires LogImage(cx, log, es) && n <= |es| && End(cx, es, n) < |log|
    ensures Torn(cx, log[End(cx, es, n)..]) <==> n == |es|
    ensures n < |es| ==>
      && StartsWith(cx, log[End(cx, es, n)..], es[n])
      && (forall e | StartsWith(cx, log[End(cx, es, n)..], e) :: e == es[n])
      && End(cx, es, n) < End(cx, es, n + 1) == End(cx, es, n) + |FrameBytes(cx, es[n])| <= |log|
      && es[n].sequence == n + 1
  {
    hide Frames, Torn, EventValid, FrameBytes, End;
    if n < |es| { EndMonotone(cx, es, n, n + 1); }
    NextFrame(cx, log, es, n);
    if n < |es| {
      var rest := log[End(cx, es, n)..];
      TornHidesNoFrame(cx, rest, es[n]);
      forall e | StartsWith(cx, rest, e) ensures e == es[n] { FrameUnique(cx, rest, e, es[n]); }
    }
  }

  lemma Truncated(cx: Codec, log: string, es: seq<Event>)
    requires LogImage(cx, log, es)
    ensures End(cx, es, |es|) <= |log|
    ensures log[..End(cx, es, |es|)] == Frames(cx, es) && LogImage(cx, Frames(cx, es), es)
  {
    hide Frames, Torn, EventValid;
    EndAll(cx, es);
  }

  lemma WholeLog(cx: Codec, log: string, es: seq<Event>, n: nat)
    requires LogImage(cx, log, es) && n <= |es| && End(cx, es, n) == |log|
    ensures n == |es| && es[..n] == es && log == Frames(cx, es)
  {
    hide Frames, Torn, EventValid;
    EndWithin(cx, log, es, n);
    EndAll(cx, es);
    if n < |es| { EndMonotone(cx, es, n, |es|); }
  }
}
