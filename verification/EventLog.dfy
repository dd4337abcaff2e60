/** The durable event log with its rebuildable offset index (src/event_log.c,
    src/event_index.c). The disk holds two files; `seen` collects every image of them
    a crash may leave behind, including each byte of a partial append. */
module EventLog {
  import opened Outcomes
  import opened EventFrame
  import opened EventScan
  import opened FrameIO
  import opened IndexRows
  import C = Chunks

  const EVENT_LOG_BYTES: nat := 512 * 1024 * 1024

  datatype Image = Image(log: Option<string>, idx: Option<string>)

  /** What the system tells about an open file, to notice that somebody else changed it. */
  datatype Stamp = Stamp(size: nat, links: nat, modified: nat, changed: nat)

  /** Writers only append: a shorter file, another link count, or a rewrite at the same size means
      that the captured prefix is no longer there. */
  predicate Replaced(taken: Stamp, now: Stamp) {
    || now.size < taken.size || now.links != taken.links
    || (now.size == taken.size && (now.modified != taken.modified || now.changed != taken.changed))
  }

  function Offsets(cx: Codec, es: seq<Event>): (ends: seq<nat>)
    ensures |ends| == |es| + 1 && forall k | 0 <= k <= |es| :: ends[k] == End(cx, es, k)
  {
    seq(|es| + 1, k requires 0 <= k <= |es| => End(cx, es, k))
  }

  function Index(cx: Codec, sum: string -> Sum, es: seq<Event>): string {
    IndexBytes(sum, Offsets(cx, es))
  }

  function LogOf(d: Image): string { if d.log.Some? then d.log.value else "" }

  /** The image stores exactly `es`: the log is their frames and at most a torn tail, and the
      index is missing or a byte prefix of the true one. */
  ghost predicate Stores(cx: Codec, sum: string -> Sum, d: Image, es: seq<Event>) {
    && LogImage(cx, LogOf(d), es)
    && |LogOf(d)| <= EVENT_LOG_BYTES
    && (d.idx.Some? ==> exists all :: Lists(cx, sum, d, es, all))
  }

  /** The index is a byte prefix of the one for `all`. It may be ahead of the log, when a crash took
      frames that were indexed before they were certain; then the log is a prefix of their frames. */
  ghost predicate Lists(cx: Codec, sum: string -> Sum, d: Image, es: seq<Event>, all: seq<Event>)
    requires d.idx.Some?
  {
    && d.idx.value <= Index(cx, sum, all) && es <= all && |Frames(cx, all)| <= EVENT_LOG_BYTES
    && (all == es || (d.log.Some? && LogValid(cx, all) && LogOf(d) <= Frames(cx, all)))
  }

  lemma StoresPlain(cx: Codec, sum: string -> Sum, d: Image, es: seq<Event>)
    requires LogImage(cx, LogOf(d), es) && |LogOf(d)| <= EVENT_LOG_BYTES
    requires d.idx.Some? ==> d.idx.value <= Index(cx, sum, es)
    ensures Stores(cx, sum, d, es)
  {
    assert d.idx.Some? ==> Lists(cx, sum, d, es, es);
  }

  /** An event as a producer hands it over; the log assigns the sequence number. */
  predicate Unnumbered(cx: Codec, e: Event) {
    && EventTyped(e.(sequence := 1)) && e.kind <= 7 && e.pinned <= 1
    && UuidValid(e.id) && ObjectRefValid(e.objectRef) && '\0' !in e.text && cx.utf8(e.text)
  }

  // ---- facts about offsets ---------------------------------------------------

  lemma OffsetsSnoc(cx: Codec, es: seq<Event>, e: Event)
    ensures Offsets(cx, es + [e]) == Offsets(cx, es) + [|Frames(cx, es + [e])|]
  {
    hide Frames;
    var fs := es + [e];
    forall k | 0 <= k <= |es| ensures Offsets(cx, fs)[k] == Offsets(cx, es)[k] { assert fs[..k] == es[..k]; }
    assert fs[..|fs|] == fs;
  }

  /** What row k of a stored index says. A row beyond the stored events ends beyond the log. */
  lemma StoredRow(cx: Codec, sum: string -> Sum, d: Image, es: seq<Event>, k: nat) returns (all: seq<Event>)
    requires Stores(cx, sum, d, es) && d.idx.Some? && 1 <= k
    requires 8 + INDEX_RECORD * k <= |d.idx.value|
    ensures k <= |all| && 0 <= 8 + INDEX_RECORD * (k - 1) <= 8 + INDEX_RECORD * k
    ensures var row := d.idx.value[8 + INDEX_RECORD * (k - 1)..8 + INDEX_RECORD * k];
      && |row| == INDEX_RECORD && Get(row[..8]) == End(cx, all, k - 1) && Get(row[8..16]) == End(cx, all, k)
      && row[16..] == sum(row[..16])
    ensures End(cx, all, k - 1) < End(cx, all, k)
    ensures k > |es| ==> End(cx, all, k) > |LogOf(d)|
    ensures k <= |es| ==>
      End(cx, all, k - 1) == End(cx, es, k - 1) && End(cx, all, k) == End(cx, es, k) <= |LogOf(d)|
  {
    hide Frames, End, Index, Get, LogImage, LogValid;
    all :| Lists(cx, sum, d, es, all);
    ListedRow(cx, sum, d.idx.value, all, k);
    if k <= |es| {
      StoredEnd(cx, sum, d, es, k);
      SameEnds(cx, es, all, k - 1);
      SameEnds(cx, es, all, k);
    } else {
      BeyondLog(cx, LogOf(d), es, all);
      if |es| + 1 < k { EndMonotone(cx, all, |es| + 1, k); }
    }
  }

  lemma ListedRow(cx: Codec, sum: string -> Sum, idx: string, all: seq<Event>, k: nat)
    requires idx <= Index(cx, sum, all) && 1 <= k && 8 + INDEX_RECORD * k <= |idx|
    requires |Frames(cx, all)| <= EVENT_LOG_BYTES
    ensures k <= |all| && 0 <= 8 + INDEX_RECORD * (k - 1) <= 8 + INDEX_RECORD * k
    ensures var row := idx[8 + INDEX_RECORD * (k - 1)..8 + INDEX_RECORD * k];
      && |row| == INDEX_RECORD && Get(row[..8]) == End(cx, all, k - 1) && Get(row[8..16]) == End(cx, all, k)
      && row[16..] == sum(row[..16])
    ensures End(cx, all, k - 1) < End(cx, all, k)
  {
    hide Frames, End, Row, IndexBytes, Get;
    var ends := Offsets(cx, all);
    IndexLength(sum, ends);
    RowAt(sum, ends, idx, k - 1);
    EndMonotone(cx, all, k - 1, k);
    EndWithin(cx, Frames(cx, all), all, k);
    RowFields(sum, End(cx, all, k - 1), End(cx, all, k));
  }

  lemma StoredEnd(cx: Codec, sum: string -> Sum, d: Image, es: seq<Event>, k: nat)
    requires Stores(cx, sum, d, es) && k <= |es|
    ensures End(cx, es, k) <= |LogOf(d)|
  {
    EndWithin(cx, LogOf(d), es, k);
  }

  lemma StoredValid(cx: Codec, sum: string -> Sum, d: Image, es: seq<Event>)
    requires Stores(cx, sum, d, es)
    ensures LogValid(cx, es) && LogImage(cx, LogOf(d), es)
  {}

  /** Cutting the torn tail off. */
  lemma CutStores(cx: Codec, sum: string -> Sum, d: Image, es: seq<Event>)
    requires Stores(cx, sum, d, es) && d.log.Some?
    ensures Stores(cx, sum, d.(log := Some(Frames(cx, es))), es)
  {
    hide Frames, Index, Torn, LogValid;
    var e := d.(log := Some(Frames(cx, es)));
    EndAll(cx, es);
    assert LogImage(cx, LogOf(e), es);
    if d.idx.Some? {
      var all :| Lists(cx, sum, d, es, all);
      FramesTake(cx, all, |es|);
      assert all[..|es|] == es;
      assert Lists(cx, sum, e, es, all);
    }
  }

  lemma SameEnds(cx: Codec, es: seq<Event>, all: seq<Event>, k: nat)
    requires es <= all && k <= |es|
    ensures End(cx, all, k) == End(cx, es, k)
  {
    assert all[..k] == es[..k];
  }

  lemma FramesTake(cx: Codec, all: seq<Event>, k: nat)
    requires k <= |all|
    ensures Frames(cx, all[..k]) <= Frames(cx, all)
  {
    ChunksTake(cx, all, k);
    C.JoinPrefix(FrameChunks(cx, all), k);
  }

  /** The frame after the stored ones does not fit into the log. */
  lemma BeyondLog(cx: Codec, log: string, es: seq<Event>, all: seq<Event>)
    requires LogImage(cx, log, es) && LogValid(cx, all) && log <= Frames(cx, all) && es < all
    ensures End(cx, all, |es| + 1) > |log|
  {
    hide Frames, Torn, EventValid, FrameBytes;
    var n := |es|;
    var more := all[..n + 1];
    if |Frames(cx, more)| <= |log| {
      FramesTake(cx, all, n + 1);
      LogValidTake(cx, all, n + 1);
      assert Frames(cx, more) <= log;
      assert more[..n] == es;
      FrameAt(cx, log, more, n);
      EndMonotone(cx, more, n, n + 1);
      EndAll(cx, more);
      TornHidesNoFrame(cx, log[End(cx, more, n)..], more[n]);
      assert false;
    }
  }

  lemma IndexGrows(cx: Codec, sum: string -> Sum, es: seq<Event>, e: Event)
    ensures Index(cx, sum, es + [e]) == Index(cx, sum, es) + Row(sum, |Frames(cx, es)|, |Frames(cx, es + [e])|)
  {
    OffsetsSnoc(cx, es, e);
    EndAll(cx, es);
    IndexSnoc(sum, Offsets(cx, es), |Frames(cx, es + [e])|);
  }

  lemma StartOfIndex(cx: Codec, sum: string -> Sum, es: seq<Event>)
    ensures Index(cx, sum, es[..0]) == MAGIC && End(cx, es, 0) == 0
  {
    assert es[..0] == [];
  }

  lemma RowAppended(cx: Codec, sum: string -> Sum, es: seq<Event>, n: nat)
    requires n < |es|
    ensures Index(cx, sum, es[..n + 1]) == Index(cx, sum, es[..n]) + Row(sum, End(cx, es, n), End(cx, es, n + 1))
  {
    hide Frames, Index, Row;
    assert es[..n + 1] == es[..n] + [es[n]];
    IndexGrows(cx, sum, es[..n], es[n]);
  }

  lemma EmptyLog(cx: Codec, es: seq<Event>)
    ensures LogImage(cx, "", es) ==> es == [] && Frames(cx, es) == ""
  {
    if LogImage(cx, "", es) && es != [] {
      EndAll(cx, es);
      EndMonotone(cx, es, 0, |es|);
    }
  }

  lemma AtStart(cx: Codec, es: seq<Event>)
    ensures es == [] ==> Frames(cx, es) == ""
  {}

  /** An index prefix with as many rows as the log has frames is the whole index. */
  lemma WholeIndex(cx: Codec, sum: string -> Sum, d: Image, es: seq<Event>, n: nat)
    requires Stores(cx, sum, d, es) && d.idx.Some? && n == |es|
    requires |d.idx.value| == 8 + INDEX_RECORD * n
    ensures d.idx.value == Index(cx, sum, es)
  {
    var all :| Lists(cx, sum, d, es, all);
    IndexLength(sum, Offsets(cx, es));
    IndexPrefix(cx, sum, all, n);
    assert all[..n] == es;
  }

  lemma {:induction false} IndexPrefix(cx: Codec, sum: string -> Sum, all: seq<Event>, n: nat)
    requires n <= |all|
    ensures Index(cx, sum, all[..n]) <= Index(cx, sum, all)
    decreases |all| - n
  {
    hide Index, Row;
    if n < |all| {
      RowAppended(cx, sum, all, n);
      IndexPrefix(cx, sum, all, n + 1);
    } else {
      assert all[..n] == all;
    }
  }

  lemma WholeImage(cx: Codec, es: seq<Event>)
    requires LogValid(cx, es)
    ensures LogImage(cx, Frames(cx, es), es)
  {}

  lemma NoLog(cx: Codec, sum: string -> Sum, d: Image, es: seq<Event>)
    requires Stores(cx, sum, d, es) && d.log == None
    ensures d.idx.Some? ==> d.idx.value <= Index(cx, sum, es)
  {}

  lemma IndexSize(cx: Codec, sum: string -> Sum, es: seq<Event>)
    ensures |Index(cx, sum, es)| == 8 + INDEX_RECORD * |es|
  {
    IndexLength(sum, Offsets(cx, es));
  }

  lemma Numbered(cx: Codec, es: seq<Event>, e: Event)
    requires LogValid(cx, es) && Unnumbered(cx, e) && |e.text| <= EVENT_BYTES
    requires |Frames(cx, es)| <= EVENT_LOG_BYTES
    ensures EventValid(cx, e.(sequence := |es| + 1))
  {
    EndAll(cx, es);
    if 0 < |es| { EndMonotone(cx, es, 0, |es|); }
  }

  /** Every byte of a frame being written leaves an image that stores es or one event more. */
  lemma WriteImages(cx: Codec, sum: string -> Sum, es: seq<Event>, e: Event, idx: Option<string>)
    requires LogValid(cx, es) && EventValid(cx, e) && e.sequence == |es| + 1
    requires |Frames(cx, es)| + |e.text| + 512 <= EVENT_LOG_BYTES
    requires idx.Some? ==> idx.value <= Index(cx, sum, es)
    ensures forall part: string | part <= FrameBytes(cx, e) ::
      var d := Image(Some(Frames(cx, es) + part), idx);
      Stores(cx, sum, d, if part == FrameBytes(cx, e) then es + [e] else es)
  {
    hide Frames, Index, Torn, EventValid, FrameBytes;
    FrameFits(cx, e);
    forall part: string | part <= FrameBytes(cx, e)
      ensures Stores(cx, sum, Image(Some(Frames(cx, es) + part), idx), if part == FrameBytes(cx, e) then es + [e] else es)
    {
      var d := Image(Some(Frames(cx, es) + part), idx);
      if part == FrameBytes(cx, e) {
        Appended(cx, es, e);
        IndexGrows(cx, sum, es, e);
        StoresPlain(cx, sum, d, es + [e]);
      } else {
        PartlyAppended(cx, es, e, part);
        StoresPlain(cx, sum, d, es);
      }
    }
  }

  /** Every byte of the row being added leaves a prefix of the new index. */
  lemma IndexExtended(cx: Codec, sum: string -> Sum, es: seq<Event>, e: Event, start: string)
    requires start == if es != [] then Index(cx, sum, es) else ""
    ensures var row := Row(sum, |Frames(cx, es)|, |Frames(cx, es + [e])|);
      var wanted := if es != [] then row else MAGIC + row;
      forall part: string | part <= wanted :: start + part <= Index(cx, sum, es + [e])
  {
    hide Frames, Row;
    IndexGrows(cx, sum, es, e);
    if es == [] { StartOfIndex(cx, sum, es); assert es[..0] == es; }
  }

  class EventFiles {
    const cx: Codec
    const sum: string -> Sum
    var log: Option<string>
    var idx: Option<string>
    // the open handle
    var count: nat
    var bytes: nat
    var stamp: Stamp
    ghost var seen: iset<Image>

    constructor (cx: Codec, sum: string -> Sum, d: Image)
      ensures this.cx == cx && this.sum == sum && Disk() == d && seen == iset{}
    {
      this.cx, this.sum := cx, sum;
      log, idx, count, bytes, stamp := d.log, d.idx, 0, 0, Stamp(0, 0, 0, 0);
      seen := iset{};
    }

    function Disk(): Image reads this { Image(log, idx) }

    /** The handle describes exactly es, whose frames and rows are on disk. */
    ghost predicate Opened(es: seq<Event>)
      reads this
    {
      && LogValid(cx, es) && log == Some(Frames(cx, es)) && idx == Some(Index(cx, sum, es))
      && count == |es| && bytes == |Frames(cx, es)| <= EVENT_LOG_BYTES
    }

    lemma OpenedStores(es: seq<Event>)
      requires Opened(es)
      ensures Stores(cx, sum, Disk(), es)
    {
      hide Frames, Index, LogValid, Torn;
      WholeImage(cx, es);
      StoresPlain(cx, sum, Disk(), es);
    }

    /** Every image that became visible stores es. */
    twostate predicate OnlySaw(es: seq<Event>)
      reads this
    {
      forall d :: d in seen ==> d in old(seen) || Stores(cx, sum, d, es)
    }

    /** `index_read`: the row must carry its own checksum and lie within the log. */
    method IndexRead(k: nat, ghost es: seq<Event>) returns (ok: bool, a: nat, b: nat)
      requires idx.Some? && log.Some? && bytes == |log.value|
      requires 8 + INDEX_RECORD * count == |idx.value|
      requires Stores(cx, sum, Disk(), es)
      ensures ok <==> 1 <= k <= count && k <= |es|
      ensures ok ==> a == End(cx, es, k - 1) && b == End(cx, es, k) && a < b <= bytes
    {
      hide Frames, End, Index, Get, Torn;
      if k == 0 || k > count {
        return false, 0, 0;
      }
      ghost var all := StoredRow(cx, sum, Disk(), es, k);
      var row := idx.value[8 + INDEX_RECORD * (k - 1)..8 + INDEX_RECORD * k];
      a, b := Get(row[..8]), Get(row[8..16]);
      ok := row[16..] == sum(row[..16]) && a < b <= bytes;
    }

    /** The scan of `rebuild`: read frame by frame, collect the rows, and cut a torn tail
        off the log. Device failures (`fault`) may interrupt it anywhere. */
    method Scan(ghost es: seq<Event>) returns (err: Err, n: nat, index: string)
      requires log.Some? && bytes == |log.value| && Stores(cx, sum, Disk(), es)
      modifies this`log, this`bytes, this`seen
      ensures err == Ok || err == Io
      ensures Stores(cx, sum, Disk(), es) && log.Some? && OnlySaw(es)
      ensures err == Ok ==> log == Some(Frames(cx, es)) && bytes == |Frames(cx, es)|
      ensures err == Ok ==> n == |es| && index == Index(cx, sum, es)
    {
      hide Frames, End, Index, Torn, StartsWith, Row, EventValid, FrameBytes, Stores, LogImage, LogValid;
      StoredValid(cx, sum, Disk(), es);
      index, n := MAGIC, 0;
      var good := 0;
      var f := new InStream(log.value);
      StartOfIndex(cx, sum, es);
      while good < bytes
        invariant log == old(log) && seen == old(seen) && bytes == |log.value|
        invariant f.Valid() && f.data == log.value
        invariant n <= |es| && good == End(cx, es, n) == f.pos
        invariant index == Index(cx, sum, es[..n])
        decreases bytes - good
      {
        ScanStep(cx, log.value, es, n);
        var e;
        err, e := FrameRead(cx, f);
        if err == NotFound {
          var fault: bool := *;
          if fault { return Io, n, index; }
          Truncated(cx, log.value, es);
          CutStores(cx, sum, Disk(), es);
          log := Some(log.value[..good]);
          bytes := good;
          seen := seen + iset{Disk()};
          fault := *;
          if fault { return Io, n, index; }
          break;
        }
        if err != Ok { return err, n, index; }
        var end := f.pos;
        if e.sequence != n + 1 || end > bytes { return Parse, n, index; }
        index := index + Row(sum, good, end);
        RowAppended(cx, sum, es, n);
        good, n := end, n + 1;
      }
      WholeLog(cx, log.value, es, n);
      err := Ok;
    }

    /** `rebuild`: scan, write the fresh index beside the old one, and replace it. */
    method Rebuild(ghost es: seq<Event>) returns (err: Err)
      requires log.Some? && bytes == |log.value| && Stores(cx, sum, Disk(), es)
      modifies this
      ensures err == Ok || err == Io
      ensures Stores(cx, sum, Disk(), es) && log.Some? && OnlySaw(es)
      ensures err == Ok ==> Opened(es)
    {
      hide Frames, Index, Torn, EventValid;
      var n, index;
      err, n, index := Scan(es);
      if err != Ok { return; }
      var fault, replaced: bool := *, *;
      if fault { return Io; }
      if replaced {
        idx := Some(index);
        StoredValid(cx, sum, old(Disk()), es);
        WholeImage(cx, es);
        StoresPlain(cx, sum, Disk(), es);
        seen := seen + iset{Disk()};
      }
      fault := *;
      if fault || !replaced { return Io; }
      count := n;
    }

    /** `files_open`: trust the index only if its last row ends at the end of the log and
        the frame there carries the expected number; otherwise rebuild. On every image a
        crash can leave, the outcome is the same events, never damage. */
    method FilesOpen(ghost es: seq<Event>) returns (err: Err)
      requires Stores(cx, sum, Disk(), es)
      modifies this
      ensures err == Ok || err == Io || err == NotFound
      ensures err == NotFound <==> old(log) == None
      ensures Stores(cx, sum, Disk(), es) && OnlySaw(es)
      ensures err == Ok ==> Opened(es)
      ensures err == NotFound ==> count == 0 && bytes == 0 && es == [] && Disk() == old(Disk())
    {
      hide Frames, End, Index, Torn, StartsWith, EventValid, FrameBytes;
      count, bytes := 0, 0;
      if log == None {
        EmptyLog(cx, es);
        return NotFound;
      }
      bytes := |log.value|;
      if bytes > EVENT_LOG_BYTES { return Limit; }
      if idx.Some? && |idx.value| >= 8 && |idx.value| <= EVENT_LOG_BYTES && (|idx.value| - 8) % INDEX_RECORD == 0 {
        count := (|idx.value| - 8) / INDEX_RECORD;
        if idx.value[..8] == MAGIC {
          if count == 0 && bytes == 0 {
            EmptyLog(cx, es);
            WholeIndex(cx, sum, Disk(), es, 0);
            return Ok;
          }
          var row, a, b := IndexRead(count, es);
          if row && b == bytes {
            var f := new InStream(log.value);
            f.pos := a;
            var e;
            err, e := FrameRead(cx, f);
            if err == Ok && e.sequence == count && f.pos == b {
              WholeLog(cx, log.value, es, count);
              WholeIndex(cx, sum, Disk(), es, count);
              return Ok;
            }
          }
        }
      }
      err := Rebuild(es);
    }

    /** `asper_event_files_open`: `taken` is the stamp of the log when it was opened or repaired,
        `after` the one read at the end; PARSE only when they do not fit each other. */
    method Open(taken: Stamp, after: Stamp, ghost es: seq<Event>) returns (err: Err)
      requires Stores(cx, sum, Disk(), es)
      modifies this
      ensures err == Ok || err == Io || err == NotFound || err == Parse
      ensures err == NotFound <==> old(log) == None
      ensures Stores(cx, sum, Disk(), es) && OnlySaw(es)
      ensures err == Ok ==> Opened(es) && stamp == taken == after
      ensures err == Parse ==> after != taken || after.size != |Frames(cx, es)|
      ensures err == NotFound ==> count == 0 && bytes == 0 && es == [] && Disk() == old(Disk())
    {
      hide Frames, Index, Torn, EventValid, LogImage;
      err := FilesOpen(es);
      if err != Ok { return; }
      var readable: bool := *;
      if !readable { return Io; }
      stamp := taken;
      if after.size != bytes || after != stamp { err := Parse; }
    }

    /** `asper_event_log_append`: repair, write one frame, make it durable, then extend the
        index. Whatever happens, every image seen stores es or es plus this one event; only
        an unreported durable frame separates a failure from the state before it. */
    method Append(e: Event, ghost es: seq<Event>) returns (err: Err)
      requires Stores(cx, sum, Disk(), es) && Unnumbered(cx, e)
      modifies this
      ensures err == Ok || err == Io || err == Invalid || err == Parse
      ensures var es' := es + [e.(sequence := |es| + 1)];
        && (forall d :: d in seen ==> d in old(seen) || Stores(cx, sum, d, es) || Stores(cx, sum, d, es'))
        && (err == Ok ==> Stores(cx, sum, Disk(), es') && LogOf(Disk()) == Frames(cx, es'))
        && (err == Invalid || err == Parse ==> Stores(cx, sum, Disk(), es))
        && (err == Io ==> Stores(cx, sum, Disk(), es) || Stores(cx, sum, Disk(), es'))
      ensures err == Invalid ==> |e.text| > EVENT_BYTES || |Frames(cx, es)| + |e.text| + 512 > EVENT_LOG_BYTES
    {
      hide Frames, Index, Torn, EventValid, FrameBytes, Row;
      var taken, after: Stamp := *, *;
      err := Open(taken, after, es);
      if err != Ok && err != NotFound { return; }
      if |e.text| > EVENT_BYTES || bytes + |e.text| + 512 > EVENT_LOG_BYTES {
        return Invalid;
      }
      AtStart(cx, es);
      if err == NotFound { NoLog(cx, sum, Disk(), es); }
      Numbered(cx, es, e);
      var event := e.(sequence := count + 1);
      err := WriteFrame(event, es);
      if err != Ok { return; }
      ExtendIndex(event, es);
      return Ok;
    }

    method WriteFrame(event: Event, ghost es: seq<Event>) returns (err: Err)
      requires Stores(cx, sum, Disk(), es) && LogOf(Disk()) == Frames(cx, es)
      requires idx.Some? ==> idx.value <= Index(cx, sum, es)
      requires EventValid(cx, event) && event.sequence == |es| + 1
      requires |Frames(cx, es)| + |event.text| + 512 <= EVENT_LOG_BYTES
      modifies this`log, this`seen
      ensures err == Ok || err == Io
      ensures forall d :: d in seen ==>
        d in old(seen) || Stores(cx, sum, d, es) || Stores(cx, sum, d, es + [event])
      ensures Stores(cx, sum, Disk(), es) || Stores(cx, sum, Disk(), es + [event])
      ensures err == Ok ==> Stores(cx, sum, Disk(), es + [event]) && log == Some(Frames(cx, es + [event]))
    {
      hide Frames, Index, Torn, EventValid, FrameBytes, Stores;
      ghost var base := LogOf(Disk());
      var fault: bool := *;
      if fault { return Io; }
      ValidEventWritable(cx, event);
      StoredValid(cx, sum, Disk(), es);
      WriteImages(cx, sum, es, event, idx);
      var written;
      err, written := FrameWrite(cx, LogOf(Disk()), event);
      seen := seen + iset part: string | part <= FrameBytes(cx, event) :: Image(Some(base + part), idx);
      assert exists part: string :: part <= FrameBytes(cx, event) && written == base + part;
      log := Some(written);
      fault := *;
      if err != Ok || fault { return Io; }
      FramesSnoc(cx, es, event);
    }

    /** Add the row of the new event. However much of it reaches the disk, the events stored are the
        same, so nothing is reported. */
    method ExtendIndex(event: Event, ghost es: seq<Event>)
      requires Stores(cx, sum, Disk(), es + [event]) && log == Some(Frames(cx, es + [event]))
      requires count == |es| && bytes == |Frames(cx, es)|
      requires es != [] ==> idx == Some(Index(cx, sum, es))
      modifies this`idx, this`seen
      ensures OnlySaw(es + [event]) && Stores(cx, sum, Disk(), es + [event])
    {
      hide Frames, Index, Torn, EventValid, FrameBytes, Row, LogImage;
      var reached: bool := *;
      if !reached { return; }
      var row := Row(sum, bytes, |log.value|);
      var wanted := if count > 0 then row else MAGIC + row;
      var start := if count > 0 then idx.value else "";
      IndexExtended(cx, sum, es, event, start);
      forall part: string | part <= wanted ensures Stores(cx, sum, Image(log, Some(start + part)), es + [event]) {
        StoresPlain(cx, sum, Image(log, Some(start + part)), es + [event]);
      }
      seen := seen + iset part: string | part <= wanted :: Image(log, Some(start + part));
      var k :| 0 <= k <= |wanted|;
      idx := Some(start + wanted[..k]);
    }

    /** `asper_event_files_read`: on an open handle, read(k) is the k-th event or an error; damage is
        reported only when the stamps before and after show that the file was replaced or grew
        meanwhile. A row that cannot be read is rebuilt once. */
    method Read(k: nat, before: Stamp, after: Stamp, ghost es: seq<Event>) returns (err: Err, e: Event)
      requires Opened(es)
      modifies this
      ensures Stores(cx, sum, Disk(), es) && OnlySaw(es)
      ensures err == NotFound <==> !(1 <= k <= |es|)
      ensures err == Ok ==> e == es[k - 1] && stamp == before == after
      ensures err == Ok ==> var s := old(stamp);
        && s.size <= before.size && s.links == before.links
        && (s.size == before.size ==> s.modified == before.modified && s.changed == before.changed)
      ensures err == Parse && after == before ==> var s := old(stamp);
        || s.size > before.size || s.links != before.links
        || (s.size == before.size && (s.modified != before.modified || s.changed != before.changed))
      ensures err == Ok || err == NotFound || err == Parse || err == Io
      ensures err != Io ==> Opened(es)
    {
      hide Frames, End, Index, Torn, StartsWith, EventValid, FrameBytes;
      e := Event(0, 0, 0, 0, "", "", "");
      OpenedStores(es);
      if k == 0 || k > count { return NotFound, e; }
      var fault: bool := *;
      if fault { return Io, e; }
      if Replaced(stamp, before) { return Parse, e; }
      var legible: bool := *;
      if !legible {
        err := Rebuild(es);
        if err != Ok { return; }
      }
      err, e := Fetch(k, es);
      if err == Ok {
        if after != before { return Parse, e; }
        stamp := after;
      }
    }

    /** The frame behind row k. */
    method Fetch(k: nat, ghost es: seq<Event>) returns (err: Err, e: Event)
      requires Opened(es) && 1 <= k <= count
      ensures err == Ok || err == Io
      ensures err == Ok ==> e == es[k - 1]
    {
      hide Frames, End, Index, Torn, StartsWith, EventValid, FrameBytes;
      OpenedStores(es);
      IndexSize(cx, sum, es);
      var row, a, b := IndexRead(k, es);
      ScanStep(cx, log.value, es, k - 1);
      var f := new InStream(log.value);
      f.pos := a;
      err, e := FrameRead(cx, f);
      if err == Ok && (e.sequence != k || f.pos != b) { err := Parse; }
      var readable: bool := *;
      if !readable { err := Io; }
    }

    /** `asper_event_log_page`: the matching events from a cursor on, in order, up to a
        limit. The next cursor says exactly which prefix has been examined, so pages read
        one after another neither skip nor repeat an event; a failure gives no events and leaves
        the cursor where it was. */
    method Page(matches: Event -> bool, after: nat, limit: nat, ghost es: seq<Event>)
      returns (err: Err, page: seq<Event>, next: nat)
      requires Stores(cx, sum, Disk(), es)
      modifies this
      ensures Stores(cx, sum, Disk(), es) && OnlySaw(es)
      ensures err == Ok || err == Io || err == Parse
      ensures err != Ok ==> page == [] && next == after
      ensures after <= next && (next <= |es| || next == after)
      ensures err == Ok && after <= |es| ==> page == Matching(matches, es[after..next])
      ensures err == Ok && after <= |es| ==> Picked(matches, es[after..next], page)
      ensures err == Ok ==> |page| <= limit && (|page| < limit ==> next >= |es|)
    {
      hide Frames, Index, End, EventValid, LogValid, Stores, Picked;
      page, next := [], after;
      if after <= |es| { MatchingPicks(matches, es[after..after]); }
      var first, last: Stamp := *, *;
      err := Open(first, last, es);
      if err != Ok {
        if err == NotFound { err := Ok; }
        return;
      }
      while next < count && |page| < limit
        invariant Opened(es) && OnlySaw(es) && err == Ok
        invariant after <= next && (next <= |es| || next == after)
        invariant |page| <= limit
        invariant after <= |es| ==> page == Matching(matches, es[after..next])
        decreases |es| - next
      {
        var e;
        first, last := *, *;
        err, e := Read(next + 1, first, last, es);
        if err != Ok { return err, [], after; }
        assert es[after..next + 1] == es[after..next] + [es[next]];
        next := next + 1;
        if matches(e) {
          page := page + [e];
        }
      }
      OpenedStores(es);
      if next <= |es| { MatchingPicks(matches, es[after..next]); }
    }
  }

  /** The events at the given places: those that match, all of them, in their order. */
  ghost predicate PickedAt(matches: Event -> bool, es: seq<Event>, page: seq<Event>, at: seq<int>) {
    && |at| == |page| && (forall i, j | 0 <= i < j < |at| :: at[i] < at[j])
    && (forall i | 0 <= i < |at| :: 0 <= at[i] < |es| && page[i] == es[at[i]])
    && (forall i | 0 <= i < |page| :: matches(page[i]))
    && forall j | 0 <= j < |es| && matches(es[j]) :: j in at
  }

  ghost predicate Picked(matches: Event -> bool, es: seq<Event>, page: seq<Event>) {
    exists at :: PickedAt(matches, es, page, at)
  }

  lemma MatchingPicks(matches: Event -> bool, es: seq<Event>)
    ensures Picked(matches, es, Matching(matches, es))
  {
    var at := Picks(matches, es);
  }

  lemma {:induction false} Picks(matches: Event -> bool, es: seq<Event>) returns (at: seq<int>)
    ensures PickedAt(matches, es, Matching(matches, es), at)
  {
    at := [];
    if es != [] {
      hide PickedAt;
      var n := |es| - 1;
      at := Picks(matches, es[..n]);
      assert es == es[..n] + [es[n]] && n == |es[..n]|;
      PickedSnoc(matches, es[..n], Matching(matches, es[..n]), at, es[n]);
      if matches(es[n]) { at := at + [n]; }
    }
  }

  lemma PickedSnoc(matches: Event -> bool, es: seq<Event>, page: seq<Event>, at: seq<int>, e: Event)
    requires PickedAt(matches, es, page, at)
    ensures PickedAt(matches, es + [e], page + (if matches(e) then [e] else []), at + (if matches(e) then [|es|] else []))
  {
    var all := es + [e];
    if matches(e) {
      forall j | 0 <= j < |all| && matches(all[j]) ensures j in at + [|es|] {
        if j < |es| { assert all[j] == es[j] && j in at; } else { assert (at + [|es|])[|at|] == j; }
      }
    } else {
      assert page + [] == page && at + [] == at;
    }
  }

  function Matching(matches: Event -> bool, es: seq<Event>): seq<Event> {
    if es == [] then []
    else Matching(matches, es[..|es| - 1]) + (if matches(es[|es| - 1]) then [es[|es| - 1]] else [])
  }
}
