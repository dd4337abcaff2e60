/** Conversation turns, and what a scope's log makes of them (src/turn_queue.c,
    src/source_pending.c). */
module Turns {
  const QUEUE_EVENTS: nat := 4096
  const QUEUE_BYTES: nat := 32 * 1024 * 1024
  const CURATION_BATCH_MAX: nat := 256
  const TRANSCRIPT_BYTES: nat := 64 * 1024

  /** Where a turn came from decides which turns may share a batch. */
  datatype Context = Context(scope: string, project: string, workspace: string, commit: string)
  /** `sequence` is the turn's position in its scope's log, known through its source id. */
  datatype Turn = Turn(context: Context, sequence: nat, id: string, user: bool, text: string)

  datatype Kind = User | Assistant | Other
  /** One event of a scope. `metadata` is what reading its object reference yields. */
  datatype Source = Source(id: string, kind: Kind, text: string, utf8: bool, uuid: bool,
                           metadataOk: bool, project: string, workspace: string, commit: string)
  datatype Deferral = Deferral(sequence: nat, digest: string)

  type Log = seq<Source>

  /** Sources that need no curation: acknowledged before this process started, or deferred by
      the operator. */
  datatype Settled = Settled(acked: set<string>, deferrals: map<(string, string), Deferral>)

  predicate Wanted(st: Settled, scope: string, e: Source) {
    e.kind != Other && e.id !in st.acked && (scope, e.id) !in st.deferrals
  }

  function TurnOf(scope: string, e: Source, sequence: nat): Turn {
    Turn(Context(scope, e.project, e.workspace, e.commit), sequence, e.id, e.kind == User, e.text)
  }

  /** The turns the first n events of a scope owe the curator, oldest first. */
  function Owed(st: Settled, scope: string, log: Log, n: nat): seq<Turn>
    requires n <= |log|
  {
    if n == 0 then []
    else Owed(st, scope, log, n - 1) + (if Wanted(st, scope, log[n - 1]) then [TurnOf(scope, log[n - 1], n)] else [])
  }

  function Of(scope: string, ts: seq<Turn>): seq<Turn> {
    if ts == [] then []
    else Of(scope, ts[..|ts| - 1]) + (if ts[|ts| - 1].context.scope == scope then [ts[|ts| - 1]] else [])
  }

  function Bytes(ts: seq<Turn>): nat {
    if ts == [] then 0 else Bytes(ts[..|ts| - 1]) + |ts[|ts| - 1].text| + 1
  }

  lemma OfSnoc(scope: string, ts: seq<Turn>, t: Turn)
    ensures Of(scope, ts + [t]) == Of(scope, ts) + (if t.context.scope == scope then [t] else [])
  {
    assert (ts + [t])[..|ts|] == ts;
  }

  lemma NoBytes()
    ensures Bytes([]) == 0
  {}

  lemma {:induction false} BytesJoin(a: seq<Turn>, b: seq<Turn>)
    ensures Bytes(a + b) == Bytes(a) + Bytes(b)
  {
    if b == [] {
      assert a + b == a;
    } else {
      BytesJoin(a, b[..|b| - 1]);
      assert (a + b)[..|a + b| - 1] == a + b[..|b| - 1];
    }
  }

  lemma {:induction false} OwedGrows(st: Settled, scope: string, log: Log, more: Log, n: nat)
    requires n <= |log|
    ensures Owed(st, scope, log + more, n) == Owed(st, scope, log, n)
  {
    if n > 0 { OwedGrows(st, scope, log, more, n - 1); }
  }

  ghost predicate Ascending(ts: seq<Turn>) { forall i, j | 0 <= i < j < |ts| :: ts[i].sequence < ts[j].sequence }

  /** An owed turn stands for the wanted event at its own place. */
  predicate Owes(st: Settled, scope: string, log: Log, n: nat, t: Turn) {
    1 <= t.sequence <= n && n <= |log| && Wanted(st, scope, log[t.sequence - 1]) &&
      t == TurnOf(scope, log[t.sequence - 1], t.sequence)
  }

  lemma {:induction false} OwedSound(st: Settled, scope: string, log: Log, n: nat)
    requires n <= |log|
    ensures forall t | t in Owed(st, scope, log, n) :: Owes(st, scope, log, n, t)
  {
    hide Wanted, TurnOf;
    if n > 0 {
      OwedSound(st, scope, log, n - 1);
      forall t | t in Owed(st, scope, log, n) ensures Owes(st, scope, log, n, t) {
        if t in Owed(st, scope, log, n - 1) {
          assert Owes(st, scope, log, n - 1, t);
        } else {
          AtOwnPlace(scope, log, n);
        }
      }
    }
  }

  lemma AtOwnPlace(scope: string, log: Log, n: nat)
    requires 0 < n <= |log|
    ensures TurnOf(scope, log[n - 1], n).sequence == n
  {}

  lemma {:induction false} OwedAscending(st: Settled, scope: string, log: Log, n: nat)
    requires n <= |log|
    ensures Ascending(Owed(st, scope, log, n))
  {
    if n > 0 {
      OwedAscending(st, scope, log, n - 1);
      OwedSound(st, scope, log, n - 1);
      var before := Owed(st, scope, log, n - 1);
      assert forall i | 0 <= i < |before| :: before[i] in before && Owes(st, scope, log, n - 1, before[i]);
    }
  }

  lemma {:induction false} OwedComplete(st: Settled, scope: string, log: Log, n: nat, k: nat)
    requires k < n <= |log| && Wanted(st, scope, log[k])
    ensures TurnOf(scope, log[k], k + 1) in Owed(st, scope, log, n)
  {
    hide Wanted, TurnOf;
    if k < n - 1 { OwedComplete(st, scope, log, n - 1, k); }
  }

  lemma {:induction false} OfMembers(scope: string, ts: seq<Turn>, t: Turn)
    ensures t in Of(scope, ts) <==> t in ts && t.context.scope == scope
  {
    if ts != [] {
      OfMembers(scope, ts[..|ts| - 1], t);
      assert ts == ts[..|ts| - 1] + [ts[|ts| - 1]];
    }
  }

  /** The order within one scope is the order in the whole sequence. */
  lemma {:induction false} OfOrder(scope: string, ts: seq<Turn>, i: nat, j: nat)
    requires i < j < |ts| && ts[i].context.scope == ts[j].context.scope == scope && Ascending(Of(scope, ts))
    ensures ts[i].sequence < ts[j].sequence
  {
    var rest, last := ts[..|ts| - 1], ts[|ts| - 1];
    assert ts == rest + [last];
    OfSnoc(scope, rest, last);
    var all, fewer := Of(scope, ts), Of(scope, rest);
    assert forall k | 0 <= k < |fewer| :: all[k] == fewer[k];
    assert Ascending(fewer);
    if j < |ts| - 1 {
      OfOrder(scope, rest, i, j);
    } else {
      OfMembers(scope, rest, ts[i]);
      var k :| 0 <= k < |fewer| && fewer[k] == ts[i];
      assert all[k] == ts[i] && all[|fewer|] == ts[j];
    }
  }
}
