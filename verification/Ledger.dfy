/** The account that admission keeps: for every scope, the turns ever admitted are the turns its
    log owes up to the cursor (src/source_pending.c:18-43, 93-135). */
module Ledger {
  import opened Text
  import opened Turns

  datatype Scope = Scope(name: string, cursor: nat, end: nat, refresh: bool)

  function LogOf(logs: map<string, Log>, name: string): Log { if name in logs then logs[name] else [] }

  /** `asper_enqueue_turn` would refuse the text, or the operator's deferral no longer matches
      the event. */
  predicate Bad(st: Settled, digest: Source -> string, scope: string, e: Source, sequence: nat) {
    e.kind != Other && e.id !in st.acked &&
    if (scope, e.id) in st.deferrals then st.deferrals[(scope, e.id)] != Deferral(sequence, digest(e))
    else Blank(e.text) || !e.utf8 || !e.uuid || |e.text| + 1 > QUEUE_BYTES || !e.metadataOk
  }

  ghost predicate Tracked(st: Settled, digest: Source -> string, log: Log, all: seq<Turn>, s: Scope) {
    && s.cursor <= s.end <= |log| && Of(s.name, all) == Owed(st, s.name, log, s.cursor)
    && forall k | 0 <= k < s.cursor :: !Bad(st, digest, s.name, log[k], k + 1)
  }

  ghost predicate Named(scopes: seq<Scope>, name: string) { exists i :: 0 <= i < |scopes| && scopes[i].name == name }

  ghost predicate Balanced(st: Settled, digest: Source -> string, logs: map<string, Log>,
      all: seq<Turn>, scopes: seq<Scope>) {
    && (forall i, j | 0 <= i < j < |scopes| :: scopes[i].name != scopes[j].name)
    && (forall i | 0 <= i < |scopes| :: Tracked(st, digest, LogOf(logs, scopes[i].name), all, scopes[i]))
    && (forall t | t in all :: Named(scopes, t.context.scope))
  }

  function Gap(s: Scope): nat { if s.cursor < s.end then s.end - s.cursor else 0 }

  /** Work a full flush may still have to admit. */
  function Left(scopes: seq<Scope>): nat {
    if scopes == [] then 0 else Left(scopes[..|scopes| - 1]) + Gap(scopes[|scopes| - 1])
  }

  lemma {:induction false} LeftUpdate(scopes: seq<Scope>, i: nat, s: Scope)
    requires i < |scopes|
    ensures Left(scopes[i := s]) + Gap(scopes[i]) == Left(scopes) + Gap(s)
  {
    var rest := scopes[..|scopes| - 1];
    if i == |scopes| - 1 {
      assert scopes[i := s][..i] == rest;
    } else {
      LeftUpdate(rest, i, s);
      assert scopes[i := s][..|scopes| - 1] == rest[i := s];
    }
  }

  lemma LeftSnoc(scopes: seq<Scope>, s: Scope)
    ensures Left(scopes + [s]) == Left(scopes) + Gap(s)
  {
    assert (scopes + [s])[..|scopes|] == scopes;
  }

  lemma LeftNext(scopes: seq<Scope>, i: nat)
    requires i < |scopes|
    ensures Left(scopes[..i + 1]) == Left(scopes[..i]) + Gap(scopes[i])
  {
    assert scopes[..i + 1][..i] == scopes[..i];
  }

  lemma {:induction false} LeftZero(scopes: seq<Scope>)
    ensures Left(scopes) == 0 <==> forall i | 0 <= i < |scopes| :: Gap(scopes[i]) == 0
  {
    if scopes != [] {
      LeftZero(scopes[..|scopes| - 1]);
    }
  }

  /** The next wanted event is only waiting for bytes of the queue to be released. */
  predicate Pressed(st: Settled, log: Log, free: int, s: Scope) {
    s.cursor < |log| && Wanted(st, s.name, log[s.cursor]) && free < |log[s.cursor].text| + 1 <= QUEUE_BYTES
  }

  /** Nothing more can be admitted from the scope at the moment. */
  predicate Rested(st: Settled, logs: map<string, Log>, free: int, s: Scope) {
    Gap(s) == 0 || Pressed(st, LogOf(logs, s.name), free, s)
  }

  lemma InOrder(st: Settled, digest: Source -> string, logs: map<string, Log>, all: seq<Turn>, scopes: seq<Scope>)
    requires Balanced(st, digest, logs, all, scopes)
    ensures forall s | s in scopes :: s.cursor <= s.end <= |LogOf(logs, s.name)|
  {}

  /** The cursor passes an event that owes nothing. */
  lemma Passed(st: Settled, digest: Source -> string, logs: map<string, Log>, all: seq<Turn>,
      scopes: seq<Scope>, i: nat)
    requires Balanced(st, digest, logs, all, scopes) && i < |scopes| && scopes[i].cursor < scopes[i].end
    requires var log := LogOf(logs, scopes[i].name);
             scopes[i].cursor < |log| && !Wanted(st, scopes[i].name, log[scopes[i].cursor])
             && !Bad(st, digest, scopes[i].name, log[scopes[i].cursor], scopes[i].cursor + 1)
    ensures Balanced(st, digest, logs, all, scopes[i := scopes[i].(cursor := scopes[i].cursor + 1)])
  {
    hide Bad, Wanted;
    var next := scopes[i := scopes[i].(cursor := scopes[i].cursor + 1)];
    forall k | 0 <= k < |next| ensures Tracked(st, digest, LogOf(logs, next[k].name), all, next[k]) {
      assert Tracked(st, digest, LogOf(logs, scopes[k].name), all, scopes[k]);
    }
    SameNames(scopes, next);
  }

  /** The cursor passes a wanted event whose turn joins the queue. */
  lemma Admitted(st: Settled, digest: Source -> string, logs: map<string, Log>, all: seq<Turn>,
      scopes: seq<Scope>, i: nat)
    requires Balanced(st, digest, logs, all, scopes) && i < |scopes| && scopes[i].cursor < scopes[i].end
    requires var log := LogOf(logs, scopes[i].name);
             scopes[i].cursor < |log| && Wanted(st, scopes[i].name, log[scopes[i].cursor])
             && !Bad(st, digest, scopes[i].name, log[scopes[i].cursor], scopes[i].cursor + 1)
    ensures var s := scopes[i];
            Balanced(st, digest, logs, all + [TurnOf(s.name, LogOf(logs, s.name)[s.cursor], s.cursor + 1)],
                     scopes[i := s.(cursor := s.cursor + 1)])
  {
    hide Bad, Wanted, Tracked;
    var s := scopes[i];
    var next := scopes[i := s.(cursor := s.cursor + 1)];
    var t := TurnOf(s.name, LogOf(logs, s.name)[s.cursor], s.cursor + 1);
    forall k | 0 <= k < |next| ensures Tracked(st, digest, LogOf(logs, next[k].name), all + [t], next[k]) {
      assert Tracked(st, digest, LogOf(logs, scopes[k].name), all, scopes[k]);
      if k == i {
        Fed(st, digest, LogOf(logs, s.name), all, s);
      } else {
        Bystander(st, digest, LogOf(logs, scopes[k].name), all, scopes[k], t);
      }
    }
    SameNames(scopes, next);
    forall x | x in all + [t] ensures Named(next, x.context.scope) { assert x !in all ==> next[i].name == x.context.scope; }
  }

  lemma Fed(st: Settled, digest: Source -> string, log: Log, all: seq<Turn>, s: Scope)
    requires Tracked(st, digest, log, all, s) && s.cursor < s.end && Wanted(st, s.name, log[s.cursor])
    requires !Bad(st, digest, s.name, log[s.cursor], s.cursor + 1)
    ensures Tracked(st, digest, log, all + [TurnOf(s.name, log[s.cursor], s.cursor + 1)], s.(cursor := s.cursor + 1))
  {
    OfSnoc(s.name, all, TurnOf(s.name, log[s.cursor], s.cursor + 1));
  }

  lemma Bystander(st: Settled, digest: Source -> string, log: Log, all: seq<Turn>, s: Scope, t: Turn)
    requires Tracked(st, digest, log, all, s) && t.context.scope != s.name
    ensures Tracked(st, digest, log, all + [t], s)
  {
    OfSnoc(s.name, all, t);
  }

  lemma SameNames(a: seq<Scope>, b: seq<Scope>)
    requires |a| == |b| && forall i | 0 <= i < |a| :: a[i].name == b[i].name
    ensures forall n :: Named(a, n) <==> Named(b, n)
  {}

  /** A new scope starts at its first event. */
  lemma Opened(st: Settled, digest: Source -> string, logs: map<string, Log>, all: seq<Turn>,
      scopes: seq<Scope>, s: Scope)
    requires Balanced(st, digest, logs, all, scopes) && !Named(scopes, s.name) && s.cursor == s.end == 0
    ensures Balanced(st, digest, logs, all, scopes + [s])
  {
    NoneOf(s.name, all) by { assert forall t | t in all :: Named(scopes, t.context.scope); }
    var next := scopes + [s];
    forall k | 0 <= k < |next| ensures Tracked(st, digest, LogOf(logs, next[k].name), all, next[k]) {
      if k < |scopes| { assert Tracked(st, digest, LogOf(logs, scopes[k].name), all, scopes[k]); }
    }
    forall n | Named(scopes, n) ensures Named(next, n) {
      var i :| 0 <= i < |scopes| && scopes[i].name == n;
      assert next[i].name == n;
    }
    assert forall i | 0 <= i < |scopes| :: Named(scopes, scopes[i].name);
  }

  lemma {:induction false} NoneOf(name: string, ts: seq<Turn>)
    requires forall t | t in ts :: t.context.scope != name
    ensures Of(name, ts) == []
  {
    if ts != [] { NoneOf(name, ts[..|ts| - 1]); }
  }

  /** The end of a scope may move within its log; the cursor stays. */
  lemma Captured(st: Settled, digest: Source -> string, logs: map<string, Log>, all: seq<Turn>,
      scopes: seq<Scope>, i: nat, s: Scope)
    requires Balanced(st, digest, logs, all, scopes) && i < |scopes|
    requires s.name == scopes[i].name && s.cursor == scopes[i].cursor <= s.end <= |LogOf(logs, s.name)|
    ensures Balanced(st, digest, logs, all, scopes[i := s])
  {
    hide Bad, Wanted;
    var next := scopes[i := s];
    forall k | 0 <= k < |next| ensures Tracked(st, digest, LogOf(logs, next[k].name), all, next[k]) {
      assert Tracked(st, digest, LogOf(logs, scopes[k].name), all, scopes[k]);
    }
    SameNames(scopes, next);
  }

  /** Appending to a log changes no account. */
  lemma Appended(st: Settled, digest: Source -> string, logs: map<string, Log>, all: seq<Turn>,
      scopes: seq<Scope>, name: string, e: Source)
    requires Balanced(st, digest, logs, all, scopes)
    ensures Balanced(st, digest, logs[name := LogOf(logs, name) + [e]], all, scopes)
  {
    hide Bad, Wanted;
    var more := logs[name := LogOf(logs, name) + [e]];
    forall k | 0 <= k < |scopes| ensures Tracked(st, digest, LogOf(more, scopes[k].name), all, scopes[k]) {
      var s := scopes[k];
      assert Tracked(st, digest, LogOf(logs, s.name), all, s);
      OwedGrows(st, s.name, LogOf(logs, s.name), [e], s.cursor);
    }
  }

  /** The turn at place a is that of event k, by the event's own fields, and no other turn is held
      for that event. */
  ghost predicate HeldAt(all: seq<Turn>, a: nat, scope: string, log: Log, k: nat)
    requires k < |log|
  {
    var e := log[k];
    && a < |all| && all[a].sequence == k + 1 && all[a].id == e.id && all[a].text == e.text
    && (all[a].user <==> e.kind == User) && all[a].context == Context(scope, e.project, e.workspace, e.commit)
    && forall b | 0 <= b < |all| && b != a :: !(all[b].context.scope == scope && all[b].sequence == k + 1)
  }

  /** What a balanced account means for one event below its cursor: if it is wanted, its turn
      is held exactly once, in the order of the log; otherwise it is not held at all. */
  lemma HeldExactlyOnce(st: Settled, digest: Source -> string, logs: map<string, Log>,
      all: seq<Turn>, scopes: seq<Scope>, i: nat, k: nat)
    requires Balanced(st, digest, logs, all, scopes) && i < |scopes| && k < scopes[i].cursor
    ensures var s, log := scopes[i], LogOf(logs, scopes[i].name);
      k < |log| && if log[k].kind == Other || log[k].id in st.acked || (s.name, log[k].id) in st.deferrals
        then forall b | 0 <= b < |all| :: !(all[b].context.scope == s.name && all[b].sequence == k + 1)
        else exists a :: HeldAt(all, a, s.name, log, k)
  {
    hide Bad, Wanted;
    var s, log := scopes[i], LogOf(logs, scopes[i].name);
    assert Tracked(st, digest, log, all, s);
    OwedAscending(st, s.name, log, s.cursor);
    OwedSound(st, s.name, log, s.cursor);
    var mine, owed := TurnOf(s.name, log[k], k + 1), Owed(st, s.name, log, s.cursor);
    OfMembers(s.name, all, mine);
    if b :| 0 <= b < |all| && all[b].context.scope == s.name && all[b].sequence == k + 1 {
      OfMembers(s.name, all, all[b]);
      assert Owes(st, s.name, log, s.cursor, all[b]);
    }
    if Wanted(st, s.name, log[k]) {
      OwedComplete(st, s.name, log, s.cursor, k);
      var a :| 0 <= a < |all| && all[a] == mine;
      forall b | 0 <= b < |all| && b != a && all[b].context.scope == s.name ensures all[b].sequence != k + 1 {
        if a < b { OfOrder(s.name, all, a, b); } else { OfOrder(s.name, all, b, a); }
      }
      assert HeldAt(all, a, s.name, log, k);
    }
    WantedMeans(st, s.name, log[k]);
  }

  lemma WantedMeans(st: Settled, scope: string, e: Source)
    ensures Wanted(st, scope, e) <==> !(e.kind == Other || e.id in st.acked || (scope, e.id) in st.deferrals)
  {}

  /** No cursor passes an event it could not account for: one to be curated was acceptable, one the
      operator deferred is still as it was when deferred. */
  lemma PassedSound(st: Settled, digest: Source -> string, logs: map<string, Log>,
      all: seq<Turn>, scopes: seq<Scope>, i: nat, k: nat)
    requires Balanced(st, digest, logs, all, scopes) && i < |scopes| && k < scopes[i].cursor
    ensures var s, log := scopes[i], LogOf(logs, scopes[i].name);
      k < |log| && (log[k].kind != Other && log[k].id !in st.acked ==>
        if (s.name, log[k].id) in st.deferrals
        then var d := st.deferrals[(s.name, log[k].id)]; d.sequence == k + 1 && d.digest == digest(log[k])
        else Acceptable(log[k]))
  {
    assert Tracked(st, digest, LogOf(logs, scopes[i].name), all, scopes[i]);
  }

  /** Text to speak of, valid, within the queue's bytes, and with readable metadata. */
  ghost predicate Acceptable(e: Source) {
    && (exists i :: 0 <= i < |e.text| && e.text[i] !in " \t\n\r" && e.text[i] as int !in {11, 12})
    && e.utf8 && e.uuid && |e.text| < 33554432 && e.metadataOk
  }

  /** Every held turn stands for an event of its scope's log that is to be curated: the one at its
      own position, with its id, words, speaker and context. */
  lemma HeldStands(st: Settled, digest: Source -> string, logs: map<string, Log>,
      all: seq<Turn>, scopes: seq<Scope>, t: Turn)
    requires Balanced(st, digest, logs, all, scopes) && t in all
    ensures var log := LogOf(logs, t.context.scope);
      1 <= t.sequence <= |log| && Stands(t, log[t.sequence - 1])
  {
    hide Bad, Stands, Owes, Owed, Of;
    var name := t.context.scope;
    var log := LogOf(logs, name);
    assert Named(scopes, name);
    var i :| 0 <= i < |scopes| && scopes[i].name == name;
    assert Tracked(st, digest, log, all, scopes[i]);
    OfMembers(name, all, t);
    OwedSound(st, name, log, scopes[i].cursor);
    OwedStands(st, name, log, scopes[i].cursor, t);
  }

  lemma OwedStands(st: Settled, scope: string, log: Log, n: nat, t: Turn)
    requires Owes(st, scope, log, n, t)
    ensures 1 <= t.sequence <= |log| && Stands(t, log[t.sequence - 1])
  {}

  ghost predicate Stands(t: Turn, e: Source) {
    && e.kind != Other && (t.user <==> e.kind == User) && t.id == e.id && t.text == e.text
    && t.context.project == e.project && t.context.workspace == e.workspace && t.context.commit == e.commit
  }

  /** And turns of one scope are held in the order of its log. */
  lemma HeldInOrder(st: Settled, digest: Source -> string, logs: map<string, Log>,
      all: seq<Turn>, scopes: seq<Scope>, a: nat, b: nat)
    requires Balanced(st, digest, logs, all, scopes) && a < b < |all| && all[a].context.scope == all[b].context.scope
    ensures all[a].sequence < all[b].sequence
  {
    hide Bad, Wanted;
    var name := all[a].context.scope;
    assert all[a] in all && Named(scopes, name);
    var i :| 0 <= i < |scopes| && scopes[i].name == name;
    assert Tracked(st, digest, LogOf(logs, name), all, scopes[i]);
    OwedAscending(st, name, LogOf(logs, name), scopes[i].cursor);
    OfOrder(name, all, a, b);
  }
}
