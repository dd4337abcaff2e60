/** What an accepted operation and a compaction mean for the records, field by field
    (src/api.c:240-396, src/store.c:266-366, src/store_compact.c:9-12). */
module Effects {
  import opened Outcomes
  import opened EventFrame
  import opened Records
  import Text

  /** Records and projects other than these are as before. */
  ghost predicate Only(s: Store, t: Store, ids: set<string>) {
    && t.projects == s.projects && t.recs.Keys == s.recs.Keys
    && forall id | id in s.recs && id !in ids :: t.recs[id] == s.recs[id]
  }

  /** The text is replaced; its evidence starts anew, the sources are gone, all else stays. */
  ghost predicate Updated(a: Record, b: Record, at: int, content: string, declared: bool) {
    && b.content == content && b.updatedAt == at && b.sourceRefs == []
    && b.evidence.kind == (if declared then Declared else Inferred)
    && b.evidence.confidenceKind == Heuristic && b.evidence.confidence == (if declared then 1.0 else 0.5)
    && b.evidence.observedAt == at && b.evidence.workspace == "" && b.evidence.commit == ""
    && b.evidence.provenance == (if declared then "user:manual-update" else "curator:unverified-update")
    && (declared ==> b.evidence.expiresAt == 0)
    && (!declared && a.evidence.expiresAt != 0 ==> b.evidence.expiresAt == a.evidence.expiresAt)
    && (!declared && a.evidence.expiresAt == 0 ==> b.evidence.expiresAt == at + 2592000)
    && b.id == a.id && b.section == a.section && b.project == a.project && b.source == a.source
    && b.createdAt == a.createdAt && b.lastAccess == a.lastAccess && b.accessCount == a.accessCount
    && b.relevance == a.relevance && b.locked == a.locked && b.tags == a.tags
    && b.deprecated == a.deprecated && b.deprecatedAt == a.deprecatedAt
  }

  /** Same claim: nothing but use, lock and retirement may differ. */
  ghost predicate SameClaim(a: Record, b: Record) {
    && b.id == a.id && b.section == a.section && b.project == a.project && b.source == a.source
    && b.content == a.content && b.evidence == a.evidence && b.tags == a.tags && b.sourceRefs == a.sourceRefs
    && b.createdAt == a.createdAt && b.updatedAt == a.updatedAt
  }

  ghost predicate SameUse(a: Record, b: Record) {
    b.lastAccess == a.lastAccess && b.accessCount == a.accessCount && b.relevance == a.relevance
  }

  ghost predicate SameLife(a: Record, b: Record) {
    b.locked == a.locked && b.deprecated == a.deprecated && b.deprecatedAt == a.deprecatedAt
  }

  function Times(ids: seq<string>, id: string): nat { multiset(ids)[id] }

  /** Raised by a twentieth for each of n uses, up to one. */
  ghost predicate Raised(a: real, b: real, n: nat) {
    b == if n == 0 then a else if a + 0.05 * n as real > 1.0 then 1.0 else a + 0.05 * n as real
  }

  ghost predicate Used(a: Record, b: Record, at: int, n: nat) {
    && SameClaim(a, b) && SameLife(a, b) && Raised(a.relevance, b.relevance, n)
    && (n == 0 ==> b.accessCount == a.accessCount && b.lastAccess == a.lastAccess)
    && (n > 0 ==> b.accessCount == (a.accessCount + n) % 4294967296 && b.lastAccess == at)
  }

  /** The store after an operation that was applied. */
  ghost predicate Effect(s: Store, op: Op, t: Store) {
    match op
    case Insert(_, r) =>
      && r.id != "" && r.id !in s.recs && t.projects == s.projects && t.recs.Keys == s.recs.Keys + {r.id}
      && t.recs[r.id] == r && forall id | id in s.recs :: t.recs[id] == s.recs[id]
    case Update(at, id, content, declared) =>
      Only(s, t, {id}) && id in s.recs && Updated(s.recs[id], t.recs[id], at, content, declared)
    case Deprecate(at, id, _) =>
      && Only(s, t, {id}) && id in s.recs && SameClaim(s.recs[id], t.recs[id]) && SameUse(s.recs[id], t.recs[id])
      && t.recs[id].deprecated && t.recs[id].locked == s.recs[id].locked
      && t.recs[id].deprecatedAt == if s.recs[id].deprecated then s.recs[id].deprecatedAt else at
    case Keep(at, id) =>
      && Only(s, t, {id}) && id in s.recs && SameClaim(s.recs[id], t.recs[id])
      && !t.recs[id].deprecated && t.recs[id].locked == s.recs[id].locked
      && t.recs[id].deprecatedAt == (if s.recs[id].deprecated then 0 else s.recs[id].deprecatedAt)
      && t.recs[id].lastAccess == at && t.recs[id].accessCount == s.recs[id].accessCount
      && Raised(s.recs[id].relevance, t.recs[id].relevance, 1)
    case SetLocked(_, id, value) =>
      && Only(s, t, {id}) && id in s.recs && SameClaim(s.recs[id], t.recs[id]) && SameUse(s.recs[id], t.recs[id])
      && t.recs[id].locked == value
      && t.recs[id].deprecated == s.recs[id].deprecated && t.recs[id].deprecatedAt == s.recs[id].deprecatedAt
    case Access(at, ids) =>
      && t.projects == s.projects && t.recs.Keys == s.recs.Keys
      && forall id | id in s.recs :: Used(s.recs[id], t.recs[id], at, Times(ids, id))
    case ProjectCreate(_, slug) => t.recs == s.recs && t.projects == s.projects + {slug}
  }

  lemma TimesSnoc(ids: seq<string>, x: string, id: string)
    ensures Times(ids + [x], id) == Times(ids, id) + (if x == id then 1 else 0)
  {}

  lemma RaisedOnce(a: real, b: Fraction, n: nat)
    requires Raised(a, b, n)
    ensures Raised(a, Boosted(b), n + 1)
  {
    assert 0.05 * (n + 1) as real == 0.05 * n as real + 0.05;
  }

  lemma UsedOnce(a: Record, b: Record, at: int, n: nat)
    requires Used(a, b, at, n)
    ensures Used(a, Accessed(b, at), at, n + 1)
  {
    RaisedOnce(a.relevance, b.relevance, n);
    hide Raised;
    Wraps(a.accessCount + n);
  }

  lemma Wraps(n: nat)
    ensures (n % 4294967296 + 1) % 4294967296 == (n + 1) % 4294967296
  {}

  lemma {:induction false} AccessUses(recs: map<string, Record>, ids: seq<string>, at: int, id: string)
    requires id in recs
    ensures id in AccessAll(recs, ids, at) && Used(recs[id], AccessAll(recs, ids, at)[id], at, Times(ids, id))
  {
    if ids != [] {
      hide Used, Accessed;
      var n := |ids| - 1;
      AccessUses(recs, ids[..n], at, id);
      assert ids == ids[..n] + [ids[n]];
      TimesSnoc(ids[..n], ids[n], id);
      UsedOnce(recs[id], AccessAll(recs, ids[..n], at)[id], at, Times(ids[..n], id));
    }
  }

  lemma AccessEffect(s: Store, op: Op)
    requires op.Access?
    ensures Effect(s, op, s.(recs := AccessAll(s.recs, op.ids, op.at)))
  {
    hide Used, AccessAll;
    forall id | id in s.recs
      ensures Used(s.recs[id], AccessAll(s.recs, op.ids, op.at)[id], op.at, Times(op.ids, id))
    {
      AccessUses(s.recs, op.ids, op.at, id);
    }
  }

  lemma Rewrites(r: Record, at: int, content: string, declared: bool)
    ensures Updated(r, Rewritten(r, at, content, declared), at, content, declared)
  {}

  lemma KeepRaises(relevance: Fraction)
    ensures Raised(relevance, Boosted(relevance), 1)
  {}

  /** The projection of an operation has exactly these effects. */
  lemma ApplyEffect(s: Store, op: Op)
    requires Apply(s, op).0 == Ok
    ensures Effect(s, op, Apply(s, op).1)
  {
    hide Used, AccessAll, SlugValid, Raised, Boosted, Times, Rewritten, Updated;
    match op
    case Update(at, id, content, declared) => Rewrites(s.recs[id], at, content, declared);
    case Access(_, _) => AccessEffect(s, op);
    case Keep(_, id) => KeepRaises(s.recs[id].relevance);
    case _ =>
  }

  /** A replayed run is a run of effects, operation by operation. */
  lemma ReplayEffects(s: Store, ops: seq<Op>, k: nat)
    requires Replay(s, ops).Some? && k < |ops|
    ensures Replay(s, ops[..k]).Some? && Replay(s, ops[..k + 1]).Some?
    ensures Effect(Replay(s, ops[..k]).value, ops[k], Replay(s, ops[..k + 1]).value)
  {
    hide Apply, Effect, Replay;
    ReplayPrefix(s, ops, k);
    ReplayPrefix(s, ops, k + 1);
    assert ops[..k + 1] == ops[..k] + [ops[k]];
    ReplaySnoc(s, ops[..k], ops[k]);
    ApplyEffect(Replay(s, ops[..k]).value, ops[k]);
  }

  // ----- which records a compaction leaves -----

  /** The entries at the given places: the records never retired, and those retired for less than
      the purge age. */
  ghost predicate SiftedAt(table: seq<Record>, left: seq<Record>, at: seq<int>, now: int, purgeAfter: int) {
    && |at| == |left| && (forall i, j | 0 <= i < j < |at| :: at[i] < at[j])
    && (forall i | 0 <= i < |at| :: 0 <= at[i] < |table| && left[i] == table[at[i]])
    && (forall i | 0 <= i < |left| :: !left[i].deprecated || now - left[i].deprecatedAt < purgeAfter)
    && (forall j | 0 <= j < |table| && (!table[j].deprecated || now - table[j].deprecatedAt < purgeAfter) :: j in at)
  }

  /** An order-keeping part of the table, of exactly those records. */
  ghost predicate Sifted(table: seq<Record>, left: seq<Record>, now: int, purgeAfter: int) {
    exists at :: SiftedAt(table, left, at, now, purgeAfter)
  }

  /** The store of exactly those records and the given projects. */
  ghost predicate Survivors(table: seq<Record>, projects: seq<string>, s: Store, now: int, purgeAfter: int) {
    && (forall r | r in table && (!r.deprecated || now - r.deprecatedAt < purgeAfter) ::
        r.id in s.recs && s.recs[r.id] == r)
    && (forall id | id in s.recs :: s.recs[id] in table && s.recs[id].id == id)
    && (forall id | id in s.recs :: !s.recs[id].deprecated || now - s.recs[id].deprecatedAt < purgeAfter)
    && forall p :: p in s.projects <==> p in projects
  }

  /** The records of a store retired for the purge age or longer are gone, all others are as before. */
  ghost predicate Cleared(s: Store, t: Store, now: int, purgeAfter: int) {
    && t.projects == s.projects
    && (forall id | id in s.recs && (!s.recs[id].deprecated || now - s.recs[id].deprecatedAt < purgeAfter) ::
        id in t.recs && t.recs[id] == s.recs[id])
    && (forall id | id in t.recs ::
        id in s.recs && (!s.recs[id].deprecated || now - s.recs[id].deprecatedAt < purgeAfter))
  }

  // ----- which operations are accepted -----

  ghost predicate Readable(l: Limits, content: string) {
    && (exists i :: 0 <= i < |content| && content[i] !in " \t\n\r" && content[i] as int !in {11, 12})
    && l.chars(content).Some? && l.chars(content).value <= l.contentMaxChars
  }

  /** Every condition an operation has to meet, in terms of the records it meets. */
  ghost predicate Permitted(l: Limits, s: Store, op: Op, fromCurator: bool) {
    match op
    case Insert(_, r) =>
      && UuidValid(r.id) && r.id !in s.recs && |s.recs| < 65536 && Readable(l, r.content)
      && (r.section == Project <==> r.project.Some?)
      && (r.section == Project ==> r.project.value in s.projects && SlugValid(r.project.value))
      && (r.section == Identity ==>
           |set id | id in s.recs && s.recs[id].section == Identity && !s.recs[id].deprecated| < l.identityMaxRecords)
    case Update(_, id, content, declared) =>
      && id in s.recs && Readable(l, content) && !s.recs[id].locked && !s.recs[id].deprecated
      && (fromCurator ==> s.recs[id].evidence.kind == Inferred && !declared)
    case Deprecate(_, id, _) => id in s.recs && !s.recs[id].locked
    case Keep(_, id) => id in s.recs && !(fromCurator && s.recs[id].locked)
    case SetLocked(_, id, _) => id in s.recs
    case Access(_, _) => true
    case ProjectCreate(_, slug) => SlugValid(slug) && (slug in s.projects || |s.projects| < 4093)
  }

  /** Why one was refused. */
  ghost predicate Refused(s: Store, op: Op, fromCurator: bool, err: Err) {
    match err
    case NotFound =>
      || ((op.Update? || op.Deprecate? || op.Keep? || op.SetLocked?) && op.id !in s.recs)
      || (op.Insert? && op.record.project.Some? && op.record.project.value !in s.projects)
    case Locked =>
      && (op.Update? || op.Deprecate? || op.Keep?) && op.id in s.recs
      && (s.recs[op.id].locked ||
          (op.Update? && fromCurator && (s.recs[op.id].evidence.kind != Inferred || op.declared)))
    case Limit => (op.Insert? && |s.recs| >= 65536) || (op.ProjectCreate? && |s.projects| >= 4093)
    case Invalid => op.Insert? || op.Update? || op.ProjectCreate?
    case _ => false
  }

  lemma NotBlank(content: string)
    ensures !Text.Blank(content) <==>
      exists i :: 0 <= i < |content| && content[i] !in " \t\n\r" && content[i] as int !in {11, 12}
  {}

  /** Validation accepts exactly the permitted operations, and says why it refuses one. */
  lemma ValidatesExactly(l: Limits, s: Store, op: Op, fromCurator: bool)
    ensures Validate(l, s, op, fromCurator) == Ok <==> Permitted(l, s, op, fromCurator)
    ensures Validate(l, s, op, fromCurator) != Ok ==> Refused(s, op, fromCurator, Validate(l, s, op, fromCurator))
  {
    hide SlugValid, UuidValid;
    if op.Insert? { NotBlank(op.record.content); }
    if op.Update? { NotBlank(op.content); }
  }
}
