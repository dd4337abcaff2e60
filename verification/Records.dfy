/** Records, operations and their projection (src/store.c, `asper_store_apply`), with the
    validation that precedes them (src/api.c, `apply_validate`).

    Only persisted fields are kept; pointers are never null. A stored number is a double,
    so it is a fraction; rounding is not modelled. */
module Records {
  import opened Outcomes
  import opened EventFrame
  import opened Text

  const RECORD_LIMIT: nat := 65536
  const PROJECT_LIMIT: nat := 4093

  predicate Quotient(x: real, n: int, d: int) { d > 0 && x * d as real == n as real }

  ghost predicate Rational(x: real) { exists n, d :: Quotient(x, n, d) }

  type Fraction = x: real | Rational(x) witness (assert Quotient(0.0, 0, 1); 0.0)

  const ONE: Fraction := assert Quotient(1.0, 1, 1); 1.0
  const HALF: Fraction := assert Quotient(0.5, 1, 2); 0.5

  datatype Section = Identity | Context | Project
  datatype EvidenceKind = Declared | Observed | Inferred
  datatype ConfidenceKind = Unknown | Heuristic | Measured

  datatype Evidence = Evidence(kind: EvidenceKind, confidenceKind: ConfidenceKind, confidence: Fraction,
                               observedAt: int, expiresAt: int, provenance: string,
                               workspace: string, commit: string)

  datatype Record = Record(id: string, section: Section, project: Option<string>, content: string,
                           source: nat, evidence: Evidence, createdAt: int, updatedAt: int,
                           lastAccess: int, accessCount: nat, relevance: Fraction, locked: bool,
                           deprecated: bool, deprecatedAt: int, tags: seq<string>, sourceRefs: seq<string>)

  datatype Op =
    | Insert(at: int, record: Record)
    | Update(at: int, id: string, content: string, declared: bool)
    | Deprecate(at: int, id: string, reason: string)
    | Keep(at: int, id: string)
    | SetLocked(at: int, id: string, value: bool)
    | Access(at: int, ids: seq<string>)
    | ProjectCreate(at: int, project: string)

  /** The live table by id, and the registered project slugs. */
  datatype Store = Store(recs: map<string, Record>, projects: set<string>)

  predicate SlugChar(c: char) { 'a' <= c <= 'z' || '0' <= c <= '9' }

  predicate SlugValid(s: string) {
    && 1 <= |s| <= 64 && SlugChar(s[0])
    && forall i | 1 <= i < |s| :: SlugChar(s[i]) || s[i] == '-'
  }

  lemma Raised(x: Fraction)
    ensures Rational(x + 0.05)
  {
    assert Rational(x);
    var n, d :| Quotient(x, n, d);
    var q := d as real;
    assert (20 * d) as real == 20.0 * q && (x + 0.05) * (20.0 * q) == 20.0 * (x * q) + q;
    assert Quotient(x + 0.05, 20 * n + d, 20 * d);
  }

  function Boosted(relevance: Fraction): Fraction {
    Raised(relevance);
    if relevance + 0.05 > ONE then ONE else relevance + 0.05
  }

  /** A rewritten record: new text, fresh evidence of its author, no sources, but the old expiry when
      the curator wrote it. */
  function Rewritten(r: Record, at: int, content: string, declared: bool): Record {
    r.(content := content, updatedAt := at, sourceRefs := [],
       evidence := Evidence(
         if declared then Declared else Inferred, Heuristic, if declared then ONE else HALF, at,
         if declared then 0 else if r.evidence.expiresAt != 0 then r.evidence.expiresAt else at + 30 * 86400,
         if declared then "user:manual-update" else "curator:unverified-update", "", ""))
  }

  function Accessed(r: Record, at: int): Record {
    r.(accessCount := (r.accessCount + 1) % 0x1_0000_0000, lastAccess := at, relevance := Boosted(r.relevance))
  }

  function AccessAll(recs: map<string, Record>, ids: seq<string>, at: int): (r: map<string, Record>)
    ensures r.Keys == recs.Keys
  {
    if ids == [] then recs
    else
      var before := AccessAll(recs, ids[..|ids| - 1], at);
      var id := ids[|ids| - 1];
      if id in before then before[id := Accessed(before[id], at)] else before
  }

  /** One operation against the table: the error code and the resulting store. */
  function Apply(s: Store, op: Op): (Err, Store) {
    match op
    case Insert(_, r) =>
      if r.id == "" || r.id in s.recs || |s.recs| >= RECORD_LIMIT then (Invalid, s)
      else (Ok, s.(recs := s.recs[r.id := r]))
    case Update(at, id, content, declared) =>
      if id !in s.recs then (NotFound, s)
      else if s.recs[id].deprecated then (Invalid, s)
      else (Ok, s.(recs := s.recs[id := Rewritten(s.recs[id], at, content, declared)]))
    case Deprecate(at, id, _) =>
      if id !in s.recs then (NotFound, s)
      else if s.recs[id].deprecated then (Ok, s)
      else (Ok, s.(recs := s.recs[id := s.recs[id].(deprecated := true, deprecatedAt := at)]))
    case Keep(at, id) =>
      if id !in s.recs then (NotFound, s)
      else (Ok, s.(recs := s.recs[id := s.recs[id].(deprecated := false,
               deprecatedAt := if s.recs[id].deprecated then 0 else s.recs[id].deprecatedAt,
               lastAccess := at, relevance := Boosted(s.recs[id].relevance))]))
    case SetLocked(_, id, value) =>
      if id !in s.recs then (NotFound, s)
      else (Ok, s.(recs := s.recs[id := s.recs[id].(locked := value)]))
    case Access(at, ids) => (Ok, s.(recs := AccessAll(s.recs, ids, at)))
    case ProjectCreate(_, slug) =>
      if !SlugValid(slug) then (Invalid, s)
      else if slug in s.projects then (Ok, s)
      else if |s.projects| >= PROJECT_LIMIT then (Limit, s)
      else (Ok, s.(projects := s.projects + {slug}))
  }

  /** The fold of Apply; None as soon as one operation fails. */
  function Replay(s: Store, ops: seq<Op>): Option<Store> {
    if ops == [] then Some(s)
    else match Replay(s, ops[..|ops| - 1])
      case None => None
      case Some(t) => var (e, u) := Apply(t, ops[|ops| - 1]); if e == Ok then Some(u) else None
  }

  lemma ReplaySnoc(s: Store, ops: seq<Op>, op: Op)
    ensures Replay(s, ops + [op]) == match Replay(s, ops)
              case None => None
              case Some(t) => if Apply(t, op).0 == Ok then Some(Apply(t, op).1) else None
  {
    assert (ops + [op])[..|ops|] == ops;
  }

  /** If all of them replay, so does every prefix. */
  lemma {:induction false} ReplayPrefix(s: Store, ops: seq<Op>, k: nat)
    requires Replay(s, ops).Some? && k <= |ops|
    ensures Replay(s, ops[..k]).Some?
    decreases |ops|
  {
    if k < |ops| {
      ReplayPrefix(s, ops[..|ops| - 1], k);
      assert ops[..|ops| - 1][..k] == ops[..k];
    } else {
      assert ops[..k] == ops;
    }
  }

  // ---- validation ------------------------------------------------------------

  /** Configured limits and the UTF-8 scalar count of the host (None when invalid). */
  datatype Limits = Limits(contentMaxChars: nat, identityMaxRecords: nat,
                           chars: string -> Option<nat>)

  predicate ContentOk(l: Limits, content: string) {
    !Blank(content) && l.chars(content).Some? && l.chars(content).value <= l.contentMaxChars
  }

  function ActiveIdentity(s: Store): nat {
    |set id | id in s.recs && s.recs[id].section == Identity && !s.recs[id].deprecated|
  }

  function Validate(l: Limits, s: Store, op: Op, fromCurator: bool): Err {
    match op
    case Insert(_, r) =>
      if !UuidValid(r.id) || !ContentOk(l, r.content) then Invalid
      else if r.section == Project && (r.project.None? || !SlugValid(r.project.value)) then Invalid
      else if r.section == Project && r.project.value !in s.projects then NotFound
      else if r.section != Project && r.project.Some? then Invalid
      else if r.section == Identity && ActiveIdentity(s) >= l.identityMaxRecords then Invalid
      else if |s.recs| >= RECORD_LIMIT then Limit
      else if r.id in s.recs then Invalid
      else Ok
    case Update(_, id, content, declared) =>
      if !ContentOk(l, content) then Invalid
      else if id !in s.recs then NotFound
      else if fromCurator && (s.recs[id].evidence.kind != Inferred || declared) then Locked
      else if s.recs[id].locked then Locked
      else if s.recs[id].deprecated then Invalid
      else Ok
    case Deprecate(_, id, _) =>
      if id !in s.recs then NotFound else if s.recs[id].locked then Locked else Ok
    case Keep(_, id) =>
      if id !in s.recs then NotFound else if fromCurator && s.recs[id].locked then Locked else Ok
    case SetLocked(_, id, _) =>
      if id !in s.recs then NotFound else Ok
    case Access(_, _) => Ok
    case ProjectCreate(_, slug) =>
      if slug !in s.projects && |s.projects| >= PROJECT_LIMIT then Limit
      else if !SlugValid(slug) then Invalid
      else Ok
  }

  /** What validation accepts, the projection can apply: the journal never holds an
      accepted operation that replay would refuse. */
  lemma ValidatedApplies(l: Limits, s: Store, op: Op, fromCurator: bool)
    requires Validate(l, s, op, fromCurator) == Ok
    ensures Apply(s, op).0 == Ok
  {}

  lemma {:induction false} AccessKeepsClaim(recs: map<string, Record>, ids: seq<string>, at: int, id: string)
    requires id in recs
    ensures AccessAll(recs, ids, at)[id] == recs[id].(accessCount := AccessAll(recs, ids, at)[id].accessCount,
              lastAccess := AccessAll(recs, ids, at)[id].lastAccess, relevance := AccessAll(recs, ids, at)[id].relevance)
  {
    if ids != [] { AccessKeepsClaim(recs, ids[..|ids| - 1], at, id); }
  }

  /** No accepted curator operation changes the claim, evidence or sources of a record
      that is locked or carries host evidence, nor retires or rescues a locked one. */
  lemma CuratorGuardrail(l: Limits, s: Store, op: Op, id: string)
    requires Validate(l, s, op, true) == Ok && StoreOk(s) && id in s.recs
    ensures id in Apply(s, op).1.recs
    ensures s.recs[id].locked || s.recs[id].evidence.kind != Inferred ==>
      var r := Apply(s, op).1.recs[id];
      r.content == s.recs[id].content && r.evidence == s.recs[id].evidence && r.sourceRefs == s.recs[id].sourceRefs
    ensures s.recs[id].locked ==> Apply(s, op).1.recs[id].deprecated == s.recs[id].deprecated
  {
    if op.Access? { AccessKeepsClaim(s.recs, op.ids, op.at, id); }
  }

  /** What every reachable store satisfies. */
  ghost predicate StoreOk(s: Store) {
    && (forall id | id in s.recs :: s.recs[id].id == id && id != "")
    && |s.recs| <= RECORD_LIMIT && |s.projects| <= PROJECT_LIMIT
    && (forall slug | slug in s.projects :: SlugValid(slug))
  }

  lemma {:induction false} AccessKeepsIds(recs: map<string, Record>, ids: seq<string>, at: int)
    requires forall id | id in recs :: recs[id].id == id && id != ""
    ensures forall id | id in AccessAll(recs, ids, at) :: AccessAll(recs, ids, at)[id].id == id && id != ""
  {
    if ids != [] { AccessKeepsIds(recs, ids[..|ids| - 1], at); }
  }

  lemma ApplyKeepsStoreOk(s: Store, op: Op)
    requires StoreOk(s)
    ensures StoreOk(Apply(s, op).1)
  {
    hide Rewritten, AccessAll, Boosted, SlugValid, StoreOk;
    match op
    case Insert(_, r) => if Apply(s, op).0 == Ok { Inserted(s, r); }
    case Update(at, id, content, declared) =>
      if id in s.recs {
        RewrittenKeepsId(s.recs, at, id, content, declared);
        Replaced(s, id, Rewritten(s.recs[id], at, content, declared));
      }
    case Deprecate(at, id, _) =>
      if id in s.recs { Replaced(s, id, s.recs[id].(deprecated := true, deprecatedAt := at)); }
    case Keep(at, id) => if id in s.recs { Replaced(s, id, Apply(s, op).1.recs[id]); }
    case SetLocked(_, id, value) => if id in s.recs { Replaced(s, id, s.recs[id].(locked := value)); }
    case Access(at, ids) => AllAccessed(s, ids, at);
    case ProjectCreate(_, slug) => if Apply(s, op).0 == Ok && slug !in s.projects { Created(s, slug); }
  }

  lemma Inserted(s: Store, r: Record)
    requires StoreOk(s) && r.id != "" && r.id !in s.recs && |s.recs| < RECORD_LIMIT
    ensures StoreOk(s.(recs := s.recs[r.id := r]))
  {
    hide SlugValid;
  }

  lemma Replaced(s: Store, id: string, r: Record)
    requires StoreOk(s) && id in s.recs && r.id == s.recs[id].id
    ensures StoreOk(s.(recs := s.recs[id := r]))
  {
    hide SlugValid;
    assert s.recs[id := r].Keys == s.recs.Keys && |s.recs.Keys| == |s.recs|;
    assert |s.recs[id := r].Keys| == |s.recs[id := r]|;
  }

  lemma AllAccessed(s: Store, ids: seq<string>, at: int)
    requires StoreOk(s)
    ensures StoreOk(s.(recs := AccessAll(s.recs, ids, at)))
  {
    hide SlugValid, AccessAll;
    AccessKeepsIds(s.recs, ids, at);
    assert |s.recs.Keys| == |s.recs| && |AccessAll(s.recs, ids, at).Keys| == |AccessAll(s.recs, ids, at)|;
  }

  lemma Created(s: Store, slug: string)
    requires StoreOk(s) && SlugValid(slug) && slug !in s.projects && |s.projects| < PROJECT_LIMIT
    ensures StoreOk(s.(projects := s.projects + {slug}))
  {
    hide SlugValid;
  }

  lemma RewrittenKeepsId(recs: map<string, Record>, at: int, id: string, content: string, declared: bool)
    ensures id in recs ==> Rewritten(recs[id], at, content, declared).id == recs[id].id
  {}

  lemma {:induction false} ReplayKeepsStoreOk(s: Store, ops: seq<Op>)
    requires StoreOk(s) && Replay(s, ops).Some?
    ensures StoreOk(Replay(s, ops).value)
  {
    if ops != [] {
      ReplayKeepsStoreOk(s, ops[..|ops| - 1]);
      ApplyKeepsStoreOk(Replay(s, ops[..|ops| - 1]).value, ops[|ops| - 1]);
    }
  }
}
