/** Grounding definitions and the sorted in-memory table of them (src/knowledge.h,
    src/knowledge_store.c:18-50). */
module Knowledge {
  import opened Outcomes
  import opened StrOrder

  const MAX_ITEMS: nat := 16
  const MAX_RECORDS: nat := 16384
  const MAX_CLAIM: nat := 65536

  datatype Kind = Supports | Contradicts | Supersedes
  /** `source` stands for the scope, event and byte range the span cites. */
  datatype Span = Span(source: string, claimBegin: nat, claimEnd: nat)
  datatype Dependency = Dependency(resource: string, version: string)
  datatype Link = Link(kind: Kind, id: string, hash: string)
  datatype Grounding = Grounding(spans: seq<Span>, dependencies: seq<Dependency>, links: seq<Link>, revoked: bool)
  /** What one frame of the knowledge log holds. */
  datatype Definition = Definition(id: string, hash: string, revision: nat, grounding: Grounding)
  datatype Entry = Entry(def: Definition, sourcesOk: bool)
  /** The part of a record the projection reads; `expires` is 0 when there is no expiry. */
  datatype Claim = Claim(content: string, deprecated: bool, expires: int)

  type Defs = map<string, Definition>

  function Ids(entries: seq<Entry>): (r: seq<string>)
    ensures |r| == |entries| && forall i | 0 <= i < |r| :: r[i] == entries[i].def.id
  {
    seq(|entries|, i requires 0 <= i < |entries| => entries[i].def.id)
  }

  /** The table holds exactly the definitions of a map, in ascending id order. */
  ghost predicate Holds(entries: seq<Entry>, defs: Defs) {
    && Sorted(Ids(entries))
    && (forall id | id in defs :: id in Ids(entries))
    && (forall i | 0 <= i < |entries| :: Holder(entries[i].def, defs))
  }

  ghost predicate Holder(d: Definition, defs: Defs) { d.id in defs && defs[d.id] == d }

  lemma HoldsAt(entries: seq<Entry>, defs: Defs, i: nat)
    requires Holds(entries, defs) && i < |entries|
    ensures entries[i].def.id in defs && defs[entries[i].def.id] == entries[i].def
  {
    assert Holder(entries[i].def, defs);
  }

  /** `knowledge_find`. */
  method Find(entries: seq<Entry>, id: string, ghost defs: Defs) returns (found: bool, pos: nat)
    requires Holds(entries, defs)
    ensures found <==> id in defs
    ensures found ==> pos < |entries| && entries[pos].def == defs[id] && entries[pos].def.id == id
    ensures !found ==> pos <= |entries| && (forall i | 0 <= i < pos :: Less(Ids(entries)[i], id))
                       && forall i | pos <= i < |entries| :: Less(id, Ids(entries)[i])
  {
    found, pos := LowerBound(Ids(entries), id);
    if found {
      HoldsAt(entries, defs, pos);
    } else if id in defs {
      assert false;
    } else {
      forall i | pos <= i < |entries| ensures Less(id, Ids(entries)[i]) { assert Ids(entries)[i] in Ids(entries); }
    }
  }

  /** `replace`: overwrite in place, or shift the tail and insert. */
  method Replace(entries: seq<Entry>, e: Entry, ghost defs: Defs) returns (out: seq<Entry>)
    requires Holds(entries, defs)
    ensures Holds(out, defs[e.def.id := e.def])
    ensures |out| == |entries| + (if e.def.id in defs then 0 else 1)
    ensures e in out && forall x | x in out :: x == e || x in entries
  {
    hide Holds, Sorted;
    var found, pos := Find(entries, e.def.id, defs);
    if found {
      out := entries[pos := e];
      Overwritten(entries, e, defs, pos);
    } else {
      out := entries[..pos] + [e] + entries[pos..];
      Inserted(entries, e, defs, pos);
    }
  }

  lemma Overwritten(entries: seq<Entry>, e: Entry, defs: Defs, pos: nat)
    requires Holds(entries, defs) && pos < |entries| && entries[pos].def.id == e.def.id && e.def.id in defs
    ensures Holds(entries[pos := e], defs[e.def.id := e.def]) && e in entries[pos := e]
  {
    var out := entries[pos := e];
    assert out[pos] == e;
    assert Ids(out) == Ids(entries);
    SortedDistinct(Ids(entries));
    forall i | 0 <= i < |out| ensures Holder(out[i].def, defs[e.def.id := e.def]) {
      if i != pos {
        assert Ids(entries)[i] != Ids(entries)[pos];
        HoldsAt(entries, defs, i);
      }
    }
  }

  lemma Inserted(entries: seq<Entry>, e: Entry, defs: Defs, pos: nat)
    requires Holds(entries, defs) && pos <= |entries| && e.def.id !in defs
    requires forall i | 0 <= i < pos :: Less(Ids(entries)[i], e.def.id)
    requires forall i | pos <= i < |entries| :: Less(e.def.id, Ids(entries)[i])
    ensures Holds(entries[..pos] + [e] + entries[pos..], defs[e.def.id := e.def])
    ensures e in entries[..pos] + [e] + entries[pos..]
  {
    hide Sorted, Less;
    var out := entries[..pos] + [e] + entries[pos..];
    InsertSorted(Ids(entries), e.def.id, pos);
    assert Ids(out) == Ids(entries)[..pos] + [e.def.id] + Ids(entries)[pos..];
    assert out[pos] == e && Ids(out)[pos] == e.def.id;
    forall i | 0 <= i < |out| ensures Holder(out[i].def, defs[e.def.id := e.def]) {
      if i != pos { HoldsAt(entries, defs, if i < pos then i else i - 1); }
    }
    forall id | id in defs ensures id in Ids(out) {
      var i :| 0 <= i < |entries| && Ids(entries)[i] == id;
      assert Ids(out)[if i < pos then i else i + 1] == id;
    }
  }

  /** Reading the log from the start: each id's revisions count up from 1. */
  function Replay(file: seq<Definition>): Option<Defs> {
    if file == [] then Some(map[])
    else
      match Replay(file[..|file| - 1])
      case None => None
      case Some(defs) =>
        var d := file[|file| - 1];
        if d.revision == NextRevision(defs, d.id) then Some(defs[d.id := d]) else None
  }

  function NextRevision(defs: Defs, id: string): nat {
    if id in defs then defs[id].revision + 1 else 1
  }

  lemma ReplaySnoc(file: seq<Definition>, d: Definition, defs: Defs)
    requires Replay(file) == Some(defs) && d.revision == NextRevision(defs, d.id)
    ensures Replay(file + [d]) == Some(defs[d.id := d])
  {
    assert (file + [d])[..|file|] == file;
  }

  lemma {:induction false} ReplayPrefix(file: seq<Definition>, n: nat)
    requires Replay(file).Some? && n <= |file|
    ensures Replay(file[..n]).Some?
  {
    if n < |file| {
      ReplayPrefix(file[..|file| - 1], n);
      assert file[..|file| - 1][..n] == file[..n];
    } else {
      assert file[..n] == file;
    }
  }
}
