/** The local multi-file transaction of compaction (src/store_transaction.c): backups, a
    marker that arms the rollback, recovery and commit.

    The disk maps paths to contents and replaces files atomically. `seen` collects every
    disk image a crash may leave; an operation that reports a failure may or may not have
    taken effect. */
module Transaction {
  import opened Outcomes
  import opened Records
  import opened Marker

  datatype Content = Snapshot(recs: seq<Record>) | Wal(bytes: string)

  type Files = map<string, Content>

  datatype Disk = Disk(live: Files, backup: Files, marker: Option<string>)

  ghost predicate MarkerIs(text: string, rows: seq<Row>) { RowsValid(rows) && Format(rows) == text }

  ghost predicate Listed(rows: seq<Row>, rel: string) {
    exists i :: 0 <= i < |rows| && rows[i].rel == rel
  }

  ghost predicate ListedExisting(rows: seq<Row>, rel: string) {
    exists i :: 0 <= i < |rows| && rows[i].rel == rel && rows[i].existed
  }

  /** Every backup the rows promise is there, with the recorded digest. */
  ghost predicate Backed(hash: Content -> Hash, backup: Files, rows: seq<Row>) {
    forall i | 0 <= i < |rows| && rows[i].existed ::
      rows[i].rel in backup && hash(backup[rows[i].rel]) == rows[i].hash
  }

  /** The files after every listed one has been put back. */
  ghost function Restored(live: Files, backup: Files, rows: seq<Row>): Files {
    map rel | rel in live.Keys + backup.Keys
              && (if Listed(rows, rel) then ListedExisting(rows, rel) && rel in backup else rel in live)
      :: if Listed(rows, rel) then backup[rel] else live[rel]
  }

  /** What a completed recovery makes of a disk image, if it can complete at all. */
  ghost function Recovered(hash: Content -> Hash, d: Disk): Option<Files> {
    match d.marker
    case None => Some(d.live)
    case Some(text) =>
      if exists rows :: MarkerIs(text, rows) && Backed(hash, d.backup, rows) then
        var rows :| MarkerIs(text, rows) && Backed(hash, d.backup, rows);
        Some(Restored(d.live, d.backup, rows))
      else None
  }

  lemma RecoveredBy(hash: Content -> Hash, d: Disk, rows: seq<Row>)
    requires d.marker.Some? && MarkerIs(d.marker.value, rows)
    ensures Recovered(hash, d) == if Backed(hash, d.backup, rows) then Some(Restored(d.live, d.backup, rows)) else None
  {
    forall other | MarkerIs(d.marker.value, other) ensures other == rows {
      FormatInjective(rows, other);
    }
  }

  lemma NoMarker(hash: Content -> Hash, d: Disk)
    ensures d.marker == None ==> Recovered(hash, d) == Some(d.live)
  {}

  ghost function Decoded(text: string): seq<Row> {
    if exists rows :: MarkerIs(text, rows) then var rows :| MarkerIs(text, rows); rows else []
  }

  /** Recovery can complete exactly when the marker decodes and every backup checks out. */
  lemma DecodedIs(hash: Content -> Hash, d: Disk, rows: seq<Row>)
    requires d.marker.Some?
    ensures RowsValid(rows) && Format(rows) == d.marker.value ==>
      MarkerIs(d.marker.value, rows)
      && Recovered(hash, d) == if Backed(hash, d.backup, rows) then Some(Restored(d.live, d.backup, rows)) else None
    ensures rows == Decoded(d.marker.value) && !(RowsValid(rows) && Format(rows) == d.marker.value) ==>
      Recovered(hash, d) == None
  {
    if RowsValid(rows) && Format(rows) == d.marker.value { RecoveredBy(hash, d, rows); }
  }

  lemma RowsDistinct(text: string, rows: seq<Row>)
    requires MarkerIs(text, rows)
    ensures Distinct(rows)
  {}

  /** The two images agree on every file the rows do not list. */
  ghost predicate SameOutside(a: Files, b: Files, rows: seq<Row>) {
    forall rel | !Listed(rows, rel) :: (rel in a <==> rel in b) && (rel in a ==> a[rel] == b[rel])
  }

  lemma RestoredIgnores(a: Files, b: Files, backup: Files, rows: seq<Row>)
    requires SameOutside(a, b, rows)
    ensures Restored(a, backup, rows) == Restored(b, backup, rows)
  {
    forall rel
      ensures rel in Restored(a, backup, rows) <==> rel in Restored(b, backup, rows)
    {
      if !Listed(rows, rel) { assert rel in a <==> rel in b; }
    }
    forall rel | rel in Restored(a, backup, rows)
      ensures Restored(a, backup, rows)[rel] == Restored(b, backup, rows)[rel]
    {}
  }

  /** Once the marker is durable, nothing written to a listed file changes what recovery
      will restore. */
  lemma ArmedAbsorbsWrites(hash: Content -> Hash, d: Disk, rows: seq<Row>, live: Files)
    requires d.marker.Some? && MarkerIs(d.marker.value, rows) && Backed(hash, d.backup, rows)
    requires SameOutside(d.live, live, rows)
    ensures Recovered(hash, d.(live := live)) == Recovered(hash, d)
  {
    hide Recovered, Restored, MarkerIs, Backed, SameOutside;
    RecoveredBy(hash, d, rows);
    RecoveredBy(hash, d.(live := live), rows);
    RestoredIgnores(d.live, live, d.backup, rows);
  }

  class StoreFiles {
    const hash: Content -> Hash
    var st: Disk
    var poisoned: bool
    ghost var seen: iset<Disk>

    constructor (hash: Content -> Hash, st: Disk)
      ensures this.hash == hash && this.st == st && !poisoned && seen == iset{}
    {
      this.hash, this.st, poisoned, seen := hash, st, false, iset{};
    }

    /** Every image that became visible recovers to `files`. */
    twostate predicate OnlySaw(files: Files)
      reads this
    {
      forall d :: d in seen ==> d in old(seen) || Recovered(hash, d) == Some(files)
    }

    /** One disk step that either takes effect or not, and says so or not. */
    method Step(next: Disk) returns (ok: bool)
      modifies this`st, this`seen
      ensures st == next || (!ok && st == old(st))
      ensures seen == old(seen) + iset{st}
    {
      var happened: bool := *;
      var reported: bool := *;
      if happened { st := next; }
      seen := seen + iset{st};
      ok := happened && reported;
    }

    /** `restore`: validate one backup, and put it back when `apply`. */
    method Restore(r: Row, apply: bool) returns (err: Err)
      modifies this`st, this`seen
      ensures !apply ==> st == old(st) && seen == old(seen)
      ensures apply ==> st.marker == old(st.marker) && st.backup == old(st.backup)
      ensures apply ==> forall rel | rel != r.rel ::
        (rel in st.live <==> rel in old(st.live)) && (rel in st.live ==> st.live[rel] == old(st.live)[rel])
      ensures forall d :: d in seen ==> d in old(seen) || d == st || d == old(st)
      ensures err == Ok && r.existed ==> r.rel in st.backup && hash(st.backup[r.rel]) == r.hash
      ensures err == Ok && apply && r.existed ==> r.rel in st.live && st.live[r.rel] == st.backup[r.rel]
      ensures err == Ok && apply && !r.existed ==> r.rel !in st.live
      ensures r.existed && !(r.rel in old(st.backup) && hash(old(st.backup)[r.rel]) == r.hash)
              ==> err != Ok && st == old(st) && seen == old(seen)
    {
      var fault: bool := *;
      if r.existed {
        if r.rel !in st.backup { return NotFound; }
        if fault { return Io; }
        if hash(st.backup[r.rel]) != r.hash { return Parse; }
        if apply {
          var ok := Step(st.(live := st.live[r.rel := st.backup[r.rel]]));
          if !ok { return Io; }
        }
      } else if apply && r.rel in st.live {
        var ok := Step(st.(live := st.live - {r.rel}));
        if !ok { return Io; }
      }
      return Ok;
    }

    /** `cleanup` of every backup; failures are ignored. */
    method CleanupAll(rels: seq<string>)
      modifies this`st, this`seen
      ensures st.live == old(st.live) && st.marker == old(st.marker)
      ensures st.marker == None ==> OnlySaw(st.live)
    {
      for i := 0 to |rels|
        invariant st.live == old(st.live) && st.marker == old(st.marker)
        invariant st.marker == None ==> OnlySaw(st.live)
      {
        var _ := Step(st.(backup := st.backup - {rels[i]}));
      }
    }

    /** `asper_compact_begin`: back up every file, then write the marker. Until the marker
        is there the backups mean nothing; from then on they are the whole old state. */
    method Begin(rels: seq<string>) returns (err: Err, ghost rows: seq<Row>)
      modifies this
      ensures st.live == old(st.live)
      ensures old(st.marker) == None ==> OnlySaw(st.live)
      ensures old(st.marker) != None ==> err != Ok && st == old(st) && seen == old(seen)
      ensures err == Ok ==> poisoned == old(poisoned) && Armed(rows) && Recovered(hash, st) == Some(st.live)
      ensures err == Ok ==> |rows| == |rels| && forall i | 0 <= i < |rels| :: rows[i].rel == rels[i]
      ensures err != Ok ==> poisoned || (st.marker == old(st.marker) && poisoned == old(poisoned))
    {
      hide Recovered, Restored, MarkerIs, RowMatches, Format, Backed;
      rows := [];
      if rels == [] || |rels| > MAX_FILES { return Limit, rows; }
      if exists i :: 0 <= i < |rels| && !RelValid(rels[i]) { return Invalid, rows; }
      if exists i, j :: 0 <= i < j < |rels| && rels[i] == rels[j] { return Invalid, rows; }
      if st.marker != None { poisoned := true; return Io, rows; }
      var made;
      err, made := BackUp(rels);
      rows := made;
      if err == Ok {
        MarkerOf(rels, made);
        err := Arm(made);
      }
      if err != Ok {
        if st.marker != None {
          poisoned := true;
        } else {
          CleanupAll(rels);
        }
      }
    }

    /** The marker goes up once every backup is in place. */
    method Arm(rows: seq<Row>) returns (err: Err)
      requires st.marker == None && MarkerIs(Format(rows), rows)
      requires forall i | 0 <= i < |rows| :: RowMatches(hash, st.live, st.backup, rows[i])
      modifies this`st, this`seen
      ensures st.live == old(st.live) && OnlySaw(st.live) && (err == Ok || err == Io)
      ensures err == Ok ==> Armed(rows) && Recovered(hash, st) == Some(st.live)
      ensures st == old(st) || st.marker != None
    {
      hide Recovered, Restored, MarkerIs, Backed, RowMatches, Format;
      NoMarker(hash, st);
      ghost var armed := st.(marker := Some(Format(rows)));
      RestoresWhatWas(hash, st.live, st.backup, rows);
      RecoveredBy(hash, armed, rows);
      var ok := Step(st.(marker := Some(Format(rows))));
      return if ok then Ok else Io;
    }

    method BackUp(rels: seq<string>) returns (err: Err, rows: seq<Row>)
      requires st.marker == None
      requires forall i | 0 <= i < |rels| :: RelValid(rels[i])
      modifies this`st, this`seen
      ensures st.live == old(st.live) && st.marker == None && OnlySaw(st.live)
      ensures err == Ok ==>
        |rows| == |rels| && forall i | 0 <= i < |rows| :: rows[i].rel == rels[i] && RowValid(rows[i])
      ensures err == Ok ==> forall i | 0 <= i < |rows| :: RowMatches(hash, st.live, st.backup, rows[i])
    {
      hide Recovered, RelValid;
      rows, err := [], Ok;
      while |rows| < |rels|
        invariant err == Ok && |rows| <= |rels| && st.live == old(st.live) && st.marker == None && OnlySaw(st.live)
        invariant forall i | 0 <= i < |rows| :: rows[i].rel == rels[i] && RowValid(rows[i])
        invariant forall i | 0 <= i < |rows| :: RowMatches(hash, st.live, st.backup, rows[i])
        decreases |rels| - |rows|
      {
        var rel := rels[|rows|];
        if rel in st.live {
          var content := st.live[rel];
          var ok := Step(st.(backup := st.backup[rel := content]));
          NoMarker(hash, st);
          if !ok { return Io, rows; }
          rows := rows + [Row(true, hash(content), rel)];
        } else {
          rows := rows + [Row(false, "", rel)];
        }
      }
    }

    ghost predicate Armed(rows: seq<Row>)
      reads this
    {
      st.marker.Some? && MarkerIs(st.marker.value, rows) && Backed(hash, st.backup, rows)
    }

    /** `asper_store_file_write` to a file the armed transaction covers: recovery still
        restores the old files. */
    method WriteListed(rel: string, content: Content, ghost rows: seq<Row>, ghost files: Files) returns (ok: bool)
      requires Armed(rows) && Listed(rows, rel) && Recovered(hash, st) == Some(files)
      modifies this`st, this`seen
      ensures Armed(rows) && Recovered(hash, st) == Some(files) && OnlySaw(files)
      ensures ok ==> st.live == old(st.live)[rel := content]
    {
      hide Recovered, Restored, MarkerIs, Backed;
      ghost var live := st.live[rel := content];
      assert SameOutside(st.live, live, rows);
      ArmedAbsorbsWrites(hash, st, rows, live);
      ok := Step(st.(live := st.live[rel := content]));
    }

    /** `asper_compact_commit`: removing the marker is the commit point. */
    method Commit(rels: seq<string>) returns (err: Err)
      modifies this`st, this`seen
      ensures st.live == old(st.live)
      ensures forall d :: d in seen ==>
        d in old(seen) || Recovered(hash, d) == Some(st.live) || Recovered(hash, d) == Recovered(hash, old(st))
      ensures Recovered(hash, st) == Some(st.live) || Recovered(hash, st) == Recovered(hash, old(st))
      ensures err == Ok ==> st.marker == None
    {
      hide Recovered;
      if st.marker == None { NoMarker(hash, st); return NotFound; }
      var ok := Step(st.(marker := None));
      NoMarker(hash, st);
      if !ok { return Io; }
      CleanupAll(rels);
      NoMarker(hash, st);
      return Ok;
    }

    /** `asper_compact_recover`: first validate every backup, then restore every target,
        then drop the marker. However it is interrupted, starting it again from what is
        left restores the same files; when validation fails no file has been touched. */
    method Recover() returns (err: Err)
      modifies this
      ensures poisoned == old(poisoned)
      ensures var files := Recovered(hash, old(st));
        && (files.Some? ==> OnlySaw(files.value) && Recovered(hash, st) == files)
        && (files.Some? && err == Ok ==> st.marker == None && st.live == files.value)
        && (files.None? ==> err != Ok && st == old(st) && seen == old(seen))
    {
      hide Recovered, Restored, Backed, RowRestored, SameOutside, Distinct, MarkerIs, RowsValid;
      ghost var files := Recovered(hash, st);
      NoMarker(hash, st);
      if st.marker == None { return Ok; }
      var fault: bool := *;
      if fault { return Io; }
      var text := st.marker.value;
      ghost var want := Decoded(text);
      var rows;
      err, rows := ParseMarker(text, want);
      DecodedIs(hash, st, want);
      if err != Ok { return; }
      DecodedIs(hash, st, rows);
      err := ValidateRows(rows);
      if err != Ok { return; }
      assert files.Some?;
      err := ApplyRows(rows, files.value);
      if err != Ok { return; }
      RowsDistinct(text, rows);
      RestoredAll(st.live, old(st.live), st.backup, rows);
      NoMarker(hash, st.(marker := None));
      var ok := Step(st.(marker := None));
      if !ok { return Io; }
      CleanupAll(seq(|rows|, k requires 0 <= k < |rows| => rows[k].rel));
      NoMarker(hash, st);
    }

    /** The first pass: nothing is written until every backup has been checked. */
    method ValidateRows(rows: seq<Row>) returns (err: Err)
      modifies this`st, this`seen
      ensures st == old(st) && seen == old(seen)
      ensures err == Ok ==> Backed(hash, st.backup, rows)
      ensures !Backed(hash, st.backup, rows) ==> err != Ok
    {
      var i := 0;
      while i < |rows|
        invariant i <= |rows| && st == old(st) && seen == old(seen)
        invariant forall j | 0 <= j < i &&
          rows[j].existed :: rows[j].rel in st.backup && hash(st.backup[rows[j].rel]) == rows[j].hash
      {
        err := Restore(rows[i], false);
        if err != Ok { return; }
        i := i + 1;
      }
      err := Ok;
    }

    method ApplyRows(rows: seq<Row>, ghost files: Files) returns (err: Err)
      requires st.marker.Some? && MarkerIs(st.marker.value, rows) && Backed(hash, st.backup, rows)
      requires Recovered(hash, st) == Some(files)
      modifies this`st, this`seen
      ensures st.marker == old(st.marker) && st.backup == old(st.backup)
      ensures Recovered(hash, st) == Some(files) && OnlySaw(files)
      ensures SameOutside(old(st.live), st.live, rows)
      ensures err == Ok ==> forall j | 0 <= j < |rows| :: RowRestored(st.live, st.backup, rows[j])
    {
      hide Recovered, Restored, Backed, MarkerIs, SameOutside, RowRestored;
      SameOutsideSelf(st.live, rows);
      var i := 0;
      while i < |rows|
        invariant i <= |rows| && st.marker == old(st.marker) && st.backup == old(st.backup)
        invariant SameOutside(old(st.live), st.live, rows)
        invariant forall j | 0 <= j < i :: RowRestored(st.live, st.backup, rows[j])
        invariant Recovered(hash, st) == Some(files) && OnlySaw(files)
      {
        ghost var before := st.live;
        err := RestoreListed(rows, i, files);
        SameOutsideTrans(old(st.live), before, st.live, rows);
        if err != Ok { return; }
        i := i + 1;
      }
      err := Ok;
    }

    method RestoreListed(rows: seq<Row>, i: nat, ghost files: Files) returns (err: Err)
      requires st.marker.Some? && MarkerIs(st.marker.value, rows) && Backed(hash, st.backup, rows) && i < |rows|
      requires Recovered(hash, st) == Some(files)
      modifies this`st, this`seen
      ensures st.marker == old(st.marker) && st.backup == old(st.backup)
      ensures Recovered(hash, st) == Some(files) && OnlySaw(files)
      ensures SameOutside(old(st.live), st.live, rows)
      ensures forall j | 0 <= j < |rows| && j != i &&
        RowRestored(old(st.live), old(st.backup), rows[j]) :: RowRestored(st.live, st.backup, rows[j])
      ensures err == Ok ==> RowRestored(st.live, st.backup, rows[i])
    {
      RowsDistinct(st.marker.value, rows);
      hide Recovered, Restored, Backed, MarkerIs, SameOutside, Listed, Distinct;
      err := Restore(rows[i], true);
      OneRow(old(st.live), st.live, rows, i);
      ArmedAbsorbsWrites(hash, old(st), rows, st.live);
      assert st == old(st).(live := st.live);
    }
  }

  /** Two images that differ at one listed file agree outside the rows and at the others. */
  lemma OneRow(a: Files, b: Files, rows: seq<Row>, i: nat)
    requires Distinct(rows) && i < |rows|
    requires forall rel | rel != rows[i].rel :: (rel in b <==> rel in a) && (rel in b ==> b[rel] == a[rel])
    ensures SameOutside(a, b, rows)
    ensures forall j | 0 <= j < |rows| && j != i :: rows[j].rel != rows[i].rel
  {
    assert Listed(rows, rows[i].rel);
  }

  lemma SameOutsideSelf(a: Files, rows: seq<Row>)
    ensures SameOutside(a, a, rows)
  {}

  lemma SameOutsideTrans(a: Files, b: Files, c: Files, rows: seq<Row>)
    requires SameOutside(a, b, rows) && SameOutside(b, c, rows)
    ensures SameOutside(a, c, rows)
  {}

  lemma MarkerOf(rels: seq<string>, rows: seq<Row>)
    requires 1 <= |rels| <= MAX_FILES && |rows| == |rels| &&
      forall i | 0 <= i < |rels| :: rows[i].rel == rels[i] && RowValid(rows[i])
    requires forall i, j | 0 <= i < j < |rels| :: rels[i] != rels[j]
    ensures MarkerIs(Format(rows), rows)
  {
    hide Format;
  }

  /** The backup of a row is the file as it stands. */
  ghost predicate RowMatches(hash: Content -> Hash, live: Files, backup: Files, r: Row) {
    && (r.existed <==> r.rel in live)
    && (r.existed ==> r.rel in backup && backup[r.rel] == live[r.rel] && hash(backup[r.rel]) == r.hash)
  }

  lemma RestoresWhatWas(hash: Content -> Hash, live: Files, backup: Files, rows: seq<Row>)
    requires forall i | 0 <= i < |rows| :: RowMatches(hash, live, backup, rows[i])
    ensures Backed(hash, backup, rows) && Restored(live, backup, rows) == live
  {
    forall rel
      ensures rel in Restored(live, backup, rows) <==> rel in live
    {
      if Listed(rows, rel) {
        var i :| 0 <= i < |rows| && rows[i].rel == rel;
        assert RowMatches(hash, live, backup, rows[i]);
      }
    }
  }

  ghost predicate RowRestored(live: Files, backup: Files, r: Row) {
    if r.existed then r.rel in backup && r.rel in live && live[r.rel] == backup[r.rel] else r.rel !in live
  }

  lemma RestoredAll(live: Files, before: Files, backup: Files, rows: seq<Row>)
    requires Distinct(rows) && forall j | 0 <= j < |rows| :: RowRestored(live, backup, rows[j])
    requires SameOutside(before, live, rows)
    ensures live == Restored(before, backup, rows)
  {
    forall rel
      ensures rel in live <==> rel in Restored(before, backup, rows)
    {
      if Listed(rows, rel) {
        var i :| 0 <= i < |rows| && rows[i].rel == rel;
        assert RowRestored(live, backup, rows[i]);
        assert ListedExisting(rows, rel) <==> rows[i].existed;
      }
    }
    forall rel | rel in live
      ensures live[rel] == Restored(before, backup, rows)[rel]
    {
      if Listed(rows, rel) {
        var i :| 0 <= i < |rows| && rows[i].rel == rel;
        assert RowRestored(live, backup, rows[i]);
      }
    }
  }
}
