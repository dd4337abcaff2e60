/** The record table: an array of records and an open-addressing map from id to index
    (src/record_table.c:103-231). Removal rebuilds the map; without memory for it the table
    goes on with a linear scan. */
module RecordTable {
  import opened Outcomes
  import opened Probing

  const RECORD_LIMIT: nat := 65536

  datatype Row<V> = Row(id: string, value: V)

  /** Distinct, non-empty ids; the map of what the rows say. */
  ghost predicate Holds<V>(rows: seq<Row<V>>, m: map<string, V>) {
    && (forall i | 0 <= i < |rows| :: rows[i].id != "" && rows[i].id in m && m[rows[i].id] == rows[i].value)
    && (forall i, j | 0 <= i < j < |rows| :: rows[i].id != rows[j].id)
    && (forall id | id in m :: exists i :: 0 <= i < |rows| && rows[i].id == id)
  }

  /** Every row can be probed for, nothing else is in the slots, and the load bound leaves an
      empty slot. */
  ghost predicate Mapped<V>(slots: seq<nat>, rows: seq<Row<V>>, n: nat, hash: string -> nat) {
    && n <= |rows| && n * 10 <= |slots| * 7 && |slots| > 0 && NonZero(slots) == n
    && (forall i | 0 <= i < n :: Reached(slots, hash(rows[i].id) % |slots|, i))
    && (forall p | 0 <= p < |slots| :: slots[p] <= n)
  }

  /** What makes `hash & (cap - 1)` the remainder. */
  predicate PowerOfTwo(n: nat) { n == 1 || (n > 1 && n % 2 == 0 && PowerOfTwo(n / 2)) }

  /** The first d slots from home are taken, none by the id. */
  ghost predicate Unmet<V>(s: seq<nat>, rows: seq<Row<V>>, home: nat, d: nat, id: string)
    requires home < |s|
  {
    d <= |s| && forall k | 0 <= k < d :: 0 < s[At(|s|, home, k)] <= |rows| && rows[s[At(|s|, home, k)] - 1].id != id
  }

  lemma StartUnmet<V>(s: seq<nat>, rows: seq<Row<V>>, home: nat, id: string)
    requires home < |s|
    ensures Unmet(s, rows, home, 0, id)
  {}

  lemma MoreUnmet<V>(s: seq<nat>, rows: seq<Row<V>>, home: nat, d: nat, id: string)
    requires home < |s| && d < |s| && NonZero(s) < |s| && Unmet(s, rows, home, d, id)
    requires 0 < s[At(|s|, home, d)] <= |rows| && rows[s[At(|s|, home, d)] - 1].id != id
    ensures d + 1 < |s| && Unmet(s, rows, home, d + 1, id)
  {
    EmptyAhead(s, home, d + 1);
  }

  /** A probe that met an empty slot without the id shows that no row has it. */
  lemma AllUnmet<V>(s: seq<nat>, rows: seq<Row<V>>, hash: string -> nat, m: map<string, V>, d: nat, id: string)
    requires Holds(rows, m) && Mapped(s, rows, |rows|, hash)
    requires d < |s| && s[At(|s|, hash(id) % |s|, d)] == 0 && Unmet(s, rows, hash(id) % |s|, d, id)
    ensures id !in m
  {
    hide Reached, NonZero;
    forall i | 0 <= i < |rows| ensures rows[i].id != id {
      if rows[i].id == id { NotBeyond(s, hash(id) % |s|, i, d); }
    }
  }

  lemma RowIn<V>(rows: seq<Row<V>>, m: map<string, V>, i: nat)
    requires Holds(rows, m) && i < |rows|
    ensures rows[i].id in m && rows[i].value == m[rows[i].id]
  {}

  class Table<V> {
    const hash: string -> nat
    var rows: seq<Row<V>>
    var slots: array?<nat>
    var used: nat
    ghost var contents: map<string, V>

    ghost predicate Valid()
      reads this, slots
    {
      && Holds(rows, contents) && |rows| <= RECORD_LIMIT
      && (slots != null ==> used == |rows| && PowerOfTwo(slots.Length) && Mapped(slots[..], rows, |rows|, hash))
    }

    constructor (hash: string -> nat)
      ensures Valid() && contents == map[] && this.hash == hash
    {
      this.hash, rows, slots, used, contents := hash, [], null, 0, map[];
    }

    /** `table_find`. */
    method Find(id: string) returns (at: Option<nat>)
      requires Valid()
      ensures at.Some? <==> id in contents
      ensures at.Some? ==> at.value < |rows| && rows[at.value].id == id && rows[at.value].value == contents[id]
    {
      if id == "" || |rows| == 0 {
        assert forall x | x in contents :: exists i :: 0 <= i < |rows| && rows[i].id == x;
        return None;
      }
      if slots != null && slots.Length > 0 {
        at := Probe(id);
        return;
      }
      for i := 0 to |rows|
        invariant forall k | 0 <= k < i :: rows[k].id != id
      {
        if rows[i].id == id { return Some(i); }
      }
      return None;
    }

    /** The probe loop: it meets the row or an empty slot within one turn. */
    method Probe(id: string) returns (at: Option<nat>)
      requires Valid() && slots != null
      ensures at.Some? <==> id in contents
      ensures at.Some? ==> at.value < |rows| && rows[at.value].id == id && rows[at.value].value == contents[id]
    {
      hide NonZero, Reached, Unmet, Holds;
      ghost var home, s := hash(id) % slots.Length, slots[..];
      var pos := hash(id) % slots.Length;
      ghost var d := 0;
      EmptyAhead(s, home, 0);
      StartUnmet(s, rows, home, id);
      while slots[pos] != 0
        invariant d < slots.Length && pos == At(slots.Length, home, d) && Unmet(s, rows, home, d, id)
        decreases slots.Length - d
      {
        var idx := slots[pos] - 1;
        assert s[pos] <= |rows|;
        if rows[idx].id == id {
          RowIn(rows, contents, idx);
          return Some(idx);
        }
        MoreUnmet(s, rows, home, d, id);
        pos := if pos + 1 == slots.Length then 0 else pos + 1;
        d := d + 1;
      }
      AllUnmet(s, rows, hash, contents, d, id);
      return None;
    }

    /** `idmap_insert` of row n into slots that hold the rows before it. */
    method Insert(into: array<nat>, n: nat)
      requires n < |rows| && Mapped(into[..], rows, n, hash) && (n + 1) * 10 <= into.Length * 7
      modifies into
      ensures Mapped(into[..], rows, n + 1, hash)
    {
      hide NonZero, Reached;
      ghost var home, s := hash(rows[n].id) % into.Length, into[..];
      var pos := hash(rows[n].id) % into.Length;
      ghost var d := 0;
      EmptyAhead(s, home, 0);
      while into[pos] != 0
        invariant d < into.Length && pos == At(into.Length, home, d) && into[..] == s
        invariant forall k | 0 <= k < d :: s[At(into.Length, home, k)] != 0
        decreases into.Length - d
      {
        EmptyAhead(s, home, d + 1);
        pos := if pos + 1 == into.Length then 0 else pos + 1;
        d := d + 1;
      }
      into[pos] := n + 1;
      assert into[..] == s[pos := n + 1];
      NonZeroFill(s, pos, n + 1);
      FilledReached(s, home, n, d);
      forall i | 0 <= i < n ensures Reached(into[..], hash(rows[i].id) % into.Length, i) {
        StillReached(s, pos, n + 1, hash(rows[i].id) % into.Length, i);
      }
    }

    /** `table_rehash`: a fresh map, at most half full, or none when memory is short. */
    method Rehash(mincap: nat) returns (err: Err)
      requires |rows| <= mincap && 1 <= mincap
      modifies this`slots, this`used
      ensures err == Ok || err == NoMem
      ensures err == Ok ==>
        slots != null && fresh(slots) && used == |rows| && PowerOfTwo(slots.Length) && slots.Length >= 2 * mincap
                            && Mapped(slots[..], rows, |rows|, hash)
      ensures err != Ok ==> slots == old(slots) && used == old(used)
    {
      var cap := 16;
      while cap < mincap * 2
        invariant cap >= 16 && PowerOfTwo(cap)
        decreases mincap * 2 - cap
      {
        cap := cap * 2;
      }
      var memory: bool := *;
      if !memory { return NoMem; }
      var fresh_ := new nat[cap](_ => 0);
      NonZeroEmpty(cap);
      assert fresh_[..] == seq(cap, _ => 0);
      for i := 0 to |rows|
        invariant Mapped(fresh_[..], rows, i, hash)
      {
        Insert(fresh_, i);
      }
      slots, used := fresh_, |rows|;
      return Ok;
    }

    /** `asper_table_add`. */
    method Add(id: string, value: V) returns (err: Err)
      requires Valid()
      modifies this, slots
      ensures Valid()
      ensures err == Invalid <==> id == "" || id in old(contents)
      ensures err == Limit <==> id != "" && id !in old(contents) && |old(rows)| >= RECORD_LIMIT
      ensures err == NoMem ==> old(slots) == null || (old(used) + 1) * 10 > old(slots.Length) * 7
      ensures err == Ok ==>
        contents == old(contents)[id := value] && rows == old(rows) + [Row(id, value)] && slots != null
      ensures err != Ok ==> contents == old(contents) && rows == old(rows)
      ensures err == Ok || err == Invalid || err == Limit || err == NoMem
    {
      hide NonZero, Reached, Holds;
      if id == "" { return Invalid; }
      var at := Find(id);
      if at.Some? { return Invalid; }
      if |rows| >= RECORD_LIMIT { return Limit; }
      if slots == null || (used + 1) * 10 > slots.Length * 7 {
        err := Rehash(|rows| + 1);
        if err != Ok { return; }
      }
      HoldsSnoc(rows, contents, id, value);
      MappedSnoc(slots[..], rows, Row(id, value), hash);
      rows := rows + [Row(id, value)];
      contents := contents[id := value];
      Insert(slots, |rows| - 1);
      used := used + 1;
      return Ok;
    }

    /** `asper_table_remove`: the rows behind move up one place. */
    method Remove(id: string) returns (removed: bool)
      requires Valid()
      modifies this
      ensures Valid()
      ensures removed <==> id in old(contents)
      ensures contents == old(contents) - {id}
      ensures removed ==> exists at | 0 <= at < |old(rows)| && old(rows)[at].id == id ::
        rows == old(rows)[..at] + old(rows)[at + 1..]
      ensures !removed ==> rows == old(rows)
    {
      hide NonZero, Reached, Holds, Mapped;
      var at := Find(id);
      if at.None? {
        assert contents - {id} == contents;
        return false;
      }
      HoldsCut(rows, contents, at.value);
      rows := rows[..at.value] + rows[at.value + 1..];
      contents := contents - {id};
      var err := Rehash(if rows == [] then 1 else |rows|);
      if err != Ok { slots := null; }
      return true;
    }
  }

  lemma HoldsSnoc<V>(rows: seq<Row<V>>, m: map<string, V>, id: string, value: V)
    requires Holds(rows, m) && id != "" && id !in m
    ensures Holds(rows + [Row(id, value)], m[id := value])
  {
    var more, bigger := rows + [Row(id, value)], m[id := value];
    forall x | x in bigger ensures exists i :: 0 <= i < |more| && more[i].id == x {
      if x == id {
        assert more[|rows|].id == id;
      } else {
        var i :| 0 <= i < |rows| && rows[i].id == x;
        assert more[i].id == x;
      }
    }
  }

  lemma MappedSnoc<V>(slots: seq<nat>, rows: seq<Row<V>>, r: Row<V>, hash: string -> nat)
    requires Mapped(slots, rows, |rows|, hash)
    ensures Mapped(slots, rows + [r], |rows|, hash)
  {
    hide Reached;
    assert forall i | 0 <= i < |rows| :: (rows + [r])[i] == rows[i];
  }

  lemma HoldsCut<V>(rows: seq<Row<V>>, m: map<string, V>, at: nat)
    requires Holds(rows, m) && at < |rows|
    ensures Holds(rows[..at] + rows[at + 1..], m - {rows[at].id})
  {
    var less, id := rows[..at] + rows[at + 1..], rows[at].id;
    forall x | x in m - {id} ensures exists i :: 0 <= i < |less| && less[i].id == x {
      var i :| 0 <= i < |rows| && rows[i].id == x;
      assert less[if i < at then i else i - 1].id == x;
    }
    assert forall i | 0 <= i < |less| :: less[i] == rows[if i < at then i else i + 1];
  }
}
