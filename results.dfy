/** `IteratorResult`: views over the rows of a result set. The rows come
    from a PHP generator, which runs forward only: it starts on the first
    `current()` or traversal, each `foreach` first rewinds it, and
    rewinding one that has moved past its first row, or traversing one
    that has finished, throws. */
module Results {
  import opened Wrappers
  import opened Values
  import opened Errors

  const ClosedMessage := "Cannot traverse an already closed generator"
  const RewindMessage := "Cannot rewind a generator that was already run"

  /** What `asMap` builds: an array of records keyed by the last key
      field, nested in one array level per earlier key field. */
  datatype Nested = Leaf(record: Record) | Level(children: map<Value, Nested>)

  // ----- what the views compute, as functions of the rows -----

  /** `array_values` of each record, in order. */
  function RecordsValues(rs: seq<Record>): seq<seq<Value>>
  {
    seq(|rs|, i requires 0 <= i < |rs| => ValuesOf(rs[i]))
  }

  /** One field of each record, in order. */
  function Column(rs: seq<Record>, field: string): seq<Value>
  {
    seq(|rs|, i requires 0 <= i < |rs| => Field(rs[i], field))
  }

  /** `$result[$record[$key]] = $record[$value]` over the records in order. */
  function KeyValue(rs: seq<Record>, keyField: string, valueField: string): map<Value, Value>
    decreases |rs|
  {
    if |rs| == 0 then map[]
    else
      var last := rs[|rs| - 1];
      KeyValue(rs[..|rs| - 1], keyField, valueField)[Field(last, keyField) := Field(last, valueField)]
  }

  /** The key values of a record, one per key field. */
  function PathOf(r: Record, fields: seq<string>): (p: seq<Value>)
    ensures |p| == |fields|
    ensures forall i :: 0 <= i < |fields| ==> p[i] == Field(r, fields[i])
  {
    seq(|fields|, i requires 0 <= i < |fields| => Field(r, fields[i]))
  }

  /** Storing `r` under `path`: a missing level is created empty on the
      way down, and the last key is overwritten. */
  function Insert(t: Nested, path: seq<Value>, r: Record): (u: Nested)
    ensures |path| > 0 ==> u.Level?
    decreases |path|
  {
    if |path| == 0 then Leaf(r)
    else
      var m := if t.Level? then t.children else map[];
      var child := if path[0] in m then m[path[0]] else Level(map[]);
      Level(m[path[0] := Insert(child, path[1..], r)])
  }

  /** `$result[$p[0]]…[$p[n-1]]`, when it is a record. */
  function Lookup(t: Nested, path: seq<Value>): Option<Record>
    decreases |path|
  {
    if |path| == 0 then (if t.Leaf? then Some(t.record) else None)
    else if t.Level? && path[0] in t.children then Lookup(t.children[path[0]], path[1..])
    else None
  }

  /** `asMap` with key fields `fields` over the records in order. */
  function MapOf(rs: seq<Record>, fields: seq<string>): (t: Nested)
    ensures |fields| > 0 ==> t.Level?
    decreases |rs|
  {
    if |rs| == 0 then Level(map[])
    else
      var last := rs[|rs| - 1];
      Insert(MapOf(rs[..|rs| - 1], fields), PathOf(last, fields), last)
  }

  /** The reference for `asMap`: the last record whose key path is `q`. */
  function LastWithPath(rs: seq<Record>, fields: seq<string>, q: seq<Value>): Option<Record>
    decreases |rs|
  {
    if |rs| == 0 then None
    else if PathOf(rs[|rs| - 1], fields) == q then Some(rs[|rs| - 1])
    else LastWithPath(rs[..|rs| - 1], fields, q)
  }

  /** What one call of a `walk` callback does: return a value, or throw. */
  datatype Answer = Gives(value: Value) | Raises(error: Throwable)

  /** A `walk` callback with its extra arguments bound: given the number
      of the call within the walk (counting from 0) and the record, what
      it does. The call number lets a callback behave differently on later
      calls, as one with state of its own may. */
  type Callback = (nat, Record) -> Answer

  /** Whether this answer ends the walk: a throw, or exactly `false`. */
  predicate Stops(a: Answer)
  {
    a.Raises? || a == Gives(Bool(false))
  }

  /** The position, from `i` on, of the first record on which the callback
      stops the walk, or the number of records when there is none. */
  function StopFrom(rs: seq<Record>, callback: Callback, i: nat): (n: nat)
    requires i <= |rs|
    ensures i <= n <= |rs|
    ensures forall j :: i <= j < n ==> !Stops(callback(j, rs[j]))
    ensures n < |rs| ==> Stops(callback(n, rs[n]))
    decreases |rs| - i
  {
    if i == |rs| then i
    else if Stops(callback(i, rs[i])) then i
    else StopFrom(rs, callback, i + 1)
  }

  /** Where a walk from the first record stops. */
  function FirstStop(rs: seq<Record>, callback: Callback): (n: nat)
    ensures n <= |rs|
    ensures forall j :: 0 <= j < n ==> !Stops(callback(j, rs[j]))
    ensures n < |rs| ==> Stops(callback(n, rs[n]))
  {
    StopFrom(rs, callback, 0)
  }

  /** What `walk` ends with once it has started: the callback's exception
      when that is what stopped it, and nothing otherwise. */
  function WalkEnd(rs: seq<Record>, callback: Callback): Outcome<Throwable>
  {
    var n := FirstStop(rs, callback);
    if n < |rs| && callback(n, rs[n]).Raises? then Fail(callback(n, rs[n]).error) else Pass
  }

  /** `getValue($key_field)` on the current record. */
  function ValueOf(current: Option<Record>, keyField: Option<string>): Value
  {
    if current.None? || |current.value| == 0 then Null
    else if keyField.Some? then Field(current.value, keyField.value)
    else current.value[0].1
  }

  /** `$name ?: $fallback`. */
  function NameOr(name: Option<string>, fallback: string): string
  {
    if name.None? || FalsyName(name.value) then fallback else name.value
  }

  /** The second column's name; PHP reads a missing one as null, and a
      null array key is the key "". */
  function SecondName(r: Record): string
  {
    if |r| >= 2 then r[1].0 else ""
  }

  // ----- properties of the views -----

  /** The keys of `asKeyValue` are the key values of the records. */
  lemma {:induction false} KeyValueKeys(rs: seq<Record>, keyField: string, valueField: string, k: Value)
    ensures k in KeyValue(rs, keyField, valueField) <==> exists i :: 0 <= i < |rs| && Field(rs[i], keyField) == k
    decreases |rs|
  {
    if |rs| > 0 {
      var prefix := rs[..|rs| - 1];
      KeyValueKeys(prefix, keyField, valueField, k);
      if Field(rs[|rs| - 1], keyField) != k && exists i :: 0 <= i < |rs| && Field(rs[i], keyField) == k {
        var i :| 0 <= i < |rs| && Field(rs[i], keyField) == k;
        assert prefix[i] == rs[i];
      }
    }
  }

  /** `asKeyValue` is last-write-wins: each key maps to the value field of
      the last record with that key value. */
  lemma {:induction false} KeyValueLastWins(rs: seq<Record>, keyField: string, valueField: string, k: Value)
    requires k in KeyValue(rs, keyField, valueField)
    ensures exists i :: 0 <= i < |rs| && Field(rs[i], keyField) == k &&
                        KeyValue(rs, keyField, valueField)[k] == Field(rs[i], valueField) &&
                        forall j :: i < j < |rs| ==> Field(rs[j], keyField) != k
    decreases |rs|
  {
    var prefix := rs[..|rs| - 1];
    var last := rs[|rs| - 1];
    if Field(last, keyField) == k {
      assert Field(rs[|rs| - 1], keyField) == k;
    } else {
      KeyValueLastWins(prefix, keyField, valueField, k);
      var i :| 0 <= i < |prefix| && Field(prefix[i], keyField) == k &&
               KeyValue(prefix, keyField, valueField)[k] == Field(prefix[i], valueField) &&
               forall j :: i < j < |prefix| ==> Field(prefix[j], keyField) != k;
      LaterOfPrefix(rs, prefix, keyField, k, i);
    }
  }

  /** No record after `i` has key value `k` when none does in the prefix
      without the last record and the last one does not either. */
  lemma LaterOfPrefix(rs: seq<Record>, prefix: seq<Record>, keyField: string, k: Value, i: nat)
    requires |rs| > 0 && prefix == rs[..|rs| - 1] && i < |prefix|
    requires Field(rs[|rs| - 1], keyField) != k
    requires forall j :: i < j < |prefix| ==> Field(prefix[j], keyField) != k
    ensures forall j :: i < j < |rs| ==> Field(rs[j], keyField) != k
  {
    forall j | i < j < |rs|
      ensures Field(rs[j], keyField) != k
    {
      if j < |prefix| {
        assert prefix[j] == rs[j];
      }
    }
  }

  /** The same for key paths. */
  lemma PathLaterOfPrefix(rs: seq<Record>, prefix: seq<Record>, fields: seq<string>, q: seq<Value>, i: nat)
    requires |rs| > 0 && prefix == rs[..|rs| - 1] && i < |prefix|
    requires PathOf(rs[|rs| - 1], fields) != q
    requires forall j :: i < j < |prefix| ==> PathOf(prefix[j], fields) != q
    ensures forall j :: i < j < |rs| ==> PathOf(rs[j], fields) != q
  {
    forall j | i < j < |rs|
      ensures PathOf(rs[j], fields) != q
    {
      if j < |prefix| {
        assert prefix[j] == rs[j];
      }
    }
  }

  /** Storing under one path leaves every other path of the same length
      as it was. */
  lemma {:induction false} LookupInsert(t: Nested, p: seq<Value>, r: Record, q: seq<Value>)
    requires |q| == |p|
    ensures Lookup(Insert(t, p, r), q) == if q == p then Some(r) else Lookup(t, q)
    decreases |p|
  {
    if |p| > 0 {
      var m := if t.Level? then t.children else map[];
      var child := if p[0] in m then m[p[0]] else Level(map[]);
      if q[0] == p[0] {
        LookupInsert(child, p[1..], r, q[1..]);
        if q == p {
        } else {
          assert q[1..] != p[1..];
          if !(t.Level? && p[0] in t.children) {
            assert Lookup(Level(map[]), q[1..]) == None;
          }
        }
      }
    }
  }

  /** `asMap` agrees with its reference: under each key path of the right
      length lies the last record with that path, and nothing where no
      record has it. */
  lemma {:induction false} MapOfIsLastWithPath(rs: seq<Record>, fields: seq<string>, q: seq<Value>)
    requires |q| == |fields| > 0
    ensures Lookup(MapOf(rs, fields), q) == LastWithPath(rs, fields, q)
    decreases |rs|
  {
    if |rs| > 0 {
      var prefix := rs[..|rs| - 1];
      var last := rs[|rs| - 1];
      MapOfIsLastWithPath(prefix, fields, q);
      LookupInsert(MapOf(prefix, fields), PathOf(last, fields), last, q);
    }
  }

  /** No record has path `q` exactly when there is no last one with it. */
  lemma {:induction false} LastWithPathNone(rs: seq<Record>, fields: seq<string>, q: seq<Value>)
    ensures LastWithPath(rs, fields, q).None? <==> forall i :: 0 <= i < |rs| ==> PathOf(rs[i], fields) != q
    decreases |rs|
  {
    if |rs| > 0 && PathOf(rs[|rs| - 1], fields) != q {
      var prefix := rs[..|rs| - 1];
      LastWithPathNone(prefix, fields, q);
      if LastWithPath(prefix, fields, q).None? {
        forall i | 0 <= i < |rs| - 1
          ensures PathOf(rs[i], fields) != q
        {
          assert prefix[i] == rs[i];
        }
      } else {
        var i :| 0 <= i < |prefix| && PathOf(prefix[i], fields) == q;
        assert rs[i] == prefix[i];
      }
    }
  }

  /** The record found is one with path `q`, and no later record has it. */
  lemma {:induction false} LastWithPathIsLast(rs: seq<Record>, fields: seq<string>, q: seq<Value>)
    requires LastWithPath(rs, fields, q).Some?
    ensures exists i :: 0 <= i < |rs| && rs[i] == LastWithPath(rs, fields, q).value && PathOf(rs[i], fields) == q &&
                        forall j :: i < j < |rs| ==> PathOf(rs[j], fields) != q
    decreases |rs|
  {
    var prefix := rs[..|rs| - 1];
    if PathOf(rs[|rs| - 1], fields) == q {
      assert rs[|rs| - 1] == LastWithPath(rs, fields, q).value;
    } else {
      LastWithPathIsLast(prefix, fields, q);
      var i :| 0 <= i < |prefix| && prefix[i] == LastWithPath(prefix, fields, q).value && PathOf(prefix[i], fields) == q &&
               forall j :: i < j < |prefix| ==> PathOf(prefix[j], fields) != q;
      assert rs[i] == prefix[i];
      PathLaterOfPrefix(rs, prefix, fields, q, i);
    }
  }

  /** Records whose key paths differ all survive `asMap`: each record is
      found under its own path unless a later record has the same path. */
  lemma DistinctPathsSurvive(rs: seq<Record>, fields: seq<string>, i: nat)
    requires |fields| > 0
    requires i < |rs|
    requires forall j :: i < j < |rs| ==> PathOf(rs[j], fields) != PathOf(rs[i], fields)
    ensures Lookup(MapOf(rs, fields), PathOf(rs[i], fields)) == Some(rs[i])
  {
    var q := PathOf(rs[i], fields);
    MapOfIsLastWithPath(rs, fields, q);
    LastWithPathNone(rs, fields, q);
    LastWithPathIsLast(rs, fields, q);
    var r := LastWithPath(rs, fields, q);
    var k :| 0 <= k < |rs| && rs[k] == r.value && PathOf(rs[k], fields) == q &&
             forall j :: k < j < |rs| ==> PathOf(rs[j], fields) != q;
  }

  /** The values of one field over the records. */
  ghost function FieldValues(rs: seq<Record>, field: string): set<Value>
  {
    set i | 0 <= i < |rs| :: Field(rs[i], field)
  }

  /** The top-level keys of `asMap` are exactly the first key field's
      values over the records. */
  lemma {:induction false} MapOfTopKeys(rs: seq<Record>, fields: seq<string>)
    requires |fields| > 0
    ensures MapOf(rs, fields).Level?
    ensures MapOf(rs, fields).children.Keys == FieldValues(rs, fields[0])
    decreases |rs|
  {
    if |rs| > 0 {
      var prefix := rs[..|rs| - 1];
      MapOfTopKeys(prefix, fields);
      FieldValuesLast(rs, prefix, fields[0]);
    }
  }

  lemma FieldValuesLast(rs: seq<Record>, prefix: seq<Record>, field: string)
    requires |rs| > 0 && prefix == rs[..|rs| - 1]
    ensures FieldValues(rs, field) == FieldValues(prefix, field) + {Field(rs[|rs| - 1], field)}
  {
    forall v | v in FieldValues(rs, field)
      ensures v in FieldValues(prefix, field) + {Field(rs[|rs| - 1], field)}
    {
      var i :| 0 <= i < |rs| && Field(rs[i], field) == v;
      if i < |prefix| {
        assert prefix[i] == rs[i];
      }
    }
    forall v | v in FieldValues(prefix, field)
      ensures v in FieldValues(rs, field)
    {
      var i :| 0 <= i < |prefix| && Field(prefix[i], field) == v;
      assert rs[i] == prefix[i];
    }
  }

  /** With one key field each key maps straight to a record: the last one
      carrying that key value. */
  lemma SingleKeyMap(rs: seq<Record>, field: string, v: Value)
    requires v in MapOf(rs, [field]).children
    ensures LastWithPath(rs, [field], [v]).Some?
    ensures MapOf(rs, [field]).children[v] == Leaf(LastWithPath(rs, [field], [v]).value)
  {
    MapOfIsLastWithPath(rs, [field], [v]);
    MapOfLeaves(rs, [field], v);
    assert [v][1..] == [];
  }

  /** With one key field the map holds records only. */
  lemma {:induction false} MapOfLeaves(rs: seq<Record>, fields: seq<string>, v: Value)
    requires |fields| == 1
    requires v in MapOf(rs, fields).children
    ensures MapOf(rs, fields).children[v].Leaf?
    decreases |rs|
  {
    if |rs| > 0 {
      var prefix := rs[..|rs| - 1];
      var last := rs[|rs| - 1];
      var p := PathOf(last, fields);
      assert p[1..] == [];
      var before := MapOf(prefix, fields);
      assert MapOf(rs, fields) == Insert(before, p, last);
      if v != p[0] {
        assert v in before.children;
        MapOfLeaves(prefix, fields, v);
      } else {
        var child := if p[0] in before.children then before.children[p[0]] else Level(map[]);
        assert MapOf(rs, fields).children[v] == Insert(child, [], last);
      }
    }
  }

  /** `walk` stops on `false` and on a throw only: a callback that never
      returns exactly `false` (whatever else falsy it returns, such as null,
      0 or "") and never throws sees every record, and the walk ends
      without an exception; and only such a callback does. */
  lemma WalkSeesAllUnlessStopped(rs: seq<Record>, callback: Callback)
    ensures FirstStop(rs, callback) == |rs| <==>
            forall i :: 0 <= i < |rs| ==> callback(i, rs[i]).Gives? && callback(i, rs[i]).value != Bool(false)
    ensures FirstStop(rs, callback) == |rs| ==> WalkEnd(rs, callback) == Pass
  {
  }

  /** A throw from the callback leaves `walk` with that exception, the
      records before it having all been seen. */
  lemma {:induction false} WalkThrows(rs: seq<Record>, callback: Callback, n: nat, e: Throwable)
    requires n < |rs|
    requires forall i :: 0 <= i < n ==> !Stops(callback(i, rs[i]))
    requires callback(n, rs[n]) == Raises(e)
    ensures FirstStop(rs, callback) == n
    ensures WalkEnd(rs, callback) == Fail(e)
  {
    StopIs(rs, callback, n);
  }

  class IteratorResult {
    const rows: seq<Record>
    var pos: nat
    var started: bool

    ghost predicate Valid()
      reads this
    {
      pos <= |rows| && (!started ==> pos == 0)
    }

    /** The generator has run past its last row. */
    predicate Finished()
      reads this
    {
      started && pos == |rows|
    }

    /** The row `current()` gives (once the generator has started). */
    function Head(): Option<Record>
      reads this
    {
      if pos < |rows| then Some(rows[pos]) else None
    }

    /** What entering a `foreach` does to the generator: throw, or go on. */
    function Entry(): Outcome<Throwable>
      reads this
    {
      if Finished() then Fail(GeneratorError(ClosedMessage))
      else if pos > 0 then Fail(GeneratorError(RewindMessage))
      else Pass
    }

    constructor(rows: seq<Record>)
      ensures Valid() && this.rows == rows && pos == 0 && !started
    {
      this.rows := rows;
      pos := 0;
      started := false;
    }

    /** `$this->iterator->current()`: starts the generator if needed and
      does not move it. */
    method Current() returns (r: Option<Record>)
      requires Valid()
      modifies this
      ensures Valid() && started && pos == old(pos)
      ensures r == Head()
    {
      started := true;
      r := if pos < |rows| then Some(rows[pos]) else None;
    }

    /** The start of a `foreach`: get the iterator, then rewind. */
    method Enter() returns (o: Outcome<Throwable>)
      requires Valid()
      modifies this
      ensures Valid()
      ensures o == old(Entry())
      ensures o.Pass? ==> started && pos == 0
      ensures o.Fail? ==> pos == old(pos) && started == old(started)
    {
      if started && pos == |rows| {
        return Fail(GeneratorError(ClosedMessage));
      }
      if pos > 0 {
        return Fail(GeneratorError(RewindMessage));
      }
      started := true;
      return Pass;
    }

    method GetRecord() returns (r: Option<Record>)
      requires Valid()
      modifies this
      ensures Valid() && started && pos == old(pos)
      ensures r == old(Head())
    {
      r := Current();
    }

    method GetValue(keyField: Option<string>) returns (v: Value)
      requires Valid()
      modifies this
      ensures Valid() && started && pos == old(pos)
      ensures v == ValueOf(old(Head()), keyField)
    {
      var record := GetRecord();
      if record.None? || |record.value| == 0 {
        return Null;
      }
      v := if keyField.Some? then Field(record.value, keyField.value) else record.value[0].1;
    }

    /** `iterator_to_array`: all records in cursor order. */
    method AsRecords() returns (r: Result<seq<Record>, Throwable>)
      requires Valid()
      modifies this
      ensures Valid()
      ensures r == if old(Entry()).Fail? then Failure(old(Entry()).error) else Success(rows)
      ensures r.Success? ==> Finished()
      ensures r.Failure? ==> pos == old(pos) && started == old(started)
    {
      var o := Enter();
      if o.Fail? {
        return Failure(o.error);
      }
      var result := [];
      while pos < |rows|
        invariant Valid() && started
        invariant result == rows[..pos]
      {
        result := result + [rows[pos]];
        pos := pos + 1;
      }
      assert rows[..pos] == rows;
      return Success(result);
    }

    method JsonSerialize() returns (r: Result<seq<Record>, Throwable>)
      requires Valid()
      modifies this
      ensures Valid()
      ensures r == if old(Entry()).Fail? then Failure(old(Entry()).error) else Success(rows)
      ensures r.Success? ==> Finished()
      ensures r.Failure? ==> pos == old(pos) && started == old(started)
    {
      r := AsRecords();
    }

    method AsRecordsValues() returns (r: Result<seq<seq<Value>>, Throwable>)
      requires Valid()
      modifies this
      ensures Valid()
      ensures r == if old(Entry()).Fail? then Failure(old(Entry()).error) else Success(RecordsValues(rows))
      ensures r.Success? ==> Finished()
      ensures r.Failure? ==> pos == old(pos) && started == old(started)
    {
      var o := Enter();
      if o.Fail? {
        return Failure(o.error);
      }
      var result := [];
      while pos < |rows|
        invariant Valid() && started
        invariant |result| == pos
        invariant forall i :: 0 <= i < pos ==> result[i] == ValuesOf(rows[i])
      {
        result := result + [ValuesOf(rows[pos])];
        pos := pos + 1;
      }
      assert result == RecordsValues(rows);
      return Success(result);
    }

    /** `walk($callback, ...$params)`: the callback is called on the
      records in order until it returns exactly `false` or throws; the
      generator is left on that record, and a throw propagates. `visited`
      is the records the callback was called on. */
    method Walk(callback: Callback) returns (visited: seq<Record>, o: Outcome<Throwable>)
      requires Valid()
      modifies this
      ensures Valid()
      ensures old(Entry()).Fail? ==> o == old(Entry()) && visited == [] && pos == old(pos) && started == old(started)
      ensures old(Entry()).Pass? ==> var n := FirstStop(rows, callback);
                                     && o == WalkEnd(rows, callback)
                                     && visited == rows[..if n < |rows| then n + 1 else n]
                                     && pos == n && started
    {
      o := Enter();
      visited := [];
      if o.Fail? {
        return;
      }
      while pos < |rows|
        invariant Valid() && started
        invariant visited == rows[..pos]
        invariant forall i :: 0 <= i < pos ==> !Stops(callback(i, rows[i]))
      {
        var record := rows[pos];
        visited := visited + [record];
        var answer := callback(pos, record);
        if answer.Raises? {
          StopIs(rows, callback, pos);
          o := Fail(answer.error);
          return;
        }
        if answer.value == Bool(false) {
          StopIs(rows, callback, pos);
          return;
        }
        pos := pos + 1;
      }
      StopIs(rows, callback, pos);
    }

    /** `asColumn($value_field)`: nothing when there is no current record;
      otherwise the field (the first column when the name is missing or
      falsy) of every record, in order. */
    method AsColumn(valueField: Option<string>) returns (r: Result<seq<Value>, Throwable>)
      requires Valid()
      modifies this
      ensures Valid()
      ensures old(Head()).None? || |old(Head()).value| == 0 ==> r == Success([]) && pos == old(pos) && started
      ensures old(Head()).Some? && |old(Head()).value| > 0 ==>
              r == if old(pos) > 0 then Failure(GeneratorError(RewindMessage))
                   else Success(Column(rows, NameOr(valueField, old(Head()).value[0].0)))
      ensures r.Success? && old(Head()).Some? && |old(Head()).value| > 0 ==> Finished()
      ensures r.Failure? ==> pos == old(pos) && started == old(started)
    {
      var cur := Current();
      if cur.None? || |cur.value| == 0 {
        return Success([]);
      }
      var field := NameOr(valueField, cur.value[0].0);
      var o := Enter();
      if o.Fail? {
        return Failure(o.error);
      }
      var result := [];
      while pos < |rows|
        invariant Valid() && started
        invariant |result| == pos
        invariant forall i :: 0 <= i < pos ==> result[i] == Field(rows[i], field)
      {
        result := result + [Field(rows[pos], field)];
        pos := pos + 1;
      }
      assert result == Column(rows, field);
      return Success(result);
    }

    /** `asKeyValue($key_field, $value_field)`: nothing when there is no
      current record; otherwise key field to value field over all records,
      the names falling back to the first and second columns. */
    method AsKeyValue(keyField: Option<string>, valueField: Option<string>) returns (r: Result<map<Value, Value>, Throwable>)
      requires Valid()
      modifies this
      ensures Valid()
      ensures old(Head()).None? || |old(Head()).value| == 0 ==> r == Success(map[]) && pos == old(pos) && started
      ensures old(Head()).Some? && |old(Head()).value| > 0 ==>
              r == if old(pos) > 0 then Failure(GeneratorError(RewindMessage))
                   else Success(KeyValue(rows, NameOr(keyField, old(Head()).value[0].0),
                                         NameOr(valueField, SecondName(old(Head()).value))))
      ensures r.Success? && old(Head()).Some? && |old(Head()).value| > 0 ==> Finished()
      ensures r.Failure? ==> pos == old(pos) && started == old(started)
    {
      var cur := Current();
      if cur.None? || |cur.value| == 0 {
        return Success(map[]);
      }
      var kf := NameOr(keyField, cur.value[0].0);
      var vf := NameOr(valueField, SecondName(cur.value));
      var o := Enter();
      if o.Fail? {
        return Failure(o.error);
      }
      var result := map[];
      while pos < |rows|
        invariant Valid() && started
        invariant result == KeyValue(rows[..pos], kf, vf)
      {
        var record := rows[pos];
        assert rows[..pos + 1][..pos] == rows[..pos];
        result := result[Field(record, kf) := Field(record, vf)];
        pos := pos + 1;
      }
      assert rows[..pos] == rows;
      return Success(result);
    }

    /** The loop of `asMap` with one key field. */
    method IndexBy(field: string) returns (r: Result<Nested, Throwable>)
      requires Valid()
      modifies this
      ensures Valid()
      ensures r == if old(Entry()).Fail? then Failure(old(Entry()).error) else Success(MapOf(rows, [field]))
      ensures r.Success? ==> Finished()
      ensures r.Failure? ==> pos == old(pos) && started == old(started)
    {
      var o := Enter();
      if o.Fail? {
        return Failure(o.error);
      }
      var result: map<Value, Nested> := map[];
      while pos < |rows|
        invariant Valid() && started
        invariant Level(result) == MapOf(rows[..pos], [field])
      {
        var record := rows[pos];
        MapOfPrefix(rows, pos, [field]);
        assert PathOf(record, [field]) == [Field(record, field)];
        InsertLast(result, PathOf(record, [field]), record);
        result := result[Field(record, field) := Leaf(record)];
        pos := pos + 1;
      }
      assert rows[..pos] == rows;
      return Success(Level(result));
    }

    /** The loop of `asMap` with several key fields. */
    method IndexByPath(fields: seq<string>) returns (r: Result<Nested, Throwable>)
      requires Valid()
      requires |fields| >= 2
      modifies this
      ensures Valid()
      ensures r == if old(Entry()).Fail? then Failure(old(Entry()).error) else Success(MapOf(rows, fields))
      ensures r.Success? ==> Finished()
      ensures r.Failure? ==> pos == old(pos) && started == old(started)
    {
      var o := Enter();
      if o.Fail? {
        return Failure(o.error);
      }
      var result: map<Value, Nested> := map[];
      while pos < |rows|
        invariant Valid() && started
        invariant Level(result) == MapOf(rows[..pos], fields)
      {
        var record := rows[pos];
        MapOfPrefix(rows, pos, fields);
        result := StoreByPath(result, record, fields);
        pos := pos + 1;
      }
      assert rows[..pos] == rows;
      return Success(Level(result));
    }

    /** `asMap(...$key_fields)`. With no key field the key is the first
      column of the current record, and nothing is built (or consumed)
      when there is no current record. */
    method AsMap(keyFields: seq<string>) returns (r: Result<Nested, Throwable>)
      requires Valid()
      modifies this
      ensures Valid()
      ensures |keyFields| == 0 && (old(Head()).None? || |old(Head()).value| == 0) ==>
              r == Success(Level(map[])) && pos == old(pos) && started
      ensures |keyFields| == 0 && old(Head()).Some? && |old(Head()).value| > 0 ==>
              r == if old(pos) > 0 then Failure(GeneratorError(RewindMessage))
                   else Success(MapOf(rows, [old(Head()).value[0].0]))
      ensures |keyFields| > 0 ==>
              r == if old(Entry()).Fail? then Failure(old(Entry()).error) else Success(MapOf(rows, keyFields))
      ensures r.Success? && (|keyFields| > 0 || (old(Head()).Some? && |old(Head()).value| > 0)) ==> Finished()
      ensures r.Failure? ==> pos == old(pos) && started == old(started)
    {
      if |keyFields| == 0 {
        var cur := Current();
        if cur.None? || |cur.value| == 0 {
          return Success(Level(map[]));
        }
        r := IndexBy(cur.value[0].0);
      } else if |keyFields| == 1 {
        assert keyFields == [keyFields[0]];
        r := IndexBy(keyFields[0]);
      } else {
        r := IndexByPath(keyFields);
      }
    }
  }

  /** The body of `asMap`'s loop with several key fields, for one record:
      a reference walks down one level per key field but the last,
      creating each missing level, and the record is stored under the last
      key. The walk keeps the levels it passed and the keys it took, and
      the assignments made through the reference are then seen from the
      top. */
  method StoreByPath(result: map<Value, Nested>, record: Record, fields: seq<string>) returns (res: map<Value, Nested>)
    requires |fields| >= 2
    ensures Level(res) == Insert(Level(result), PathOf(record, fields), record)
  {
    var keys := fields[..|fields| - 1];
    var last := fields[|fields| - 1];
    assert keys + [last] == fields;
    var above: seq<(map<Value, Nested>, Value)> := [];
    var target := result;
    while |keys| > 0
      invariant Plug(above, Insert(Level(target), PathOf(record, keys + [last]), record)) ==
                Insert(Level(result), PathOf(record, fields), record)
      decreases |keys|
    {
      var keyVal := Field(record, keys[0]);
      var child := if keyVal in target && target[keyVal].Level? then target[keyVal].children else map[];
      Descend(above, target, keys, last, record);
      above := above + [(target, keyVal)];
      target := child;
      keys := keys[1..];
    }
    assert keys + [last] == [last];
    InsertLast(target, PathOf(record, [last]), record);
    target := target[Field(record, last) := Leaf(record)];
    var t := Climb(above, Level(target));
    res := t.children;
  }

  /** Assigning back up through the levels passed on the way down. */
  method Climb(above: seq<(map<Value, Nested>, Value)>, t: Nested) returns (u: Nested)
    ensures u == Plug(above, t)
  {
    var rest := above;
    u := t;
    while |rest| > 0
      invariant Plug(rest, u) == Plug(above, t)
      decreases |rest|
    {
      var (m, k) := rest[|rest| - 1];
      u := Level(m[k := u]);
      rest := rest[..|rest| - 1];
    }
  }

  // ----- helpers of the loops -----

  /** Climbing back up the levels above a reference, assigning each one. */
  function Plug(above: seq<(map<Value, Nested>, Value)>, t: Nested): Nested
    decreases |above|
  {
    if |above| == 0 then t
    else
      var (m, k) := above[|above| - 1];
      Plug(above[..|above| - 1], Level(m[k := t]))
  }

  /** Going one level down, below the first key left, keeps what the
      levels passed will make of the store once assigned back. */
  lemma Descend(above: seq<(map<Value, Nested>, Value)>, m: map<Value, Nested>, keys: seq<string>, last: string, r: Record)
    requires |keys| > 0
    ensures var k := Field(r, keys[0]);
            var child := if k in m && m[k].Level? then m[k].children else map[];
            Plug(above + [(m, k)], Insert(Level(child), PathOf(r, keys[1..] + [last]), r)) ==
            Plug(above, Insert(Level(m), PathOf(r, keys + [last]), r))
  {
    var path := PathOf(r, keys + [last]);
    var k := Field(r, keys[0]);
    var child := if k in m && m[k].Level? then m[k].children else map[];
    assert path[0] == k;
    assert (keys + [last])[1..] == keys[1..] + [last];
    assert path[1..] == PathOf(r, keys[1..] + [last]);
    InsertStep(m, path, r);
    PlugAppend(above, m, k, Insert(Level(child), path[1..], r));
  }

  lemma PlugAppend(above: seq<(map<Value, Nested>, Value)>, m: map<Value, Nested>, k: Value, t: Nested)
    ensures Plug(above + [(m, k)], t) == Plug(above, Level(m[k := t]))
  {
    assert (above + [(m, k)])[..|above|] == above;
  }

  /** One level of the walk down: storing below a key is storing in the
      child array there (an empty one when it is missing). */
  lemma InsertStep(m: map<Value, Nested>, path: seq<Value>, r: Record)
    requires |path| >= 2
    ensures var child := if path[0] in m && m[path[0]].Level? then m[path[0]].children else map[];
            Insert(Level(m), path, r) == Level(m[path[0] := Insert(Level(child), path[1..], r)])
  {
  }

  lemma InsertLast(m: map<Value, Nested>, path: seq<Value>, r: Record)
    requires |path| == 1
    ensures Insert(Level(m), path, r) == Level(m[path[0] := Leaf(r)])
  {
    assert path[1..] == [];
  }

  /** One more record of a prefix is one more store into its map. */
  lemma MapOfPrefix(rs: seq<Record>, n: nat, fields: seq<string>)
    requires n < |rs|
    ensures MapOf(rs[..n + 1], fields) == Insert(MapOf(rs[..n], fields), PathOf(rs[n], fields), rs[n])
  {
    assert rs[..n + 1][..n] == rs[..n];
  }

  lemma StopIs(rs: seq<Record>, callback: Callback, n: nat)
    requires n <= |rs|
    requires forall i :: 0 <= i < n ==> !Stops(callback(i, rs[i]))
    requires n < |rs| ==> Stops(callback(n, rs[n]))
    ensures FirstStop(rs, callback) == n
  {
  }
}
