/** Scalar values and records, the data that flows between the driver, the
    unit of work and the result views. */
module Values {

  /** A PHP scalar as the driver or a unit of work hands it out. */
  datatype Value = Null | Bool(b: bool) | Int(i: int) | Str(s: string)

  /** One row as `fetch_assoc` returns it: column name to value, in the
      driver's column order. */
  type Record = seq<(string, Value)>

  /** `$record[$name]`: the value of the first column with that name, or
      Null when there is none (PHP warns and yields null). */
  function Field(r: Record, name: string): (v: Value)
    ensures v != Null ==> exists k :: 0 <= k < |r| && r[k] == (name, v)
    ensures (forall k :: 0 <= k < |r| ==> r[k].0 != name) ==> v == Null
    ensures (exists k :: 0 <= k < |r| && r[k].0 == name) ==> exists k :: 0 <= k < |r| && r[k] == (name, v)
  {
    if |r| == 0 then Null
    else if r[0].0 == name then r[0].1
    else
      var v := Field(r[1..], name);
      assert (exists k :: 0 <= k < |r| && r[k].0 == name) ==> exists k :: 0 <= k < |r| && r[k] == (name, v) by {
        if exists k :: 0 <= k < |r| && r[k].0 == name {
          var k0 :| 0 <= k0 < |r| && r[k0].0 == name;
          assert r[1..][k0 - 1] == r[k0];
          var k :| 0 <= k < |r| - 1 && r[1..][k] == (name, v);
          assert r[k + 1] == (name, v);
        }
      }
      v
  }

  /** The column found is the first one with that name. */
  lemma {:induction false} FieldIsFirst(r: Record, name: string, k: nat)
    requires k < |r| && r[k].0 == name
    requires forall j :: 0 <= j < k ==> r[j].0 != name
    ensures Field(r, name) == r[k].1
    decreases k
  {
    if k > 0 {
      assert r[0].0 != name;
      forall j | 0 <= j < k - 1
        ensures r[1..][j].0 != name
      {
        assert r[1..][j] == r[j + 1];
      }
      FieldIsFirst(r[1..], name, k - 1);
    }
  }

  /** `array_values($record)`: the values in column order. */
  function ValuesOf(r: Record): (vs: seq<Value>)
    ensures |vs| == |r|
    ensures forall k :: 0 <= k < |r| ==> vs[k] == r[k].1
  {
    seq(|r|, k requires 0 <= k < |r| => r[k].1)
  }

  /** PHP truthiness of a string, as the `?:` operator tests it. */
  predicate FalsyName(s: string)
  {
    s == "" || s == "0"
  }
}
