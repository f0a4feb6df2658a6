/**
 * transformForDb: the projection of a parsed record onto the four columns of
 * the users table, and the flat parameter list an insert carries them in.
 */
module Rows {
  import opened JsValues

  /** A users-table row: None stands for JavaScript undefined or null, which the driver sends as SQL NULL. */
  datatype Row = Row(name: string, age: Option<Value>, address: Option<Value>, additionalInfo: Record)

  /** One bound query parameter. */
  datatype Param = Null | Val(v: Value)

  /** The TypeError `rawJson.name.firstName` raises when the record has no `name`. */
  const MissingNameError := Error("Cannot read properties of undefined (reading 'firstName')")

  /** The keys the projection moves out of the catch-all column. */
  const ProjectedKeys: set<string> := {"name", "age", "address"}

  /** A property read `v.key`: only mappings have the keys read here. */
  function Property(v: Value, key: string): Option<Value> {
    match v
    case Obj(m) => if key in m then Some(m[key]) else None
    case _ => None
  }

  /** The text a template literal `${x}` produces for a property read. */
  function Render(v: Option<Value>, numerals: Numerals): string {
    match v
    case None => "undefined"
    case Some(Str(s)) => s
    case Some(Num(n)) => numerals.render(n)
    case Some(Obj(_)) => "[object Object]"
  }

  /** The row a record with a name projects to. */
  function Project(record: Record, numerals: Numerals): Row
    requires "name" in record
  {
    var nameValue := record["name"];
    var name := Render(Property(nameValue, "firstName"), numerals) + " " + Render(Property(nameValue, "lastName"), numerals);
    var address := if "address" in record && Truthy(record["address"]) then Some(record["address"]) else None;
    Row(name, Property(Obj(record), "age"), address, record - ProjectedKeys)
  }

  /** transformForDb: throws when `name` is missing, otherwise projects the record. */
  function TransformForDb(record: Record, numerals: Numerals): (r: Result<Row>)
    ensures r.Failure? <==> "name" !in record
    ensures r.Failure? ==> r.error == MissingNameError
    ensures r.Success? ==>
      r.value.name == Render(Property(record["name"], "firstName"), numerals) + " "
                    + Render(Property(record["name"], "lastName"), numerals)
    ensures r.Success? ==> r.value.age == Property(Obj(record), "age")
    ensures r.Success? ==> (r.value.address.Some? <==> "address" in record && Truthy(record["address"]))
    ensures r.Success? && r.value.address.Some? ==> r.value.address.value == record["address"]
    ensures r.Success? ==> r.value.additionalInfo.Keys == record.Keys - ProjectedKeys
    ensures r.Success? ==> forall k :: k in r.value.additionalInfo ==> r.value.additionalInfo[k] == record[k]
  {
    if "name" !in record then Failure(MissingNameError) else Success(Project(record, numerals))
  }

  /** Every record of the batch has a `name`, so none of them throws. */
  predicate AllNamed(batch: seq<Record>) {
    forall i :: 0 <= i < |batch| ==> "name" in batch[i]
  }

  /** A concatenation has only named records exactly when both parts do. */
  lemma AllNamedAppend(xs: seq<Record>, ys: seq<Record>)
    ensures AllNamed(xs + ys) <==> AllNamed(xs) && AllNamed(ys)
  {
    var both := xs + ys;
    if AllNamed(both) {
      forall i | 0 <= i < |xs| ensures "name" in xs[i] {
        assert xs[i] == both[i];
      }
      forall i | 0 <= i < |ys| ensures "name" in ys[i] {
        assert ys[i] == both[|xs| + i];
      }
    }
    if AllNamed(xs) && AllNamed(ys) {
      forall i | 0 <= i < |both| ensures "name" in both[i] {
        if i < |xs| { assert both[i] == xs[i]; } else { assert both[i] == ys[i - |xs|]; }
      }
    }
  }

  /** The rows of a batch in which every record has a name, in order. */
  function ProjectAll(batch: seq<Record>, numerals: Numerals): (rows: seq<Row>)
    requires AllNamed(batch)
    ensures |rows| == |batch|
    ensures forall i {:trigger rows[i]} :: 0 <= i < |batch| ==> rows[i] == Project(batch[i], numerals)
    decreases |batch|
  {
    if |batch| == 0 then []
    else
      var init := batch[..|batch| - 1];
      assert forall i :: 0 <= i < |init| ==> init[i] == batch[i];
      ProjectAll(init, numerals) + [Project(batch[|batch| - 1], numerals)]
  }

  /**
   * `jsonBatch.map(transformForDb)`: the rows in order, or the error of the first
   * record without a name (every such record throws the same error).
   */
  function TransformAll(batch: seq<Record>, numerals: Numerals): (r: Result<seq<Row>>)
    ensures r.Success? <==> AllNamed(batch)
    ensures r.Failure? ==> r.error == MissingNameError
    ensures r.Success? ==> |r.value| == |batch|
  {
    if AllNamed(batch) then Success(ProjectAll(batch, numerals)) else Failure(MissingNameError)
  }

  /** Row i of a projected batch is what transformForDb makes of record i. */
  lemma TransformAllPointwise(batch: seq<Record>, numerals: Numerals)
    requires TransformAll(batch, numerals).Success?
    ensures forall i :: 0 <= i < |batch| ==>
      TransformForDb(batch[i], numerals) == Success(TransformAll(batch, numerals).value[i])
  {
  }

  /** Projecting two batches one after the other is projecting their concatenation. */
  lemma TransformAllAppend(xs: seq<Record>, ys: seq<Record>, numerals: Numerals)
    requires TransformAll(xs, numerals).Success? && TransformAll(ys, numerals).Success?
    ensures TransformAll(xs + ys, numerals)
         == Success(TransformAll(xs, numerals).value + TransformAll(ys, numerals).value)
  {
    var rx, ry := TransformAll(xs, numerals).value, TransformAll(ys, numerals).value;
    var both := xs + ys;
    assert AllNamed(both) by {
      forall i | 0 <= i < |both| ensures "name" in both[i] {
        if i < |xs| { assert both[i] == xs[i]; } else { assert both[i] == ys[i - |xs|]; }
      }
    }
    var r := TransformAll(both, numerals).value;
    forall i | 0 <= i < |both| ensures r[i] == (rx + ry)[i] {
      if i < |xs| {
        assert both[i] == xs[i];
        assert r[i] == Project(xs[i], numerals) == rx[i];
      } else {
        assert both[i] == ys[i - |xs|];
        assert r[i] == Project(ys[i - |xs|], numerals) == ry[i - |xs|];
      }
    }
    assert r == rx + ry;
  }

  /** The end-to-end example: Jane Doe, 30, with a gender column and no address. */
  lemma JaneDoeRow(numerals: Numerals)
    ensures TransformForDb(map["name" := Obj(map["firstName" := Str("Jane"), "lastName" := Str("Doe")]),
                               "age" := Num(30.0), "gender" := Str("female")], numerals)
         == Success(Row("Jane Doe", Some(Num(30.0)), None, map["gender" := Str("female")]))
  {
    var record := map["name" := Obj(map["firstName" := Str("Jane"), "lastName" := Str("Doe")]),
                      "age" := Num(30.0), "gender" := Str("female")];
    assert record - ProjectedKeys == map["gender" := Str("female")];
    assert "Jane" + " " + "Doe" == "Jane Doe";
  }

  // ---------------------------------------------------------------------------
  // Parameter layout

  /** The four parameters of one row, in column order; undefined and null both bind as NULL. */
  function RowParams(row: Row): (ps: seq<Param>)
    ensures |ps| == 4
  {
    [Val(Str(row.name)), OptionParam(row.age), OptionParam(row.address), Val(Obj(row.additionalInfo))]
  }

  function OptionParam(v: Option<Value>): Param {
    match v
    case None => Null
    case Some(x) => Val(x)
  }

  /** The parameters of all rows, row after row. */
  function FlatParams(rows: seq<Row>): (ps: seq<Param>)
    ensures |ps| == 4 * |rows|
    decreases |rows|
  {
    if |rows| == 0 then [] else FlatParams(rows[..|rows| - 1]) + RowParams(rows[|rows| - 1])
  }

  /** Row k's name, age, address and catch-all sit at positions 4k to 4k+3. */
  lemma {:induction false} FlatParamsAt(rows: seq<Row>, k: nat, j: nat)
    requires k < |rows| && j < 4
    ensures FlatParams(rows)[4 * k + j] == RowParams(rows[k])[j]
    decreases |rows|
  {
    var last := |rows| - 1;
    if k < last {
      FlatParamsAt(rows[..last], k, j);
      assert rows[..last][k] == rows[k];
    }
  }

  /** Reads one row back from its four parameters, if they have the shapes RowParams gives. */
  function DecodeRow(ps: seq<Param>): Option<Row>
    requires |ps| == 4
  {
    match (ps[0], ps[3])
    case (Val(Str(name)), Val(Obj(info))) =>
      Some(Row(name, DecodeOption(ps[1]), DecodeOption(ps[2]), info))
    case _ => None
  }

  function DecodeOption(p: Param): Option<Value> {
    match p
    case Null => None
    case Val(v) => Some(v)
  }

  /** Reads the rows back from a flat parameter list, four parameters per row. */
  function DecodeRows(ps: seq<Param>): Option<seq<Row>>
    decreases |ps|
  {
    if |ps| == 0 then Some([])
    else if |ps| < 4 then None
    else match (DecodeRow(ps[..4]), DecodeRows(ps[4..]))
      case (Some(row), Some(rest)) => Some([row] + rest)
      case _ => None
  }

  /** One row's parameters decode back to that row. */
  lemma DecodeRowParams(row: Row)
    ensures DecodeRow(RowParams(row)) == Some(row)
  {
    match row.age {
      case None =>
      case Some(_) =>
    }
    match row.address {
      case None =>
      case Some(_) =>
    }
  }

  /** The layout read from the front: the first row's four parameters, then the others'. */
  lemma {:induction false} FlatParamsCons(rows: seq<Row>)
    requires |rows| > 0
    ensures FlatParams(rows) == RowParams(rows[0]) + FlatParams(rows[1..])
    decreases |rows|
  {
    if |rows| > 1 {
      var init := rows[..|rows| - 1];
      FlatParamsCons(init);
      assert init[1..] == rows[1..][..|rows[1..]| - 1];
      assert init[0] == rows[0];
    } else {
      assert rows[..0] == [];
    }
  }

  /** The parameter layout loses nothing: decoding it gives back the rows. */
  lemma {:induction false} DecodeFlatParams(rows: seq<Row>)
    ensures DecodeRows(FlatParams(rows)) == Some(rows)
    decreases |rows|
  {
    if |rows| > 0 {
      var head, rest := RowParams(rows[0]), FlatParams(rows[1..]);
      FlatParamsCons(rows);
      var ps := head + rest;
      assert ps[..4] == head && ps[4..] == rest;
      DecodeRowParams(rows[0]);
      DecodeFlatParams(rows[1..]);
      assert [rows[0]] + rows[1..] == rows;
    }
  }

  /** And only such layouts decode: a list that decodes is the layout of what it decodes to. */
  lemma {:induction false} DecodedIsLayout(ps: seq<Param>, rows: seq<Row>)
    requires DecodeRows(ps) == Some(rows)
    ensures FlatParams(rows) == ps
    decreases |ps|
  {
    if |ps| > 0 {
      var row, rest := DecodeRow(ps[..4]).value, DecodeRows(ps[4..]).value;
      assert rows == [row] + rest;
      DecodedIsLayout(ps[4..], rest);
      LayoutOfDecodedRow(ps[..4], row);
      FlatParamsCons(rows);
      assert rows[1..] == rest;
      assert ps == ps[..4] + ps[4..];
    }
  }

  /** Four parameters that decode to a row are that row's parameters. */
  lemma LayoutOfDecodedRow(tail: seq<Param>, row: Row)
    requires |tail| == 4 && DecodeRow(tail) == Some(row)
    ensures RowParams(row) == tail
  {
    assert tail[1] == OptionParam(DecodeOption(tail[1]));
    assert tail[2] == OptionParam(DecodeOption(tail[2]));
  }
}
