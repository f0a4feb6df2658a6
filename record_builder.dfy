/**
 * buildNestedObject: one record from a header row and a row of cells, each
 * header split on '.' into a key path and each cell typed as a number or a string.
 */
module RecordBuilder {
  import opened JsValues
  import opened PathSetter

  /** The parts of `s` between occurrences of `sep`, as String.prototype.split does for one character. */
  function Split(s: string, sep: char): (parts: seq<string>)
    ensures |parts| >= 1
    ensures Join(parts, [sep]) == s
    ensures forall i :: 0 <= i < |parts| ==> sep !in parts[i]
    decreases |s|
  {
    if |s| == 0 then [""]
    else
      var rest := Split(s[1..], sep);
      if s[0] == sep then [""] + rest
      else
        assert s == [s[0]] + s[1..];
        [[s[0]] + rest[0]] + rest[1..]
  }

  /** The number of occurrences of `c` in `s`. */
  function Count(s: string, c: char): nat
    decreases |s|
  {
    if |s| == 0 then 0 else (if s[0] == c then 1 else 0) + Count(s[1..], c)
  }

  /** A line has one more cell than it has separators. */
  lemma {:induction false} SplitCount(s: string, sep: char)
    ensures |Split(s, sep)| == Count(s, sep) + 1
    decreases |s|
  {
    if |s| > 0 {
      SplitCount(s[1..], sep);
    }
  }

  /** Type inference for one cell: a number exactly when the cell is non-empty and `Number(cell)` is not NaN. */
  function Classify(raw: string, numerals: Numerals): (v: Value)
    ensures v.Num? <==> raw != "" && numerals.parse(raw).Some?
    ensures v.Num? ==> v.n == numerals.parse(raw).value
    ensures !v.Num? ==> v == Str(raw)
  {
    if raw != "" && numerals.parse(raw).Some? then Num(numerals.parse(raw).value) else Str(raw)
  }

  /** The record after the first `n` columns have been applied, in column order. */
  function BuildPrefix(headers: seq<string>, values: seq<string>, numerals: Numerals, n: nat): Record
    requires |headers| == |values| && n <= |headers|
    decreases n
  {
    if n == 0 then map[]
    else SetPath(BuildPrefix(headers, values, numerals, n - 1), Split(headers[n - 1], '.'), Classify(values[n - 1], numerals))
  }

  /** The record buildNestedObject returns. */
  function Build(headers: seq<string>, values: seq<string>, numerals: Numerals): Record
    requires |headers| == |values|
  {
    BuildPrefix(headers, values, numerals, |headers|)
  }

  /** The error writing column `i` throws, into the record of the columns before it. */
  function ColumnThrow(headers: seq<string>, values: seq<string>, numerals: Numerals, i: nat): Option<Error>
    requires |headers| == |values| && i < |headers|
  {
    Thrown(BuildPrefix(headers, values, numerals, i), Split(headers[i], '.'))
  }

  /** The error of the first of the first `n` columns whose write throws, if any. */
  function FirstThrow(headers: seq<string>, values: seq<string>, numerals: Numerals, n: nat): Option<Error>
    requires |headers| == |values| && n <= |headers|
    decreases n
  {
    if n == 0 then None
    else match FirstThrow(headers, values, numerals, n - 1)
      case Some(e) => Some(e)
      case None => ColumnThrow(headers, values, numerals, n - 1)
  }

  /** What buildNestedObject returns, or the error it throws. */
  function BuildResult(headers: seq<string>, values: seq<string>, numerals: Numerals): Result<Record>
    requires |headers| == |values|
  {
    match FirstThrow(headers, values, numerals, |headers|)
    case Some(e) => Failure(e)
    case None => Success(Build(headers, values, numerals))
  }

  /**
   * No column among the first `n` throws exactly when FirstThrow finds none;
   * when one does, FirstThrow is the error of the first that does.
   */
  lemma {:induction false} FirstThrowAt(headers: seq<string>, values: seq<string>, numerals: Numerals, n: nat)
    requires |headers| == |values| && n <= |headers|
    ensures FirstThrow(headers, values, numerals, n).None?
        <==> forall i :: 0 <= i < n ==> ColumnThrow(headers, values, numerals, i).None?
    ensures FirstThrow(headers, values, numerals, n).Some? ==>
      exists i :: 0 <= i < n && ColumnThrow(headers, values, numerals, i) == FirstThrow(headers, values, numerals, n)
        && forall j :: 0 <= j < i ==> ColumnThrow(headers, values, numerals, j).None?
    decreases n
  {
    if n > 0 {
      FirstThrowAt(headers, values, numerals, n - 1);
      if FirstThrow(headers, values, numerals, n - 1).None? && FirstThrow(headers, values, numerals, n).Some? {
        assert ColumnThrow(headers, values, numerals, n - 1) == FirstThrow(headers, values, numerals, n);
      }
    }
  }

  /** Once a column has thrown, later columns are never reached: the error stays the first one. */
  lemma {:induction false} FirstThrowSticks(headers: seq<string>, values: seq<string>, numerals: Numerals, n: nat, m: nat)
    requires |headers| == |values| && n <= m <= |headers|
    requires FirstThrow(headers, values, numerals, n).Some?
    ensures FirstThrow(headers, values, numerals, m) == FirstThrow(headers, values, numerals, n)
    decreases m
  {
    if m > n {
      FirstThrowSticks(headers, values, numerals, n, m - 1);
    }
  }

  /** Headers with at most one '.' never make buildNestedObject throw. */
  lemma ShallowHeadersBuild(headers: seq<string>, values: seq<string>, numerals: Numerals)
    requires |headers| == |values|
    requires forall i :: 0 <= i < |headers| ==> Count(headers[i], '.') <= 1
    ensures BuildResult(headers, values, numerals) == Success(Build(headers, values, numerals))
  {
    forall i | 0 <= i < |headers|
      ensures ColumnThrow(headers, values, numerals, i).None?
    {
      SplitCount(headers[i], '.');
    }
    FirstThrowAt(headers, values, numerals, |headers|);
  }

  /**
   * Fills a fresh object one column at a time through setNestedProperty; a
   * write that throws ends the call with its error.
   */
  method BuildNestedObject(headers: seq<string>, values: seq<string>, numerals: Numerals) returns (r: Result<Record>)
    requires |headers| == |values|
    ensures r == BuildResult(headers, values, numerals)
  {
    var jsonObject := new JsonObject();
    for i := 0 to |headers|
      invariant jsonObject.fields == BuildPrefix(headers, values, numerals, i)
      invariant FirstThrow(headers, values, numerals, i) == None
    {
      var pathArray := Split(headers[i], '.');
      var value := Classify(values[i], numerals);
      var o := jsonObject.SetNestedProperty(pathArray, value);
      if o.Fail? {
        FirstThrowSticks(headers, values, numerals, i + 1, |headers|);
        return Failure(o.error);
      }
    }
    r := Success(jsonObject.fields);
  }

  /** The last column always lands at its path when nothing earlier blocks it, and reads back as its typed cell. */
  lemma LastColumnReaches(headers: seq<string>, values: seq<string>, numerals: Numerals)
    requires |headers| == |values| > 0
    requires Reachable(BuildPrefix(headers, values, numerals, |headers| - 1), Split(headers[|headers| - 1], '.'))
    ensures Lookup(Build(headers, values, numerals), Split(headers[|headers| - 1], '.'))
         == Some(Classify(values[|values| - 1], numerals))
  {
    SetPathReaches(BuildPrefix(headers, values, numerals, |headers| - 1), Split(headers[|headers| - 1], '.'),
                   Classify(values[|values| - 1], numerals));
  }

  /**
   * A header repeated at columns i < j: once column j is written, and nothing
   * blocks its path, the path reads back column j's cell, whatever column i
   * wrote there.
   */
  lemma RepeatedHeaderLaterWins(headers: seq<string>, values: seq<string>, numerals: Numerals, i: nat, j: nat)
    requires |headers| == |values| && i < j < |headers| && headers[i] == headers[j]
    requires Reachable(BuildPrefix(headers, values, numerals, j), Split(headers[j], '.'))
    ensures Lookup(BuildPrefix(headers, values, numerals, j + 1), Split(headers[j], '.'))
         == Some(Classify(values[j], numerals))
  {
    var path, v := Split(headers[j], '.'), Classify(values[j], numerals);
    BuildStep(headers, values, numerals, j + 1, path, v);
    SetPathReaches(BuildPrefix(headers, values, numerals, j), path, v);
  }

  /**
   * What column j wrote survives the columns after it up to n whose paths are
   * neither a prefix nor an extension of its own.
   */
  lemma {:induction false} LaterColumnsKeep(headers: seq<string>, values: seq<string>, numerals: Numerals, j: nat, n: nat)
    requires |headers| == |values| && j < n <= |headers|
    requires Lookup(BuildPrefix(headers, values, numerals, j + 1), Split(headers[j], '.'))
          == Some(Classify(values[j], numerals))
    requires forall c :: j < c < n ==>
      !IsPrefix(Split(headers[c], '.'), Split(headers[j], '.')) && !IsPrefix(Split(headers[j], '.'), Split(headers[c], '.'))
    ensures Lookup(BuildPrefix(headers, values, numerals, n), Split(headers[j], '.'))
         == Some(Classify(values[j], numerals))
    decreases n
  {
    if n > j + 1 {
      LaterColumnsKeep(headers, values, numerals, j, n - 1);
      var path, v := Split(headers[n - 1], '.'), Classify(values[n - 1], numerals);
      BuildStep(headers, values, numerals, n, path, v);
      SetPathKeepsSiblings(BuildPrefix(headers, values, numerals, n - 1), path, v, Split(headers[j], '.'));
    }
  }

  /** Writing at a one-key path sets that key. */
  lemma SetPathOneKey(m: Record, k: string, v: Value)
    ensures SetPath(m, [k], v) == m[k := v]
  {
  }

  /** Writing at a two-key path sets the inner key inside the mapping the walk descends into. */
  lemma SetPathTwoKeys(m: Record, k1: string, k2: string, v: Value, child: Record)
    requires Descend(m, k1) == Some(child)
    ensures SetPath(m, [k1, k2], v) == m[k1 := Obj(child[k2 := v])]
  {
    assert [k1, k2][1..] == [k2];
    assert Write(child, [k2], v) == Some(child[k2 := v]);
    assert Write(m, [k1, k2], v) == Some(m[k1 := Obj(child[k2 := v])]);
  }

  /** One more column of a record: the record so far with the column's typed cell written at its path. */
  lemma BuildStep(headers: seq<string>, values: seq<string>, numerals: Numerals, n: nat, path: seq<string>, v: Value)
    requires |headers| == |values| && 0 < n <= |headers|
    requires Split(headers[n - 1], '.') == path && Classify(values[n - 1], numerals) == v
    ensures BuildPrefix(headers, values, numerals, n) == SetPath(BuildPrefix(headers, values, numerals, n - 1), path, v)
  {
  }

  /**
   * The shape of the worked example `name.firstName,name.lastName,age,gender`
   * over `Jane,Doe,30,female`: two columns under one mapping, two top-level ones,
   * each cell typed on its own, and no write throws.
   */
  lemma TwoLevelExample(numerals: Numerals, n: string, f: string, l: string, a: string, g: string,
                        fv: string, lv: string, av: string, gv: string)
    requires '.' !in n && '.' !in f && '.' !in l && '.' !in a && '.' !in g
    requires f != l && n != a && n != g && a != g
    ensures BuildResult([n + "." + f, n + "." + l, a, g], [fv, lv, av, gv], numerals)
         == Success(map[n := Obj(map[f := Classify(fv, numerals), l := Classify(lv, numerals)]),
                        a := Classify(av, numerals), g := Classify(gv, numerals)])
  {
    var headers := [n + "." + f, n + "." + l, a, g];
    var values := [fv, lv, av, gv];
    OneDot(n, f);
    OneDot(n, l);
    NoDot(a);
    NoDot(g);
    assert forall i :: 0 <= i < 4 ==> Count(headers[i], '.') <= 1;
    ShallowHeadersBuild(headers, values, numerals);
    var cf, cl, ca, cg := Classify(fv, numerals), Classify(lv, numerals), Classify(av, numerals), Classify(gv, numerals);
    var r1 := map[n := Obj(map[f := cf])];
    assert BuildPrefix(headers, values, numerals, 1) == r1 by {
      SplitExample(n, f);
      BuildStep(headers, values, numerals, 1, [n, f], cf);
      SetPathTwoKeys(map[], n, f, cf, map[]);
    }
    var r2 := map[n := Obj(map[f := cf, l := cl])];
    assert BuildPrefix(headers, values, numerals, 2) == r2 by {
      SplitExample(n, l);
      BuildStep(headers, values, numerals, 2, [n, l], cl);
      assert Descend(r1, n) == Some(map[f := cf]);
      SetPathTwoKeys(r1, n, l, cl, map[f := cf]);
    }
    var r3 := r2[a := ca];
    assert BuildPrefix(headers, values, numerals, 3) == r3 by {
      SplitNoSep(a, '.');
      BuildStep(headers, values, numerals, 3, [a], ca);
      SetPathOneKey(r2, a, ca);
    }
    assert BuildPrefix(headers, values, numerals, 4) == r3[g := cg] by {
      SplitNoSep(g, '.');
      BuildStep(headers, values, numerals, 4, [g], cg);
      SetPathOneKey(r3, g, cg);
    }
  }

  /** The worked example itself: `Jane,Doe,30,female` under `name.firstName,name.lastName,age,gender`. */
  lemma JaneDoeExample(numerals: Numerals)
    requires numerals.parse("30") == Some(30.0)
    requires numerals.parse("Jane") == None && numerals.parse("Doe") == None && numerals.parse("female") == None
    ensures BuildResult(["name.firstName", "name.lastName", "age", "gender"], ["Jane", "Doe", "30", "female"], numerals)
         == Success(map["name" := Obj(map["firstName" := Str("Jane"), "lastName" := Str("Doe")]),
                        "age" := Num(30.0), "gender" := Str("female")])
  {
    assert "name" + "." + "firstName" == "name.firstName";
    assert "name" + "." + "lastName" == "name.lastName";
    assert Classify("Jane", numerals) == Str("Jane") && Classify("Doe", numerals) == Str("Doe");
    assert Classify("30", numerals) == Num(30.0) && Classify("female", numerals) == Str("female");
    TwoLevelExample(numerals, "name", "firstName", "lastName", "age", "gender", "Jane", "Doe", "30", "female");
  }

  /** A string without the separator is one part. */
  lemma {:induction false} SplitNoSep(s: string, sep: char)
    requires sep !in s
    ensures Split(s, sep) == [s]
    decreases |s|
  {
    if |s| > 0 {
      assert sep !in s[1..];
      SplitNoSep(s[1..], sep);
    }
  }

  /** A word without '.' has no dot to count. */
  lemma NoDot(a: string)
    requires '.' !in a
    ensures Count(a, '.') == 0
  {
    SplitNoSep(a, '.');
    SplitCount(a, '.');
  }

  /** Two words without '.' joined by '.' have one dot. */
  lemma OneDot(a: string, b: string)
    requires '.' !in a && '.' !in b
    ensures Count(a + "." + b, '.') == 1
  {
    SplitExample(a, b);
    SplitCount(a + "." + b, '.');
  }

  /** Two separator-free words joined by '.' split back into the two words. */
  lemma {:induction false} SplitExample(a: string, b: string)
    requires '.' !in a && '.' !in b
    ensures Split(a + "." + b, '.') == [a, b]
    decreases |a|
  {
    if |a| == 0 {
      assert a + "." + b == ['.'] + b;
      assert (['.'] + b)[1..] == b;
      SplitNoSep(b, '.');
    } else {
      assert (a + "." + b)[1..] == a[1..] + "." + b;
      assert '.' !in a[1..];
      SplitExample(a[1..], b);
      assert a == [a[0]] + a[1..];
    }
  }
}
