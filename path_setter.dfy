/**
 * setNestedProperty: writing a value at a dotted key path inside a record,
 * creating a fresh mapping wherever the slot on the way is falsy.
 */
module PathSetter {
  import opened JsValues

  /**
   * The key `pathArray[pathArray.length - 1]` denotes: for an empty path the
   * index is -1, which reads undefined, which becomes the property key "undefined".
   */
  function LastKey(path: seq<string>): string {
    if |path| == 0 then "undefined" else path[|path| - 1]
  }

  /**
   * The mapping the walk continues in after visiting slot `key` of `m`: a fresh
   * empty mapping when the slot is falsy (absent, "" or 0), the mapping already
   * there, or None when a truthy non-mapping value sits there.
   */
  function Descend(m: Record, key: string): Option<Record> {
    if key !in m || !Truthy(m[key]) then Some(map[])
    else match m[key]
      case Obj(child) => Some(child)
      case _ => None
  }

  /**
   * The record after writing `v` at `path`; None when the walk meets a truthy
   * non-mapping value, where the assignment lands on a primitive and is lost.
   */
  function Write(m: Record, path: seq<string>, v: Value): Option<Record>
    decreases |path|
  {
    if |path| <= 1 then Some(m[LastKey(path) := v])
    else match Descend(m, path[0])
      case None => None
      case Some(child) =>
        match Write(child, path[1..], v)
        case None => None
        case Some(c) => Some(m[path[0] := Obj(c)])
  }

  /** The record setNestedProperty leaves behind (unchanged when the write is lost). */
  function SetPath(m: Record, path: seq<string>, v: Value): Record {
    match Write(m, path, v)
    case Some(m') => m'
    case None => m
  }

  /** No truthy non-mapping value blocks the walk along `path`. */
  predicate Reachable(m: Record, path: seq<string>)
    decreases |path|
  {
    |path| <= 1 ||
    match Descend(m, path[0])
    case None => false
    case Some(child) => Reachable(child, path[1..])
  }

  /** The value found by following `path` from `m`, if every step meets a mapping. */
  function Lookup(m: Record, path: seq<string>): Option<Value>
    decreases |path|
  {
    if |path| == 0 || path[0] !in m then None
    else if |path| == 1 then Some(m[path[0]])
    else match m[path[0]]
      case Obj(child) => Lookup(child, path[1..])
      case _ => None
  }

  /** The TypeError a property read on undefined raises. */
  function ReadOfUndefined(key: string): Error {
    Error("Cannot read properties of undefined (reading '" + key + "')")
  }

  /** The TypeError a property assignment on undefined raises. */
  function WriteToUndefined(key: string): Error {
    Error("Cannot set properties of undefined (setting '" + key + "')")
  }

  /**
   * The error setNestedProperty throws, if any. Once the walk has stepped onto
   * a truthy string or number, the next key reads undefined from it (the fresh
   * mapping assigned to the primitive is dropped) and the access after that,
   * a read inside the loop or the final assignment, is on undefined.
   */
  function Thrown(m: Record, path: seq<string>): (e: Option<Error>)
    ensures e.Some? ==> |path| > 2 && !Reachable(m, path)
    decreases |path|
  {
    if |path| <= 2 then None
    else match Descend(m, path[0])
      case None => Some(if |path| == 3 then WriteToUndefined(path[2]) else ReadOfUndefined(path[2]))
      case Some(child) => Thrown(child, path[1..])
  }

  /** `p` is a prefix of `q` (possibly equal). */
  predicate IsPrefix(p: seq<string>, q: seq<string>) {
    |p| <= |q| && q[..|p|] == p
  }

  // ---------------------------------------------------------------------------
  // Properties of the setter

  /** The write takes effect exactly when nothing blocks the path. */
  lemma {:induction false} WriteSucceedsIff(m: Record, path: seq<string>, v: Value)
    ensures Write(m, path, v).Some? <==> Reachable(m, path)
    decreases |path|
  {
    if |path| > 1 {
      match Descend(m, path[0]) {
        case None =>
        case Some(child) => WriteSucceedsIff(child, path[1..], v);
      }
    }
  }

  /**
   * The write throws exactly when the walk is blocked before the last two keys:
   * with WriteSucceedsIff, a write lands, is silently lost (blocked at the key
   * before the last), or throws.
   */
  lemma {:induction false} ThrownIffBlockedEarly(m: Record, path: seq<string>)
    requires |path| > 0
    ensures Thrown(m, path).Some? <==> !Reachable(m, path[..|path| - 1])
    decreases |path|
  {
    if |path| > 2 {
      match Descend(m, path[0]) {
        case None =>
        case Some(child) =>
          ThrownIffBlockedEarly(child, path[1..]);
          assert path[..|path| - 1][1..] == path[1..][..|path| - 2];
      }
    }
  }

  /** A blocked write leaves the record as it was. */
  lemma SetPathBlocked(m: Record, path: seq<string>, v: Value)
    requires !Reachable(m, path)
    ensures SetPath(m, path, v) == m
  {
    WriteSucceedsIff(m, path, v);
  }

  /** Every path is reachable in a fresh mapping, whatever its depth. */
  lemma {:induction false} EmptyReachable(path: seq<string>)
    ensures Reachable(map[], path)
    decreases |path|
  {
    if |path| > 1 {
      EmptyReachable(path[1..]);
    }
  }

  /** After an unblocked write, following the path reaches the value written. */
  lemma {:induction false} SetPathReaches(m: Record, path: seq<string>, v: Value)
    requires |path| > 0 && Reachable(m, path)
    ensures Lookup(SetPath(m, path, v), path) == Some(v)
    decreases |path|
  {
    WriteSucceedsIff(m, path, v);
    if |path| > 1 {
      match Descend(m, path[0]) {
        case Some(child) =>
          SetPathReaches(child, path[1..], v);
          WriteSucceedsIff(child, path[1..], v);
      }
    }
  }

  /** Writing into a fresh record always lands, at any depth. */
  lemma SetPathOnEmptyReaches(path: seq<string>, v: Value)
    requires |path| > 0
    ensures Lookup(SetPath(map[], path, v), path) == Some(v)
  {
    EmptyReachable(path);
    SetPathReaches(map[], path, v);
  }

  /** Two paths with the same first key are prefix-related exactly when their tails are. */
  lemma PrefixTail(p: seq<string>, q: seq<string>)
    requires |p| > 0 && |q| > 0 && p[0] == q[0]
    ensures IsPrefix(p[1..], q[1..]) <==> IsPrefix(p, q)
  {
    if IsPrefix(p[1..], q[1..]) {
      assert q[..|p|] == [q[0]] + q[1..][..|p| - 1];
      assert p == [p[0]] + p[1..];
    }
  }

  /**
   * A path that is neither a prefix nor an extension of the written path reads
   * the same before and after the write: sibling keys are not disturbed.
   */
  lemma {:induction false} WriteKeepsOthers(m: Record, path: seq<string>, v: Value, q: seq<string>, m': Record)
    requires |path| > 0 && |q| > 0
    requires !IsPrefix(q, path) && !IsPrefix(path, q)
    requires Write(m, path, v) == Some(m')
    ensures Lookup(m', q) == Lookup(m, q)
    decreases |path|
  {
    if q[0] != path[0] {
      assert q[0] != LastKey(path) || |path| > 1;
    } else {
      assert q[..1] == [q[0]] && path[..1] == [path[0]];
      assert |path| > 1 && |q| > 1;
      match Descend(m, path[0]) {
        case Some(child) =>
          var c :| Write(child, path[1..], v) == Some(c);
          assert m' == m[path[0] := Obj(c)];
          PrefixTail(q, path);
          PrefixTail(path, q);
          WriteKeepsOthers(child, path[1..], v, q[1..], c);
          assert Lookup(m', q) == Lookup(c, q[1..]);
          if path[0] in m && Truthy(m[path[0]]) {
            assert Lookup(m, q) == Lookup(child, q[1..]);
          } else {
            assert Lookup(m, q) == None;
          }
      }
    }
  }

  /** The same, for the record setNestedProperty leaves behind. */
  lemma SetPathKeepsSiblings(m: Record, path: seq<string>, v: Value, q: seq<string>)
    requires |path| > 0 && |q| > 0
    requires !IsPrefix(q, path) && !IsPrefix(path, q)
    ensures Lookup(SetPath(m, path, v), q) == Lookup(m, q)
  {
    match Write(m, path, v) {
      case None =>
      case Some(m') => WriteKeepsOthers(m, path, v, q, m');
    }
  }

  /** A falsy slot on the way is replaced by a fresh mapping holding the rest of the path. */
  lemma SetPathReplacesFalsy(m: Record, path: seq<string>, v: Value)
    requires |path| > 1 && (path[0] !in m || !Truthy(m[path[0]]))
    ensures path[0] in SetPath(m, path, v)
    ensures SetPath(m, path, v)[path[0]] == Obj(SetPath(map[], path[1..], v))
  {
    EmptyReachable(path[1..]);
    WriteSucceedsIff(map[], path[1..], v);
  }

  /** An existing mapping on the way is descended into, not replaced. */
  lemma SetPathDescends(m: Record, path: seq<string>, v: Value, child: Record)
    requires |path| > 1 && path[0] in m && m[path[0]] == Obj(child)
    ensures path[0] in SetPath(m, path, v)
    ensures SetPath(m, path, v)[path[0]] == Obj(SetPath(child, path[1..], v))
  {
  }

  /** Writing twice at the same path: the later value wins, as if only it were written. */
  lemma {:induction false} SetPathOverwrites(m: Record, path: seq<string>, v1: Value, v2: Value)
    ensures SetPath(SetPath(m, path, v1), path, v2) == SetPath(m, path, v2)
    decreases |path|
  {
    if |path| > 1 {
      match Descend(m, path[0]) {
        case None =>
          assert Write(m, path, v1) == None && Write(m, path, v2) == None;
        case Some(child) =>
          SetPathOverwrites(child, path[1..], v1, v2);
          WriteSucceedsIff(child, path[1..], v1);
          WriteSucceedsIff(child, path[1..], v2);
          if Reachable(child, path[1..]) {
            var c1 := SetPath(child, path[1..], v1);
            assert SetPath(m, path, v1) == m[path[0] := Obj(c1)];
            assert Descend(m[path[0] := Obj(c1)], path[0]) == Some(c1);
            WriteSucceedsIff(c1, path[1..], v2);
            assert m[path[0] := Obj(c1)][path[0] := Obj(SetPath(c1, path[1..], v2))]
                == m[path[0] := Obj(SetPath(child, path[1..], v2))];
          }
      }
    }
  }

  // ---------------------------------------------------------------------------
  // The imperative setter

  /**
   * The mappings passed on the way down, each with the key descended through;
   * `Rebuild(trail, x)` puts `x` back in place of the innermost one.
   */
  function Rebuild(trail: seq<(Record, string)>, inner: Record): Record
    decreases |trail|
  {
    if |trail| == 0 then inner
    else
      var (outer, key) := trail[|trail| - 1];
      Rebuild(trail[..|trail| - 1], outer[key := Obj(inner)])
  }

  function Lift(trail: seq<(Record, string)>, r: Option<Record>): Option<Record> {
    match r
    case None => None
    case Some(inner) => Some(Rebuild(trail, inner))
  }

  /** One step down the walk: extending the trail by the slot descended through. */
  lemma DescendStep(trail: seq<(Record, string)>, before: Record, after: Record, rest: seq<string>, v: Value, child: Record)
    requires |rest| > 1
    requires after == if rest[0] !in before || !Truthy(before[rest[0]]) then before[rest[0] := Obj(map[])] else before
    requires rest[0] in after && after[rest[0]] == Obj(child)
    ensures Lift(trail, Write(before, rest, v)) == Lift(trail + [(after, rest[0])], Write(child, rest[1..], v))
    ensures Thrown(before, rest) == Thrown(child, rest[1..])
  {
    var key := rest[0];
    assert Descend(before, key) == Some(child);
    assert (trail + [(after, key)])[..|trail|] == trail;
    match Write(child, rest[1..], v) {
      case None =>
      case Some(c) =>
        assert before[key := Obj(c)] == after[key := Obj(c)];
    }
  }

  /**
   * The walk steps onto a truthy non-mapping value at key `i` of the path: the
   * write does not land, and throws if two or more keys follow.
   */
  lemma BlockedStep(before: Record, path: seq<string>, i: nat, v: Value)
    requires i < |path| - 1 && path[i] in before && Truthy(before[path[i]]) && !before[path[i]].Obj?
    ensures Write(before, path[i..], v) == None
    ensures Thrown(before, path[i..])
         == if i + 2 < |path| then Some(if i + 3 == |path| then WriteToUndefined(path[i + 2]) else ReadOfUndefined(path[i + 2]))
            else None
  {
    assert path[i..][0] == path[i];
    if i + 2 < |path| {
      assert path[i..][2] == path[i + 2];
    }
  }

  /** Puts `inner` back into the mappings of the trail, innermost first. */
  method WriteBack(trail: seq<(Record, string)>, inner: Record) returns (r: Record)
    ensures r == Rebuild(trail, inner)
  {
    r := inner;
    var j := |trail|;
    assert trail[..j] == trail;
    while j > 0
      invariant 0 <= j <= |trail|
      invariant Rebuild(trail[..j], r) == Rebuild(trail, inner)
    {
      assert trail[..j][..j - 1] == trail[..j - 1];
      j := j - 1;
      r := trail[j].0[trail[j].1 := Obj(r)];
    }
  }

  /**
   * The loop of setNestedProperty over all keys but the last: moves `current`
   * down the path, creating a mapping wherever the slot is falsy, and stops at
   * key `i` when that slot holds a truthy string or number (`blocked`). The
   * trail holds the mappings passed, each with the key descended through.
   */
  method Walk(m: Record, path: seq<string>, ghost v: Value)
    returns (current: Record, trail: seq<(Record, string)>, i: nat, blocked: bool)
    ensures i <= |path|
    ensures Write(m, path, v) == Lift(trail, Write(current, path[i..], v))
    ensures Thrown(m, path) == Thrown(current, path[i..])
    ensures blocked ==> i < |path| - 1 && path[i] in current && Truthy(current[path[i]]) && !current[path[i]].Obj?
    ensures !blocked ==> i == if |path| == 0 then 0 else |path| - 1
  {
    current := m;
    trail := [];
    blocked := false;
    i := 0;
    while i < |path| - 1
      invariant 0 <= i <= if |path| == 0 then 0 else |path| - 1
      invariant Write(m, path, v) == Lift(trail, Write(current, path[i..], v))
      invariant Thrown(m, path) == Thrown(current, path[i..])
    {
      var key := path[i];
      ghost var before := current;
      if key !in current || !Truthy(current[key]) {
        current := current[key := Obj(map[])];
      }
      match current[key] {
        case Obj(child) =>
          assert path[i..][1..] == path[i + 1..];
          DescendStep(trail, before, current, path[i..], v, child);
          trail := trail + [(current, key)];
          current := child;
        case _ =>
          blocked := true;
          return;
      }
      i := i + 1;
    }
  }

  /** A JavaScript object that setNestedProperty mutates in place. */
  class JsonObject {
    var fields: Record

    constructor ()
      ensures fields == map[]
    {
      fields := map[];
    }

    /**
     * Walks down the path, then assigns the last key. Intermediate mappings
     * are values here, so the walk keeps the trail of mappings it passed and
     * the updated innermost mapping is written back into them, which is what
     * the shared references achieve in the source. Once `current` is a string
     * or number the rest of the walk touches no mapping: the next key reads
     * undefined, so the value is lost, or the access on undefined two keys
     * further on throws.
     */
    method SetNestedProperty(path: seq<string>, value: Value) returns (o: Outcome)
      modifies this
      ensures fields == SetPath(old(fields), path, value)
      ensures o.Fail? <==> Thrown(old(fields), path).Some?
      ensures o.Fail? ==> o.error == Thrown(old(fields), path).value
    {
      var current, trail, i, blocked := Walk(fields, path, value);
      if blocked {
        BlockedStep(current, path, i, value);
        if i + 2 < |path| {
          var next := path[i + 2];
          return Fail(if i + 3 == |path| then WriteToUndefined(next) else ReadOfUndefined(next));
        }
        return Pass;
      }
      assert LastKey(path[i..]) == LastKey(path);
      fields := WriteBack(trail, current[LastKey(path) := value]);
      return Pass;
    }
  }
}
