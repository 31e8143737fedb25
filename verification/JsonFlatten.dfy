/**
  Flattening a value into an object of pointer strings and rebuilding it
  (json.hpp `flatten`, `unflatten`, `get_and_create`).
 */
module JsonFlatten {
  import opened JsonValue
  import opened JsonPointer
  import opened JsonPatch

  const ZERO_TOKEN: Bytes := [0x30]

  predicate IsPrimitive(j: Json) {
    !j.Array? && !j.Object?
  }

  /** A value that flattens to a single entry. */
  predicate IsLeaf(j: Json) {
    match j
    case Array(es) => es == []
    case Object(m) => m == map[]
    case _ => true
  }

  /** Empty containers are flattened to null. */
  function LeafValue(j: Json): Json {
    if IsPrimitive(j) then j else Null
  }

  // ---------- flatten ----------

  function FlattenInto(path: Bytes, j: Json, acc: map<Bytes, Json>): map<Bytes, Json>
    decreases j, 1, 0
  {
    if IsLeaf(j) then acc[path := LeafValue(j)]
    else if j.Array? then FlattenElems(path, j, 0, acc)
    else FlattenMembers(path, j, SortedKeys(j.members.Keys), acc)
  }

  function FlattenElems(path: Bytes, j: Json, i: nat, acc: map<Bytes, Json>): map<Bytes, Json>
    requires j.Array? && i <= |j.elems|
    decreases j, 0, |j.elems| - i
  {
    if i == |j.elems| then acc
    else FlattenElems(path, j, i + 1, FlattenInto(IndexPath(path, i), j.elems[i], acc))
  }

  function FlattenMembers(path: Bytes, j: Json, ks: seq<Bytes>, acc: map<Bytes, Json>): map<Bytes, Json>
    requires j.Object? && forall k :: k in ks ==> k in j.members
    decreases j, 0, |ks|
  {
    if ks == [] then acc
    else FlattenMembers(path, j, ks[1..], FlattenInto(KeyPath(path, ks[0]), j.members[ks[0]], acc))
  }

  function Flatten(j: Json): Json {
    Object(FlattenInto([], j, map[]))
  }

  /** The recursive loops of `flatten`, which insert into the result object. */
  method FlattenLoop(path: Bytes, j: Json, acc: map<Bytes, Json>) returns (r: map<Bytes, Json>)
    ensures r == FlattenInto(path, j, acc)
    decreases j, 1
  {
    hide FlattenElems;
    hide FlattenMembers;
    hide SortedKeys;
    match j {
      case Array(es) =>
        if es == [] {
          r := acc[path := Null];
        } else {
          r := FlattenArrayLoop(path, j, acc);
        }
      case Object(m) =>
        if m == map[] {
          r := acc[path := Null];
        } else {
          r := FlattenObjectLoop(path, j, SortedKeys(m.Keys), acc);
        }
      case _ => r := acc[path := j];
    }
  }

  method FlattenArrayLoop(path: Bytes, j: Json, acc: map<Bytes, Json>) returns (r: map<Bytes, Json>)
    requires j.Array?
    ensures r == FlattenElems(path, j, 0, acc)
    decreases j, 0
  {
    hide IndexPath;
    hide FlattenInto;
    r := acc;
    for i := 0 to |j.elems|
      invariant FlattenElems(path, j, 0, acc) == FlattenElems(path, j, i, r)
    {
      r := FlattenLoop(IndexPath(path, i), j.elems[i], r);
    }
  }

  method FlattenObjectLoop(path: Bytes, j: Json, ks: seq<Bytes>, acc: map<Bytes, Json>) returns (r: map<Bytes, Json>)
    requires j.Object? && forall k :: k in ks ==> k in j.members
    ensures r == FlattenMembers(path, j, ks, acc)
    decreases j, 0
  {
    hide KeyPath;
    hide FlattenInto;
    r := acc;
    assert ks[0..] == ks;
    for n := 0 to |ks|
      invariant FlattenMembers(path, j, ks, acc) == FlattenMembers(path, j, ks[n..], r)
    {
      assert ks[n..][0] == ks[n] && ks[n..][1..] == ks[n + 1..];
      r := FlattenLoop(KeyPath(path, ks[n]), j.members[ks[n]], r);
    }
  }

  // ---------- unflatten ----------

  /** Assigning through `get_and_create`: the way to the place is created as needed. */
  function CreateAt(j: Json, ts: seq<Bytes>, v: Json): Result<Json>
    decreases |ts|
  {
    if ts == [] then Ok(v) else
      match j
      case Null =>
        var c :- CreateAt(Null, ts[1..], v);
        Ok(if ts[0] == ZERO_TOKEN then Array([c]) else Object(map[ts[0] := c]))
      case Object(m) =>
        var c :- CreateAt(if ts[0] in m then m[ts[0]] else Null, ts[1..], v);
        Ok(Object(m[ts[0] := c]))
      case Array(es) =>
        var i :- Stoi(ts[0]);
        if i < 0 then Err(OutOfRange) else
          var full := Padded(es, i + 1);
          var c :- CreateAt(full[i], ts[1..], v);
          Ok(Array(full[i := c]))
      case _ => Err(DomainError)
  }

  function UnflattenKeys(flat: map<Bytes, Json>, ks: seq<Bytes>, doc: Json): Result<Json>
    requires forall k :: k in ks ==> k in flat
    decreases |ks|
  {
    if ks == [] then Ok(doc)
    else if !IsPrimitive(flat[ks[0]]) then Err(DomainError)
    else
      var ts :- Split(ks[0]);
      var next :- CreateAt(doc, ts, flat[ks[0]]);
      UnflattenKeys(flat, ks[1..], next)
  }

  /** Entries are replayed in the byte order of their pointer strings. */
  function Unflatten(j: Json): Result<Json> {
    if j.Object? then UnflattenKeys(j.members, SortedKeys(j.members.Keys), Null) else Err(DomainError)
  }

  lemma UnflattenStep(flat: map<Bytes, Json>, ks: seq<Bytes>, n: nat, doc: Json)
    requires (forall k :: k in ks ==> k in flat) && n <= |ks|
    ensures UnflattenKeys(flat, ks[n..], doc) ==
            if n == |ks| then Ok(doc)
            else if !IsPrimitive(flat[ks[n]]) then Err(DomainError)
            else if Split(ks[n]).Err? then Err(Split(ks[n]).error)
            else if CreateAt(doc, Split(ks[n]).value, flat[ks[n]]).Err?
            then Err(CreateAt(doc, Split(ks[n]).value, flat[ks[n]]).error)
            else UnflattenKeys(flat, ks[n + 1..], CreateAt(doc, Split(ks[n]).value, flat[ks[n]]).value)
  {
    hide CreateAt;
    hide Split;
    if n < |ks| {
      assert ks[n..][0] == ks[n] && ks[n..][1..] == ks[n + 1..];
    }
  }

  method UnflattenLoop(j: Json) returns (r: Result<Json>)
    ensures r == Unflatten(j)
  {
    hide CreateAt;
    hide Split;
    hide UnflattenKeys;
    hide SortedKeys;
    if !j.Object? {
      return Err(DomainError);
    }
    var result := Null;
    var ks := SortedKeys(j.members.Keys);
    assert ks[0..] == ks;
    for n := 0 to |ks|
      invariant Unflatten(j) == UnflattenKeys(j.members, ks[n..], result)
    {
      UnflattenStep(j.members, ks, n, result);
      var value := j.members[ks[n]];
      if !IsPrimitive(value) {
        return Err(DomainError);
      }
      var ptr := SplitLoop(ks[n]);
      if ptr.Err? {
        return Err(ptr.error);
      }
      var next := CreateAt(result, ptr.value, value);
      if next.Err? {
        return Err(next.error);
      }
      result := next.value;
    }
    UnflattenStep(j.members, ks, |ks|, result);
    return Ok(result);
  }
}
