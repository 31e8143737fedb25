/**
  Edit scripts (json.hpp `patch`; section 4 of RFC 6902): resolving a pointer in
  a document, the edits made at the end of a pointer, and the script runner.
 */
module JsonPatch {
  import opened JsonValue
  import opened JsonPointer

  const DASH: Bytes := [0x2D]

  // member names and operation names, in ASCII
  const OP: Bytes := [0x6F, 0x70]
  const PATH: Bytes := [0x70, 0x61, 0x74, 0x68]
  const VALUE: Bytes := [0x76, 0x61, 0x6C, 0x75, 0x65]
  const FROM: Bytes := [0x66, 0x72, 0x6F, 0x6D]
  const ADD: Bytes := [0x61, 0x64, 0x64]
  const REMOVE: Bytes := [0x72, 0x65, 0x6D, 0x6F, 0x76, 0x65]
  const REPLACE: Bytes := [0x72, 0x65, 0x70, 0x6C, 0x61, 0x63, 0x65]
  const MOVE: Bytes := [0x6D, 0x6F, 0x76, 0x65]
  const COPY: Bytes := [0x63, 0x6F, 0x70, 0x79]
  const TEST: Bytes := [0x74, 0x65, 0x73, 0x74]

  // ---------- checked access: at(json_pointer) ----------

  function CheckedIndex(token: Bytes): Result<int> {
    if token == DASH then Err(OutOfRange)
    else if |token| > 1 && token[0] == ZERO then Err(DomainError)
    else Stoi(token)
  }

  function Child(j: Json, token: Bytes): Result<Json> {
    match j
    case Object(m) => if token in m then Ok(m[token]) else Err(OutOfRange)
    case Array(e) =>
      var i :- CheckedIndex(token);
      if 0 <= i < |e| then Ok(e[i]) else Err(OutOfRange)
    case _ => Err(OutOfRange)
  }

  function WithChild(j: Json, token: Bytes, c: Json): Json
    requires Child(j, token).Ok?
  {
    match j
    case Object(m) => Object(m[token := c])
    case Array(e) => Array(e[CheckedIndex(token).value := c])
  }

  function Resolve(j: Json, ts: seq<Bytes>): Result<Json> {
    if ts == [] then Ok(j) else
      var c :- Child(j, ts[0]);
      Resolve(c, ts[1..])
  }

  /** The loop of `get_checked`. */
  method GetChecked(j: Json, ts: seq<Bytes>) returns (r: Result<Json>)
    ensures r == Resolve(j, ts)
  {
    var ptr := j;
    for n := 0 to |ts|
      invariant Resolve(j, ts) == Resolve(ptr, ts[n..])
    {
      var c := Child(ptr, ts[n]);
      assert ts[n..][0] == ts[n] && ts[n..][1..] == ts[n + 1..];
      match c {
        case Err(e) => return Err(e);
        case Ok(v) => ptr := v;
      }
    }
    return Ok(ptr);
  }

  // ---------- edits ----------

  /** What an operation does to the value its pointer leads to. */
  datatype Edit = Put(v: Json) | AddChild(last: Bytes, v: Json) | RemoveChild(last: Bytes)

  function Perform(j: Json, e: Edit): Result<Json> {
    match e
    case Put(v) => Ok(v)
    case AddChild(last, v) => (
      match j
      case Null => Ok(Object(map[last := v]))
      case Object(m) => Ok(Object(m[last := v]))
      case Array(es) =>
        if last == DASH then Ok(Array(es + [v])) else
          var i :- Stoi(last);
          if 0 <= i <= |es| then Ok(Array(es[..i] + [v] + es[i..])) else Err(OutOfRange)
      case _ => Err(AssertionFailure))
    case RemoveChild(last) =>
      match j
      case Object(m) => if last in m then Ok(Object(m - {last})) else Err(OutOfRange)
      case Array(es) =>
        var i :- Stoi(last);
        if 0 <= i < |es| then Ok(Array(es[..i] + es[i + 1..])) else Err(OutOfRange)
      case _ => Ok(j)
  }

  /** An edit at the end of a pointer that must resolve (`at`). */
  function EditAt(j: Json, ts: seq<Bytes>, e: Edit): Result<Json> {
    if ts == [] then Perform(j, e) else
      var c :- Child(j, ts[0]);
      var c' :- EditAt(c, ts[1..], e);
      Ok(WithChild(j, ts[0], c'))
  }

  // ---------- unchecked access: operator[](json_pointer) ----------

  /** A null met on the way turns into an array or an object. */
  function Opened(j: Json, token: Bytes): Json {
    if !j.Null? then j
    else if AllDigits(token) || token == DASH then Array([])
    else Object(map[])
  }

  function UncheckedIndex(es: seq<Json>, token: Bytes): Result<nat> {
    if |token| > 1 && token[0] == ZERO then Err(DomainError)
    else if token == DASH then Ok(|es|)
    else
      var i :- Stoi(token);
      if i < 0 then Err(OutOfRange) else Ok(i)
  }

  function Padded(es: seq<Json>, n: nat): (r: seq<Json>)
    ensures |r| >= n && |r| >= |es|
    ensures n <= |es| ==> r == es
  {
    if |es| >= n then es else es + seq(n - |es|, _ => Null)
  }

  function EditUnchecked(j: Json, ts: seq<Bytes>, e: Edit): Result<Json>
    decreases |ts|
  {
    if ts == [] then Perform(j, e) else
      match Opened(j, ts[0])
      case Object(m) =>
        var c' :- EditUnchecked(if ts[0] in m then m[ts[0]] else Null, ts[1..], e);
        Ok(Object(m[ts[0] := c']))
      case Array(es) =>
        var i :- UncheckedIndex(es, ts[0]);
        var full := Padded(es, i + 1);
        var c' :- EditUnchecked(full[i], ts[1..], e);
        Ok(Array(full[i := c']))
      case _ => Err(OutOfRange)
  }

  // ---------- operations ----------

  function Member(val: Json, name: Bytes): Result<Json>
    requires val.Object?
  {
    if name in val.members then Ok(val.members[name]) else Err(InvalidArgument)
  }

  function StringMember(val: Json, name: Bytes): Result<Bytes>
    requires val.Object?
  {
    var v :- Member(val, name);
    if v.String? then Ok(v.s) else Err(InvalidArgument)
  }

  function OperationAdd(doc: Json, ptr: seq<Bytes>, v: Json): Result<Json> {
    if ptr == [] then Ok(v)
    else if |ptr| > 1 && Resolve(doc, [ptr[0]]).Err? then Err(Resolve(doc, [ptr[0]]).error)
    else EditUnchecked(doc, ptr[..|ptr| - 1], AddChild(ptr[|ptr| - 1], v))
  }

  function OperationRemove(doc: Json, ptr: seq<Bytes>): Result<Json> {
    if ptr == [] then Err(DomainError)
    else EditAt(doc, ptr[..|ptr| - 1], RemoveChild(ptr[|ptr| - 1]))
  }

  function OperationTest(doc: Json, ptr: seq<Bytes>, v: Json): Result<Json> {
    match Resolve(doc, ptr)
    case Ok(x) => if JsonEq(x, v) then Ok(doc) else Err(DomainError)
    case Err(OutOfRange) => Err(DomainError)
    case Err(e) => Err(e)
  }

  function ApplyOp(doc: Json, val: Json): Result<Json> {
    if !val.Object? then Err(InvalidArgument) else
      var op :- StringMember(val, OP);
      var path :- StringMember(val, PATH);
      var ptr :- Split(path);
      if op == ADD then
        var v :- Member(val, VALUE);
        OperationAdd(doc, ptr, v)
      else if op == REMOVE then
        OperationRemove(doc, ptr)
      else if op == REPLACE then
        var v :- Member(val, VALUE);
        EditAt(doc, ptr, Put(v))
      else if op == MOVE then
        var from :- StringMember(val, FROM);
        var source :- Split(from);
        var v :- Resolve(doc, source);
        var removed :- OperationRemove(doc, source);
        OperationAdd(removed, ptr, v)
      else if op == COPY then
        var from :- StringMember(val, FROM);
        var source :- Split(from);
        var v :- Resolve(doc, source);
        EditUnchecked(doc, ptr, Put(v))
      else if op == TEST then
        var v :- Member(val, VALUE);
        OperationTest(doc, ptr, v)
      else Err(InvalidArgument)
  }

  function RunOps(doc: Json, ops: seq<Json>): Result<Json>
    decreases |ops|
  {
    if ops == [] then Ok(doc) else
      var next :- ApplyOp(doc, ops[0]);
      RunOps(next, ops[1..])
  }

  function Patch(doc: Json, script: Json): Result<Json> {
    if script.Array? then RunOps(doc, script.elems) else Err(InvalidArgument)
  }

  /** The patch loop: a working copy is edited operation by operation. */
  method PatchLoop(doc: Json, script: Json) returns (r: Result<Json>)
    ensures r == Patch(doc, script)
  {
    hide ApplyOp;
    var result := doc;
    if !script.Array? {
      return Err(InvalidArgument);
    }
    var ops := script.elems;
    for n := 0 to |ops|
      invariant Patch(doc, script) == RunOps(result, ops[n..])
    {
      var next := ApplyOp(result, ops[n]);
      assert ops[n..][0] == ops[n] && ops[n..][1..] == ops[n + 1..];
      match next {
        case Err(e) => return Err(e);
        case Ok(v) => result := v;
      }
    }
    return Ok(result);
  }

  lemma {:induction false} RunOpsConcat(doc: Json, xs: seq<Json>, ys: seq<Json>)
    requires RunOps(doc, xs).Ok?
    ensures RunOps(doc, xs + ys) == RunOps(RunOps(doc, xs).value, ys)
    decreases |xs|
  {
    hide ApplyOp;
    if xs == [] {
      assert xs + ys == ys;
    } else {
      RunOpsConcat(ApplyOp(doc, xs[0]).value, xs[1..], ys);
      assert (xs + ys)[1..] == xs[1..] + ys;
    }
  }

  // ---------- locality of edits ----------

  lemma WithChildSame(j: Json, token: Bytes)
    requires Child(j, token).Ok?
    ensures WithChild(j, token, Child(j, token).value) == j
  {
    match j
    case Object(m) => assert m[token := m[token]] == m;
    case Array(e) =>
      var i := CheckedIndex(token).value;
      assert e[i := e[i]] == e;
  }

  lemma WithChildGet(j: Json, token: Bytes, c: Json)
    requires Child(j, token).Ok?
    ensures Child(WithChild(j, token, c), token) == Ok(c)
    ensures forall d :: WithChild(WithChild(j, token, c), token, d) == WithChild(j, token, d)
  {
    match j
    case Object(m) =>
      forall d ensures WithChild(WithChild(j, token, c), token, d) == WithChild(j, token, d) {
        assert m[token := c][token := d] == m[token := d];
      }
    case Array(e) =>
      var i := CheckedIndex(token).value;
      forall d ensures WithChild(WithChild(j, token, c), token, d) == WithChild(j, token, d) {
        assert e[i := c][i := d] == e[i := d];
      }
  }

  /** Putting a value where the pointer leads, as a total function on resolvable pointers. */
  function PutAt(j: Json, ts: seq<Bytes>, v: Json): (r: Json)
    requires Resolve(j, ts).Ok?
    ensures EditAt(j, ts, Put(v)) == Ok(r)
    ensures Resolve(r, ts) == Ok(v)
  {
    if ts == [] then v else
      var c := Child(j, ts[0]).value;
      WithChildGet(j, ts[0], PutAt(c, ts[1..], v));
      WithChild(j, ts[0], PutAt(c, ts[1..], v))
  }

  lemma {:induction false} PutSame(j: Json, ts: seq<Bytes>)
    requires Resolve(j, ts).Ok?
    ensures PutAt(j, ts, Resolve(j, ts).value) == j
    decreases |ts|
  {
    if ts != [] {
      PutSame(Child(j, ts[0]).value, ts[1..]);
      WithChildSame(j, ts[0]);
    }
  }

  lemma {:induction false} PutPut(j: Json, ts: seq<Bytes>, v: Json, w: Json)
    requires Resolve(j, ts).Ok?
    ensures PutAt(PutAt(j, ts, v), ts, w) == PutAt(j, ts, w)
    decreases |ts|
  {
    if ts != [] {
      var c := Child(j, ts[0]).value;
      PutPut(c, ts[1..], v, w);
      WithChildGet(j, ts[0], PutAt(c, ts[1..], v));
    }
  }

  /** A pointer resolves in two stages. */
  lemma {:induction false} ResolveConcat(j: Json, ts: seq<Bytes>, us: seq<Bytes>)
    requires Resolve(j, ts).Ok?
    ensures Resolve(j, ts + us) == Resolve(Resolve(j, ts).value, us)
    decreases |ts|
  {
    if ts == [] {
      assert ts + us == us;
    } else {
      ResolveConcat(Child(j, ts[0]).value, ts[1..], us);
      assert (ts + us)[1..] == ts[1..] + us;
    }
  }

  /** An edit below a pointer only replaces the value the pointer leads to. */
  lemma {:induction false} EditConcat(j: Json, ts: seq<Bytes>, us: seq<Bytes>, e: Edit)
    requires Resolve(j, ts).Ok?
    ensures EditAt(j, ts + us, e) ==
            match EditAt(Resolve(j, ts).value, us, e) {
              case Ok(v) => Ok(PutAt(j, ts, v))
              case Err(x) => Err(x)
            }
    decreases |ts|
  {
    hide Perform;
    if ts == [] {
      assert ts + us == us;
    } else {
      EditConcat(Child(j, ts[0]).value, ts[1..], us, e);
      assert (ts + us)[1..] == ts[1..] + us;
    }
  }

  /** Where the pointer resolves, unchecked access makes the same edit as checked access. */
  lemma {:induction false} UncheckedIsChecked(j: Json, ts: seq<Bytes>, e: Edit)
    requires Resolve(j, ts).Ok?
    ensures EditUnchecked(j, ts, e) == EditAt(j, ts, e)
    decreases |ts|
  {
    hide Perform;
    if ts != [] {
      UncheckedIsChecked(Child(j, ts[0]).value, ts[1..], e);
    }
  }

  predicate SameChild(j: Json, t: Bytes, u: Bytes) {
    if j.Object? then t == u else CheckedIndex(t) == CheckedIndex(u)
  }

  /** Two pointers part ways: at some container they name different children. */
  predicate Diverge(j: Json, ts: seq<Bytes>, us: seq<Bytes>)
    requires Resolve(j, ts).Ok?
  {
    ts != [] && us != [] &&
    (!SameChild(j, ts[0], us[0]) || Diverge(Child(j, ts[0]).value, ts[1..], us[1..]))
  }

  /** Putting a value changes nothing that a diverging pointer leads to. */
  lemma {:induction false} PutElsewhere(j: Json, ts: seq<Bytes>, v: Json, us: seq<Bytes>)
    requires Resolve(j, ts).Ok? && Diverge(j, ts, us)
    ensures Resolve(PutAt(j, ts, v), us) == Resolve(j, us)
    decreases |ts|
  {
    var c := Child(j, ts[0]).value;
    WithChildGet(j, ts[0], PutAt(c, ts[1..], v));
    if SameChild(j, ts[0], us[0]) {
      PutElsewhere(c, ts[1..], v, us[1..]);
    }
  }

  /** Array indices up to 2^31 - 1 survive std::stoi. */
  predicate Indexable(j: Json) {
    match j
    case Array(es) => |es| <= 0x8000_0000 && forall i :: 0 <= i < |es| ==> Indexable(es[i])
    case Object(m) => forall k :: k in m ==> Indexable(m[k])
    case _ => true
  }

  lemma IndexableParts(j: Json)
    requires Indexable(j)
    ensures j.Array? ==> |j.elems| <= 0x8000_0000 && forall i :: 0 <= i < |j.elems| ==> Indexable(j.elems[i])
    ensures j.Object? ==> forall k :: k in j.members ==> Indexable(j.members[k])
  {
  }
}
