/**
  What creating a place does to a document (json.hpp `get_and_create`), said
  through what pointers resolve to before and after it.
 */
module JsonCreate {
  import opened JsonValue
  import opened JsonPointer
  import opened JsonPatch
  import opened JsonPatchLaw
  import opened JsonFlatten

  /** No token starts with a needless zero. */
  predicate Plain(ts: seq<Bytes>) {
    forall k :: 0 <= k < |ts| ==> !(|ts[k]| > 1 && ts[k][0] == ZERO)
  }

  lemma DashIsNoNumber()
    ensures Stoi(DASH).Err?
  {
  }

  /** The pointer leads to the value that was put there. */
  lemma {:induction false} CreatedThere(j: Json, ts: seq<Bytes>, v: Json)
    requires Plain(ts) && CreateAt(j, ts, v).Ok?
    ensures Resolve(CreateAt(j, ts, v).value, ts) == Ok(v)
    decreases |ts|
  {
    hide Stoi;
    if ts != [] {
      DashIsNoNumber();
      assert Plain(ts[1..]);
      match j
      case Null =>
        CreatedThere(Null, ts[1..], v);
        if ts[0] == ZERO_TOKEN {
          ZeroIndex();
        }
      case Object(m) => CreatedThere(if ts[0] in m then m[ts[0]] else Null, ts[1..], v);
      case Array(es) =>
        var i := Stoi(ts[0]).value;
        CreatedThere(Padded(es, i + 1)[i], ts[1..], v);
    }
  }

  lemma ZeroIndex()
    ensures CheckedIndex(ZERO_TOKEN) == Ok(0)
  {
    assert ZERO_TOKEN == Decimal(0);
    StoiDecimal(0);
  }

  /** Nothing changes that another pointer leads to. */
  lemma {:induction false} CreatedElsewhere(j: Json, ts: seq<Bytes>, v: Json, us: seq<Bytes>)
    requires Plain(ts) && CreateAt(j, ts, v).Ok? && Resolve(j, us).Ok? && Forks(j, ts, us)
    ensures Resolve(CreateAt(j, ts, v).value, us) == Resolve(j, us)
    decreases |ts|
  {
    hide Stoi;
    DashIsNoNumber();
    assert Plain(ts[1..]);
    match j
    case Object(m) =>
      if ts[0] == us[0] {
        CreatedElsewhere(m[ts[0]], ts[1..], v, us[1..]);
      }
    case Array(es) =>
      var i := Stoi(ts[0]).value;
      if CheckedIndex(ts[0]) == CheckedIndex(us[0]) {
        CreatedElsewhere(es[i], ts[1..], v, us[1..]);
      }
    case _ =>
  }

  /** An array grows just enough, and the places in between are null. */
  lemma GapsAreNull(es: seq<Json>, ts: seq<Bytes>, v: Json)
    requires ts != [] && CreateAt(Array(es), ts, v).Ok?
    ensures Stoi(ts[0]).Ok? && Stoi(ts[0]).value >= 0
    ensures var r, i := CreateAt(Array(es), ts, v).value, Stoi(ts[0]).value;
            && r.Array? && |r.elems| == (if i < |es| then |es| else i + 1)
            && forall k :: |es| <= k < i ==> r.elems[k] == Null
  {
    hide Stoi;
  }

  /** A null becomes an array for the token "0" and an object for any other. */
  lemma NullOpens(t: Bytes, v: Json)
    ensures CreateAt(Null, [t], v) == Ok(if t == [0x30] then Array([v]) else Object(map[t := v]))
  {
    assert [t][1..] == [];
    assert CreateAt(Null, [], v) == Ok(v);
  }

  /** A value that is no container is in the way. */
  lemma NoContainer(j: Json, ts: seq<Bytes>, v: Json)
    requires ts != [] && !j.Null? && !j.Object? && !j.Array?
    ensures CreateAt(j, ts, v) == Err(DomainError)
  {
  }
}
