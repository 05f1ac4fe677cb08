/**
 * The patient collection as a value: an id-keyed table of stored records that
 * remembers the order in which ids were first inserted (a Python dict keeps
 * that order, and the sort query is stable over it), and what each request
 * does to it.
 */
module Collection {
  import opened Wrappers
  import opened Patients
  import opened Sorting

  /** How a request can fail. */
  datatype Error =
    /** The request body breaks a field constraint; rejected before the handler runs (HTTP 422). */
    | Invalid(fields: set<FieldName>)
    /** Create with an id that is already a key (HTTP 400). */
    | Conflict
    /** Lookup, update or delete of an id that is not a key (HTTP 404). */
    | NotFound
    /** A sort field other than height, weight or bmi (HTTP 400). */
    | BadSortField
    /** A sort order other than asc or desc (HTTP 400). */
    | BadSortOrder
    /** Rebuilding the merged record fails (a field sent as null): raised inside the handler, so the reply is a server error. */
    | MergeRejected(fields: set<FieldName>)

  /** The ids in insertion order, and the stored record of each. */
  datatype Table = Table(ids: seq<string>, data: map<string, Record>)

  const Empty: Table := Table([], map[])

  /** Every id listed once, the list and the keys agree, and every record is well formed. */
  ghost predicate Valid(t: Table) {
    && (forall i, j :: 0 <= i < j < |t.ids| ==> t.ids[i] != t.ids[j])
    && (forall k :: k in t.data <==> k in t.ids)
    && (forall k :: k in t.data ==> WellFormed(t.data[k]))
  }

  /** The stored records in insertion order: data.values() of the dict. */
  function Values(t: Table): (r: seq<Record>)
    requires Valid(t)
    ensures |r| == |t.ids|
    ensures forall i :: 0 <= i < |r| ==> t.ids[i] in t.data && r[i] == t.data[t.ids[i]]
  {
    seq(|t.ids|, i requires 0 <= i < |t.ids| => t.data[t.ids[i]])
  }

  /** The list of ids with one id taken out, the others in their order. */
  function Without(ids: seq<string>, id: string): (r: seq<string>)
    ensures forall k :: k in r <==> k in ids && k != id
    ensures (forall i, j :: 0 <= i < j < |ids| ==> ids[i] != ids[j]) ==>
              forall i, j :: 0 <= i < j < |r| ==> r[i] != r[j]
    ensures id !in ids ==> r == ids
  {
    if ids == [] then []
    else
      var rest := Without(ids[1..], id);
      assert forall i :: 0 < i < |ids| ==> ids[i] in ids[1..];
      assert (forall i, j :: 0 <= i < j < |ids| ==> ids[i] != ids[j]) ==> ids[0] !in ids[1..];
      if ids[0] == id then rest else [ids[0]] + rest
  }

  /** Taking out an id that occurs once keeps every other id in its place relative to the rest. */
  lemma {:induction false} WithoutAt(ids: seq<string>, i: nat)
    requires forall a, b :: 0 <= a < b < |ids| ==> ids[a] != ids[b]
    requires i < |ids|
    ensures Without(ids, ids[i]) == ids[..i] + ids[i + 1..]
  {
    if i == 0 {
      assert ids[0] !in ids[1..];
    } else {
      WithoutAt(ids[1..], i - 1);
      assert ids[1..][i - 1] == ids[i];
      assert ids[1..][..i - 1] == ids[1..i];
      assert ids[1..][i..] == ids[i + 1..];
      assert [ids[0]] + ids[1..i] == ids[..i];
    }
  }

  /** The table after a request, and the reply. */
  datatype Outcome<T> = Outcome(table: Table, reply: Result<T, Error>)

  /** Lookup by id: the stored record, or not found. */
  function Lookup(t: Table, id: string): (r: Result<Record, Error>)
    ensures r.Success? <==> id in t.data
    ensures r.Success? ==> r.value == t.data[id]
    ensures r.Failure? ==> r.error == NotFound
  {
    if id in t.data then Success(t.data[id]) else Failure(NotFound)
  }

  /**
   * Create: an invalid body is rejected; a valid body whose id is already a
   * key is a conflict; otherwise the stored form of the record is added under
   * its id, after all existing ids, and nothing else changes.
   */
  function Create(t: Table, d: Draft): (r: Outcome<()>)
    requires Valid(t)
    ensures Valid(r.table)
    ensures r.reply.Failure? ==> r.table == t
    ensures Validate(d).Failure? ==> r.reply == Failure(Invalid(Validate(d).error))
    ensures Validate(d).Success? && d.id.value in t.data ==> r.reply == Failure(Conflict)
    ensures r.reply.Success? <==> Validate(d).Success? && d.id.value !in t.data
    ensures r.reply.Success? ==>
      && r.table.data.Keys == t.data.Keys + {d.id.value}
      && r.table.ids == t.ids + [d.id.value]
      && r.table.data[d.id.value] == Dump(Validate(d).value)
      && forall k :: k in t.data ==> r.table.data[k] == t.data[k]
  {
    match Validate(d)
    case Failure(bad) => Outcome(t, Failure(Invalid(bad)))
    case Success(p) =>
      if p.id in t.data then Outcome(t, Failure(Conflict))
      else
        var t' := Table(t.ids + [p.id], t.data[p.id := Dump(p)]);
        assert forall k :: k in t'.ids <==> k in t.ids || k == p.id;
        Outcome(t', Success(()))
  }

  /**
   * Update: a body with a bad field is rejected; an unknown id is not found;
   * otherwise the body is merged into the stored record and the result
   * validated again, which fails only for fields sent as null. On success
   * the record under id is the patched record, with bmi and verdict
   * recomputed, and every other entry and the order of ids are unchanged.
   */
  function Update(t: Table, id: string, u: PatientUpdate): (r: Outcome<()>)
    requires Valid(t)
    ensures Valid(r.table)
    ensures r.reply.Failure? ==> r.table == t
    ensures UpdateViolations(u) != {} ==> r.reply == Failure(Invalid(UpdateViolations(u)))
    ensures UpdateViolations(u) == {} && id !in t.data ==> r.reply == Failure(NotFound)
    ensures UpdateViolations(u) == {} && id in t.data && NullFields(u) != {} ==>
              r.reply == Failure(MergeRejected(NullFields(u)))
    ensures r.reply.Success? <==> UpdateViolations(u) == {} && id in t.data && NullFields(u) == {}
    ensures r.reply.Success? ==>
      && r.table.ids == t.ids
      && r.table.data.Keys == t.data.Keys
      && Patched(t.data[id], u, r.table.data[id])
      && forall k :: k in t.data && k != id ==> r.table.data[k] == t.data[k]
  {
    var bad := UpdateViolations(u);
    if bad != {} then Outcome(t, Failure(Invalid(bad)))
    else if id !in t.data then Outcome(t, Failure(NotFound))
    else
      MergeOutcome(id, t.data[id], u);
      match Validate(Overlay(Restore(id, t.data[id]), u))
      case Failure(fields) => Outcome(t, Failure(MergeRejected(fields)))
      case Success(p) => Outcome(Table(t.ids, t.data[id := Dump(p)]), Success(()))
  }

  /** Delete: an unknown id is not found; otherwise exactly that entry is removed. */
  function Delete(t: Table, id: string): (r: Outcome<()>)
    requires Valid(t)
    ensures Valid(r.table)
    ensures r.reply.Success? <==> id in t.data
    ensures r.reply.Failure? ==> r.reply.error == NotFound && r.table == t
    ensures r.reply.Success? ==>
      && r.table.data.Keys == t.data.Keys - {id}
      && r.table.ids == Without(t.ids, id)
      && forall k :: k in r.table.data ==> r.table.data[k] == t.data[k]
  {
    if id !in t.data then Outcome(t, Failure(NotFound))
    else Outcome(Table(Without(t.ids, id), t.data - {id}), Success(()))
  }

  /**
   * The sort query: the field is checked first, then the order; the result
   * holds exactly the stored records, ordered by the field's value in the
   * chosen direction, records with equal values in insertion order.
   */
  function Sort(t: Table, sortBy: string, order: string): (r: Result<seq<Record>, Error>)
    requires Valid(t)
    ensures ParseSortField(sortBy).None? ==> r == Failure(BadSortField)
    ensures ParseSortField(sortBy).Some? && ParseOrder(order).None? ==> r == Failure(BadSortOrder)
    ensures r.Success? <==> ParseSortField(sortBy).Some? && ParseOrder(order).Some?
    ensures r.Success? ==>
      var f, o := ParseSortField(sortBy).value, ParseOrder(order).value;
      && multiset(r.value) == multiset(Values(t))
      && Ordered(r.value, f, o)
      && forall k :: WithKey(r.value, f, k) == WithKey(Values(t), f, k)
  {
    match ParseSortField(sortBy)
    case None => Failure(BadSortField)
    case Some(f) =>
      match ParseOrder(order)
      case None => Failure(BadSortOrder)
      case Some(o) =>
        var sorted := SortRecords(Values(t), f, o);
        assert forall k :: WithKey(sorted, f, k) == WithKey(Values(t), f, k) by {
          forall k { SortIsStable(Values(t), f, o, k); }
        }
        Success(sorted)
  }
}
