/** Properties of the collection that relate several requests to each other. */
module CollectionProperties {
  import opened Wrappers
  import opened Patients
  import opened Sorting
  import opened Collection

  /**
   * Create then lookup: the stored record hands back every field that was
   * sent, and its bmi and verdict are those of the sent height and weight.
   */
  lemma CreateThenLookup(t: Table, d: Draft)
    requires Valid(t)
    requires Create(t, d).reply.Success?
    ensures Lookup(Create(t, d).table, d.id.value).Success?
    ensures var r := Lookup(Create(t, d).table, d.id.value).value;
      && Restore(d.id.value, r) == d
      && r.bmi == Bmi(d.height.value, d.weight.value)
      && r.verdict == Classify(r.bmi)
  {
    var p := Validate(d).value;
    assert Restore(p.id, Dump(p)) == Raw(p) == d;
  }

  /** An update that sends nothing changes nothing and succeeds. */
  lemma EmptyUpdateIsNoOp(t: Table, id: string)
    requires Valid(t)
    requires id in t.data
    ensures Update(t, id, NoChanges) == Outcome(t, Success(()))
  {
    var before := t.data[id];
    RestoreRoundTrip(id, before);
    assert Overlay(Restore(id, before), NoChanges) == Restore(id, before);
    assert UpdateViolations(NoChanges) == {};
    assert NullFields(NoChanges) == {};
    assert t.data[id := before] == t.data;
  }

  /** The combination of two acceptable updates without nulls is one too. */
  lemma ThenAcceptable(u1: PatientUpdate, u2: PatientUpdate)
    requires UpdateViolations(u1) == {} && NullFields(u1) == {}
    requires UpdateViolations(u2) == {} && NullFields(u2) == {}
    ensures UpdateViolations(Then(u1, u2)) == {} && NullFields(Then(u1, u2)) == {}
  {
    var u := Then(u1, u2);
    forall f ensures !PatchBad(u, f) && !SentNull(u, f) {
      assert !PatchBad(u1, f) && !PatchBad(u2, f);
      assert !SentNull(u1, f) && !SentNull(u2, f);
    }
  }

  /**
   * An acceptable update without nulls of a known id succeeds and stores the
   * validated overlay of the body on the stored record.
   */
  lemma UpdateStores(t: Table, id: string, u: PatientUpdate)
    requires Valid(t) && id in t.data
    requires UpdateViolations(u) == {} && NullFields(u) == {}
    ensures Update(t, id, u).reply.Success?
    ensures Validate(Overlay(Restore(id, t.data[id]), u)).Success?
    ensures var p := Validate(Overlay(Restore(id, t.data[id]), u)).value;
      && Update(t, id, u).table == Table(t.ids, t.data[id := Dump(p)])
      && Restore(id, Dump(p)) == Overlay(Restore(id, t.data[id]), u)
  {
    var p := Validate(Overlay(Restore(id, t.data[id]), u)).value;
    assert Restore(p.id, Dump(p)) == Raw(p);
  }

  /**
   * Two acceptable updates without nulls, one after the other, both succeed
   * and leave the same table as one update that sends, for each field, the
   * later of the two values: sending height and then weight gives the bmi
   * that sending both at once gives.
   */
  lemma UpdatesCompose(t: Table, id: string, u1: PatientUpdate, u2: PatientUpdate)
    requires Valid(t) && id in t.data
    requires UpdateViolations(u1) == {} && NullFields(u1) == {}
    requires UpdateViolations(u2) == {} && NullFields(u2) == {}
    ensures Update(t, id, u1).reply.Success?
    ensures Update(Update(t, id, u1).table, id, u2).reply.Success?
    ensures Update(t, id, Then(u1, u2)).reply.Success?
    ensures Update(Update(t, id, u1).table, id, u2).table == Update(t, id, Then(u1, u2)).table
  {
    var t1 := Update(t, id, u1).table;
    var d0 := Restore(id, t.data[id]);
    UpdateStores(t, id, u1);
    UpdateStores(t1, id, u2);
    ThenAcceptable(u1, u2);
    OverlayCompose(d0, u1, u2);
    UpdateStores(t, id, Then(u1, u2));
  }

  lemma {:induction false} WithoutLast(ids: seq<string>, id: string)
    requires id !in ids
    ensures Without(ids + [id], id) == ids
  {
    if ids != [] {
      assert (ids + [id])[1..] == ids[1..] + [id];
      WithoutLast(ids[1..], id);
      assert [ids[0]] + ids[1..] == ids;
    }
  }

  /** Deleting a record just created gives back the table as it was. */
  lemma CreateThenDelete(t: Table, d: Draft)
    requires Valid(t)
    requires Create(t, d).reply.Success?
    ensures Delete(Create(t, d).table, d.id.value) == Outcome(t, Success(()))
  {
    var id := d.id.value;
    var t1 := Create(t, d).table;
    WithoutLast(t.ids, id);
    assert t1.data - {id} == t.data;
  }

  /** Sorting records with bmi 18.0, 30.5 and 24.9 by bmi, descending, gives 30.5, 24.9, 18.0. */
  lemma SortByBmiDescending(a: Record, b: Record, c: Record)
    requires a.bmi == 18.0 && b.bmi == 30.5 && c.bmi == 24.9
    ensures SortRecords([a, b, c], ByBmi, Desc) == [b, c, a]
  {
    assert [a, b, c][1..] == [b, c];
    assert [b, c][1..] == [c];
    assert [c][1..] == [];
    assert Insert(c, [], ByBmi, Desc) == [c];
    assert Insert(b, [c], ByBmi, Desc) == [b, c];
    assert [b, c][1..] == [c];
    assert Insert(a, [c], ByBmi, Desc) == [c, a];
    assert Insert(a, [b, c], ByBmi, Desc) == [b, c, a];
  }

  /**
   * Any stable sort of the stored records by the requested field and
   * direction gives exactly the answer of the sort query.
   */
  lemma SortIsTheStableSort(t: Table, sortBy: string, order: string, r: seq<Record>)
    requires Valid(t)
    requires ParseSortField(sortBy).Some? && ParseOrder(order).Some?
    requires multiset(r) == multiset(Values(t))
    requires Ordered(r, ParseSortField(sortBy).value, ParseOrder(order).value)
    requires forall k :: WithKey(r, ParseSortField(sortBy).value, k) == WithKey(Values(t), ParseSortField(sortBy).value, k)
    ensures Sort(t, sortBy, order) == Success(r)
  {
    var q := Sort(t, sortBy, order).value;
    StableSortUnique(q, r, ParseSortField(sortBy).value, ParseOrder(order).value);
  }
}
