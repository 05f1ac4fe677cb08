/**
 * The service's handlers over the patient collection. Each request reads the
 * whole collection, changes it in place and writes it back; here the
 * collection is the state of one object, read and reassigned by its methods.
 */
module Store {
  import opened Wrappers
  import opened Patients
  import opened Sorting
  import Collection

  class PatientStore {
    /** Patient ids in the order they were first added. */
    var ids: seq<string>
    /** The stored record of every patient id. */
    var data: map<string, Record>

    ghost predicate Valid()
      reads this
    {
      Collection.Valid(Collection.Table(ids, data))
    }

    /** The collection as a value. */
    function Snapshot(): Collection.Table
      reads this
    {
      Collection.Table(ids, data)
    }

    /** With no saved collection yet, the service starts from an empty one. */
    constructor ()
      ensures Valid()
      ensures Snapshot() == Collection.Empty
    {
      ids := [];
      data := map[];
    }

    /** The whole collection: each id with its record, in insertion order. */
    method ViewAll() returns (r: Collection.Table)
      ensures r.ids == ids && r.data == data
    {
      r := Collection.Table(ids, data);
    }

    /** Lookup with the id in the path. */
    method GetById(id: string) returns (r: Result<Record, Collection.Error>)
      ensures id in data ==> r == Success(data[id])
      ensures id !in data ==> r == Failure(Collection.NotFound)
    {
      if id in data {
        return Success(data[id]);
      }
      return Failure(Collection.NotFound);
    }

    /** Lookup with the id in the query string: the same answer as with the id in the path. */
    method GetByQuery(id: string) returns (r: Result<Record, Collection.Error>)
      ensures id in data ==> r == Success(data[id])
      ensures id !in data ==> r == Failure(Collection.NotFound)
    {
      if id in data {
        return Success(data[id]);
      }
      return Failure(Collection.NotFound);
    }

    /** The sort query over the stored records. */
    method SortPatients(sortBy: string, order: string) returns (r: Result<seq<Record>, Collection.Error>)
      requires Valid()
      ensures r == Collection.Sort(Snapshot(), sortBy, order)
    {
      var field := ParseSortField(sortBy);
      if field.None? {
        return Failure(Collection.BadSortField);
      }
      var direction := ParseOrder(order);
      if direction.None? {
        return Failure(Collection.BadSortOrder);
      }
      r := Success(SortRecords(Collection.Values(Snapshot()), field.value, direction.value));
    }

    /** Adds a new patient. */
    method Create(d: Draft) returns (reply: Result<(), Collection.Error>)
      requires Valid()
      modifies this
      ensures Valid()
      ensures Collection.Outcome(Snapshot(), reply) == Collection.Create(old(Snapshot()), d)
    {
      var checked := Validate(d);
      if checked.Failure? {
        return Failure(Collection.Invalid(checked.error));
      }
      var patient := checked.value;
      if patient.id in data {
        return Failure(Collection.Conflict);
      }
      data := data[patient.id := Dump(patient)];
      ids := ids + [patient.id];
      reply := Success(());
    }

    /** Merges the fields an update sends into a stored patient and recomputes bmi and verdict. */
    method Update(id: string, u: PatientUpdate) returns (reply: Result<(), Collection.Error>)
      requires Valid()
      modifies this
      ensures Valid()
      ensures Collection.Outcome(Snapshot(), reply) == Collection.Update(old(Snapshot()), id, u)
    {
      var bad := UpdateViolations(u);
      if bad != {} {
        return Failure(Collection.Invalid(bad));
      }
      if id !in data {
        return Failure(Collection.NotFound);
      }
      var merged := ApplyUpdate(Restore(id, data[id]), u);
      var checked := Validate(merged);
      if checked.Failure? {
        return Failure(Collection.MergeRejected(checked.error));
      }
      data := data[id := Dump(checked.value)];
      reply := Success(());
    }

    /** Removes a patient. */
    method Delete(id: string) returns (reply: Result<(), Collection.Error>)
      requires Valid()
      modifies this
      ensures Valid()
      ensures Collection.Outcome(Snapshot(), reply) == Collection.Delete(old(Snapshot()), id)
    {
      if id !in data {
        return Failure(Collection.NotFound);
      }
      data := data - {id};
      ids := Collection.Without(ids, id);
      reply := Success(());
    }
  }
}
