/**
 * The patient record: the constraints a request body must meet, the derived
 * BMI and verdict, the stored form of a record, and the partial update that
 * is merged field by field into a stored record.
 */
module Patients {
  import opened Wrappers

  // ---------------------------------------------------------------------
  // Gender: a closed set of three labels
  // ---------------------------------------------------------------------

  datatype Gender = Male | Female | Other

  /** The label under which a gender is sent and stored. */
  function GenderName(g: Gender): (s: string)
    ensures ParseGender(s) == Some(g)
  {
    match g
    case Male => "male"
    case Female => "female"
    case Other => "other"
  }

  /** Accepts exactly the three labels "male", "female" and "other". */
  function ParseGender(s: string): (r: Option<Gender>)
    ensures r.Some? <==> s == "male" || s == "female" || s == "other"
    ensures r.Some? ==> s == (match r.value case Male => "male" case Female => "female" case Other => "other")
  {
    if s == "male" then Some(Male)
    else if s == "female" then Some(Female)
    else if s == "other" then Some(Other)
    else None
  }

  // ---------------------------------------------------------------------
  // BMI and verdict
  // ---------------------------------------------------------------------

  /**
   * Rounding to two decimal places as Python's round(x, 2) does it: to the
   * nearest multiple of 0.01, a tie going to the even hundredth.
   */
  function Round2(x: real): (r: real)
    ensures (r * 100.0).Floor as real == r * 100.0
    ensures -0.005 <= r - x <= 0.005
    ensures r - x == 0.005 || x - r == 0.005 ==> (r * 100.0).Floor % 2 == 0
  {
    var scaled := x * 100.0;
    var n := scaled.Floor;
    var frac := scaled - n as real;
    var m := if frac < 0.5 then n
             else if frac > 0.5 then n + 1
             else if n % 2 == 0 then n else n + 1;
    m as real / 100.0
  }

  /** Body mass index: weight over height squared, rounded to two decimals. */
  function Bmi(height: real, weight: real): (r: real)
    requires height > 0.0
    ensures (r * 100.0).Floor as real == r * 100.0
    ensures -0.005 <= r - weight / (height * height) <= 0.005
  {
    Round2(weight / (height * height))
  }

  datatype Verdict = Underweight | NormalWeight | Overweight | Obese

  /** The label under which a verdict is stored. */
  function VerdictLabel(v: Verdict): string {
    match v
    case Underweight => "Underweight"
    case NormalWeight => "Normal weight"
    case Overweight => "Overweight"
    case Obese => "Obese"
  }

  /** The four stored labels are distinct, so a stored label names one verdict. */
  lemma VerdictLabelInjective(a: Verdict, b: Verdict)
    ensures VerdictLabel(a) == VerdictLabel(b) ==> a == b
  {
  }

  /** Position of a verdict on the scale from lightest to heaviest. */
  function Rank(v: Verdict): nat {
    match v
    case Underweight => 0
    case NormalWeight => 1
    case Overweight => 2
    case Obese => 3
  }

  /** The verdict for a BMI; every threshold belongs to the heavier category. */
  function Classify(bmi: real): (v: Verdict)
    ensures v == Underweight <==> bmi < 18.5
    ensures v == NormalWeight <==> 18.5 <= bmi < 25.0
    ensures v == Overweight <==> 25.0 <= bmi < 30.0
    ensures v == Obese <==> 30.0 <= bmi
  {
    if bmi < 18.5 then Underweight
    else if bmi < 25.0 then NormalWeight
    else if bmi < 30.0 then Overweight
    else Obese
  }

  /** Rounding never swaps the order of two values. */
  lemma Round2Monotone(x: real, y: real)
    requires x <= y
    ensures Round2(x) <= Round2(y)
  {
    var nx, ny := (x * 100.0).Floor, (y * 100.0).Floor;
    assert nx <= ny;
    if nx == ny {
      assert x * 100.0 - nx as real <= y * 100.0 - ny as real;
    }
  }

  /** A value that already has at most two decimals is left as it is. */
  lemma Round2Exact(n: int)
    ensures Round2(n as real / 100.0) == n as real / 100.0
  {
    assert n as real / 100.0 * 100.0 == n as real;
  }

  /**
   * A height and weight whose BMI is exactly 18.5, 25 or 30 get the heavier
   * of the two neighbouring verdicts.
   */
  lemma BoundaryVerdicts()
    ensures Classify(Bmi(1.0, 18.5)) == NormalWeight
    ensures Classify(Bmi(1.0, 25.0)) == Overweight
    ensures Classify(Bmi(2.0, 120.0)) == Obese
  {
    Round2Exact(1850);
    Round2Exact(2500);
    Round2Exact(3000);
    assert 120.0 / (2.0 * 2.0) == 3000 as real / 100.0;
  }

  /** A larger weight-to-height-squared ratio never gets a lighter verdict. */
  lemma VerdictMonotone(x: real, y: real)
    requires x <= y
    ensures Rank(Classify(Round2(x))) <= Rank(Classify(Round2(y)))
  {
    Round2Monotone(x, y);
  }

  // ---------------------------------------------------------------------
  // Request bodies and their validation
  // ---------------------------------------------------------------------

  datatype FieldName = IdField | NameField | CityField | AgeField | GenderField | HeightField | WeightField

  /**
   * The fields of a full record as they arrive (or as they are rebuilt from
   * a stored record): None stands for a field that is missing or null.
   */
  datatype Draft = Draft(
    id: Option<string>,
    name: Option<string>,
    city: Option<string>,
    age: Option<int>,
    gender: Option<string>,
    height: Option<real>,
    weight: Option<real>)

  /** A record that passed validation; bmi and verdict are derived from it. */
  datatype Patient = Patient(
    id: string,
    name: string,
    city: string,
    age: int,
    gender: Gender,
    height: real,
    weight: real)

  predicate NameOk(s: string) { 2 <= |s| <= 100 }

  predicate AgeOk(a: int) { 0 <= a <= 120 }

  /** Height and weight must be strictly positive. */
  predicate MeasureOk(x: real) { x > 0.0 }

  /** Whether a draft meets the constraint of one field of a full record. */
  predicate FieldOk(d: Draft, f: FieldName) {
    match f
    case IdField => d.id.Some?
    case NameField => d.name.Some? && NameOk(d.name.value)
    case CityField => d.city.Some?
    case AgeField => d.age.Some? && AgeOk(d.age.value)
    case GenderField => d.gender.Some? && ParseGender(d.gender.value).Some?
    case HeightField => d.height.Some? && MeasureOk(d.height.value)
    case WeightField => d.weight.Some? && MeasureOk(d.weight.value)
  }

  const AllFields: set<FieldName> :=
    {IdField, NameField, CityField, AgeField, GenderField, HeightField, WeightField}

  lemma AllFieldsComplete()
    ensures forall f: FieldName :: f in AllFields
  {
    forall f: FieldName ensures f in AllFields {
      match f
      case IdField =>
      case NameField =>
      case CityField =>
      case AgeField =>
      case GenderField =>
      case HeightField =>
      case WeightField =>
    }
  }

  /** The fields of a draft that break their constraint. */
  function Violations(d: Draft): (r: set<FieldName>)
    ensures forall f :: f in r <==> !FieldOk(d, f)
  {
    AllFieldsComplete();
    set f | f in AllFields && !FieldOk(d, f)
  }

  predicate ValidPatient(p: Patient) {
    NameOk(p.name) && AgeOk(p.age) && MeasureOk(p.height) && MeasureOk(p.weight)
  }

  /** The draft a validated record was built from: every field present. */
  function Raw(p: Patient): Draft {
    Draft(Some(p.id), Some(p.name), Some(p.city), Some(p.age), Some(GenderName(p.gender)),
          Some(p.height), Some(p.weight))
  }

  /**
   * Validation of a full record: accepted exactly when every field is present
   * and within its bounds; otherwise rejected naming every offending field.
   */
  function Validate(d: Draft): (r: Result<Patient, set<FieldName>>)
    ensures r.Success? <==>
      && d.id.Some?
      && d.name.Some? && 2 <= |d.name.value| <= 100
      && d.city.Some?
      && d.age.Some? && 0 <= d.age.value <= 120
      && d.gender.Some? && (d.gender.value == "male" || d.gender.value == "female" || d.gender.value == "other")
      && d.height.Some? && d.height.value > 0.0
      && d.weight.Some? && d.weight.value > 0.0
    ensures r.Success? ==> ValidPatient(r.value) && Raw(r.value) == d
    ensures r.Failure? ==> r.error != {} && forall f :: f in r.error <==> !FieldOk(d, f)
  {
    var bad := Violations(d);
    if bad == {} then
      assert FieldOk(d, IdField) && FieldOk(d, NameField) && FieldOk(d, CityField) && FieldOk(d, AgeField);
      assert FieldOk(d, GenderField) && FieldOk(d, HeightField) && FieldOk(d, WeightField);
      Success(Patient(d.id.value, d.name.value, d.city.value, d.age.value,
                      ParseGender(d.gender.value).value, d.height.value, d.weight.value))
    else
      Failure(bad)
  }

  // ---------------------------------------------------------------------
  // Stored form
  // ---------------------------------------------------------------------

  /** A stored record: the patient without its id (the id is the key), plus bmi and verdict. */
  datatype Record = Record(
    name: string,
    city: string,
    age: int,
    gender: Gender,
    height: real,
    weight: real,
    bmi: real,
    verdict: Verdict)

  /** A stored record whose fields meet their constraints and whose derived fields are current. */
  predicate WellFormed(r: Record) {
    && NameOk(r.name) && AgeOk(r.age) && MeasureOk(r.height) && MeasureOk(r.weight)
    && r.bmi == Bmi(r.height, r.weight)
    && r.verdict == Classify(r.bmi)
  }

  /** The stored form of a validated record: the id dropped, bmi and verdict computed. */
  function Dump(p: Patient): (r: Record)
    requires ValidPatient(p)
    ensures WellFormed(r)
    ensures Restore(p.id, r) == Raw(p)
  {
    var bmi := Bmi(p.height, p.weight);
    Record(p.name, p.city, p.age, p.gender, p.height, p.weight, bmi, Classify(bmi))
  }

  /** A stored record together with its key, as handed back to validation; bmi and verdict are ignored. */
  function Restore(id: string, r: Record): (d: Draft)
    ensures d.id == Some(id)
    ensures d.gender.Some? && ParseGender(d.gender.value) == Some(r.gender)
    ensures WellFormed(r) ==> Violations(d) == {}
  {
    Draft(Some(id), Some(r.name), Some(r.city), Some(r.age), Some(GenderName(r.gender)),
          Some(r.height), Some(r.weight))
  }

  /** Validating a stored record again gives back the same record. */
  lemma RestoreRoundTrip(id: string, r: Record)
    requires WellFormed(r)
    ensures Validate(Restore(id, r)).Success?
    ensures Validate(Restore(id, r)).value.id == id
    ensures Dump(Validate(Restore(id, r)).value) == r
  {
    var p := Validate(Restore(id, r)).value;
    assert Raw(p) == Restore(id, r);
    assert ParseGender(GenderName(p.gender)) == Some(r.gender);
  }

  // ---------------------------------------------------------------------
  // Partial update
  // ---------------------------------------------------------------------

  /** A field of a partial update: not sent, sent as null, or sent with a value. */
  datatype Patch<T> = Unset | Null | Given(value: T)

  /** Every field but the id may be sent; the id is never part of an update. */
  datatype PatientUpdate = PatientUpdate(
    name: Patch<string>,
    city: Patch<string>,
    age: Patch<int>,
    gender: Patch<string>,
    height: Patch<real>,
    weight: Patch<real>)

  const NoChanges: PatientUpdate := PatientUpdate(Unset, Unset, Unset, Unset, Unset, Unset)

  /** Whether an update sends a field (with a value or as null). */
  predicate Sent(u: PatientUpdate, f: FieldName) {
    match f
    case IdField => false
    case NameField => !u.name.Unset?
    case CityField => !u.city.Unset?
    case AgeField => !u.age.Unset?
    case GenderField => !u.gender.Unset?
    case HeightField => !u.height.Unset?
    case WeightField => !u.weight.Unset?
  }

  /** Whether a field an update sends with a value breaks that field's constraint; null passes. */
  predicate PatchBad(u: PatientUpdate, f: FieldName) {
    match f
    case IdField => false
    case NameField => u.name.Given? && !NameOk(u.name.value)
    case CityField => false
    case AgeField => u.age.Given? && !AgeOk(u.age.value)
    case GenderField => u.gender.Given? && ParseGender(u.gender.value).None?
    case HeightField => u.height.Given? && !MeasureOk(u.height.value)
    case WeightField => u.weight.Given? && !MeasureOk(u.weight.value)
  }

  /** Whether an update sends a field as an explicit null. */
  predicate SentNull(u: PatientUpdate, f: FieldName) {
    match f
    case IdField => false
    case NameField => u.name.Null?
    case CityField => u.city.Null?
    case AgeField => u.age.Null?
    case GenderField => u.gender.Null?
    case HeightField => u.height.Null?
    case WeightField => u.weight.Null?
  }

  /** Validation of an update body: only the fields sent with a value are checked. */
  function UpdateViolations(u: PatientUpdate): (r: set<FieldName>)
    ensures forall f :: f in r <==> PatchBad(u, f)
    ensures r == {} <==>
      && (u.name.Given? ==> 2 <= |u.name.value| <= 100)
      && (u.age.Given? ==> 0 <= u.age.value <= 120)
      && (u.gender.Given? ==> u.gender.value == "male" || u.gender.value == "female" || u.gender.value == "other")
      && (u.height.Given? ==> u.height.value > 0.0)
      && (u.weight.Given? ==> u.weight.value > 0.0)
  {
    AllFieldsComplete();
    var r := set f | f in AllFields && PatchBad(u, f);
    assert !(u.name.Given? && !NameOk(u.name.value)) <== NameField !in r;
    assert !(u.age.Given? && !AgeOk(u.age.value)) <== AgeField !in r;
    assert !(u.gender.Given? && ParseGender(u.gender.value).None?) <== GenderField !in r;
    assert !(u.height.Given? && !MeasureOk(u.height.value)) <== HeightField !in r;
    assert !(u.weight.Given? && !MeasureOk(u.weight.value)) <== WeightField !in r;
    r
  }

  /** The fields an update sends as null. */
  function NullFields(u: PatientUpdate): (r: set<FieldName>)
    ensures forall f :: f in r <==> SentNull(u, f)
  {
    AllFieldsComplete();
    set f | f in AllFields && SentNull(u, f)
  }

  /** One field of a draft after an update: unchanged if not sent, null or the sent value otherwise. */
  function Put<T>(current: Option<T>, p: Patch<T>): Option<T> {
    match p
    case Unset => current
    case Null => None
    case Given(v) => Some(v)
  }

  /** A draft with every field of an update applied; the id is left alone. */
  function Overlay(d: Draft, u: PatientUpdate): Draft {
    Draft(d.id, Put(d.name, u.name), Put(d.city, u.city), Put(d.age, u.age),
          Put(d.gender, u.gender), Put(d.height, u.height), Put(d.weight, u.weight))
  }

  /** The fields an update may send, in the order they are declared. */
  const UpdateFields: seq<FieldName> := [NameField, CityField, AgeField, GenderField, HeightField, WeightField]

  /** The fields among fs that an update sends, in the order of fs. */
  function SentAmong(u: PatientUpdate, fs: seq<FieldName>): (r: seq<FieldName>)
    ensures forall f :: f in r <==> f in fs && Sent(u, f)
    ensures (forall i, j :: 0 <= i < j < |fs| ==> fs[i] != fs[j]) ==>
              forall i, j :: 0 <= i < j < |r| ==> r[i] != r[j]
  {
    if fs == [] then []
    else
      var rest := SentAmong(u, fs[1..]);
      assert forall i :: 0 < i < |fs| ==> fs[i] in fs[1..];
      if Sent(u, fs[0]) then [fs[0]] + rest else rest
  }

  /** The fields an update sends, in declaration order: the keys of the dumped update body. */
  function Supplied(u: PatientUpdate): (r: seq<FieldName>)
    ensures forall f :: f in r <==> Sent(u, f)
    ensures forall i, j :: 0 <= i < j < |r| ==> r[i] != r[j]
  {
    assert forall f :: Sent(u, f) ==> f in UpdateFields;
    SentAmong(u, UpdateFields)
  }

  /** The update reduced to the fields listed in fs; the others become unsent. */
  function Restrict(u: PatientUpdate, fs: seq<FieldName>): PatientUpdate {
    PatientUpdate(
      if NameField in fs then u.name else Unset,
      if CityField in fs then u.city else Unset,
      if AgeField in fs then u.age else Unset,
      if GenderField in fs then u.gender else Unset,
      if HeightField in fs then u.height else Unset,
      if WeightField in fs then u.weight else Unset)
  }

  /** Writes the value an update gives one field into a draft. */
  function Assign(d: Draft, f: FieldName, u: PatientUpdate): Draft {
    match f
    case IdField => d
    case NameField => d.(name := Put(d.name, u.name))
    case CityField => d.(city := Put(d.city, u.city))
    case AgeField => d.(age := Put(d.age, u.age))
    case GenderField => d.(gender := Put(d.gender, u.gender))
    case HeightField => d.(height := Put(d.height, u.height))
    case WeightField => d.(weight := Put(d.weight, u.weight))
  }

  lemma AssignStep(d: Draft, u: PatientUpdate, fs: seq<FieldName>, f: FieldName)
    ensures Assign(Overlay(d, Restrict(u, fs)), f, u) == Overlay(d, Restrict(u, fs + [f]))
  {
    assert forall g :: g in fs + [f] <==> g in fs || g == f;
  }

  /**
   * Merges an update into the fields of a stored record one sent field at a
   * time; the result is the overlay of the whole update.
   */
  method ApplyUpdate(existing: Draft, u: PatientUpdate) returns (merged: Draft)
    ensures merged == Overlay(existing, u)
  {
    var fields := Supplied(u);
    merged := existing;
    for i := 0 to |fields|
      invariant merged == Overlay(existing, Restrict(u, fields[..i]))
    {
      AssignStep(existing, u, fields[..i], fields[i]);
      assert fields[..i + 1] == fields[..i] + [fields[i]];
      merged := Assign(merged, fields[i], u);
    }
    assert fields[..|fields|] == fields;
  }

  /** An update that sends only what the second sends, and the first's field otherwise. */
  function Then(u1: PatientUpdate, u2: PatientUpdate): PatientUpdate {
    PatientUpdate(
      if u2.name.Unset? then u1.name else u2.name,
      if u2.city.Unset? then u1.city else u2.city,
      if u2.age.Unset? then u1.age else u2.age,
      if u2.gender.Unset? then u1.gender else u2.gender,
      if u2.height.Unset? then u1.height else u2.height,
      if u2.weight.Unset? then u1.weight else u2.weight)
  }

  /** Applying two updates in turn is applying their combination once. */
  lemma OverlayCompose(d: Draft, u1: PatientUpdate, u2: PatientUpdate)
    ensures Overlay(Overlay(d, u1), u2) == Overlay(d, Then(u1, u2))
  {
  }

  /**
   * What a merged record holds: every field sent with a value takes that
   * value, every field not sent keeps its stored value, and bmi and verdict
   * are those of the merged height and weight.
   */
  predicate Patched(before: Record, u: PatientUpdate, after: Record) {
    && after.name == (if u.name.Given? then u.name.value else before.name)
    && after.city == (if u.city.Given? then u.city.value else before.city)
    && after.age == (if u.age.Given? then u.age.value else before.age)
    && (u.gender.Given? ==> GenderName(after.gender) == u.gender.value)
    && (!u.gender.Given? ==> after.gender == before.gender)
    && after.height == (if u.height.Given? then u.height.value else before.height)
    && after.weight == (if u.weight.Given? then u.weight.value else before.weight)
    && WellFormed(after)
  }

  /**
   * Re-validating a stored record merged with an update body that passed its
   * own checks fails exactly when the body sends some field as null, naming
   * those fields; otherwise the stored form of the result is the patched record.
   */
  lemma MergeOutcome(id: string, before: Record, u: PatientUpdate)
    requires WellFormed(before)
    requires UpdateViolations(u) == {}
    ensures Validate(Overlay(Restore(id, before), u)).Failure? <==> NullFields(u) != {}
    ensures Validate(Overlay(Restore(id, before), u)).Failure? ==>
              Validate(Overlay(Restore(id, before), u)).error == NullFields(u)
    ensures Validate(Overlay(Restore(id, before), u)).Success? ==>
              && Validate(Overlay(Restore(id, before), u)).value.id == id
              && Patched(before, u, Dump(Validate(Overlay(Restore(id, before), u)).value))
  {
    var d := Overlay(Restore(id, before), u);
    assert ParseGender(GenderName(before.gender)).Some?;
    forall f ensures !FieldOk(d, f) <==> SentNull(u, f) {
      assert !PatchBad(u, f);
    }
    var r := Validate(d);
    if r.Failure? {
      assert r.error == NullFields(u);
    } else {
      var after := Dump(r.value);
      assert Raw(r.value) == d;
      if !u.gender.Given? {
        assert ParseGender(GenderName(before.gender)) == Some(before.gender);
        assert ParseGender(GenderName(r.value.gender)) == Some(r.value.gender);
      }
    }
  }
}
