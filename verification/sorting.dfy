/**
 * The sort query: the field and the direction are checked against closed
 * sets, and the stored records are sorted stably by that field.
 */
module Sorting {
  import opened Wrappers
  import opened Patients

  datatype SortField = ByHeight | ByWeight | ByBmi

  datatype SortOrder = Asc | Desc

  /** Accepts exactly "height", "weight" and "bmi". */
  function ParseSortField(s: string): (r: Option<SortField>)
    ensures r.Some? <==> s == "height" || s == "weight" || s == "bmi"
    ensures r == Some(ByHeight) ==> s == "height"
    ensures r == Some(ByWeight) ==> s == "weight"
    ensures r == Some(ByBmi) ==> s == "bmi"
  {
    if s == "height" then Some(ByHeight)
    else if s == "weight" then Some(ByWeight)
    else if s == "bmi" then Some(ByBmi)
    else None
  }

  /** Accepts exactly "asc" and "desc". */
  function ParseOrder(s: string): (r: Option<SortOrder>)
    ensures r.Some? <==> s == "asc" || s == "desc"
    ensures r == Some(Desc) <==> s == "desc"
  {
    if s == "asc" then Some(Asc)
    else if s == "desc" then Some(Desc)
    else None
  }

  /** The value a record is sorted by. */
  function Key(r: Record, f: SortField): real {
    match f
    case ByHeight => r.height
    case ByWeight => r.weight
    case ByBmi => r.bmi
  }

  /** Whether a must come strictly before b: a smaller key ascending, a larger key descending. */
  predicate Before(a: Record, b: Record, f: SortField, o: SortOrder) {
    if o == Asc then Key(a, f) < Key(b, f) else Key(a, f) > Key(b, f)
  }

  /** Non-decreasing keys ascending, non-increasing keys descending. */
  predicate Ordered(s: seq<Record>, f: SortField, o: SortOrder) {
    forall i, j :: 0 <= i < j < |s| ==> !Before(s[j], s[i], f, o)
  }

  /** The records of s whose key is k, in the order of s. */
  function WithKey(s: seq<Record>, f: SortField, k: real): seq<Record> {
    if s == [] then []
    else (if Key(s[0], f) == k then [s[0]] else []) + WithKey(s[1..], f, k)
  }

  /** Inserts x in front of the first record it does not have to follow. */
  function Insert(x: Record, s: seq<Record>, f: SortField, o: SortOrder): (r: seq<Record>)
    ensures multiset(r) == multiset(s) + multiset{x}
  {
    if s == [] then [x]
    else if !Before(s[0], x, f, o) then
      assert s == [s[0]] + s[1..];
      [x] + s
    else
      assert s == [s[0]] + s[1..];
      [s[0]] + Insert(x, s[1..], f, o)
  }

  /** Inserting into an ordered sequence keeps it ordered. */
  lemma {:induction false} InsertOrdered(x: Record, s: seq<Record>, f: SortField, o: SortOrder)
    requires Ordered(s, f, o)
    ensures Ordered(Insert(x, s, f, o), f, o)
  {
    if s == [] {
    } else if !Before(s[0], x, f, o) {
      var r := [x] + s;
      forall i, j | 0 <= i < j < |r| ensures !Before(r[j], r[i], f, o) {
        if i == 0 && j > 1 {
          assert !Before(s[j - 1], s[0], f, o);
        }
      }
    } else {
      var rest := Insert(x, s[1..], f, o);
      InsertOrdered(x, s[1..], f, o);
      var r := [s[0]] + rest;
      forall i, j | 0 <= i < j < |r| ensures !Before(r[j], r[i], f, o) {
        if i == 0 {
          var y := rest[j - 1];
          assert y in multiset(rest);
          if y != x {
            assert y in s[1..];
            var m :| 0 <= m < |s[1..]| && s[1..][m] == y;
            assert s[m + 1] == y;
          }
        }
      }
    }
  }

  /**
   * Python's sorted(values, key=..., reverse=...): a stable sort, where
   * reverse=True reverses the comparison but keeps equal keys in their
   * original order.
   */
  function SortRecords(s: seq<Record>, f: SortField, o: SortOrder): (r: seq<Record>)
    ensures multiset(r) == multiset(s)
    ensures Ordered(r, f, o)
  {
    if s == [] then []
    else
      assert s == [s[0]] + s[1..];
      var rest := SortRecords(s[1..], f, o);
      InsertOrdered(s[0], rest, f, o);
      Insert(s[0], rest, f, o)
  }

  lemma WithKeyCons(y: Record, t: seq<Record>, f: SortField, k: real)
    ensures WithKey([y] + t, f, k) == (if Key(y, f) == k then [y] else []) + WithKey(t, f, k)
  {
    assert ([y] + t)[1..] == t;
  }

  /** Insertion only passes over records with a different key, so ties keep their order. */
  lemma {:induction false} InsertKeepsTies(x: Record, s: seq<Record>, f: SortField, o: SortOrder, k: real)
    ensures WithKey(Insert(x, s, f, o), f, k) == WithKey([x] + s, f, k)
  {
    if s != [] && Before(s[0], x, f, o) {
      var rest := Insert(x, s[1..], f, o);
      var hx := if Key(x, f) == k then [x] else [];
      var hy := if Key(s[0], f) == k then [s[0]] else [];
      assert Key(s[0], f) != Key(x, f);
      assert hy + hx == hx + hy;
      calc {
        WithKey(Insert(x, s, f, o), f, k);
        WithKey([s[0]] + rest, f, k);
        { WithKeyCons(s[0], rest, f, k); }
        hy + WithKey(rest, f, k);
        { InsertKeepsTies(x, s[1..], f, o, k); }
        hy + WithKey([x] + s[1..], f, k);
        { WithKeyCons(x, s[1..], f, k); }
        hy + (hx + WithKey(s[1..], f, k));
        hx + (hy + WithKey(s[1..], f, k));
        { WithKeyCons(s[0], s[1..], f, k); assert [s[0]] + s[1..] == s; }
        hx + WithKey(s, f, k);
        { WithKeyCons(x, s, f, k); }
        WithKey([x] + s, f, k);
      }
    }
  }

  /** The sort is stable: for every key, the records with that key keep their relative order. */
  lemma {:induction false} SortIsStable(s: seq<Record>, f: SortField, o: SortOrder, k: real)
    ensures WithKey(SortRecords(s, f, o), f, k) == WithKey(s, f, k)
  {
    if s != [] {
      var rest := SortRecords(s[1..], f, o);
      calc {
        WithKey(SortRecords(s, f, o), f, k);
        WithKey(Insert(s[0], rest, f, o), f, k);
        { InsertKeepsTies(s[0], rest, f, o, k); }
        WithKey([s[0]] + rest, f, k);
        { WithKeyCons(s[0], rest, f, k); SortIsStable(s[1..], f, o, k); WithKeyCons(s[0], s[1..], f, k); }
        WithKey([s[0]] + s[1..], f, k);
        { assert [s[0]] + s[1..] == s; }
        WithKey(s, f, k);
      }
    }
  }

  /** A record that occurs in an ordered sequence after its first element never has to precede it. */
  lemma HeadFirst(s: seq<Record>, y: Record, f: SortField, o: SortOrder)
    requires Ordered(s, f, o) && y in multiset(s)
    ensures !Before(y, s[0], f, o)
  {
    var i :| 0 <= i < |s| && s[i] == y;
  }

  lemma TailsSameRecords(r1: seq<Record>, r2: seq<Record>)
    requires r1 != [] && r2 != [] && r1[0] == r2[0]
    requires multiset(r1) == multiset(r2)
    ensures multiset(r1[1..]) == multiset(r2[1..])
  {
    assert r1 == [r1[0]] + r1[1..] && r2 == [r2[0]] + r2[1..];
    assert multiset(r1) == multiset{r1[0]} + multiset(r1[1..]);
    assert multiset(r2) == multiset{r2[0]} + multiset(r2[1..]);
    forall z ensures multiset(r1[1..])[z] == multiset(r2[1..])[z] {
      assert multiset(r1)[z] == multiset(r2)[z];
    }
  }

  lemma TailsSameTies(r1: seq<Record>, r2: seq<Record>, f: SortField)
    requires r1 != [] && r2 != [] && r1[0] == r2[0]
    requires forall k :: WithKey(r1, f, k) == WithKey(r2, f, k)
    ensures forall k :: WithKey(r1[1..], f, k) == WithKey(r2[1..], f, k)
  {
    var x := r1[0];
    assert r1 == [x] + r1[1..] && r2 == [x] + r2[1..];
    forall k ensures WithKey(r1[1..], f, k) == WithKey(r2[1..], f, k) {
      WithKeyCons(x, r1[1..], f, k);
      WithKeyCons(x, r2[1..], f, k);
      var h := if Key(x, f) == k then [x] else [];
      assert h + WithKey(r1[1..], f, k) == h + WithKey(r2[1..], f, k);
      assert WithKey(r1[1..], f, k) == (h + WithKey(r1[1..], f, k))[|h|..];
      assert WithKey(r2[1..], f, k) == (h + WithKey(r2[1..], f, k))[|h|..];
    }
  }

  lemma HeadKeysAgree(r1: seq<Record>, r2: seq<Record>, f: SortField, o: SortOrder)
    requires r1 != [] && multiset(r1) == multiset(r2)
    requires Ordered(r1, f, o) && Ordered(r2, f, o)
    ensures r2 != [] && Key(r1[0], f) == Key(r2[0], f)
  {
    assert |multiset(r2)| == |r1| > 0;
    assert r1[0] in multiset(r1) && r2[0] in multiset(r2);
    HeadFirst(r1, r2[0], f, o);
    HeadFirst(r2, r1[0], f, o);
  }

  lemma HeadsAgree(r1: seq<Record>, r2: seq<Record>, f: SortField, o: SortOrder)
    requires r1 != [] && multiset(r1) == multiset(r2)
    requires Ordered(r1, f, o) && Ordered(r2, f, o)
    requires forall k :: WithKey(r1, f, k) == WithKey(r2, f, k)
    ensures r2 != [] && r1[0] == r2[0]
  {
    HeadKeysAgree(r1, r2, f, o);
    var k := Key(r1[0], f);
    assert WithKey(r1, f, k)[0] == r1[0];
    assert WithKey(r2, f, k)[0] == r2[0];
  }

  /**
   * A stable sort has only one possible result: two sequences with the same
   * records, both ordered, and agreeing on the order of every group of equal
   * keys, are equal. So SortRecords gives exactly what any stable sort gives.
   */
  lemma {:induction false} StableSortUnique(r1: seq<Record>, r2: seq<Record>, f: SortField, o: SortOrder)
    requires multiset(r1) == multiset(r2)
    requires Ordered(r1, f, o) && Ordered(r2, f, o)
    requires forall k :: WithKey(r1, f, k) == WithKey(r2, f, k)
    ensures r1 == r2
  {
    if r1 == [] {
      assert |multiset(r2)| == 0;
    } else {
      HeadsAgree(r1, r2, f, o);
      TailsSameRecords(r1, r2);
      TailsSameTies(r1, r2, f);
      StableSortUnique(r1[1..], r2[1..], f, o);
      assert r1 == [r1[0]] + r1[1..] && r2 == [r2[0]] + r2[1..];
    }
  }
}
