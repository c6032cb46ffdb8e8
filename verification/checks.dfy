/**
 * Pieces shared by the validators: the result of validating one file and
 * the required-field check.
 */
module Checks {
  import opened Json
  import opened Paths
  import opened CardIndex
  import opened Findings

  /** The findings one file adds, and the card index after it. */
  datatype Step = Step(findings: seq<Finding>, index: Index)

  /** The names of `fields` that `obj` lacks, as the loop over the schema list collects them. */
  function Absent(fields: seq<string>, obj: Json): seq<string> {
    if |fields| == 0 then []
    else (if Has(obj, fields[0]) then [] else [fields[0]]) + Absent(fields[1..], obj)
  }

  lemma {:induction false} AbsentCounts(fields: seq<string>, obj: Json)
    ensures |Absent(fields, obj)| <= |fields|
    ensures forall f :: multiset(Absent(fields, obj))[f] == if Has(obj, f) then 0 else multiset(fields)[f]
    ensures forall k :: 0 <= k < |Absent(fields, obj)| ==> Absent(fields, obj)[k] in fields && !Has(obj, Absent(fields, obj)[k])
  {
    AbsentMultiset(fields, obj);
    var r := Absent(fields, obj);
    forall k | 0 <= k < |r|
      ensures r[k] in fields && !Has(obj, r[k])
    {
      assert r[k] in multiset(r);
    }
  }

  lemma {:induction false} AbsentMultiset(fields: seq<string>, obj: Json)
    ensures |Absent(fields, obj)| <= |fields|
    ensures forall f :: multiset(Absent(fields, obj))[f] == if Has(obj, f) then 0 else multiset(fields)[f]
  {
    if |fields| > 0 {
      var head := if Has(obj, fields[0]) then [] else [fields[0]];
      var rest := fields[1..];
      AbsentMultiset(rest, obj);
      assert fields == [fields[0]] + rest;
      assert multiset(fields) == multiset([fields[0]]) + multiset(rest);
      assert multiset(Absent(fields, obj)) == multiset(head) + multiset(Absent(rest, obj));
    }
  }

  lemma {:induction false} AbsentAppend(a: seq<string>, b: seq<string>, obj: Json)
    ensures Absent(a + b, obj) == Absent(a, obj) + Absent(b, obj)
  {
    if |a| > 0 {
      assert (a + b)[0] == a[0];
      assert (a + b)[1..] == a[1..] + b;
      AbsentAppend(a[1..], b, obj);
    } else {
      assert a + b == b;
    }
  }

  /**
   * The names of `fields` that `obj` lacks, in schema order: each missing
   * name as often as the schema lists it, and no present one.
   */
  function MissingFields(fields: seq<string>, obj: Json): (r: seq<string>)
    ensures |r| <= |fields|
    ensures forall f :: multiset(r)[f] == if Has(obj, f) then 0 else multiset(fields)[f]
    ensures forall k :: 0 <= k < |r| ==> r[k] in fields && !Has(obj, r[k])
  {
    AbsentCounts(fields, obj);
    Absent(fields, obj)
  }

  /**
   * The check walks the schema's list in order: the names missing from a
   * concatenation are those missing from each part, one after the other.
   */
  lemma MissingFieldsAppend(a: seq<string>, b: seq<string>, obj: Json)
    ensures MissingFields(a + b, obj) == MissingFields(a, obj) + MissingFields(b, obj)
  {
    AbsentAppend(a, b, obj);
  }

  /** No name is missing exactly when the object has every listed field. */
  lemma MissingFieldsNone(fields: seq<string>, obj: Json)
    ensures MissingFields(fields, obj) == [] <==> forall f :: f in fields ==> Has(obj, f)
  {
    var r := MissingFields(fields, obj);
    if r == [] {
      forall f | f in fields
        ensures Has(obj, f)
      {
        assert multiset(r)[f] == 0;
      }
    } else {
      assert r[0] in fields && !Has(obj, r[0]);
    }
  }

  /** A `[#i] Missing required field` ERROR for each missing name. */
  function MissingFieldErrors(path: FilePath, item: nat, missing: seq<string>): (r: seq<Finding>)
    ensures |r| == |missing|
    ensures forall k :: 0 <= k < |r| ==> r[k] == Finding(path, Error, MissingField(item, missing[k]))
    ensures forall f :: f in r ==> f.level == Error && f.message.MissingField?
  {
    seq(|missing|, k requires 0 <= k < |missing| => Finding(path, Error, MissingField(item, missing[k])))
  }
}
