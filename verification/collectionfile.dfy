/**
 * `validate_collection_file`: per item, structure, required fields and a
 * bounded integer `count`.
 */
module CollectionFile {
  import opened Wrappers
  import opened Json
  import opened Paths
  import opened Schema
  import opened Findings
  import opened Checks

  /**
   * The `count` check of item `i`: an ERROR unless `count` is an integer
   * (absent counts included; booleans pass as 0 and 1), otherwise a WARN
   * when it lies outside the inclusive range `[lo, hi]`.
   */
  function CountFindings(path: FilePath, i: nat, obj: Json, lo: int, hi: int): (r: seq<Finding>)
    ensures AsInt(Get(obj, "count")).None? ==> r == [Finding(path, Error, CountNotInteger(i))]
    ensures AsInt(Get(obj, "count")).Some? ==>
              var n := AsInt(Get(obj, "count")).value;
              (r != [] <==> n < lo || n > hi) && (r == [] || r == [Finding(path, Warn, CountOutOfRange(i, n, lo, hi))])
  {
    match AsInt(Get(obj, "count"))
    case None => [Finding(path, Error, CountNotInteger(i))]
    case Some(n) => if n < lo || n > hi then [Finding(path, Warn, CountOutOfRange(i, n, lo, hi))] else []
  }

  /** An item without `count` always gets the not-an-integer ERROR. */
  lemma MissingCountIsError(path: FilePath, i: nat, obj: Json, lo: int, hi: int)
    requires !Has(obj, "count")
    ensures CountFindings(path, i, obj, lo, hi) == [Finding(path, Error, CountNotInteger(i))]
  {
  }

  /** A JSON `true` passes the integer check and is range-checked as 1. */
  lemma BooleanCountPasses(path: FilePath, i: nat, obj: Json)
    requires Get(obj, "count") == JBool(true)
    ensures CountFindings(path, i, obj, 0, 99) == []
    ensures CountFindings(path, i, obj, 2, 99) == [Finding(path, Warn, CountOutOfRange(i, 1, 2, 99))]
  {
  }

  /**
   * An item passes the collection check: it is an object with every required
   * field and an integer (or boolean) `count` within the inclusive bounds.
   */
  predicate ItemAccepted(obj: Json, rule: FileRule) {
    && obj.JObj?
    && (forall f :: f in rule.requiredFields ==> f in obj.fields)
    && "count" in obj.fields
    && match obj.fields["count"]
       case JInt(n) => CountMin(rule) <= n <= CountMax(rule)
       case JBool(b) => CountMin(rule) <= (if b then 1 else 0) <= CountMax(rule)
       case _ => false
  }

  /**
   * The findings for item `i` of a collection file: all at `path`, none
   * exactly when the item is accepted, and for an object one missing-field
   * ERROR per absent name in schema order, followed by at most one `count`
   * finding.
   */
  function ItemFindings(path: FilePath, i: nat, obj: Json, rule: FileRule): (r: seq<Finding>)
    ensures !obj.JObj? ==> r == [Finding(path, Error, NotAnObject(i))]
    ensures forall f :: f in r ==> f.path == path
    ensures r == [] <==> ItemAccepted(obj, rule)
    ensures obj.JObj? ==>
              var missing := MissingFields(rule.requiredFields, obj);
              && |missing| <= |r| <= |missing| + 1
              && (forall k :: 0 <= k < |missing| ==> r[k] == Finding(path, Error, MissingField(i, missing[k])))
  {
    if !obj.JObj? then [Finding(path, Error, NotAnObject(i))]
    else
      ObjectAccepted(path, i, obj, rule);
      MissingFieldErrors(path, i, MissingFields(rule.requiredFields, obj))
      + CountFindings(path, i, obj, CountMin(rule), CountMax(rule))
  }

  /** An object item draws no finding exactly when it is accepted. */
  lemma ObjectAccepted(path: FilePath, i: nat, obj: Json, rule: FileRule)
    requires obj.JObj?
    ensures MissingFieldErrors(path, i, MissingFields(rule.requiredFields, obj))
            + CountFindings(path, i, obj, CountMin(rule), CountMax(rule)) == []
            <==> ItemAccepted(obj, rule)
  {
    MissingFieldsNone(rule.requiredFields, obj);
  }

  /** The findings of all items, in item order. */
  function ItemsFindings(path: FilePath, items: seq<Json>, rule: FileRule): (r: seq<Finding>)
    ensures forall f :: f in r ==> f.path == path
    ensures r == [] <==> forall k :: 0 <= k < |items| ==> ItemAccepted(items[k], rule)
  {
    if |items| == 0 then []
    else
      var prefix := items[..|items| - 1];
      var prev := ItemsFindings(path, prefix, rule);
      var last := ItemFindings(path, |items| - 1, items[|items| - 1], rule);
      AllAcceptedSnoc(prefix, items, rule);
      assert prev + last == [] <==> prev == [] && last == [];
      prev + last
  }

  /** Every item is accepted exactly when the prefix's items and the last one are. */
  lemma AllAcceptedSnoc(prefix: seq<Json>, items: seq<Json>, rule: FileRule)
    requires |items| > 0 && prefix == items[..|items| - 1]
    ensures (forall k :: 0 <= k < |items| ==> ItemAccepted(items[k], rule))
            <==> (forall k :: 0 <= k < |prefix| ==> ItemAccepted(prefix[k], rule))
                 && ItemAccepted(items[|items| - 1], rule)
  {
    assert forall k :: 0 <= k < |prefix| ==> prefix[k] == items[k];
  }

  /** `validate_collection_file` on one file. */
  function ValidateCollectionFile(path: FilePath, src: Source, rule: FileRule): (r: seq<Finding>)
    ensures IsLoadError(LoadJson(src)) ==> r == [Finding(path, Error, LoadFailed(Get(LoadJson(src), "__load_error__")))]
    ensures !IsLoadError(LoadJson(src)) ==>
              (r == [] <==> forall k :: 0 <= k < |Items(LoadJson(src))| ==> ItemAccepted(Items(LoadJson(src))[k], rule))
    ensures forall f :: f in r ==> f.path == path
  {
    var data := LoadJson(src);
    if IsLoadError(data) then [Finding(path, Error, LoadFailed(Get(data, "__load_error__")))]
    else ItemsFindings(path, Items(data), rule)
  }
}
