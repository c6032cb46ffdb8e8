/**
 * `validate_card_file`: per item, structure, required fields, identifier
 * pattern, allowed rarity and card type; and first-seen-wins indexing.
 */
module CardFile {
  import opened Wrappers
  import opened Json
  import opened Strings
  import opened Paths
  import opened Schema
  import opened Findings
  import opened CardMeta
  import opened CardIndex
  import opened Checks

  /** The identifier a card item is indexed under: its `id` text, "" when there is none. */
  function CardId(obj: Json): string {
    if obj.JObj? then Text(Get(obj, "id")) else ""
  }

  /** The `[#i] id ... does not match pattern` WARN, if due. */
  function IdWarning(path: FilePath, i: nat, obj: Json, rule: FileRule,
                     reMatch: (string, string) -> bool): (r: seq<Finding>)
    ensures r == [] || r == [Finding(path, Warn, IdMismatch(i, CardId(obj)))]
    ensures r != [] <==> CardId(obj) != "" && !reMatch(IdPattern(rule), CardId(obj))
  {
    var cid := CardId(obj);
    if cid != "" && !reMatch(IdPattern(rule), cid) then [Finding(path, Warn, IdMismatch(i, cid))] else []
  }

  /** The `[#i] rarity ... not in ...` WARN, if due; the check is off when no rarity is listed. */
  function RarityWarning(path: FilePath, i: nat, obj: Json, rule: FileRule): (r: seq<Finding>)
    ensures |r| <= 1
    ensures forall f :: f in r ==> f.path == path && f.level == Warn && f.message.RarityNotAllowed?
    ensures r != [] <==> rule.allowedRarities != {} && Text(Get(obj, "rarity")) != ""
                         && Upper(Text(Get(obj, "rarity"))) !in rule.allowedRarities
  {
    var rarity := Text(Get(obj, "rarity"));
    if rule.allowedRarities != {} && rarity != "" && Upper(rarity) !in rule.allowedRarities
    then [Finding(path, Warn, RarityNotAllowed(i, rarity, rule.allowedRarities))] else []
  }

  /** The `[#i] empty/unknown type` WARN: only for a blank type, never for an unknown one. */
  function TypeWarning(path: FilePath, i: nat, obj: Json): (r: seq<Finding>)
    ensures r == [] || r == [Finding(path, Warn, EmptyType(i))]
    ensures r != [] <==> Strip(Text(Get(obj, "type"))) == ""
  {
    NormTypeEmpty(Text(Get(obj, "type")));
    if NormType(Text(Get(obj, "type"))) == "" then [Finding(path, Warn, EmptyType(i))] else []
  }

  /** The warnings of an object item: identifier, then rarity, then type. */
  function ItemWarnings(path: FilePath, i: nat, obj: Json, rule: FileRule,
                        reMatch: (string, string) -> bool): (r: seq<Finding>)
    ensures forall f :: f in r ==> f.path == path && f.level == Warn
  {
    var w, rw, tw := IdWarning(path, i, obj, rule, reMatch), RarityWarning(path, i, obj, rule), TypeWarning(path, i, obj);
    AllAtAppend(w, rw, path, Warn);
    AllAtAppend(w + rw, tw, path, Warn);
    w + rw + tw
  }

  /**
   * The findings for item `i` of a card file. `reMatch(pattern, id)` stands
   * for `re.match`, which anchors the pattern at the start of the
   * identifier only.
   */
  function ItemFindings(path: FilePath, i: nat, obj: Json, rule: FileRule,
                        reMatch: (string, string) -> bool): (r: seq<Finding>)
    ensures !obj.JObj? ==> r == [Finding(path, Error, NotAnObject(i))]
    ensures forall f :: f in r ==> f.path == path
  {
    if !obj.JObj? then [Finding(path, Error, NotAnObject(i))]
    else
      MissingFieldErrors(path, i, MissingFields(rule.requiredFields, obj))
      + ItemWarnings(path, i, obj, rule, reMatch)
  }

  /** The errors of an object item are exactly one per missing required field. */
  lemma ObjectItemErrors(path: FilePath, i: nat, obj: Json, rule: FileRule,
                         reMatch: (string, string) -> bool)
    requires obj.JObj?
    ensures Select(ItemFindings(path, i, obj, rule, reMatch), Error)
            == MissingFieldErrors(path, i, MissingFields(rule.requiredFields, obj))
  {
    var missing := MissingFieldErrors(path, i, MissingFields(rule.requiredFields, obj));
    var warns := ItemWarnings(path, i, obj, rule, reMatch);
    SelectNone(warns, Error);
    SelectAll(missing, Error);
    SelectAppend(missing, warns, Error);
  }

  /** An item gets the type WARN iff it is an object whose type is blank; unknown types pass. */
  lemma TypeWarningIff(path: FilePath, i: nat, obj: Json, rule: FileRule,
                       reMatch: (string, string) -> bool)
    ensures Finding(path, Warn, EmptyType(i)) in ItemFindings(path, i, obj, rule, reMatch)
            <==> obj.JObj? && NormType(Text(Get(obj, "type"))) == ""
  {
    NormTypeEmpty(Text(Get(obj, "type")));
  }

  /** An item gets the identifier WARN iff it has an identifier the pattern rejects. */
  lemma IdWarningIff(path: FilePath, i: nat, obj: Json, rule: FileRule,
                     reMatch: (string, string) -> bool)
    ensures Finding(path, Warn, IdMismatch(i, CardId(obj))) in ItemFindings(path, i, obj, rule, reMatch)
            <==> obj.JObj? && CardId(obj) != "" && !reMatch(IdPattern(rule), CardId(obj))
  {
    var g := Finding(path, Warn, IdMismatch(i, CardId(obj)));
    if obj.JObj? {
      ObjectItemHas(path, i, obj, rule, reMatch, g);
    }
  }

  /** A finding is among an object item's findings iff one of its four parts reports it. */
  lemma ObjectItemHas(path: FilePath, i: nat, obj: Json, rule: FileRule,
                      reMatch: (string, string) -> bool, g: Finding)
    requires obj.JObj?
    ensures g in ItemFindings(path, i, obj, rule, reMatch)
            <==> || g in MissingFieldErrors(path, i, MissingFields(rule.requiredFields, obj))
                 || g in IdWarning(path, i, obj, rule, reMatch)
                 || g in RarityWarning(path, i, obj, rule)
                 || g in TypeWarning(path, i, obj)
  {
  }

  /** An item that draws no ERROR: an object carrying every required field. */
  predicate ItemSound(obj: Json, rule: FileRule) {
    obj.JObj? && forall f :: f in rule.requiredFields ==> f in obj.fields
  }

  /** An item draws an ERROR iff it is not an object or lacks a required field; warnings never count. */
  lemma ItemErrorsIff(path: FilePath, i: nat, obj: Json, rule: FileRule, reMatch: (string, string) -> bool)
    ensures Select(ItemFindings(path, i, obj, rule, reMatch), Error) == [] <==> ItemSound(obj, rule)
  {
    if obj.JObj? {
      ObjectItemErrors(path, i, obj, rule, reMatch);
      MissingFieldsNone(rule.requiredFields, obj);
    } else {
      assert Select(ItemFindings(path, i, obj, rule, reMatch), Error) != [] by {
        SelectAll(ItemFindings(path, i, obj, rule, reMatch), Error);
      }
    }
  }

  /** The findings of all items, in item order. */
  function ItemsFindings(path: FilePath, items: seq<Json>, rule: FileRule,
                         reMatch: (string, string) -> bool): (r: seq<Finding>)
    ensures forall f :: f in r ==> f.path == path
    ensures Select(r, Error) == [] <==> forall k :: 0 <= k < |items| ==> ItemSound(items[k], rule)
  {
    if |items| == 0 then []
    else
      var prefix := items[..|items| - 1];
      var prev := ItemsFindings(path, prefix, rule, reMatch);
      var last := ItemFindings(path, |items| - 1, items[|items| - 1], rule, reMatch);
      SelectAppend(prev, last, Error);
      ItemErrorsIff(path, |items| - 1, items[|items| - 1], rule, reMatch);
      SoundSnoc(prefix, items, rule);
      prev + last
  }

  /** Every item is sound exactly when the prefix's items and the last one are. */
  lemma SoundSnoc(prefix: seq<Json>, items: seq<Json>, rule: FileRule)
    requires |items| > 0 && prefix == items[..|items| - 1]
    ensures (forall k :: 0 <= k < |items| ==> ItemSound(items[k], rule))
            <==> (forall k :: 0 <= k < |prefix| ==> ItemSound(prefix[k], rule))
                 && ItemSound(items[|items| - 1], rule)
  {
    assert forall k :: 0 <= k < |prefix| ==> prefix[k] == items[k];
  }

  /** The findings `of` gives each item under its index, in item order. */
  function Each(items: seq<Json>, of: (nat, Json) -> seq<Finding>): seq<Finding> {
    if |items| == 0 then [] else Each(items[..|items| - 1], of) + of(|items| - 1, items[|items| - 1])
  }

  /** The findings of the first `n` items begin the findings of all of them. */
  lemma {:induction false} EachPrefix(items: seq<Json>, of: (nat, Json) -> seq<Finding>, n: nat)
    requires n <= |items|
    ensures Each(items[..n], of) <= Each(items, of)
    decreases |items|
  {
    if n == |items| {
      assert items[..n] == items;
    } else {
      var prefix := items[..|items| - 1];
      EachPrefix(prefix, of, n);
      assert prefix[..n] == items[..n];
      PrefixAppend(Each(items[..n], of), Each(prefix, of), of(|items| - 1, items[|items| - 1]));
    }
  }

  /** The findings of a card file's items are each item's own findings, in item order. */
  lemma {:induction false} ItemsFindingsEach(path: FilePath, items: seq<Json>, rule: FileRule,
                                             reMatch: (string, string) -> bool)
    ensures ItemsFindings(path, items, rule, reMatch)
            == Each(items, (i: nat, o: Json) => ItemFindings(path, i, o, rule, reMatch))
    decreases |items|
  {
    if |items| > 0 {
      ItemsFindingsEach(path, items[..|items| - 1], rule, reMatch);
    }
  }

  /**
   * Item `k`'s findings appear contiguously, right after those of the items
   * before it: each item is reported in item order and under its own index.
   */
  lemma ItemsFindingsAt(path: FilePath, items: seq<Json>, rule: FileRule,
                        reMatch: (string, string) -> bool, k: nat)
    requires k < |items|
    ensures ItemsFindings(path, items[..k], rule, reMatch) + ItemFindings(path, k, items[k], rule, reMatch)
            <= ItemsFindings(path, items, rule, reMatch)
  {
    var of := (i: nat, o: Json) => ItemFindings(path, i, o, rule, reMatch);
    ItemsFindingsEach(path, items, rule, reMatch);
    ItemsFindingsEach(path, items[..k], rule, reMatch);
    EachPrefix(items, of, k + 1);
    assert Each(items[..k + 1], of) == Each(items[..k], of) + of(k, items[k]) by {
      assert items[..k + 1][..k] == items[..k];
    }
  }

  /** `card_index.setdefault(cid, obj)` for an item with a non-empty identifier. */
  function IndexItem(idx: Index, obj: Json): Index {
    if CardId(obj) != "" then SetDefault(idx, CardId(obj), obj) else idx
  }

  /** Indexing the items of a file in order; existing entries are never overwritten. */
  function IndexItems(idx: Index, items: seq<Json>): (r: Index)
    ensures forall k :: k in idx ==> k in r && r[k] == idx[k]
    decreases |items|
  {
    if |items| == 0 then idx else IndexItems(IndexItem(idx, items[0]), items[1..])
  }

  /** The non-empty identifiers the items carry. */
  function Ids(items: seq<Json>): (r: set<string>)
    ensures "" !in r
  {
    if |items| == 0 then {}
    else (if CardId(items[0]) != "" then {CardId(items[0])} else {}) + Ids(items[1..])
  }

  /** An identifier is among the items' identifiers iff it is non-empty and some item carries it. */
  lemma {:induction false} IdsIff(items: seq<Json>, k: string)
    ensures k in Ids(items) <==> k != "" && exists j :: 0 <= j < |items| && CardId(items[j]) == k
  {
    if |items| > 0 {
      IdsIff(items[1..], k);
      assert forall j :: 0 < j < |items| ==> items[j] == items[1..][j - 1];
      if k != "" && CardId(items[0]) != k && exists j :: 0 <= j < |items| && CardId(items[j]) == k {
        var j :| 0 <= j < |items| && CardId(items[j]) == k;
        assert CardId(items[1..][j - 1]) == k;
      }
    }
  }

  /** The keys added are exactly the non-empty identifiers of the items. */
  lemma {:induction false} IndexItemsKeys(idx: Index, items: seq<Json>)
    ensures IndexItems(idx, items).Keys == idx.Keys + Ids(items)
    decreases |items|
  {
    if |items| > 0 {
      IndexItemsKeys(IndexItem(idx, items[0]), items[1..]);
    }
  }

  /** Indexing two runs of items one after the other is indexing their concatenation. */
  lemma {:induction false} IndexItemsAppend(idx: Index, a: seq<Json>, b: seq<Json>)
    ensures IndexItems(idx, a + b) == IndexItems(IndexItems(idx, a), b)
    decreases |a|
  {
    if |a| == 0 {
      assert a + b == b;
    } else {
      assert (a + b)[0] == a[0] && (a + b)[1..] == a[1..] + b;
      IndexItemsAppend(IndexItem(idx, a[0]), a[1..], b);
    }
  }

  /** First-seen wins: a new identifier holds the first item that carries it. */
  lemma {:induction false} IndexItemsFirst(idx: Index, items: seq<Json>, k: string)
    requires k in IndexItems(idx, items) && k !in idx
    ensures exists j :: 0 <= j < |items| && CardId(items[j]) == k && IndexItems(idx, items)[k] == items[j]
                        && forall i :: 0 <= i < j ==> CardId(items[i]) != k
    decreases |items|
  {
    IndexItemsKeys(idx, items);
    assert k != "";
    var next := IndexItem(idx, items[0]);
    if k in next {
      assert CardId(items[0]) == k && next[k] == items[0];
    } else {
      IndexItemsFirst(next, items[1..], k);
      var j :| 0 <= j < |items[1..]| && CardId(items[1..][j]) == k && IndexItems(next, items[1..])[k] == items[1..][j]
               && forall i :: 0 <= i < j ==> CardId(items[1..][i]) != k;
      assert items[j + 1] == items[1..][j];
      forall i | 0 <= i < j + 1 ensures CardId(items[i]) != k {
        if i > 0 { assert items[i] == items[1..][i - 1]; }
      }
    }
  }

  /** `validate_card_file` on one file: its findings and the index after it. */
  function ValidateCardFile(path: FilePath, src: Source, rule: FileRule,
                            reMatch: (string, string) -> bool, idx: Index): (r: Step)
    ensures IsLoadError(LoadJson(src)) ==>
              r == Step([Finding(path, Error, LoadFailed(Get(LoadJson(src), "__load_error__")))], idx)
    ensures !IsLoadError(LoadJson(src)) ==> r.index == IndexItems(idx, Items(LoadJson(src)))
    ensures forall k :: k in idx ==> k in r.index && r.index[k] == idx[k]
    ensures !IsLoadError(LoadJson(src)) ==> r.findings == ItemsFindings(path, Items(LoadJson(src)), rule, reMatch)
    ensures forall f :: f in r.findings ==> f.path == path
    ensures Select(r.findings, Error) == [] <==>
              !IsLoadError(LoadJson(src))
              && forall k :: 0 <= k < |Items(LoadJson(src))| ==> ItemSound(Items(LoadJson(src))[k], rule)
  {
    var data := LoadJson(src);
    if IsLoadError(data) then
      assert Select([Finding(path, Error, LoadFailed(Get(data, "__load_error__")))], Error) != [];
      Step([Finding(path, Error, LoadFailed(Get(data, "__load_error__")))], idx)
    else
      var items := Items(data);
      Step(ItemsFindings(path, items, rule, reMatch), IndexItems(idx, items))
  }
}
