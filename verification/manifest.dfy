/**
 * The loop of `build_manifest_v2`: every JSON file under CARDS, COLLECTION
 * and RULES becomes an entry; card files with content also feed six
 * indexes; and per-kind counters are kept. The counters start from
 * `InitialCounts`, keyed by the kinds `infer_from_path` produces; the source
 * starts them from `CountsAsWritten`, whose "CARDS" key no card entry ever
 * increments (see `CardCountedUnderStrayKey`).
 */
module Manifest {
  import opened Wrappers
  import opened Json
  import opened Slug
  import opened ManifestPaths
  import opened CardFields

  /**
   * What the loop sees of one file: its path relative to the root, and what
   * `safe_load_json` returned (JNull when the file did not load).
   */
  datatype ManifestFile = ManifestFile(rel: string, data: Json)

  /**
   * The library calls the loop makes: Unicode decomposition with combining
   * marks dropped and lower-casing (the first half of `norm_slug`), `str()`
   * of a value that is not a string, and the key order of a JSON object.
   */
  datatype Foreign = Foreign(fold: string -> string, str: Json -> string,
                             keyOrder: map<string, Json> -> seq<string>)

  /** `norm_slug`. */
  function NormSlug(lib: Foreign, s: string): string {
    SlugTail(lib.fold(s))
  }

  /** `str(v)`. */
  function Str(lib: Foreign, v: Json): string {
    if v.JStr? then v.s else lib.str(v)
  }

  /** The branch `if data and meta.get("kind") == "CARD"`. */
  predicate CardWithContent(f: ManifestFile) {
    Truthy(f.data) && InferFromPath(f.rel).kind == "CARD"
  }

  /**
   * An entry's metadata, or None when building it raises: card content that
   * is not an object has no `.get`, and a truthy `name` that is not a string
   * cannot be normalised. A card's `name_slug` is set iff its name is truthy.
   */
  function FileMeta(lib: Foreign, f: ManifestFile): (r: Option<Meta>)
    ensures r.Some? ==> r.value.kind == InferFromPath(f.rel).kind && r.value.path == f.rel
    ensures !CardWithContent(f) ==> r == Some(FromPath(f.rel, InferFromPath(f.rel)))
    ensures CardWithContent(f) && !f.data.JObj? ==> r.None?
    ensures r.Some? && CardWithContent(f) ==>
              (r.value.nameSlug.Some? <==> r.value.name.Some? && Truthy(r.value.name.value))
    ensures CardWithContent(f) && f.data.JObj? ==>
              var m := MergeCard(FromPath(f.rel, InferFromPath(f.rel)), ExtractCardFields(f.data));
              && (r.None? <==> m.name.Some? && Truthy(m.name.value) && !m.name.value.JStr?)
              && (r.Some? ==> r.value.(nameSlug := m.nameSlug) == m)
              && (r.Some? && r.value.nameSlug.Some? ==> r.value.nameSlug.value == NormSlug(lib, m.name.value.s))
  {
    var base := FromPath(f.rel, InferFromPath(f.rel));
    if !CardWithContent(f) then Some(base)
    else if !f.data.JObj? then None
    else
      var m := MergeCard(base, ExtractCardFields(f.data));
      match m.name
      case Some(n) =>
        if !Truthy(n) then Some(m)
        else if n.JStr? then Some(m.(nameSlug := Some(NormSlug(lib, n.s))))
        else None
      case None => Some(m)
  }

  // ---------- the indexes ----------

  /** The five indexes that append paths. */
  datatype ListIndex = ByName | ByKeyword | BySet | ByFaction | ByRarity

  /** What `for kw in (meta.get("keywords") or [])` iterates over: list items, or object keys. */
  function KeywordItems(lib: Foreign, kws: Option<Json>): seq<Json> {
    match kws
    case Some(JArr(items)) => items
    case Some(JObj(fields)) =>
      var keys := lib.keyOrder(fields);
      seq(|keys|, i requires 0 <= i < |keys| => JStr(keys[i]))
    case _ => []
  }

  /** The keyword slugs, one per truthy keyword, in order. */
  function KeywordSlugs(lib: Foreign, kws: seq<Json>): (r: seq<string>)
    ensures |r| <= |kws|
  {
    if |kws| == 0 then []
    else (if Truthy(kws[0]) then [NormSlug(lib, Str(lib, kws[0]))] else []) + KeywordSlugs(lib, kws[1..])
  }

  /** `[str(v)]` when the value is truthy. */
  function Single(lib: Foreign, v: Option<Json>): seq<string> {
    if v.Some? && Truthy(v.value) then [Str(lib, v.value)] else []
  }

  /** The keys under which an entry's path is appended to an index, in order. */
  function Postings(lib: Foreign, m: Meta, ix: ListIndex): seq<string> {
    match ix
    case ByName => (match m.nameSlug case Some(s) => if s != "" then [s] else [] case None => [])
    case ByKeyword => KeywordSlugs(lib, KeywordItems(lib, m.keywords))
    case BySet => Single(lib, m.setCode)
    case ByFaction => Single(lib, m.faction)
    case ByRarity => Single(lib, m.rarity)
  }

  /** A truthy list or object cannot be a dictionary key. */
  predicate Unhashable(v: Option<Json>) {
    v.Some? && Truthy(v.value) && (v.value.JArr? || v.value.JObj?)
  }

  /** A truthy number or boolean cannot be iterated. */
  predicate NotIterable(v: Option<Json>) {
    v.Some? && Truthy(v.value) && !(v.value.JArr? || v.value.JObj? || v.value.JStr?)
  }

  /** The file makes the loop raise. */
  predicate Raises(lib: Foreign, f: ManifestFile) {
    match FileMeta(lib, f)
    case None => true
    case Some(m) => CardWithContent(f) && (Unhashable(m.reference) || NotIterable(m.keywords))
  }

  type ListMap = map<string, seq<string>>

  /** `idx.get(k, [])`. */
  function Lookup(idx: ListMap, k: string): seq<string> {
    if k in idx then idx[k] else []
  }

  /** How often `k` occurs in `keys`. */
  function Occ(keys: seq<string>, k: string): nat {
    if |keys| == 0 then 0 else (if keys[0] == k then 1 else 0) + Occ(keys[1..], k)
  }

  lemma {:induction false} OccPositive(keys: seq<string>, k: string)
    ensures Occ(keys, k) > 0 <==> k in keys
  {
    if |keys| > 0 {
      OccPositive(keys[1..], k);
      assert keys == [keys[0]] + keys[1..];
    }
  }

  /** `n` copies of `rel`. */
  function Repeat(rel: string, n: nat): (r: seq<string>)
    ensures |r| == n
  {
    if n == 0 then [] else [rel] + Repeat(rel, n - 1)
  }

  /** `idx.setdefault(k, []).append(rel)` for each key in order. */
  function AppendAll(idx: ListMap, keys: seq<string>, rel: string): ListMap
    decreases |keys|
  {
    if |keys| == 0 then idx
    else AppendAll(idx[keys[0] := Lookup(idx, keys[0]) + [rel]], keys[1..], rel)
  }

  /** Appending under several keys adds `rel` to each key's list once per occurrence of the key. */
  lemma {:induction false} AppendAllSpec(idx: ListMap, keys: seq<string>, rel: string, k: string)
    ensures Lookup(AppendAll(idx, keys, rel), k) == Lookup(idx, k) + Repeat(rel, Occ(keys, k))
    decreases |keys|
  {
    if |keys| == 0 {
      assert Lookup(idx, k) + [] == Lookup(idx, k);
    } else {
      var next := idx[keys[0] := Lookup(idx, keys[0]) + [rel]];
      AppendAllSpec(next, keys[1..], rel, k);
      if keys[0] == k {
        assert Lookup(next, k) + Repeat(rel, Occ(keys[1..], k)) == Lookup(idx, k) + ([rel] + Repeat(rel, Occ(keys[1..], k)));
      }
    }
  }

  /** Appending under several keys creates exactly the keys it appends under. */
  lemma {:induction false} AppendAllKeys(idx: ListMap, keys: seq<string>, rel: string, k: string)
    ensures k in AppendAll(idx, keys, rel) <==> k in idx || k in keys
    decreases |keys|
  {
    if |keys| > 0 {
      var next := idx[keys[0] := Lookup(idx, keys[0]) + [rel]];
      AppendAllKeys(next, keys[1..], rel, k);
      assert keys == [keys[0]] + keys[1..];
    }
  }

  // ---------- the counters ----------

  /** The counters as the source initialises them: note the key "CARDS", where the kind is "CARD". */
  const CountsAsWritten: map<string, int> :=
    map["ALL" := 0, "CARDS" := 0, "COLLECTION" := 0, "RULES" := 0, "OTHER" := 0]

  /** The counters keyed by the kinds `infer_from_path` produces. */
  const InitialCounts: map<string, int> :=
    map["ALL" := 0, "CARD" := 0, "COLLECTION" := 0, "RULES" := 0, "OTHER" := 0]

  /** `counts.get(k, 0)`. */
  function Get0(c: map<string, int>, k: string): int {
    if k in c then c[k] else 0
  }

  /** `counts["ALL"] += 1; counts[kind] = counts.get(kind, 0) + 1`. */
  function Tally(c: map<string, int>, kind: string): map<string, int> {
    var c1 := c["ALL" := Get0(c, "ALL") + 1];
    c1[kind := Get0(c1, kind) + 1]
  }

  /** The counters after a run of entries of the given kinds. */
  function CountKinds(init: map<string, int>, kinds: seq<string>): map<string, int> {
    if |kinds| == 0 then init else Tally(CountKinds(init, kinds[..|kinds| - 1]), kinds[|kinds| - 1])
  }

  /** The four kinds `infer_from_path` produces. */
  predicate IsKind(k: string) {
    k == "CARD" || k == "COLLECTION" || k == "RULES" || k == "OTHER"
  }

  lemma KindOfIsKind(first: string)
    ensures IsKind(KindOf(first))
  {
  }

  /** How often `k` occurs in `kinds`, counted from the back. */
  function Tail(kinds: seq<string>, k: string): nat {
    if |kinds| == 0 then 0
    else Tail(kinds[..|kinds| - 1], k) + (if kinds[|kinds| - 1] == k then 1 else 0)
  }

  /**
   * With the counters keyed by the produced kinds, `ALL` counts every entry,
   * each kind's counter counts the entries of that kind, and no other
   * counter appears.
   */
  lemma {:induction false} CountKindsSpec(kinds: seq<string>)
    requires forall i :: 0 <= i < |kinds| ==> IsKind(kinds[i])
    ensures var c := CountKinds(InitialCounts, kinds);
            && c.Keys == InitialCounts.Keys
            && c["ALL"] == |kinds|
            && forall k :: IsKind(k) ==> c[k] == Tail(kinds, k)
  {
    if |kinds| > 0 {
      CountKindsSpec(kinds[..|kinds| - 1]);
    }
  }

  /** Every entry has exactly one of the four kinds, so `ALL` is the sum of the kind counters. */
  lemma {:induction false} KindsPartition(kinds: seq<string>)
    requires forall i :: 0 <= i < |kinds| ==> IsKind(kinds[i])
    ensures |kinds| == Tail(kinds, "CARD") + Tail(kinds, "COLLECTION") + Tail(kinds, "RULES") + Tail(kinds, "OTHER")
  {
    if |kinds| > 0 {
      KindsPartition(kinds[..|kinds| - 1]);
    }
  }

  /** As written, the "CARDS" counter never moves: no entry has that kind. */
  lemma {:induction false} CardsCounterStaysZero(kinds: seq<string>)
    requires forall i :: 0 <= i < |kinds| ==> IsKind(kinds[i])
    ensures var c := CountKinds(CountsAsWritten, kinds);
            "CARDS" in c && c["CARDS"] == 0
  {
    if |kinds| > 0 {
      CardsCounterStaysZero(kinds[..|kinds| - 1]);
    }
  }

  /**
   * As written, one card entry leaves `counts["CARDS"]` at 0 and adds a
   * sixth counter "CARD" holding 1.
   */
  lemma CardCountedUnderStrayKey()
    ensures var c := CountKinds(CountsAsWritten, ["CARD"]);
            c["ALL"] == 1 && c["CARDS"] == 0 && c["CARD"] == 1 && |c.Keys| == 6
  {
    var c := CountKinds(CountsAsWritten, ["CARD"]);
    assert ["CARD"][..0] == [];
    assert c == CountsAsWritten["ALL" := 1]["CARD" := 1];
    assert "CARD" !in CountsAsWritten.Keys;
    assert c.Keys == CountsAsWritten.Keys + {"CARD"};
  }

  // ---------- the loop ----------

  /** The manifest's counters, entries and indexes. */
  datatype Manifest = Manifest(counts: map<string, int>, entries: map<string, Meta>,
                               byName: ListMap, byKeyword: ListMap, bySet: ListMap,
                               byFaction: ListMap, byRarity: ListMap,
                               byReference: map<Json, string>)

  function List(m: Manifest, ix: ListIndex): ListMap {
    match ix
    case ByName => m.byName
    case ByKeyword => m.byKeyword
    case BySet => m.bySet
    case ByFaction => m.byFaction
    case ByRarity => m.byRarity
  }

  /** What one file gives the loop: its entry's metadata, or None when the loop raises on it. */
  function Judge(lib: Foreign, f: ManifestFile): (r: Option<Meta>)
    ensures r.None? <==> Raises(lib, f)
    ensures r.Some? ==> r == FileMeta(lib, f)
  {
    if Raises(lib, f) then None else FileMeta(lib, f)
  }

  /** The judgement of every file, in order. */
  function Judgements(lib: Foreign, files: seq<ManifestFile>): (r: seq<Option<Meta>>)
    ensures |r| == |files|
    ensures forall j :: 0 <= j < |files| ==> r[j] == Judge(lib, files[j])
  {
    seq(|files|, j requires 0 <= j < |files| => Judge(lib, files[j]))
  }

  /** The entry feeds the indexes: a card file with content. */
  predicate Fed(f: ManifestFile, m: Meta) {
    Truthy(f.data) && m.kind == "CARD"
  }

  lemma FedIsCardWithContent(lib: Foreign, f: ManifestFile)
    requires Judge(lib, f).Some?
    ensures Fed(f, Judge(lib, f).value) <==> CardWithContent(f)
  {
  }

  /** The reference under which an entry is recorded in `by_reference`, if any. */
  function RefOf(f: ManifestFile, j: Option<Meta>): Option<Json> {
    match j
    case Some(m) => if Fed(f, m) && m.reference.Some? && Truthy(m.reference.value) then m.reference else None
    case None => None
  }

  /** One list index fed with an entry's keys. */
  function Feed(idx: ListMap, lib: Foreign, m: Meta, ix: ListIndex, f: ManifestFile): ListMap {
    if Fed(f, m) then AppendAll(idx, Postings(lib, m, ix), f.rel) else idx
  }

  /** One iteration of the loop, for a file that does not raise. */
  function Add(lib: Foreign, man: Manifest, f: ManifestFile, m: Meta): Manifest {
    Manifest(Tally(man.counts, m.kind), man.entries[f.rel := m],
             Feed(man.byName, lib, m, ByName, f), Feed(man.byKeyword, lib, m, ByKeyword, f),
             Feed(man.bySet, lib, m, BySet, f), Feed(man.byFaction, lib, m, ByFaction, f),
             Feed(man.byRarity, lib, m, ByRarity, f),
             match RefOf(f, Some(m)) case Some(r) => man.byReference[r := f.rel] case None => man.byReference)
  }

  /** The manifest before the loop, with the corrected counters. */
  const EmptyManifest := Manifest(InitialCounts, map[], map[], map[], map[], map[], map[], map[])

  /** The loop over files already judged; None once some file raises. */
  function Run(lib: Foreign, files: seq<ManifestFile>, js: seq<Option<Meta>>): Option<Manifest>
    requires |js| == |files|
  {
    if |files| == 0 then Some(EmptyManifest)
    else
      var n := |files| - 1;
      match Run(lib, files[..n], js[..n])
      case None => None
      case Some(man) => if js[n].None? then None else Some(Add(lib, man, files[n], js[n].value))
  }

  /**
   * The loop of `build_manifest_v2` over the files in order; None when it
   * raises. The counters start from the corrected `InitialCounts`, not from
   * the source's `CountsAsWritten`.
   */
  function Build(lib: Foreign, files: seq<ManifestFile>): Option<Manifest> {
    Run(lib, files, Judgements(lib, files))
  }

  lemma {:induction false} RunSucceeds(lib: Foreign, files: seq<ManifestFile>, js: seq<Option<Meta>>)
    requires |js| == |files|
    ensures Run(lib, files, js).Some? <==> forall j :: 0 <= j < |js| ==> js[j].Some?
  {
    if |files| > 0 {
      var n := |files| - 1;
      RunSucceeds(lib, files[..n], js[..n]);
      assert forall j :: 0 <= j < n ==> js[..n][j] == js[j];
    }
  }

  /** The loop finishes iff no file makes it raise. */
  lemma BuildSucceeds(lib: Foreign, files: seq<ManifestFile>)
    ensures Build(lib, files).Some? <==> forall j :: 0 <= j < |files| ==> !Raises(lib, files[j])
  {
    RunSucceeds(lib, files, Judgements(lib, files));
  }

  lemma {:induction false} RunCounts(lib: Foreign, files: seq<ManifestFile>, js: seq<Option<Meta>>, kinds: seq<string>)
    requires |js| == |files| == |kinds|
    requires forall j :: 0 <= j < |js| ==> js[j].Some? ==> js[j].value.kind == kinds[j]
    requires Run(lib, files, js).Some?
    ensures Run(lib, files, js).value.counts == CountKinds(InitialCounts, kinds)
  {
    if |files| > 0 {
      var n := |files| - 1;
      RunCounts(lib, files[..n], js[..n], kinds[..n]);
    }
  }

  /** The kinds of the files, in order. */
  function Kinds(files: seq<ManifestFile>): (r: seq<string>)
    ensures |r| == |files|
    ensures forall i :: 0 <= i < |r| ==> r[i] == InferFromPath(files[i].rel).kind && IsKind(r[i])
  {
    seq(|files|, i requires 0 <= i < |files| => KindOfIsKind(Strings.Split(files[i].rel, '/')[0]);
                                                InferFromPath(files[i].rel).kind)
  }

  /**
   * A finished manifest counts every file under `ALL` and each file under
   * its kind, so `ALL` is the sum of the four kind counters.
   */
  lemma ManifestCounts(lib: Foreign, files: seq<ManifestFile>)
    requires Build(lib, files).Some?
    ensures var c, kinds := Build(lib, files).value.counts, Kinds(files);
            && c.Keys == {"ALL", "CARD", "COLLECTION", "RULES", "OTHER"}
            && c["ALL"] == |files|
            && (forall k :: IsKind(k) ==> c[k] == Tail(kinds, k))
            && c["ALL"] == c["CARD"] + c["COLLECTION"] + c["RULES"] + c["OTHER"]
  {
    RunCounts(lib, files, Judgements(lib, files), Kinds(files));
    CountKindsSpec(Kinds(files));
    KindsPartition(Kinds(files));
  }

  /**
   * The paths a list index holds under `k`, by definition: per file in
   * order, once per posting of `k` by an entry that feeds the indexes.
   */
  function Posted(lib: Foreign, files: seq<ManifestFile>, js: seq<Option<Meta>>, ix: ListIndex, k: string): seq<string>
    requires |js| == |files|
  {
    if |files| == 0 then []
    else
      var n := |files| - 1;
      Posted(lib, files[..n], js[..n], ix, k)
      + match js[n]
        case Some(m) => if Fed(files[n], m) then Repeat(files[n].rel, Occ(Postings(lib, m, ix), k)) else []
        case None => []
  }

  lemma {:induction false} RunLists(lib: Foreign, files: seq<ManifestFile>, js: seq<Option<Meta>>, ix: ListIndex, k: string)
    requires |js| == |files|
    requires Run(lib, files, js).Some?
    ensures var idx := List(Run(lib, files, js).value, ix);
            && Lookup(idx, k) == Posted(lib, files, js, ix, k)
            && (k in idx <==> Posted(lib, files, js, ix, k) != [])
  {
    if |files| > 0 {
      var n := |files| - 1;
      RunLists(lib, files[..n], js[..n], ix, k);
      var m, f := js[n].value, files[n];
      var before := List(Run(lib, files[..n], js[..n]).value, ix);
      if Fed(f, m) {
        AppendAllSpec(before, Postings(lib, m, ix), f.rel, k);
        AppendAllKeys(before, Postings(lib, m, ix), f.rel, k);
        OccPositive(Postings(lib, m, ix), k);
      } else {
        assert Posted(lib, files, js, ix, k) == Posted(lib, files[..n], js[..n], ix, k) + [];
      }
    }
  }

  /**
   * Each list index of a finished manifest holds under `k` every path that
   * posts `k`, in file order and once per posting, and holds `k` iff that
   * list is not empty.
   */
  lemma BuildLists(lib: Foreign, files: seq<ManifestFile>, ix: ListIndex, k: string)
    requires Build(lib, files).Some?
    ensures var idx, js := List(Build(lib, files).value, ix), Judgements(lib, files);
            && Lookup(idx, k) == Posted(lib, files, js, ix, k)
            && (k in idx <==> Posted(lib, files, js, ix, k) != [])
  {
    RunLists(lib, files, Judgements(lib, files), ix, k);
  }

  /** `by_reference` alone: each entry's reference, if any, mapped to its path. */
  function Refs(files: seq<ManifestFile>, js: seq<Option<Meta>>): map<Json, string>
    requires |js| == |files|
  {
    if |files| == 0 then map[]
    else
      var n := |files| - 1;
      match RefOf(files[n], js[n])
      case Some(r) => Refs(files[..n], js[..n])[r := files[n].rel]
      case None => Refs(files[..n], js[..n])
  }

  lemma {:induction false} RunRefs(lib: Foreign, files: seq<ManifestFile>, js: seq<Option<Meta>>)
    requires |js| == |files|
    requires Run(lib, files, js).Some?
    ensures Run(lib, files, js).value.byReference == Refs(files, js)
  {
    if |files| > 0 {
      var n := |files| - 1;
      RunRefs(lib, files[..n], js[..n]);
    }
  }

  /** File `j` is the last file whose reference is `r`. */
  predicate LastRefAt(files: seq<ManifestFile>, js: seq<Option<Meta>>, r: Json, j: int)
    requires |js| == |files|
  {
    && 0 <= j < |files| && RefOf(files[j], js[j]) == Some(r)
    && forall i :: j < i < |files| ==> RefOf(files[i], js[i]) != Some(r)
  }

  /** A reference is in `by_reference` iff some file carries it, and then maps to the last such file's path. */
  lemma RefsLast(files: seq<ManifestFile>, js: seq<Option<Meta>>, r: Json)
    requires |js| == |files|
    ensures var refs := Refs(files, js);
            && (r in refs <==> exists j :: 0 <= j < |files| && RefOf(files[j], js[j]) == Some(r))
            && (r in refs ==> exists j :: 0 <= j < |files| && RefOf(files[j], js[j]) == Some(r)
                                          && refs[r] == files[j].rel
                                          && forall i :: j < i < |files| ==> RefOf(files[i], js[i]) != Some(r))
  {
    RefsKeys(files, js, r);
    RefsLastAt(files, js, r);
    if r in Refs(files, js) {
      var j :| LastRefAt(files, js, r, j) && Refs(files, js)[r] == files[j].rel;
    }
  }

  /** The references `by_reference` holds are those some file carries. */
  lemma {:induction false} RefsKeys(files: seq<ManifestFile>, js: seq<Option<Meta>>, r: Json)
    requires |js| == |files|
    ensures r in Refs(files, js) <==> exists j :: 0 <= j < |files| && RefOf(files[j], js[j]) == Some(r)
  {
    if |files| > 0 {
      var n := |files| - 1;
      var front, fj := files[..n], js[..n];
      RefsKeys(front, fj, r);
      assert forall j :: 0 <= j < n ==> RefOf(front[j], fj[j]) == RefOf(files[j], js[j]);
    }
  }

  /** Each reference maps to the path of the last file carrying it. */
  lemma {:induction false} RefsLastAt(files: seq<ManifestFile>, js: seq<Option<Meta>>, r: Json)
    requires |js| == |files|
    ensures r in Refs(files, js) ==> exists j :: LastRefAt(files, js, r, j) && Refs(files, js)[r] == files[j].rel
  {
    if |files| > 0 {
      var n := |files| - 1;
      var front, fj := files[..n], js[..n];
      RefsLastAt(front, fj, r);
      var before := Refs(front, fj);
      if RefOf(files[n], js[n]) == Some(r) {
        assert LastRefAt(files, js, r, n);
      } else if r in before {
        var j :| LastRefAt(front, fj, r, j) && before[r] == front[j].rel;
        assert forall i :: 0 <= i < n ==> front[i] == files[i] && fj[i] == js[i];
        assert LastRefAt(files, js, r, j);
      }
    }
  }

  /**
   * `by_reference` of a finished manifest holds a reference iff some card
   * file carries it, and then the path of the LAST such file.
   */
  lemma BuildReference(lib: Foreign, files: seq<ManifestFile>, r: Json)
    requires Build(lib, files).Some?
    ensures var refs, js := Build(lib, files).value.byReference, Judgements(lib, files);
            && (r in refs <==> exists j :: 0 <= j < |files| && RefOf(files[j], js[j]) == Some(r))
            && (r in refs ==> exists j :: 0 <= j < |files| && RefOf(files[j], js[j]) == Some(r)
                                          && refs[r] == files[j].rel
                                          && forall i :: j < i < |files| ==> RefOf(files[i], js[i]) != Some(r))
  {
    RunRefs(lib, files, Judgements(lib, files));
    RefsLast(files, Judgements(lib, files), r);
  }

  /** `entries` alone: each path mapped to its metadata. */
  function Entries(files: seq<ManifestFile>, js: seq<Option<Meta>>): map<string, Meta>
    requires |js| == |files|
  {
    if |files| == 0 then map[]
    else
      var n := |files| - 1;
      match js[n]
      case Some(m) => Entries(files[..n], js[..n])[files[n].rel := m]
      case None => Entries(files[..n], js[..n])
  }

  lemma {:induction false} RunEntries(lib: Foreign, files: seq<ManifestFile>, js: seq<Option<Meta>>)
    requires |js| == |files|
    requires Run(lib, files, js).Some?
    ensures Run(lib, files, js).value.entries == Entries(files, js)
    ensures forall j :: 0 <= j < |js| ==> js[j].Some?
  {
    if |files| > 0 {
      var n := |files| - 1;
      RunEntries(lib, files[..n], js[..n]);
      assert forall j :: 0 <= j < n ==> js[..n][j] == js[j];
    }
  }

  lemma {:induction false} EntriesLast(files: seq<ManifestFile>, js: seq<Option<Meta>>, rel: string)
    requires |js| == |files|
    requires forall j :: 0 <= j < |js| ==> js[j].Some?
    ensures var es := Entries(files, js);
            && (rel in es <==> exists j :: 0 <= j < |files| && files[j].rel == rel)
            && (rel in es ==> exists j :: 0 <= j < |files| && files[j].rel == rel && js[j] == Some(es[rel])
                                           && forall i :: j < i < |files| ==> files[i].rel != rel)
  {
    if |files| > 0 {
      var n := |files| - 1;
      var front, fj := files[..n], js[..n];
      assert forall j :: 0 <= j < n ==> front[j] == files[j] && fj[j] == js[j];
      EntriesLast(front, fj, rel);
      var before := Entries(front, fj);
      if files[n].rel != rel && rel in before {
        var j :| 0 <= j < n && front[j].rel == rel && fj[j] == Some(before[rel])
                 && forall i :: j < i < n ==> front[i].rel != rel;
        assert forall i :: j < i < |files| ==> files[i].rel != rel;
      }
    }
  }

  /**
   * `entries` of a finished manifest has one entry per path, holding the
   * metadata of the last file with that path.
   */
  lemma BuildEntries(lib: Foreign, files: seq<ManifestFile>, rel: string)
    requires Build(lib, files).Some?
    ensures var es := Build(lib, files).value.entries;
            && (rel in es <==> exists j :: 0 <= j < |files| && files[j].rel == rel)
            && (rel in es ==> exists j :: 0 <= j < |files| && files[j].rel == rel
                                           && Some(es[rel]) == FileMeta(lib, files[j])
                                           && forall i :: j < i < |files| ==> files[i].rel != rel)
  {
    RunEntries(lib, files, Judgements(lib, files));
    EntriesLast(files, Judgements(lib, files), rel);
  }

  /** No two files share a path, as the directory walk guarantees. */
  predicate DistinctPaths(files: seq<ManifestFile>) {
    forall i, j :: 0 <= i < j < |files| ==> files[i].rel != files[j].rel
  }

  lemma {:induction false} EntriesSize(files: seq<ManifestFile>, js: seq<Option<Meta>>)
    requires |js| == |files|
    requires forall j :: 0 <= j < |js| ==> js[j].Some?
    requires DistinctPaths(files)
    ensures |Entries(files, js)| == |files|
  {
    if |files| > 0 {
      var n := |files| - 1;
      var front, fj := files[..n], js[..n];
      assert forall j :: 0 <= j < n ==> front[j] == files[j] && fj[j] == js[j];
      EntriesSize(front, fj);
      EntriesLast(front, fj, files[n].rel);
      assert files[n].rel !in Entries(front, fj);
    }
  }

  /** With distinct paths, `ALL` counts exactly the manifest's entries. */
  lemma ManifestEntriesCount(lib: Foreign, files: seq<ManifestFile>)
    requires Build(lib, files).Some?
    requires DistinctPaths(files)
    ensures |Build(lib, files).value.entries| == Build(lib, files).value.counts["ALL"]
  {
    var js := Judgements(lib, files);
    RunEntries(lib, files, js);
    EntriesSize(files, js);
    ManifestCounts(lib, files);
  }
}
