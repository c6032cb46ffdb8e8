/**
 * The path heuristics and index building of `core/scan_repo.py`: a leftmost
 * `/TOKEN/` search for language, faction, set and rarity, the kind of a
 * top-level folder, the nine-key projection of JSON content, and the
 * per-kind indexes built from the scanned entries.
 */
module ScanRepo {
  import opened Wrappers
  import opened Json
  import opened Strings
  import Paths

  // ---------- the token search ----------

  const LangTokens: seq<string> := ["EN", "DE", "FR", "ES", "IT", "PT", "PL", "RU", "JA", "ZH"]
  const FactionTokens: seq<string> :=
    ["AXIOM", "AX", "BRAVOS", "BR", "LYRA", "LY", "OR", "YZMIR", "YZ", "ALIZE", "AZ", "KAIJU", "KJ"]
  const SetTokens: seq<string> :=
    ["CORE", "COREKS", "ALIZE", "CYCLONE", "BREEZE", "TEMPEST", "STORM", "AXIOM", "BRAVOS", "LYRA", "OR", "YZMIR"]
  const RarityTokens: seq<string> := ["COMMON", "C", "RARE", "R", "EPIC", "E", "LEGENDARY", "L", "MYTHIC", "M"]

  /** An alternative as the patterns list it: upper-case letters only. */
  predicate IsToken(t: string) {
    |t| > 0 && forall i :: 0 <= i < |t| ==> IsUpperAscii(t[i])
  }

  /**
   * `/t/` matches at position `p`, ignoring the case of ASCII letters: the
   * text between the two slashes upper-cases to `t`.
   */
  predicate TokenAt(path: string, p: int, t: string) {
    && 0 <= p && p + |t| + 2 <= |path|
    && path[p] == '/' && path[p + |t| + 1] == '/'
    && Upper(path[p + 1..p + |t| + 1]) == t
  }

  /** The alternative that matches at `p`, trying them in the listed order. */
  function FirstAlternative(path: string, p: int, alts: seq<string>): (r: Option<string>)
    ensures r.Some? ==> r.value in alts
  {
    if |alts| == 0 then None
    else if TokenAt(path, p, alts[0]) then Some(alts[0])
    else FirstAlternative(path, p, alts[1..])
  }

  /**
   * The alternative tried first among those that match at `p` is the one
   * chosen, and none is chosen iff none matches there.
   */
  lemma {:induction false} FirstAlternativeSpec(path: string, p: int, alts: seq<string>)
    ensures var r := FirstAlternative(path, p, alts);
            && (r.Some? ==> exists i :: 0 <= i < |alts| && alts[i] == r.value && TokenAt(path, p, alts[i])
                                        && forall i' :: 0 <= i' < i ==> !TokenAt(path, p, alts[i']))
            && (r.None? <==> forall i :: 0 <= i < |alts| ==> !TokenAt(path, p, alts[i]))
  {
    if |alts| > 0 {
      FirstAlternativeSpec(path, p, alts[1..]);
      if !TokenAt(path, p, alts[0]) {
        if FirstAlternative(path, p, alts).Some? {
          var r := FirstAlternative(path, p, alts[1..]).value;
          var i :| 0 <= i < |alts[1..]| && alts[1..][i] == r && TokenAt(path, p, alts[1..][i])
                   && forall i' :: 0 <= i' < i ==> !TokenAt(path, p, alts[1..][i']);
          assert alts[i + 1] == r;
          assert forall i' :: 0 <= i' < i + 1 ==> !TokenAt(path, p, alts[i']) by {
            assert forall i' :: 1 <= i' < i + 1 ==> alts[i'] == alts[1..][i' - 1];
          }
        } else {
          assert forall i :: 1 <= i < |alts| ==> alts[i] == alts[1..][i - 1];
        }
      }
    }
  }

  /**
   * Two alternatives without '/' cannot both match at one position unless
   * they are equal, so the order in which they are tried never matters.
   */
  lemma AlternativeUnique(path: string, p: int, t1: string, t2: string)
    requires '/' !in t1 && '/' !in t2
    requires TokenAt(path, p, t1) && TokenAt(path, p, t2)
    ensures t1 == t2
  {
  }

  /** The search from position `p` on: the first position where some alternative matches. */
  function SearchFrom(path: string, alts: seq<string>, p: nat): (r: Option<string>)
    ensures r.Some? ==> r.value in alts
    decreases |path| - p
  {
    if p >= |path| then None
    else match FirstAlternative(path, p, alts)
      case Some(t) => Some(t)
      case None => SearchFrom(path, alts, p + 1)
  }

  /** `PATTERN.search(path)`, returning `group(1).upper()`. */
  function Search(path: string, alts: seq<string>): (r: Option<string>)
    ensures r.Some? ==> r.value in alts
  {
    SearchFrom(path, alts, 0)
  }

  /**
   * `t` is the alternative chosen at position `q`, and no alternative
   * matches at any position from `p` up to `q`.
   */
  predicate FirstMatchAt(path: string, alts: seq<string>, p: int, q: int, t: string) {
    && p <= q < |path| && FirstAlternative(path, q, alts) == Some(t)
    && forall q' :: p <= q' < q ==> FirstAlternative(path, q', alts).None?
  }

  lemma {:induction false} SearchFromSpec(path: string, alts: seq<string>, p: nat, t: string)
    ensures SearchFrom(path, alts, p) == Some(t) <==> exists q :: FirstMatchAt(path, alts, p, q, t)
    decreases |path| - p
  {
    if p < |path| {
      SearchFromSpec(path, alts, p + 1, t);
      var here := FirstAlternative(path, p, alts);
      if here.None? {
        assert SearchFrom(path, alts, p) == SearchFrom(path, alts, p + 1);
        if q :| FirstMatchAt(path, alts, p, q, t) {
          assert q != p;
          assert FirstMatchAt(path, alts, p + 1, q, t);
        }
        if SearchFrom(path, alts, p + 1) == Some(t) {
          var q :| FirstMatchAt(path, alts, p + 1, q, t);
          assert FirstMatchAt(path, alts, p, q, t);
        }
      } else {
        assert SearchFrom(path, alts, p) == here;
        if here == Some(t) {
          assert FirstMatchAt(path, alts, p, p, t);
        }
        if q :| FirstMatchAt(path, alts, p, q, t) {
          assert q == p;
        }
      }
    }
  }

  /**
   * The search yields `t` iff `t` is the alternative chosen at the leftmost
   * position where any alternative matches.
   */
  lemma SearchLeftmost(path: string, alts: seq<string>, t: string)
    ensures Search(path, alts) == Some(t) <==> exists q :: FirstMatchAt(path, alts, 0, q, t)
  {
    SearchFromSpec(path, alts, 0, t);
  }

  /** The search finds nothing iff no alternative matches anywhere. */
  lemma {:induction false} SearchNone(path: string, alts: seq<string>, p: nat)
    ensures SearchFrom(path, alts, p).None? ==> forall q :: p <= q < |path| ==> FirstAlternative(path, q, alts).None?
    ensures (forall q :: p <= q < |path| ==> FirstAlternative(path, q, alts).None?) ==> SearchFrom(path, alts, p).None?
    decreases |path| - p
  {
    if p < |path| {
      SearchNone(path, alts, p + 1);
      if FirstAlternative(path, p, alts).None? {
        assert SearchFrom(path, alts, p) == SearchFrom(path, alts, p + 1);
        if forall q :: p + 1 <= q < |path| ==> FirstAlternative(path, q, alts).None? {
          assert forall q :: p <= q < |path| ==> FirstAlternative(path, q, alts).None?;
        }
      } else {
        assert SearchFrom(path, alts, p).Some?;
      }
    }
  }

  /** The rarity map: each spelled-out rarity and its letter go to the letter; anything else is kept. */
  function RarityCode(r: string): string {
    if r == "COMMON" || r == "C" then "C"
    else if r == "RARE" || r == "R" then "R"
    else if r == "EPIC" || r == "E" then "E"
    else if r == "LEGENDARY" || r == "L" then "L"
    else if r == "MYTHIC" || r == "M" then "M"
    else r
  }

  /** Every rarity the pattern can find is normalised to its initial, one of C, R, E, L, M. */
  lemma RarityNormalised(t: string)
    requires t in RarityTokens
    ensures |t| > 0 && RarityCode(t) == [t[0]]
    ensures RarityCode(t) in ["C", "R", "E", "L", "M"]
  {
  }

  /** What `extract_meta_from_path` detects; `setCode` is the `set` key. None stands for an absent key. */
  datatype Detected = Detected(lang: Option<string>, faction: Option<string>,
                               setCode: Option<string>, rarity: Option<string>)

  /** `extract_meta_from_path`: each key set iff its pattern matches, with the matched token upper-cased. */
  function ExtractMetaFromPath(path: string): (r: Detected)
    ensures r.lang.Some? ==> r.lang.value in LangTokens
    ensures r.faction.Some? ==> r.faction.value in FactionTokens
    ensures r.setCode.Some? ==> r.setCode.value in SetTokens
    ensures r.rarity.Some? <==> Search(path, RarityTokens).Some?
    ensures r.rarity.Some? ==> r.rarity.value in ["C", "R", "E", "L", "M"]
    ensures r.rarity == match Search(path, RarityTokens) case Some(t) => Some([t[0]]) case None => None
  {
    var rarity := (match Search(path, RarityTokens)
                   case Some(t) => RarityNormalised(t); Some(RarityCode(t))
                   case None => None);
    Detected(Search(path, LangTokens), Search(path, FactionTokens), Search(path, SetTokens), rarity)
  }

  /** The three keys whose detected value is the matched token itself. */
  datatype PathKey = LangKey | FactionKey | SetKey

  function Tokens(k: PathKey): seq<string> {
    match k
    case LangKey => LangTokens
    case FactionKey => FactionTokens
    case SetKey => SetTokens
  }

  function DetectedOf(d: Detected, k: PathKey): Option<string> {
    match k
    case LangKey => d.lang
    case FactionKey => d.faction
    case SetKey => d.setCode
  }

  /**
   * The detected language, faction and set are each the token chosen at the
   * leftmost position where one of the key's tokens matches.
   */
  lemma DetectedIsLeftmost(path: string, k: PathKey, t: string)
    ensures DetectedOf(ExtractMetaFromPath(path), k) == Some(t) <==> exists q :: FirstMatchAt(path, Tokens(k), 0, q, t)
  {
    assert DetectedOf(ExtractMetaFromPath(path), k) == Search(path, Tokens(k));
    SearchLeftmost(path, Tokens(k), t);
  }

  // ---------- top-level folders ----------

  const TopLevelFolders: seq<string> := ["CARDS", "COLLECTION", "RULES", "SETS", "DECKS", "HISTORY"]

  /** `file_kind_from_topdir`. */
  function FileKindFromTopdir(top: string): (r: string)
    ensures r == "other" <==> top !in TopLevelFolders
    ensures r in ["card", "collection", "rule", "set", "deck", "history", "other"]
  {
    if top == "CARDS" then "card"
    else if top == "COLLECTION" then "collection"
    else if top == "RULES" then "rule"
    else if top == "SETS" then "set"
    else if top == "DECKS" then "deck"
    else if top == "HISTORY" then "history"
    else "other"
  }

  /** The six folders go to six different kinds. */
  lemma FolderKindsDistinct(i: nat, j: nat)
    requires i < j < |TopLevelFolders|
    ensures FileKindFromTopdir(TopLevelFolders[i]) != FileKindFromTopdir(TopLevelFolders[j])
  {
  }

  // ---------- the scan ----------

  /** The nine keys copied from JSON content, in the order they are tried. */
  datatype MetaKey = Id | Ref | ReferenceId | Name | Type | Rarity | Faction | Set | Lang

  function KeyName(k: MetaKey): string {
    match k
    case Id => "id"
    case Ref => "ref"
    case ReferenceId => "reference_id"
    case Name => "name"
    case Type => "type"
    case Rarity => "rarity"
    case Faction => "faction"
    case Set => "set"
    case Lang => "lang"
  }

  /** An entry's `meta`: each of the nine keys, None when the content does not hold it. */
  datatype ScanMeta = ScanMeta(id: Option<Json>, ref: Option<Json>, referenceId: Option<Json>,
                               name: Option<Json>, ctype: Option<Json>, rarity: Option<Json>,
                               faction: Option<Json>, setCode: Option<Json>, lang: Option<Json>)

  function MetaField(m: ScanMeta, k: MetaKey): Option<Json> {
    match k
    case Id => m.id
    case Ref => m.ref
    case ReferenceId => m.referenceId
    case Name => m.name
    case Type => m.ctype
    case Rarity => m.rarity
    case Faction => m.faction
    case Set => m.setCode
    case Lang => m.lang
  }

  function Pick(fields: map<string, Json>, k: MetaKey): Option<Json> {
    if KeyName(k) in fields then Some(fields[KeyName(k)]) else None
  }

  /**
   * The projection of an object's fields onto the nine keys; None when it
   * holds none of them, since `meta` is only created on the first key found.
   */
  function Project(fields: map<string, Json>): (r: Option<ScanMeta>)
  {
    var m := ScanMeta(Pick(fields, Id), Pick(fields, Ref), Pick(fields, ReferenceId), Pick(fields, Name),
                      Pick(fields, Type), Pick(fields, Rarity), Pick(fields, Faction), Pick(fields, Set),
                      Pick(fields, Lang));
    if m == ScanMeta(None, None, None, None, None, None, None, None, None) then None else Some(m)
  }

  /**
   * `meta` exists iff the object holds one of the nine keys, and then holds
   * each of them exactly when the object does, with the object's value.
   */
  lemma ProjectSpec(fields: map<string, Json>, k: MetaKey)
    ensures Project(fields).Some? <==> exists k' :: KeyName(k') in fields
    ensures Project(fields).Some? ==>
              && (KeyName(k) in fields <==> MetaField(Project(fields).value, k).Some?)
              && (KeyName(k) in fields ==> MetaField(Project(fields).value, k) == Some(fields[KeyName(k)]))
  {
    if k' :| KeyName(k') in fields {
      assert Pick(fields, k').Some?;
    }
  }

  /** `ProjectSpec` for all nine keys at once. */
  lemma ProjectAll(fields: map<string, Json>)
    ensures Project(fields).Some? <==> exists k :: KeyName(k) in fields
    ensures Project(fields).Some? ==>
              forall k :: MetaField(Project(fields).value, k) == if KeyName(k) in fields then Some(fields[KeyName(k)]) else None
  {
    ProjectSpec(fields, Id);
    forall k | Project(fields).Some?
      ensures MetaField(Project(fields).value, k) == if KeyName(k) in fields then Some(fields[KeyName(k)]) else None
    {
      ProjectSpec(fields, k);
    }
  }

  /** What `load_json_safely` gives for a JSON file: the document, or the error text. */
  datatype Parsed = Parsed(data: Json) | ParseError(error: string)

  /**
   * One file under a top-level folder: the folder, the repository-relative
   * path, the size and SHA-256 computed from its bytes, and what parsing it
   * as JSON gives (looked at only for a ".json" suffix).
   */
  datatype ScanFile = ScanFile(top: string, rel: string, size: int, sha256: string, parsed: Parsed)

  /** A manifest entry; the modification and scan times are not modelled. */
  datatype ScanEntry = ScanEntry(path: string, size: int, kind: string, sha256: string,
                                 detected: Detected, validJson: bool, meta: Option<ScanMeta>)

  /** `p.suffix.lower() == ".json"`. */
  predicate IsJsonFile(rel: string) {
    var parts := Split(rel, '/');
    Lower(Paths.Suffix(parts[|parts| - 1])) == ".json"
  }

  /** The manifest entry of one file. */
  function EntryOf(f: ScanFile): (r: ScanEntry)
    ensures r.path == f.rel && r.kind == FileKindFromTopdir(f.top)
    ensures r.detected == ExtractMetaFromPath("/" + f.rel + "/")
    ensures r.size == f.size && r.sha256 == f.sha256
    ensures r.validJson <==> IsJsonFile(f.rel) && f.parsed.Parsed?
    ensures r.meta.Some? <==> r.validJson && f.parsed.data.JObj? && exists k :: KeyName(k) in f.parsed.data.fields
    ensures r.meta.Some? ==>
              forall k :: MetaField(r.meta.value, k) == if KeyName(k) in f.parsed.data.fields
                                                      then Some(f.parsed.data.fields[KeyName(k)]) else None
  {
    var json := IsJsonFile(f.rel) && f.parsed.Parsed?;
    var meta := if json && f.parsed.data.JObj? then
                  ProjectAll(f.parsed.data.fields);
                  Project(f.parsed.data.fields)
                else None;
    ScanEntry(f.rel, f.size, FileKindFromTopdir(f.top), f.sha256, ExtractMetaFromPath("/" + f.rel + "/"), json, meta)
  }

  /** A JSON problem: the path and its message. */
  datatype Problem = Problem(rel: string, message: string)

  /** The problem a file reports: a ".json" file that does not parse. */
  function ProblemOf(f: ScanFile): Option<Problem> {
    if IsJsonFile(f.rel) && f.parsed.ParseError? then Some(Problem(f.rel, "JSON error: " + f.parsed.error)) else None
  }

  /** The reported problems among per-file outcomes, in order. */
  function Reported(ps: seq<Option<Problem>>): seq<Problem> {
    if |ps| == 0 then []
    else
      var n := |ps| - 1;
      Reported(ps[..n]) + match ps[n] case Some(p) => [p] case None => []
  }

  lemma {:induction false} ReportedSpec(ps: seq<Option<Problem>>, p: Problem)
    ensures p in Reported(ps) <==> exists j :: 0 <= j < |ps| && ps[j] == Some(p)
  {
    if |ps| > 0 {
      var n := |ps| - 1;
      ReportedSpec(ps[..n], p);
      assert forall j :: 0 <= j < n ==> ps[..n][j] == ps[j];
    }
  }

  lemma {:induction false} ReportedAppend(ps: seq<Option<Problem>>, qs: seq<Option<Problem>>)
    ensures Reported(ps + qs) == Reported(ps) + Reported(qs)
    decreases |qs|
  {
    if |qs| == 0 {
      assert ps + qs == ps;
    } else {
      var n := |qs| - 1;
      assert (ps + qs)[..|ps + qs| - 1] == ps + qs[..n];
      assert (ps + qs)[|ps + qs| - 1] == qs[n];
      ReportedAppend(ps, qs[..n]);
    }
  }

  /** The per-file outcomes of a walk. */
  function Outcomes(files: seq<ScanFile>): (r: seq<Option<Problem>>)
    ensures |r| == |files| && forall j :: 0 <= j < |files| ==> r[j] == ProblemOf(files[j])
  {
    seq(|files|, j requires 0 <= j < |files| => ProblemOf(files[j]))
  }

  lemma OutcomesAppend(a: seq<ScanFile>, b: seq<ScanFile>)
    ensures Outcomes(a + b) == Outcomes(a) + Outcomes(b)
  {
    var l, r := Outcomes(a + b), Outcomes(a) + Outcomes(b);
    assert |l| == |r|;
    forall j | 0 <= j < |l|
      ensures l[j] == r[j]
    {
      if j < |a| {
        assert (a + b)[j] == a[j];
      } else {
        assert (a + b)[j] == b[j - |a|];
      }
    }
  }

  /** The problems of the files, in walk order. */
  function Problems(files: seq<ScanFile>): seq<Problem> {
    Reported(Outcomes(files))
  }

  /** A problem is reported exactly for each ".json" file that does not parse, and for nothing else. */
  lemma ProblemsSpec(files: seq<ScanFile>, p: Problem)
    ensures p in Problems(files) <==> exists j :: 0 <= j < |files| && ProblemOf(files[j]) == Some(p)
  {
    var ps := Outcomes(files);
    ReportedSpec(ps, p);
    if j :| 0 <= j < |files| && ProblemOf(files[j]) == Some(p) {
      assert ps[j] == Some(p);
    }
  }

  /**
   * Problems are reported in walk order: those of a walk that visits `a` and
   * then `b` are the problems of `a` followed by those of `b`.
   */
  lemma ProblemsAppend(a: seq<ScanFile>, b: seq<ScanFile>)
    ensures Problems(a + b) == Problems(a) + Problems(b)
  {
    OutcomesAppend(a, b);
    ReportedAppend(Outcomes(a), Outcomes(b));
  }

  /** The manifest's entries in walk order, and the problems. */
  datatype ScanResult = ScanResult(entries: seq<ScanEntry>, problems: seq<Problem>)

  /** `scan_repo` over the files in walk order: one entry per file. */
  function Scan(files: seq<ScanFile>): (r: ScanResult)
    ensures |r.entries| == |files|
    ensures forall j :: 0 <= j < |files| ==> r.entries[j] == EntryOf(files[j])
    ensures r.problems == Problems(files)
  {
    ScanResult(seq(|files|, j requires 0 <= j < |files| => EntryOf(files[j])), Problems(files))
  }

  // ---------- the indexes ----------

  /** A row of the cards index. Absent values are JSON null. */
  datatype CardRow = CardRow(path: string, lang: Json, faction: Json, rarity: Json, name: Json, id: Json)

  function OrNull(s: Option<string>): Json {
    match s case Some(v) => JStr(v) case None => JNull
  }

  /** `(e.get("meta", {}) or {}).get(k)`. */
  function MetaGet(e: ScanEntry, k: MetaKey): Json {
    match e.meta
    case Some(m) => (match MetaField(m, k) case Some(v) => v case None => JNull)
    case None => JNull
  }

  /** The group a card is filed under: its detected set, else "UNKNOWN". */
  function SetOf(e: ScanEntry): string {
    match e.detected.setCode case Some(s) => s case None => "UNKNOWN"
  }

  /** The cards-index row of an entry. */
  function RowOf(e: ScanEntry): CardRow {
    CardRow(e.path, OrNull(e.detected.lang), OrNull(e.detected.faction),
            Or(OrNull(e.detected.rarity), MetaGet(e, Rarity)), MetaGet(e, Name),
            Or(Or(MetaGet(e, Id), MetaGet(e, Ref)), MetaGet(e, ReferenceId)))
  }

  /**
   * A row's rarity is the detected one when there is one, else the content's;
   * its id is the first truthy of `id`, `ref` and `reference_id`, else the
   * value of `reference_id`.
   */
  lemma RowFallbacks(e: ScanEntry)
    requires e.detected == ExtractMetaFromPath("/" + e.path + "/")
    ensures var r := RowOf(e);
            && (e.detected.rarity.Some? ==> r.rarity == JStr(e.detected.rarity.value))
            && (e.detected.rarity.None? ==> r.rarity == MetaGet(e, Rarity))
            && (Truthy(MetaGet(e, Id)) ==> r.id == MetaGet(e, Id))
            && (!Truthy(MetaGet(e, Id)) && Truthy(MetaGet(e, Ref)) ==> r.id == MetaGet(e, Ref))
            && (!Truthy(MetaGet(e, Id)) && !Truthy(MetaGet(e, Ref)) ==> r.id == MetaGet(e, ReferenceId))
  {
  }

  type Groups = map<string, seq<CardRow>>

  function Rows(g: Groups, s: string): seq<CardRow> {
    if s in g then g[s] else []
  }

  /** The cards index: card entries grouped by set, each group in scan order. */
  function CardsIndex(entries: seq<ScanEntry>): Groups {
    if |entries| == 0 then map[]
    else
      var n := |entries| - 1;
      var g := CardsIndex(entries[..n]);
      var e := entries[n];
      if e.kind == "card" then g[SetOf(e) := Rows(g, SetOf(e)) + [RowOf(e)]] else g
  }

  /** The rows of set `s`, by definition: those of the card entries filed under `s`, in order. */
  function CardsIn(entries: seq<ScanEntry>, s: string): seq<CardRow> {
    if |entries| == 0 then []
    else
      var n := |entries| - 1;
      var e := entries[n];
      CardsIn(entries[..n], s) + (if e.kind == "card" && SetOf(e) == s then [RowOf(e)] else [])
  }

  /** The cards index lists under each set exactly the rows filed there, in order, and has no empty group. */
  lemma {:induction false} CardsIndexSpec(entries: seq<ScanEntry>, s: string)
    ensures Rows(CardsIndex(entries), s) == CardsIn(entries, s)
    ensures s in CardsIndex(entries) <==> CardsIn(entries, s) != []
  {
    if |entries| > 0 {
      var n := |entries| - 1;
      CardsIndexSpec(entries[..n], s);
      var e := entries[n];
      if !(e.kind == "card" && SetOf(e) == s) {
        assert CardsIn(entries, s) == CardsIn(entries[..n], s) + [];
      }
    }
  }

  /** A detected set is a set token, never "UNKNOWN", so the "UNKNOWN" group holds exactly the cards without one. */
  lemma UnknownGroup(path: string, e: ScanEntry)
    requires e.detected == ExtractMetaFromPath(path)
    ensures SetOf(e) == "UNKNOWN" <==> e.detected.setCode.None?
  {
  }

  /** A row of a per-kind index; only the collection index records the size. */
  datatype KindRow = KindRow(sha256: string, detected: Detected, size: Option<int>)

  function KindRowOf(e: ScanEntry, kind: string): KindRow {
    KindRow(e.sha256, e.detected, if kind == "collection" then Some(e.size) else None)
  }

  /** The index of one kind: each path of that kind mapped to its row. */
  function KindIndex(entries: seq<ScanEntry>, kind: string): map<string, KindRow> {
    if |entries| == 0 then map[]
    else
      var n := |entries| - 1;
      var idx := KindIndex(entries[..n], kind);
      if entries[n].kind == kind then idx[entries[n].path := KindRowOf(entries[n], kind)] else idx
  }

  /** Entry `j` has kind `kind` and path `path`. */
  predicate KindPathAt(entries: seq<ScanEntry>, kind: string, path: string, j: int)
    requires 0 <= j < |entries|
  {
    entries[j].kind == kind && entries[j].path == path
  }

  /** Entry `j` is the last entry with kind `kind` and path `path`. */
  predicate LastKindPathAt(entries: seq<ScanEntry>, kind: string, path: string, j: int) {
    && 0 <= j < |entries| && KindPathAt(entries, kind, path, j)
    && forall i :: j < i < |entries| ==> !KindPathAt(entries, kind, path, i)
  }

  /**
   * A per-kind index holds exactly the paths of that kind, each with the
   * row of the last entry of that kind with that path.
   */
  lemma KindIndexSpec(entries: seq<ScanEntry>, kind: string, path: string)
    ensures var idx := KindIndex(entries, kind);
            && (path in idx <==> exists j :: 0 <= j < |entries| && KindPathAt(entries, kind, path, j))
            && (path in idx ==> exists j :: LastKindPathAt(entries, kind, path, j) && idx[path] == KindRowOf(entries[j], kind))
  {
    KindIndexKeys(entries, kind, path);
    KindIndexLast(entries, kind, path);
  }

  /** A per-kind index holds exactly the paths of that kind. */
  lemma {:induction false} KindIndexKeys(entries: seq<ScanEntry>, kind: string, path: string)
    ensures path in KindIndex(entries, kind) <==> exists j :: 0 <= j < |entries| && KindPathAt(entries, kind, path, j)
  {
    if |entries| > 0 {
      var n := |entries| - 1;
      var front := entries[..n];
      KindIndexKeys(front, kind, path);
      assert forall j :: 0 <= j < n ==> KindPathAt(front, kind, path, j) == KindPathAt(entries, kind, path, j);
      if KindPathAt(entries, kind, path, n) {
        assert path in KindIndex(entries, kind);
      } else {
        assert path in KindIndex(entries, kind) <==> path in KindIndex(front, kind);
      }
    }
  }

  /** Each path of a per-kind index holds the row of the last entry of that kind with that path. */
  lemma {:induction false} KindIndexLast(entries: seq<ScanEntry>, kind: string, path: string)
    ensures var idx := KindIndex(entries, kind);
            path in idx ==> exists j :: LastKindPathAt(entries, kind, path, j) && idx[path] == KindRowOf(entries[j], kind)
  {
    if |entries| > 0 {
      var n := |entries| - 1;
      var front := entries[..n];
      KindIndexLast(front, kind, path);
      var before := KindIndex(front, kind);
      if KindPathAt(entries, kind, path, n) {
        assert LastKindPathAt(entries, kind, path, n);
      } else if path in before {
        var j :| LastKindPathAt(front, kind, path, j) && before[path] == KindRowOf(front[j], kind);
        assert forall i :: 0 <= i < n ==> front[i] == entries[i];
        assert LastKindPathAt(entries, kind, path, j);
      }
    }
  }

  /** `g` lists under each set exactly the card rows filed there, in scan order, and has no empty group. */
  ghost predicate CardsIndexed(entries: seq<ScanEntry>, g: Groups) {
    forall s :: Rows(g, s) == CardsIn(entries, s) && (s in g <==> CardsIn(entries, s) != [])
  }

  /** `idx` holds exactly the paths of kind `kind`, each with the row of the last entry of that kind with that path. */
  ghost predicate KindIndexed(entries: seq<ScanEntry>, kind: string, idx: map<string, KindRow>) {
    forall path ::
      && (path in idx <==> exists j :: 0 <= j < |entries| && KindPathAt(entries, kind, path, j))
      && (path in idx ==> exists j :: LastKindPathAt(entries, kind, path, j) && idx[path] == KindRowOf(entries[j], kind))
  }

  /** The cards index meets its specification for every set. */
  lemma CardsIndexCorrect(entries: seq<ScanEntry>)
    ensures CardsIndexed(entries, CardsIndex(entries))
  {
    forall s: string {
      CardsIndexSpec(entries, s);
    }
  }

  /** A per-kind index meets its specification for every path. */
  lemma KindIndexCorrect(entries: seq<ScanEntry>, kind: string)
    ensures KindIndexed(entries, kind, KindIndex(entries, kind))
  {
    forall path: string {
      KindIndexSpec(entries, kind, path);
    }
  }

  /** The six indexes `build_indexes` writes. */
  datatype Indexes = Indexes(cards: Groups, sets: map<string, KindRow>, rules: map<string, KindRow>,
                             decks: map<string, KindRow>, history: map<string, KindRow>,
                             collection: map<string, KindRow>)

  /** `build_indexes` over the manifest's entries in order. */
  function BuildIndexes(entries: seq<ScanEntry>): (r: Indexes)
    ensures CardsIndexed(entries, r.cards)
    ensures KindIndexed(entries, "set", r.sets) && KindIndexed(entries, "rule", r.rules)
    ensures KindIndexed(entries, "deck", r.decks) && KindIndexed(entries, "history", r.history)
    ensures KindIndexed(entries, "collection", r.collection)
    ensures forall p :: p in r.collection ==> r.collection[p].size.Some?
    ensures forall p :: p in r.sets ==> r.sets[p].size.None?
    ensures forall p :: p in r.rules ==> r.rules[p].size.None?
    ensures forall p :: p in r.decks ==> r.decks[p].size.None?
    ensures forall p :: p in r.history ==> r.history[p].size.None?
  {
    CardsIndexCorrect(entries);
    KindIndexCorrect(entries, "set");
    KindIndexCorrect(entries, "rule");
    KindIndexCorrect(entries, "deck");
    KindIndexCorrect(entries, "history");
    KindIndexCorrect(entries, "collection");
    KindSizes(entries, "collection");
    KindSizes(entries, "set");
    KindSizes(entries, "rule");
    KindSizes(entries, "deck");
    KindSizes(entries, "history");
    Indexes(CardsIndex(entries), KindIndex(entries, "set"), KindIndex(entries, "rule"),
            KindIndex(entries, "deck"), KindIndex(entries, "history"), KindIndex(entries, "collection"))
  }

  /** Only the collection index carries sizes. */
  lemma {:induction false} KindSizes(entries: seq<ScanEntry>, kind: string)
    ensures forall p :: p in KindIndex(entries, kind) ==> (KindIndex(entries, kind)[p].size.Some? <==> kind == "collection")
  {
    if |entries| > 0 {
      KindSizes(entries[..|entries| - 1], kind);
    }
  }
}
