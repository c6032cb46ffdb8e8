/**
 * `infer_from_path` of the manifest builder: the metadata a repository-relative
 * POSIX path gives before the file is opened.
 */
module ManifestPaths {
  import opened Wrappers
  import opened Json
  import opened Strings

  predicate IsDigit(c: char) { '0' <= c <= '9' }

  /** `name.rsplit(".", 1)[0]`: the name without its final extension, if it has one. */
  function Stem(name: string): (r: string)
    ensures '.' !in name ==> r == name
    ensures '.' in name ==> |r| < |name| && name[..|r|] == r && name[|r|] == '.' && '.' !in name[|r| + 1..]
  {
    var i := RFind(name, '.');
    if i < 0 then name else name[..i]
  }

  /** `fn` without one final newline, before which `$` also matches. */
  function BeforeFinalNewline(fn: string): (r: string)
    ensures r == fn || (fn == r + "\n")
  {
    if |fn| > 0 && fn[|fn| - 1] == '\n' then fn[..|fn| - 1] else fn
  }

  /** `s` without its trailing run of digits. */
  function DropDigits(s: string): (r: string)
    ensures |r| <= |s| && r == s[..|r|]
    ensures r == [] || !IsDigit(r[|r| - 1])
    ensures forall i :: |r| <= i < |s| ==> IsDigit(s[i])
  {
    if |s| > 0 && IsDigit(s[|s| - 1]) then DropDigits(s[..|s| - 1]) else s
  }

  /** Digits appended to a string that does not end in a digit are exactly what `DropDigits` removes. */
  lemma {:induction false} DropDigitsOf(x: string, d: string)
    requires |x| > 0 && !IsDigit(x[|x| - 1])
    requires forall i :: 0 <= i < |d| ==> IsDigit(d[i])
    ensures DropDigits(x + d) == x
    decreases |d|
  {
    if |d| > 0 {
      var s := x + d;
      assert s[..|s| - 1] == x + d[..|d| - 1];
      DropDigitsOf(x, d[..|d| - 1]);
    } else {
      assert x + d == x;
    }
  }

  /**
   * The rarity letter `re.search(r"_([CRU])(?:\d+)?$", fn)` captures: the
   * stem must end in '_', one of C, R, U, then digits, optionally followed by
   * one final newline.
   */
  function RarityLetter(fn: string): (r: Option<char>)
    ensures r.Some? ==> r.value in "CRU"
  {
    var c := DropDigits(BeforeFinalNewline(fn));
    if |c| >= 2 && c[|c| - 2] == '_' && c[|c| - 1] in "CRU" then Some(c[|c| - 1]) else None
  }

  /**
   * The pattern matches `fn[k..e]` with the anchor at `e`: `e` is the end, or
   * the position of a final newline.
   */
  predicate RarityAt(fn: string, k: int, e: int, l: char) {
    && 0 <= k && k + 2 <= e
    && (e == |fn| || (e == |fn| - 1 && fn[e] == '\n'))
    && fn[k] == '_' && fn[k + 1] == l && l in "CRU"
    && forall i :: k + 2 <= i < e ==> IsDigit(fn[i])
  }

  /** The captured letter is exactly a letter at which the pattern matches. */
  lemma RarityIff(fn: string, l: char)
    ensures RarityLetter(fn) == Some(l) <==> exists k, e :: RarityAt(fn, k, e, l)
  {
    if RarityLetter(fn) == Some(l) {
      RarityFound(fn, l);
    }
    if k, e :| RarityAt(fn, k, e, l) {
      RarityMatched(fn, k, e, l);
    }
  }

  /** A captured letter is matched where the stem's trailing digits begin. */
  lemma RarityFound(fn: string, l: char)
    requires RarityLetter(fn) == Some(l)
    ensures exists k, e :: RarityAt(fn, k, e, l)
  {
    var b := BeforeFinalNewline(fn);
    var c := DropDigits(b);
    assert RarityAt(fn, |c| - 2, |b|, l);
  }

  /** A match of the pattern is the captured letter. */
  lemma RarityMatched(fn: string, k: int, e: int, l: char)
    requires RarityAt(fn, k, e, l)
    ensures RarityLetter(fn) == Some(l)
  {
    var x := fn[..k + 2];
    MatchAnchor(fn, k, e, l);
    MatchDigits(fn, k, e, l);
    assert x[k] == '_' && x[k + 1] == l;
  }

  /** At a match, `BeforeFinalNewline` cuts the name exactly at the anchor. */
  lemma MatchAnchor(fn: string, k: int, e: int, l: char)
    requires RarityAt(fn, k, e, l)
    ensures BeforeFinalNewline(fn) == fn[..e]
  {
    assert fn[e - 1] == l || IsDigit(fn[e - 1]);
  }

  /** At a match, the digits after the letter are exactly what `DropDigits` removes. */
  lemma MatchDigits(fn: string, k: int, e: int, l: char)
    requires RarityAt(fn, k, e, l)
    ensures DropDigits(fn[..e]) == fn[..k + 2]
  {
    var x, d := fn[..k + 2], fn[k + 2..e];
    assert fn[..e] == x + d;
    assert x[k + 1] == l && !IsDigit(l);
    assert forall i :: 0 <= i < |d| ==> d[i] == fn[k + 2 + i];
    DropDigitsOf(x, d);
  }

  /** The `kind` a first path segment gives. */
  function KindOf(first: string): string {
    if first == "CARDS" then "CARD"
    else if first == "COLLECTION" then "COLLECTION"
    else if first == "RULES" then "RULES"
    else "OTHER"
  }

  /**
   * The keys `infer_from_path` may set, as a record (`setCode` is the `set` key): `kind` always, the others
   * only when present (None stands for an absent key).
   */
  datatype PathMeta = PathMeta(kind: string, lang: Option<string>, setCode: Option<string>,
                               faction: Option<string>, reference: Option<string>, rarity: Option<char>)

  /**
   * `infer_from_path`. Card paths also get `reference` (the file name without
   * its last extension), `rarity` when the stem carries one, and `lang`,
   * `set` and `faction` from segments 1 to 3 when the path has at least five
   * segments.
   */
  function InferFromPath(rel: string): (r: PathMeta)
    ensures var parts := Split(rel, '/');
            && r.kind == KindOf(parts[0])
            && (parts[0] != "CARDS" ==> r == PathMeta(r.kind, None, None, None, None, None))
  {
    var parts := Split(rel, '/');
    if parts[0] == "CARDS" then
      var fn := Stem(parts[|parts| - 1]);
      var long := |parts| >= 5;
      PathMeta("CARD",
               if long then Some(parts[1]) else None,
               if long then Some(parts[2]) else None,
               if long then Some(parts[3]) else None,
               Some(fn), RarityLetter(fn))
    else PathMeta(KindOf(parts[0]), None, None, None, None, None)
  }

  /**
   * A card path written as segments joined by '/' yields those segments:
   * language, set and faction from positions 1 to 3 when there are at least
   * five, the reference from the file name, and a rarity letter exactly when
   * the rarity pattern matches the file stem.
   */
  lemma InferOfSegments(parts: seq<string>, l: char)
    requires |parts| >= 2 && parts[0] == "CARDS"
    requires forall k :: 0 <= k < |parts| ==> '/' !in parts[k]
    ensures var r := InferFromPath(Join(parts, '/'));
            var fn := Stem(parts[|parts| - 1]);
            && r.kind == "CARD"
            && (r.lang.Some? <==> |parts| >= 5)
            && (|parts| >= 5 ==> r.lang == Some(parts[1]) && r.setCode == Some(parts[2]) && r.faction == Some(parts[3]))
            && r.reference == Some(fn)
            && (r.rarity == Some(l) <==> exists k, e :: RarityAt(fn, k, e, l))
  {
    SplitJoin(parts, '/');
    RarityIff(Stem(parts[|parts| - 1]), l);
  }
}
