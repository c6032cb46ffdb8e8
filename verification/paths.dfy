/**
 * File paths as Python's `pathlib.Path` sees them, and the four classifiers
 * that decide which validator a file is given to.
 */
module Paths {
  import opened Wrappers
  import opened Strings

  /** `Path.parts`: the path as a sequence of segments. */
  datatype FilePath = FilePath(parts: seq<string>)

  /** `Path.name`: the last segment, or "" for an empty path. */
  function Name(p: FilePath): string {
    if |p.parts| == 0 then "" else p.parts[|p.parts| - 1]
  }

  /**
   * `Path.suffix`: from the last '.' of the name to its end, provided that
   * dot is neither the first nor the last character; otherwise "".
   */
  function Suffix(name: string): (r: string)
    ensures r == [] || (r[0] == '.' && '.' !in r[1..] && |r| >= 2 && |r| < |name|)
    ensures r != [] ==> name[|name| - |r|..] == r
    ensures r != [] <==> exists i :: 0 < i < |name| - 1 && name[i] == '.' && '.' !in name[i + 1..]
  {
    var i := RFind(name, '.');
    if 0 < i < |name| - 1 then
      name[i..]
    else
      LastDotUnique(name, i);
      ""
  }

  /** A '.' with none after it can only be the one `RFind` reports. */
  lemma LastDotUnique(name: string, r: int)
    requires r == RFind(name, '.')
    ensures forall i :: 0 <= i < |name| && name[i] == '.' && '.' !in name[i + 1..] ==> i == r
  {
  }

  predicate HasSuffix(p: FilePath, ext: string) {
    Lower(Suffix(Name(p))) == ext
  }

  /** `is_json`: the suffix is ".json", compared case-insensitively. */
  predicate IsJson(p: FilePath) {
    HasSuffix(p, ".json")
  }

  predicate IsPdf(p: FilePath) {
    HasSuffix(p, ".pdf")
  }

  /** `parts.index(seg)`: the position of the first occurrence, if any. */
  function FirstIndex(parts: seq<string>, seg: string): (r: Option<nat>)
    ensures r.Some? ==> r.value < |parts| && parts[r.value] == seg
    ensures r.Some? ==> forall j :: 0 <= j < r.value ==> parts[j] != seg
    ensures r.None? <==> seg !in parts
  {
    if |parts| == 0 then None
    else if parts[0] == seg then Some(0)
    else match FirstIndex(parts[1..], seg)
      case None => None
      case Some(i) => Some(i + 1)
  }

  /**
   * `looks_like_card_file`: the FIRST "CARDS" segment is followed by at least
   * four further segments (language, set, faction, file) and the suffix is
   * ".json" in any letter case.
   */
  function LooksLikeCardFile(p: FilePath): bool {
    match FirstIndex(p.parts, "CARDS")
    case None => false
    case Some(i) => |p.parts| >= i + 5 && IsJson(p)
  }

  /** The card-file shape stated without reference to `FirstIndex`. */
  lemma LooksLikeCardFileIff(p: FilePath)
    ensures LooksLikeCardFile(p) <==>
              IsJson(p) && exists i :: 0 <= i < |p.parts| && p.parts[i] == "CARDS"
                                       && "CARDS" !in p.parts[..i]
                                       && |p.parts| - (i + 1) >= 4
  {
    match FirstIndex(p.parts, "CARDS")
    case None =>
    case Some(i) =>
      assert "CARDS" !in p.parts[..i];
      if LooksLikeCardFile(p) {
        assert p.parts[i] == "CARDS";
      } else {
        forall i' | 0 <= i' < |p.parts| && p.parts[i'] == "CARDS" && "CARDS" !in p.parts[..i']
          ensures i' == i
        {

        }
      }
  }

  /**
   * The file name ends in `ext` in any letter case, with at least one
   * character before it: the suffix stated on the raw name.
   */
  predicate EndsWithExt(name: string, ext: string) {
    |name| > |ext| && Lower(name[|name| - |ext|..]) == ext
  }

  /**
   * `path.suffix.lower() == ext`, for an extension made of a dot and at least
   * one lower-case ASCII letter.
   */
  lemma HasSuffixIff(p: FilePath, ext: string)
    requires |ext| >= 2 && ext[0] == '.' && forall k :: 1 <= k < |ext| ==> IsLowerAscii(ext[k])
    ensures HasSuffix(p, ext) <==> EndsWithExt(Name(p), ext)
  {
    var n := Name(p);
    var k := |ext|;
    assert Lower(ext) == ext;
    if EndsWithExt(n, ext) {
      var t := n[|n| - k..];
      assert n[|n| - k] == t[0];
      assert LowerChar(n[|n| - k]) == '.';
      assert n[|n| - k] == '.';
      forall j | |n| - k + 1 <= j < |n|
        ensures n[j] != '.'
      {
        assert n[j] == t[j - (|n| - k)];
        assert LowerChar(n[j]) == ext[j - (|n| - k)];
      }
      assert '.' !in n[|n| - k + 1..];
      assert Suffix(n) != [];
      var r := Suffix(n);
      assert r[0] == '.' && '.' !in r[1..];
      assert n[|n| - |r|] == '.' && '.' !in n[|n| - |r| + 1..];
      LastDotUnique(n, RFind(n, '.'));
    }
  }

  /** `looks_like_collection_file`. */
  function LooksLikeCollectionFile(p: FilePath): (r: bool)
    ensures r <==> "COLLECTION" in p.parts && EndsWithExt(Name(p), ".json")
  {
    HasSuffixIff(p, ".json");
    "COLLECTION" in p.parts && IsJson(p)
  }

  /**
   * `looks_like_deck_file`: a ".json" file at any depth below a "DECKS"
   * directory (a file named "DECKS" has no suffix, so the segment is never the
   * file itself).
   */
  function LooksLikeDeckFile(p: FilePath): (r: bool)
    ensures r <==> (exists i :: 0 <= i < |p.parts| - 1 && p.parts[i] == "DECKS")
                   && EndsWithExt(Name(p), ".json")
  {
    HasSuffixIff(p, ".json");
    SegmentAboveFile(p, "DECKS", ".json");
    "DECKS" in p.parts && IsJson(p)
  }

  /** A segment without a dot is never the name of a file carrying `ext`. */
  lemma SegmentAboveFile(p: FilePath, seg: string, ext: string)
    requires '.' !in seg && |ext| >= 1 && ext[0] == '.'
    ensures seg in p.parts && EndsWithExt(Name(p), ext) <==>
              (exists i :: 0 <= i < |p.parts| - 1 && p.parts[i] == seg) && EndsWithExt(Name(p), ext)
  {
    if seg in p.parts && EndsWithExt(Name(p), ext) {
      var n := Name(p);
      var i :| 0 <= i < |p.parts| && p.parts[i] == seg;
      assert LowerChar(n[|n| - |ext|]) == ext[0] by {
        assert n[|n| - |ext|] == n[|n| - |ext|..][0];
      }
      assert n[|n| - |ext|] in n;
      assert i != |p.parts| - 1;
    }
  }

  /** `looks_like_rules_file`: ".json" or ".pdf" below a "RULES" segment. */
  function LooksLikeRulesFile(p: FilePath): (r: bool)
    ensures r <==> "RULES" in p.parts
                   && (EndsWithExt(Name(p), ".json") || EndsWithExt(Name(p), ".pdf"))
  {
    HasSuffixIff(p, ".json");
    HasSuffixIff(p, ".pdf");
    "RULES" in p.parts && (IsJson(p) || IsPdf(p))
  }
}
