/**
 * The ASCII half of the manifest's `norm_slug`: after Unicode decomposition
 * and lower-casing, every maximal run of characters outside `[a-z0-9]` is
 * replaced by one '-', and '-' is stripped from both ends.
 */
module Slug {
  import Strings
  import Wrappers

  predicate IsSlugAlnum(c: char) { 'a' <= c <= 'z' || '0' <= c <= '9' }

  /** The characters a slug may contain. */
  predicate IsSlugChar(c: char) { IsSlugAlnum(c) || c == '-' }

  /** The `[a-z0-9]` characters of `s`, in order. */
  function Alnums(s: string): (r: string)
    ensures |r| <= |s|
  {
    if |s| == 0 then ""
    else (if IsSlugAlnum(s[0]) then [s[0]] else "") + Alnums(s[1..])
  }

  lemma {:induction false} AlnumsAppend(a: string, b: string)
    ensures Alnums(a + b) == Alnums(a) + Alnums(b)
  {
    if |a| > 0 {
      assert (a + b)[0] == a[0] && (a + b)[1..] == a[1..] + b;
      AlnumsAppend(a[1..], b);
    } else {
      assert a + b == b;
    }
  }

  /** `s` without its leading run of characters outside `[a-z0-9]`. */
  function DropRun(s: string): (r: string)
    ensures |r| <= |s| && r == s[|s| - |r|..]
    ensures r == [] || IsSlugAlnum(r[0])
    ensures forall i :: 0 <= i < |s| - |r| ==> !IsSlugAlnum(s[i])
  {
    if |s| == 0 || IsSlugAlnum(s[0]) then s else DropRun(s[1..])
  }

  /** Dropping a run of non-slug characters loses no `[a-z0-9]` character. */
  lemma {:induction false} AlnumsDropRun(s: string)
    ensures Alnums(DropRun(s)) == Alnums(s)
  {
    if |s| > 0 && !IsSlugAlnum(s[0]) {
      AlnumsDropRun(s[1..]);
    }
  }

  /** `re.sub(r"[^a-z0-9]+", "-", s)`. */
  function Collapse(s: string): (r: string)
    ensures forall i :: 0 <= i < |r| ==> IsSlugChar(r[i])
    ensures |r| > 0 && r[0] == '-' <==> |s| > 0 && !IsSlugAlnum(s[0])
    ensures |s| == 0 <==> |r| == 0
    decreases |s|
  {
    if |s| == 0 then ""
    else if IsSlugAlnum(s[0]) then [s[0]] + Collapse(s[1..])
    else "-" + Collapse(DropRun(s[1..]))
  }

  /** No two dashes stand next to each other. */
  predicate NoDoubleDash(s: string) {
    forall i :: 0 <= i < |s| - 1 ==> !(s[i] == '-' && s[i + 1] == '-')
  }

  /** After the substitution every run is a single dash. */
  lemma {:induction false} CollapseNoDoubleDash(s: string)
    ensures NoDoubleDash(Collapse(s))
    decreases |s|
  {
    if |s| > 0 {
      if IsSlugAlnum(s[0]) {
        CollapseNoDoubleDash(s[1..]);
        ConsNoDoubleDash(s[0], Collapse(s[1..]));
      } else {
        var t := DropRun(s[1..]);
        CollapseNoDoubleDash(t);
        ConsNoDoubleDash('-', Collapse(t));
        assert "-" + Collapse(t) == ['-'] + Collapse(t);
      }
    }
  }

  /** A character before a string without double dashes adds none, unless both are dashes. */
  lemma ConsNoDoubleDash(c: char, rest: string)
    requires NoDoubleDash(rest)
    requires c == '-' ==> rest == [] || rest[0] != '-'
    ensures NoDoubleDash([c] + rest)
  {
    assert forall i :: 1 <= i < |rest| + 1 ==> ([c] + rest)[i] == rest[i - 1];
  }

  /** The substitution keeps every `[a-z0-9]` character, in order. */
  lemma {:induction false} CollapseAlnums(s: string)
    ensures Alnums(Collapse(s)) == Alnums(s)
    decreases |s|
  {
    if |s| > 0 {
      if IsSlugAlnum(s[0]) {
        CollapseAlnums(s[1..]);
        var c := [s[0]] + Collapse(s[1..]);
        assert c[0] == s[0] && c[1..] == Collapse(s[1..]);
      } else {
        var t := DropRun(s[1..]);
        CollapseAlnums(t);
        AlnumsDropRun(s[1..]);
        var c := "-" + Collapse(t);
        assert c[0] == '-' && c[1..] == Collapse(t);
      }
    }
  }

  /** The number of dashes `s` starts with. */
  function LeadingDashes(s: string): (n: nat)
    ensures n <= |s|
    ensures forall i :: 0 <= i < n ==> s[i] == '-'
    ensures n == |s| || s[n] != '-'
  {
    if |s| > 0 && s[0] == '-' then 1 + LeadingDashes(s[1..]) else 0
  }

  /** The number of dashes `s` ends with. */
  function TrailingDashes(s: string): (n: nat)
    ensures n <= |s|
    ensures forall i :: |s| - n <= i < |s| ==> s[i] == '-'
    ensures n == |s| || s[|s| - n - 1] != '-'
  {
    if |s| > 0 && s[|s| - 1] == '-' then 1 + TrailingDashes(s[..|s| - 1]) else 0
  }

  /** Drops leading dashes. */
  function TrimDashStart(s: string): (r: string)
    ensures r == [] || r[0] != '-'
  {
    s[LeadingDashes(s)..]
  }

  /** Drops trailing dashes. */
  function TrimDashEnd(s: string): (r: string)
    ensures r == [] || r[|r| - 1] != '-'
  {
    s[..|s| - TrailingDashes(s)]
  }

  /** A string of dashes has no `[a-z0-9]` character. */
  lemma {:induction false} AlnumsOfDashes(s: string)
    requires forall i :: 0 <= i < |s| ==> s[i] == '-'
    ensures Alnums(s) == ""
  {
    if |s| > 0 {
      AlnumsOfDashes(s[1..]);
    }
  }

  /** `.strip("-")`. */
  function StripDashes(s: string): (r: string)
    ensures r == [] || (r[0] != '-' && r[|r| - 1] != '-')
  {
    var t := TrimDashStart(s);
    assert TrimDashEnd(t) == [] || TrimDashEnd(t)[0] == t[0];
    TrimDashEnd(t)
  }

  /** Stripping keeps a middle slice of `s` and drops only dashes. */
  lemma StripDashesSlice(s: string)
    ensures var r := StripDashes(s);
            exists a, b :: 0 <= a <= b <= |s| && r == s[a..b]
                           && (forall i :: 0 <= i < a ==> s[i] == '-')
                           && (forall i :: b <= i < |s| ==> s[i] == '-')
  {
    var a := LeadingDashes(s);
    var n := |s| - a - TrailingDashes(s[a..]);
    var b := a + n;
    Wrappers.SliceTake(s, a, n);
    assert StripDashes(s) == s[a..b];
  }

  /** The ASCII post-processing of `norm_slug`. */
  function SlugTail(s: string): (r: string)
    ensures r == [] || (r[0] != '-' && r[|r| - 1] != '-')
  {
    StripDashes(Collapse(s))
  }

  /** A middle slice keeps the character class and the single dashes of `c`. */
  lemma SliceShape(c: string, a: nat, b: nat)
    requires a <= b <= |c|
    requires forall i :: 0 <= i < |c| ==> IsSlugChar(c[i])
    requires NoDoubleDash(c)
    ensures forall i :: 0 <= i < b - a ==> IsSlugChar(c[a..b][i])
    ensures NoDoubleDash(c[a..b])
  {
    assert forall i :: 0 <= i < b - a ==> c[a..b][i] == c[a + i];
  }

  /** Dropping dashes from both ends of `c` keeps its `[a-z0-9]` characters. */
  lemma SliceAlnums(c: string, a: nat, b: nat)
    requires a <= b <= |c|
    requires forall i :: 0 <= i < a ==> c[i] == '-'
    requires forall i :: b <= i < |c| ==> c[i] == '-'
    ensures Alnums(c[a..b]) == Alnums(c)
  {
    DashSlice(c, 0, a);
    DashSlice(c, b, |c|);
    AlnumsSurround(c[0..a], c[a..b], c[b..|c|]);
    ThreeSlices(c, a, b);
  }

  /** A string is its three slices around `a` and `b`, concatenated. */
  lemma ThreeSlices(c: string, a: nat, b: nat)
    requires a <= b <= |c|
    ensures c == c[0..a] + c[a..b] + c[b..|c|]
  {
  }

  /** A slice of dashes has no `[a-z0-9]` character. */
  lemma DashSlice(c: string, a: nat, b: nat)
    requires a <= b <= |c|
    requires forall i :: a <= i < b ==> c[i] == '-'
    ensures Alnums(c[a..b]) == ""
  {
    assert forall i :: 0 <= i < b - a ==> c[a..b][i] == c[a + i];
    AlnumsOfDashes(c[a..b]);
  }

  /** Text without `[a-z0-9]` characters on either side adds none. */
  lemma AlnumsSurround(front: string, mid: string, back: string)
    requires Alnums(front) == "" && Alnums(back) == ""
    ensures Alnums(front + mid + back) == Alnums(mid)
  {
    AlnumsAppend(front + mid, back);
    AlnumsAppend(front, mid);
    assert Alnums(front + mid) + "" == Alnums(front + mid);
    assert "" + Alnums(mid) == Alnums(mid);
  }

  /**
   * A slug holds only `[a-z0-9-]`, neither starts nor ends with '-', never
   * holds two '-' in a row, and keeps exactly the `[a-z0-9]` characters of
   * its input, in order.
   */
  lemma SlugShape(s: string)
    ensures var r := SlugTail(s);
            && (forall i :: 0 <= i < |r| ==> IsSlugChar(r[i]))
            && NoDoubleDash(r)
            && Alnums(r) == Alnums(s)
  {
    var c := Collapse(s);
    CollapseNoDoubleDash(s);
    CollapseAlnums(s);
    StripDashesSlice(c);
    var a, b :| 0 <= a <= b <= |c| && SlugTail(s) == c[a..b]
                && (forall i :: 0 <= i < a ==> c[i] == '-')
                && (forall i :: b <= i < |c| ==> c[i] == '-');
    SliceShape(c, a, b);
    SliceAlnums(c, a, b);
  }

  /** A slug is empty iff its input has no `[a-z0-9]` character. */
  lemma SlugEmptyIff(s: string)
    ensures SlugTail(s) == "" <==> Alnums(s) == ""
  {
    var r := SlugTail(s);
    SlugShape(s);
    if r != "" {
      assert r[0] != '-' && IsSlugChar(r[0]);
      assert Alnums(r)[0] == r[0] by {
        assert Alnums(r) == [r[0]] + Alnums(r[1..]);
      }
    }
  }
}
