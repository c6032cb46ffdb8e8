/**
 * Attributes the deck check reads from a card object: the normalised card
 * type and the rare / unique flags.
 */
module CardMeta {
  import opened Json
  import opened Strings
  import opened Wrappers

  /** The six types every synonym is mapped to. */
  predicate IsCanonicalType(t: string) {
    t in {"hero", "companion", "character", "spell", "permanent", "token"}
  }

  /** The English / German synonym table of `norm_type`. */
  function Synonym(v: string): (r: Option<string>)
    ensures r.Some? ==> IsCanonicalType(r.value)
    ensures IsCanonicalType(v) ==> r == Some(v)
  {
    if v == "hero" || v == "held" then Some("hero")
    else if v == "companion" || v == "begleiter" then Some("companion")
    else if v == "character" || v == "charakter" then Some("character")
    else if v == "spell" || v == "zauber" then Some("spell")
    else if v == "permanent" || v == "permanent/landmark" || v == "landmark" then Some("permanent")
    else if v == "token" || v == "spielstein" then Some("token")
    else None
  }

  /**
   * `norm_type`: strip and lower-case the text, then map a known synonym to
   * its canonical type; any other text is returned stripped and lower-cased.
   */
  function NormType(value: string): (r: string)
    ensures var v := Lower(Strip(value));
            (Synonym(v).Some? ==> IsCanonicalType(r) && r == Synonym(v).value)
            && (Synonym(v).None? ==> r == v)
  {
    var v := Lower(Strip(value));
    match Synonym(v)
    case Some(t) => t
    case None => v
  }

  /** Text made of lower-case ASCII letters is unchanged by strip and lower. */
  lemma LettersAreNormal(t: string)
    requires forall i :: 0 <= i < |t| ==> IsLowerAscii(t[i])
    ensures Strip(t) == t && Lower(t) == t
  {
    StripOfStripped(t);
  }

  /** A canonical type is mapped to itself. */
  lemma CanonicalIsFixed(t: string)
    requires IsCanonicalType(t)
    ensures NormType(t) == t
  {
    LettersAreNormal(t);
  }

  lemma {:induction false} StripLowerStripped(x: string)
    ensures Strip(Lower(Strip(x))) == Lower(Strip(x))
  {
    var s := Strip(x);
    var v := Lower(s);
    if v != [] {
      LowerCharKeepsSpace(s[0]);
      LowerCharKeepsSpace(s[|s| - 1]);
    }
    StripOfStripped(v);
  }

  /** Normalising twice gives the same type as normalising once. */
  lemma {:induction false} NormTypeIdempotent(x: string)
    ensures NormType(NormType(x)) == NormType(x)
  {
    var v := Lower(Strip(x));
    if Synonym(v).Some? {
      CanonicalIsFixed(Synonym(v).value);
    } else {
      StripLowerStripped(x);
      LowerIdempotent(Strip(x));
    }
  }

  /** The normalised type is empty exactly when the text is blank. */
  lemma NormTypeEmpty(x: string)
    ensures NormType(x) == "" <==> Strip(x) == ""
  {
  }

  /** `rarity_flags`: (is_rare, is_unique) from the `rarity` and `unique` fields. */
  datatype RarityFlags = RarityFlags(isRare: bool, isUnique: bool)

  /**
   * A card is rare exactly when its `rarity` is the string "R" or "r", and
   * unique exactly when its `unique` field is truthy or its `rarity` is "U" or
   * "u"; a rare card is therefore unique only through its `unique` field.
   */
  function Flags(card: Json): (r: RarityFlags)
    ensures r.isRare <==> Get(card, "rarity") == JStr("R") || Get(card, "rarity") == JStr("r")
    ensures r.isUnique <==> Truthy(Get(card, "unique"))
                            || Get(card, "rarity") == JStr("U") || Get(card, "rarity") == JStr("u")
    ensures r.isRare && r.isUnique ==> Truthy(Get(card, "unique"))
  {
    var rarity := Upper(Text(Get(card, "rarity")));
    UpperIsLetter(Text(Get(card, "rarity")), 'R');
    UpperIsLetter(Text(Get(card, "rarity")), 'U');
    RarityFlags(rarity == "R", Truthy(Get(card, "unique")) || rarity == "U")
  }

  /** `s.upper()` is the one upper-case letter `c` exactly when `s` is `c` in either case. */
  lemma UpperIsLetter(s: string, c: char)
    requires IsUpperAscii(c)
    ensures Upper(s) == [c] <==> s == [c] || s == [(c as int + 32) as char]
  {
    if Upper(s) == [c] {
      assert UpperChar(s[0]) == c;
      assert s == [s[0]];
    }
    if s == [(c as int + 32) as char] {
      assert Upper(s)[0] == c;
    }
  }

  /** A rare card whose `unique` field is truthy counts as both rare and unique. */
  lemma RareAndUnique()
    ensures Flags(JObj(map["rarity" := JStr("r"), "unique" := JBool(true)])) == RarityFlags(true, true)
  {
    assert Upper("r") == "R";
  }
}
