/**
 * The validation schema: one rule record per file category, with the
 * defaults the validators apply when a key is absent.
 */
module Schema {
  import opened Wrappers

  /** The `constraints` record of the deck rule; None means "key absent". */
  datatype Constraints = Constraints(
    minCards: Option<int>,
    maxCards: Option<int>,
    uniqueHero: Option<bool>,
    maxSameCard: Option<int>,
    maxRareCards: Option<int>,
    maxUniqueCards: Option<int>,
    sameFactionAsHero: Option<bool>)

  /** The rule record of one category; absent keys are None or empty. */
  datatype FileRule = FileRule(
    requiredFields: seq<string>,
    idPattern: Option<string>,
    allowedRarities: set<string>,
    countMin: Option<int>,
    countMax: Option<int>,
    requiredKeywords: seq<string>,
    constraints: Constraints)

  /** The schema's `rules` object, keyed by category name ("deck_file", ...). */
  type RuleSet = map<string, FileRule>

  const NoConstraints := Constraints(None, None, None, None, None, None, None)
  const EmptyRule := FileRule([], None, {}, None, None, [], NoConstraints)

  /** `get_schema_rule`: the category's rule, or the empty rule when absent. */
  function GetSchemaRule(schema: RuleSet, key: string): (r: FileRule)
    ensures key in schema ==> r == schema[key]
    ensures key !in schema ==> r.requiredFields == [] && r.allowedRarities == {}
                               && r.requiredKeywords == [] && r.constraints == NoConstraints
  {
    if key in schema then schema[key] else EmptyRule
  }

  /** The identifier pattern, `.+` by default. */
  function IdPattern(rule: FileRule): string {
    rule.idPattern.GetOr(".+")
  }

  /** The inclusive `count` bounds of collection items, 0 and 99 by default. */
  function CountMin(rule: FileRule): int { rule.countMin.GetOr(0) }
  function CountMax(rule: FileRule): int { rule.countMax.GetOr(99) }

  /** Deck constraints with their defaults filled in. */
  datatype DeckLimits = DeckLimits(
    minCards: int,
    maxCards: int,
    uniqueHero: bool,
    maxSame: int,
    maxRare: int,
    maxUnique: int,
    sameFactionAsHero: bool)

  /**
   * The constraints the deck validator uses: 40 to 60 cards, exactly one hero
   * copy, at most 3 copies of a name, 15 rare and 3 unique cards, and every
   * card of the hero's faction, unless the schema says otherwise.
   */
  function Limits(rule: FileRule): (r: DeckLimits)
    ensures rule.constraints == NoConstraints ==> r == DeckLimits(40, 60, true, 3, 15, 3, true)
    ensures var c := rule.constraints;
            && (c.minCards.Some? ==> r.minCards == c.minCards.value)
            && (c.maxCards.Some? ==> r.maxCards == c.maxCards.value)
            && (c.uniqueHero.Some? ==> r.uniqueHero == c.uniqueHero.value)
            && (c.maxSameCard.Some? ==> r.maxSame == c.maxSameCard.value)
            && (c.maxRareCards.Some? ==> r.maxRare == c.maxRareCards.value)
            && (c.maxUniqueCards.Some? ==> r.maxUnique == c.maxUniqueCards.value)
            && (c.sameFactionAsHero.Some? ==> r.sameFactionAsHero == c.sameFactionAsHero.value)
    ensures var c := rule.constraints;
            && (c.minCards.None? ==> r.minCards == 40)
            && (c.maxCards.None? ==> r.maxCards == 60)
            && (c.uniqueHero.None? ==> r.uniqueHero)
            && (c.maxSameCard.None? ==> r.maxSame == 3)
            && (c.maxRareCards.None? ==> r.maxRare == 15)
            && (c.maxUniqueCards.None? ==> r.maxUnique == 3)
            && (c.sameFactionAsHero.None? ==> r.sameFactionAsHero)
  {
    var c := rule.constraints;
    DeckLimits(
      c.minCards.GetOr(40),
      c.maxCards.GetOr(60),
      c.uniqueHero.GetOr(true),
      c.maxSameCard.GetOr(3),
      c.maxRareCards.GetOr(15),
      c.maxUniqueCards.GetOr(3),
      c.sameFactionAsHero.GetOr(true))
  }
}
