/**
 * `validate_deck_file`: structural gates, the hero check, a fold over the
 * `cards` entries with explicit counters, and the checks on the totals.
 * Card lookups go through the lazily extended card index.
 */
module DeckFile {
  import opened Wrappers
  import opened Json
  import opened Strings
  import opened Paths
  import opened Schema
  import opened Findings
  import opened CardMeta
  import opened CardIndex
  import opened Checks
  import opened NameCounts

  /**
   * `_load_card_meta` on a card identifier taken from the deck. Index keys
   * and scanned ids that can be reached are strings, so a non-string
   * identifier is never found.
   */
  function LookupCard(idx: Index, tree: seq<RepoFile>, cid: Json): (r: Lookup)
    ensures !cid.JStr? ==> r == Lookup(None, idx, false)
  {
    if cid.JStr? then LoadCardMeta(idx, tree, cid.s) else Lookup(None, idx, false)
  }

  /** `if not meta`: a lookup counts as found when it returns a non-empty object. */
  predicate Found(meta: Option<Json>) {
    meta.Some? && Truthy(meta.value)
  }

  /** `meta.get("name") or meta.get("title") or cid`: the key copies are counted under. */
  function NameKey(meta: Json, cid: Json): (r: Json)
    ensures Truthy(Get(meta, "name")) ==> r == Get(meta, "name")
    ensures !Truthy(Get(meta, "name")) && Truthy(Get(meta, "title")) ==> r == Get(meta, "title")
    ensures !Truthy(Get(meta, "name")) && !Truthy(Get(meta, "title")) ==> r == cid
  {
    Or(Get(meta, "name"), Or(Get(meta, "title"), cid))
  }

  /** The upper-cased `faction` of a card or deck, "" when absent. */
  function Faction(obj: Json): string {
    Upper(Text(Get(obj, "faction")))
  }

  /** The normalised `type` of a card. */
  function CardType(meta: Json): string {
    NormType(Text(Get(meta, "type")))
  }

  // ---------- hero ----------

  /** What the hero check yields: its findings, the hero's faction ("" if unknown), the index after it. */
  datatype HeroInfo = HeroInfo(findings: seq<Finding>, faction: string, index: Index)

  /** The faction ERROR: only when both factions are non-empty and differ. */
  function FactionCheck(path: FilePath, deckFaction: string, heroFaction: string): (r: seq<Finding>)
    ensures r != [] <==> deckFaction != "" && heroFaction != "" && deckFaction != heroFaction
    ensures r == [] || r == [Finding(path, Error, FactionMismatch(deckFaction, heroFaction))]
  {
    if deckFaction != "" && heroFaction != "" && deckFaction != heroFaction then
      [Finding(path, Error, FactionMismatch(deckFaction, heroFaction))]
    else []
  }

  /**
   * The hero check: a falsy `hero_id` is an ERROR; an unresolved one is an
   * ERROR; a resolved card must have type hero and, when both are given,
   * the deck's faction.
   */
  function HeroCheck(path: FilePath, heroId: Json, deckFaction: string,
                     idx: Index, tree: seq<RepoFile>): (r: HeroInfo)
    ensures !Truthy(heroId) ==> r == HeroInfo([Finding(path, Error, HeroMissing)], "", idx)
    ensures Truthy(heroId) && !Found(LookupCard(idx, tree, heroId).meta) ==>
              r.findings == [Finding(path, Error, HeroNotFound(heroId))] && r.faction == ""
    ensures r.faction != "" ==> Truthy(heroId) && Found(LookupCard(idx, tree, heroId).meta)
                                && r.faction == Faction(LookupCard(idx, tree, heroId).meta.value)
    ensures Truthy(heroId) ==> r.index == LookupCard(idx, tree, heroId).index
    ensures forall f :: f in r.findings ==> f.level == Error && IsHeroMessage(f.message)
  {
    if !Truthy(heroId) then HeroInfo([Finding(path, Error, HeroMissing)], "", idx)
    else
      var l := LookupCard(idx, tree, heroId);
      if !Found(l.meta) then HeroInfo([Finding(path, Error, HeroNotFound(heroId))], "", l.index)
      else
        var meta := l.meta.value;
        var typeErr := if CardType(meta) != "hero"
                       then [Finding(path, Error, HeroNotHero(heroId, Get(meta, "type")))] else [];
        var hf := Faction(meta);
        var fc := FactionCheck(path, deckFaction, hf);
        HeroMessagesOnly(typeErr, fc);
        HeroInfo(typeErr + fc, hf, l.index)
  }

  /** The type and faction ERRORs of a resolved hero carry hero messages only. */
  lemma HeroMessagesOnly(typeErr: seq<Finding>, fc: seq<Finding>)
    requires typeErr == [] || (|typeErr| == 1 && typeErr[0].level == Error && typeErr[0].message.HeroNotHero?)
    requires fc == [] || (|fc| == 1 && fc[0].level == Error && fc[0].message.FactionMismatch?)
    ensures forall f :: f in typeErr + fc ==> f.level == Error && IsHeroMessage(f.message)
  {
  }

  /** The messages the hero check can produce. */
  predicate IsHeroMessage(m: Message) {
    m.HeroMissing? || m.HeroNotFound? || m.HeroNotHero? || m.FactionMismatch?
  }

  /** A faction-mismatch ERROR from the hero check means both factions were non-empty. */
  lemma FactionMismatchNeedsBoth(path: FilePath, heroId: Json, deckFaction: string,
                                 idx: Index, tree: seq<RepoFile>, f: Finding)
    requires f in HeroCheck(path, heroId, deckFaction, idx, tree).findings && f.message.FactionMismatch?
    ensures deckFaction != "" && f.message.deckFaction == deckFaction
    ensures f.message.heroFaction != "" && f.message.heroFaction == HeroCheck(path, heroId, deckFaction, idx, tree).faction
    ensures deckFaction != f.message.heroFaction
  {
  }

  /**
   * A resolved hero is reported as not a hero iff its normalised type is not
   * hero, and its faction is then the upper-cased faction of the card.
   */
  lemma HeroTypeIff(path: FilePath, heroId: Json, deckFaction: string, idx: Index, tree: seq<RepoFile>)
    requires Truthy(heroId) && Found(LookupCard(idx, tree, heroId).meta)
    ensures var meta, r := LookupCard(idx, tree, heroId).meta.value, HeroCheck(path, heroId, deckFaction, idx, tree);
            && ((exists f :: f in r.findings && f.message.HeroNotHero?) <==> CardType(meta) != "hero")
            && r.faction == Faction(meta)
  {
    var l := LookupCard(idx, tree, heroId);
    var meta := l.meta.value;
    var typeErr := if CardType(meta) != "hero" then [Finding(path, Error, HeroNotHero(heroId, Get(meta, "type")))] else [];
    var fc := FactionCheck(path, deckFaction, Faction(meta));
    assert HeroCheck(path, heroId, deckFaction, idx, tree) == HeroInfo(typeErr + fc, Faction(meta), l.index);
    NotHeroAmong(typeErr, fc);
  }

  /** A type ERROR followed by at most one faction ERROR holds a not-a-hero finding iff the type ERROR is there. */
  lemma NotHeroAmong(typeErr: seq<Finding>, fc: seq<Finding>)
    requires typeErr == [] || (|typeErr| == 1 && typeErr[0].message.HeroNotHero?)
    requires fc == [] || (|fc| == 1 && fc[0].message.FactionMismatch?)
    ensures (exists f :: f in typeErr + fc && f.message.HeroNotHero?) <==> typeErr != []
  {
    if typeErr != [] {
      assert (typeErr + fc)[0] == typeErr[0];
    } else {
      assert typeErr + fc == fc;
    }
  }

  // ---------- the fold over `cards` ----------

  /** What stays fixed during the fold. */
  datatype DeckCtx = DeckCtx(path: FilePath, lim: DeckLimits, heroId: Json, heroFaction: string, tree: seq<RepoFile>)

  /** The loop counters, the findings so far and the card index. */
  datatype Tally = Tally(total: int, names: Counts, rare: int, unique: int, heroSeen: int,
                         findings: seq<EntryFinding>, index: Index)

  /** The per-card faction ERROR: only when the rule is on, the hero's faction is known and the card's differs. */
  function CardFactionCheck(c: DeckCtx, i: nat, meta: Json, name: Json): (r: seq<EntryFinding>)
    ensures r == [] || r == [Finding(c.path, Error, CardFactionMismatch(i, name, Faction(meta), c.heroFaction))]
    ensures r != [] <==> c.lim.sameFactionAsHero && c.heroFaction != ""
                         && Faction(meta) != "" && Faction(meta) != c.heroFaction
  {
    if c.lim.sameFactionAsHero && c.heroFaction != "" then
      var cf := Faction(meta);
      if cf != "" && cf != c.heroFaction then
        [Finding(c.path, Error, CardFactionMismatch(i, name, cf, c.heroFaction))]
      else []
    else []
  }

  /** The token ERROR: a card whose normalised type is `token` may not be in a deck. */
  function TokenCheck(c: DeckCtx, i: nat, meta: Json, name: Json): (r: seq<EntryFinding>)
    ensures r == [] || r == [Finding(c.path, Error, TokenInDeck(i, name))]
    ensures r != [] <==> CardType(meta) == "token"
  {
    if CardType(meta) == "token" then [Finding(c.path, Error, TokenInDeck(i, name))] else []
  }

  /** The counting part of an entry: an object with a truthy `card_id` and an integer `qty`. */
  function Counted(entry: Json): (r: Option<(Json, int)>)
    ensures r.Some? <==> entry.JObj? && Truthy(Get(entry, "card_id")) && AsInt(Get(entry, "qty")).Some?
  {
    if entry.JObj? && Truthy(Get(entry, "card_id")) && AsInt(Get(entry, "qty")).Some? then
      Some((Get(entry, "card_id"), AsInt(Get(entry, "qty")).value))
    else None
  }

  /** The messages a single entry can produce. */
  predicate IsEntryMessage(m: Message) {
    m.EntryNotObject? || m.EntryInvalid? || m.CardNotFound? || m.CardFactionMismatch? || m.TokenInDeck?
  }

  /** A finding about a single entry of `cards`. */
  type EntryFinding = f: Finding | IsEntryMessage(f.message)
    witness Finding(FilePath([]), Error, EntryNotObject(0))

  /** The messages about the totals, raised after the loop. */
  predicate IsTotalsMessage(m: Message) {
    m.DeckSize? || m.TooManyCopies? || m.TooManyRare? || m.TooManyUnique? || m.HeroCopies?
  }

  /**
   * The findings entry `i` adds, given what its lookup returned: a shape
   * ERROR for a non-object, an ERROR for a falsy `card_id` or non-integer
   * `qty`, an ERROR for an unresolved card, else the faction and token checks.
   */
  function EntryFindings(c: DeckCtx, i: nat, entry: Json, meta: Option<Json>): (r: seq<EntryFinding>)
    ensures forall f :: f in r ==> f.level == Error
    ensures !entry.JObj? ==> r == [Finding(c.path, Error, EntryNotObject(i))]
    ensures entry.JObj? && Counted(entry).None? ==> r == [Finding(c.path, Error, EntryInvalid(i))]
    ensures Counted(entry).Some? && !Found(meta) ==> r == [Finding(c.path, Error, CardNotFound(i, Counted(entry).value.0))]
    ensures Counted(entry).Some? && Found(meta) ==>
              var name := NameKey(meta.value, Counted(entry).value.0);
              r == CardFactionCheck(c, i, meta.value, name) + TokenCheck(c, i, meta.value, name)
    ensures forall f :: f in r ==> f.message.entry == i
  {
    if !entry.JObj? then [Finding(c.path, Error, EntryNotObject(i))]
    else match Counted(entry)
      case None => [Finding(c.path, Error, EntryInvalid(i))]
      case Some((cid, _)) =>
        if !Found(meta) then [Finding(c.path, Error, CardNotFound(i, cid))]
        else
          var name := NameKey(meta.value, cid);
          CardFactionCheck(c, i, meta.value, name) + TokenCheck(c, i, meta.value, name)
  }

  /**
   * The loop body for entry `i`. A counted entry adds its `qty` to the total
   * before the lookup; only a resolved card moves the other counters.
   */
  function EntryStep(c: DeckCtx, t: Tally, i: nat, entry: Json): Tally {
    match Counted(entry)
    case None => t.(findings := t.findings + EntryFindings(c, i, entry, None))
    case Some((cid, qty)) =>
      var l := LookupCard(t.index, c.tree, cid);
      var findings := t.findings + EntryFindings(c, i, entry, l.meta);
      if !Found(l.meta) then t.(total := t.total + qty, findings := findings, index := l.index)
      else
        var meta := l.meta.value;
        var flags := Flags(meta);
        Tally(t.total + qty,
              Add(t.names, NameKey(meta, cid), qty),
              t.rare + (if flags.isRare then qty else 0),
              t.unique + (if flags.isUnique then qty else 0),
              t.heroSeen + (if Truthy(c.heroId) && cid == c.heroId then qty else 0),
              findings,
              l.index)
  }

  /** The loop state after the first `n` entries. */
  function Loop(c: DeckCtx, t0: Tally, cards: seq<Json>, n: nat): Tally
    requires n <= |cards|
  {
    if n == 0 then t0 else EntryStep(c, Loop(c, t0, cards, n - 1), n - 1, cards[n - 1])
  }

  // ---------- reference definitions of the counters ----------

  /** The quantity an entry adds to `total_qty`, resolved or not. */
  function Qty(entry: Json): int {
    match Counted(entry)
    case Some((_, q)) => q
    case None => 0
  }

  /** `total_qty` by definition: the quantities of all counted entries. */
  function Total(cards: seq<Json>): int {
    if |cards| == 0 then 0 else Total(cards[..|cards| - 1]) + Qty(cards[|cards| - 1])
  }

  /** The card an identifier stands for, as an uncached lookup against `base` and the tree. */
  function Card(base: Index, tree: seq<RepoFile>, cid: Json): (r: Option<Json>)
    ensures r.Some? ==> Truthy(r.value)
  {
    if !cid.JStr? then None
    else match Resolve(base, tree, cid.s)
      case Some(m) => if Truthy(m) then Some(m) else None
      case None => None
  }

  /** The counters that only resolved cards move. */
  datatype Counter = Rare | Unique | HeroCopy(heroId: Json) | Named(name: Json)

  /** Whether a copy of card `m`, listed under identifier `cid`, counts toward `w`. */
  predicate CountsToward(w: Counter, cid: Json, m: Json) {
    match w
    case Rare => Flags(m).isRare
    case Unique => Flags(m).isUnique
    case HeroCopy(h) => Truthy(h) && cid == h
    case Named(k) => NameKey(m, cid) == k
  }

  /** What an entry adds to counter `w`: its `qty` when it resolves to a card counting toward `w`. */
  function Weight(base: Index, tree: seq<RepoFile>, w: Counter, entry: Json): int {
    match Counted(entry)
    case None => 0
    case Some((cid, q)) =>
      match Card(base, tree, cid)
      case None => 0
      case Some(m) => if CountsToward(w, cid, m) then q else 0
  }

  /** Counter `w` by definition, over `cards`. */
  function Count(base: Index, tree: seq<RepoFile>, w: Counter, cards: seq<Json>): int {
    if |cards| == 0 then 0 else Count(base, tree, w, cards[..|cards| - 1]) + Weight(base, tree, w, cards[|cards| - 1])
  }

  /** The name an entry's copies are counted under, when it resolves. */
  function EntryName(base: Index, tree: seq<RepoFile>, entry: Json): Option<Json> {
    match Counted(entry)
    case None => None
    case Some((cid, _)) =>
      match Card(base, tree, cid)
      case None => None
      case Some(m) => Some(NameKey(m, cid))
  }

  /** Against a coherent index, a cached lookup finds exactly the uncached card. */
  lemma LookupCardCoherent(base: Index, tree: seq<RepoFile>, idx: Index, cid: Json)
    requires Coherent(base, tree, idx)
    ensures var l := LookupCard(idx, tree, cid);
            && Coherent(base, tree, l.index)
            && (Found(l.meta) <==> Card(base, tree, cid).Some?)
            && (Found(l.meta) ==> l.meta.value == Card(base, tree, cid).value)
  {
    if cid.JStr? {
      LookupCoherent(base, tree, idx, cid.s);
    }
  }

  /** Against a coherent index, an entry adds its `qty` under its name, when it resolves. */
  lemma EntryNameCounts(base: Index, c: DeckCtx, t: Tally, i: nat, entry: Json)
    requires Coherent(base, c.tree, t.index)
    ensures EntryStep(c, t, i, entry).names == (match EntryName(base, c.tree, entry)
                                               case Some(k) => Add(t.names, k, Qty(entry))
                                               case None => t.names)
  {
    match Counted(entry)
    case Some((cid, qty)) => LookupCardCoherent(base, c.tree, t.index, cid);
    case None =>
  }

  /** The loop's value of counter `w`. */
  function CounterOf(t: Tally, w: Counter): int {
    match w
    case Rare => t.rare
    case Unique => t.unique
    case HeroCopy(_) => t.heroSeen
    case Named(k) => CountOf(t.names, k)
  }

  /** The counters the fold keeps for deck context `c`: the hero counter is about `c`'s hero. */
  predicate Tracks(c: DeckCtx, w: Counter) {
    w.HeroCopy? ==> w.heroId == c.heroId
  }

  /** Against a coherent index, an entry adds its weight to each counter. */
  lemma EntryCount(base: Index, c: DeckCtx, t: Tally, i: nat, entry: Json, w: Counter)
    requires Coherent(base, c.tree, t.index) && Tracks(c, w)
    ensures CounterOf(EntryStep(c, t, i, entry), w) == CounterOf(t, w) + Weight(base, c.tree, w, entry)
  {
    match w
    case Named(k) =>
      EntryNameCounts(base, c, t, i, entry);
      NameStep(base, c.tree, t.names, entry, k);
    case _ =>
      match Counted(entry)
      case Some((cid, qty)) => LookupCardCoherent(base, c.tree, t.index, cid);
      case None =>
  }

  /** How one entry moves `name_counts[k]`. */
  lemma NameStep(base: Index, tree: seq<RepoFile>, names: Counts, entry: Json, k: Json)
    ensures CountOf(match EntryName(base, tree, entry)
                    case Some(n) => Add(names, n, Qty(entry))
                    case None => names, k)
            == CountOf(names, k) + Weight(base, tree, Named(k), entry)
  {
    match EntryName(base, tree, entry)
    case Some(n) => AddCounts(names, n, Qty(entry), k);
    case None =>
  }

  /** The index after an entry's lookup, if it has one. */
  function StepIndex(tree: seq<RepoFile>, idx: Index, entry: Json): Index {
    match Counted(entry)
    case Some((cid, _)) => LookupCard(idx, tree, cid).index
    case None => idx
  }

  /** One step of the loop moves the index as the entry's lookup does. */
  lemma LoopIndexStep(c: DeckCtx, t0: Tally, cards: seq<Json>, n: nat)
    requires 0 < n <= |cards|
    ensures Loop(c, t0, cards, n).index == StepIndex(c.tree, Loop(c, t0, cards, n - 1).index, cards[n - 1])
  {
  }

  /** Against a coherent index, an entry's lookup keeps the index coherent. */
  lemma StepIndexCoherent(base: Index, tree: seq<RepoFile>, idx: Index, entry: Json)
    requires Coherent(base, tree, idx)
    ensures Coherent(base, tree, StepIndex(tree, idx, entry))
  {
    match Counted(entry)
    case Some((cid, qty)) => LookupCardCoherent(base, tree, idx, cid);
    case None =>
  }

  /**
   * A run of indexes, each the previous one after an entry's lookup, stays
   * coherent when its first index is.
   */
  lemma {:induction false} CoherentRun(base: Index, tree: seq<RepoFile>, states: seq<Index>, cards: seq<Json>, n: nat)
    requires n < |states| && n <= |cards| && Coherent(base, tree, states[0])
    requires forall k :: 0 <= k < n ==> states[k + 1] == StepIndex(tree, states[k], cards[k])
    ensures Coherent(base, tree, states[n])
  {
    if n > 0 {
      CoherentRun(base, tree, states, cards, n - 1);
      StepIndexCoherent(base, tree, states[n - 1], cards[n - 1]);
    }
  }

  /** From a coherent index the loop keeps the index coherent, whatever the lookups cache. */
  lemma LoopCoherent(base: Index, c: DeckCtx, t0: Tally, cards: seq<Json>, n: nat)
    requires n <= |cards| && Coherent(base, c.tree, t0.index)
    ensures Coherent(base, c.tree, Loop(c, t0, cards, n).index)
  {
    var states := seq(n + 1, k requires 0 <= k <= n => Loop(c, t0, cards, k).index);
    forall k | 0 <= k < n
      ensures states[k + 1] == StepIndex(c.tree, states[k], cards[k])
    {
      LoopIndexStep(c, t0, cards, k + 1);
    }
    CoherentRun(base, c.tree, states, cards, n);
  }

  /** `total_qty` sums `qty` over every counted entry, resolved or not. */
  lemma {:induction false} LoopTotal(c: DeckCtx, t0: Tally, cards: seq<Json>, n: nat)
    requires n <= |cards|
    ensures Loop(c, t0, cards, n).total == t0.total + Total(cards[..n])
  {
    if n > 0 {
      LoopTotal(c, t0, cards, n - 1);
      assert cards[..n][..n - 1] == cards[..n - 1];
    }
  }

  /** The card an entry resolves to, as the uncached lookup against `base` answers. */
  function EntryMeta(base: Index, tree: seq<RepoFile>, entry: Json): (r: Option<Json>)
    ensures r.Some? ==> Counted(entry).Some? && Truthy(r.value)
  {
    match Counted(entry)
    case Some((cid, _)) => Card(base, tree, cid)
    case None => None
  }

  /** An entry draws the token ERROR iff it is counted and resolves to a card of type `token`. */
  lemma EntryTokenIff(c: DeckCtx, i: nat, entry: Json, meta: Option<Json>)
    ensures (exists f :: f in EntryFindings(c, i, entry, meta) && f.message.TokenInDeck?)
            <==> Counted(entry).Some? && Found(meta) && CardType(meta.value) == "token"
  {
    var r := EntryFindings(c, i, entry, meta);
    if Counted(entry).Some? && Found(meta) {
      var name := NameKey(meta.value, Counted(entry).value.0);
      var fc, tc := CardFactionCheck(c, i, meta.value, name), TokenCheck(c, i, meta.value, name);
      assert r == fc + tc;
      if tc != [] {
        assert tc[0] in r;
      }
    }
  }

  /**
   * An entry draws the card-faction ERROR iff it is counted and resolves,
   * the rule is on, the hero's faction is known and the card's faction is
   * non-empty and different.
   */
  lemma EntryFactionIff(c: DeckCtx, i: nat, entry: Json, meta: Option<Json>)
    ensures (exists f :: f in EntryFindings(c, i, entry, meta) && f.message.CardFactionMismatch?)
            <==> Counted(entry).Some? && Found(meta) && c.lim.sameFactionAsHero && c.heroFaction != ""
                 && Faction(meta.value) != "" && Faction(meta.value) != c.heroFaction
  {
    var r := EntryFindings(c, i, entry, meta);
    if Counted(entry).Some? && Found(meta) {
      var name := NameKey(meta.value, Counted(entry).value.0);
      var fc, tc := CardFactionCheck(c, i, meta.value, name), TokenCheck(c, i, meta.value, name);
      assert r == fc + tc;
      if fc != [] {
        assert fc[0] in r;
      }
    }
  }

  /** What the loop body reports for entry `i` against `idx`: the entry resolved through the cached lookup. */
  function StepFindings(c: DeckCtx, idx: Index, i: nat, entry: Json): seq<EntryFinding> {
    match Counted(entry)
    case Some((cid, _)) => EntryFindings(c, i, entry, LookupCard(idx, c.tree, cid).meta)
    case None => EntryFindings(c, i, entry, None)
  }

  /** One step of the loop adds what the loop body reports against the index so far. */
  lemma LoopFindingsStep(c: DeckCtx, t0: Tally, cards: seq<Json>, n: nat)
    requires 0 < n <= |cards|
    ensures Loop(c, t0, cards, n).findings
            == Loop(c, t0, cards, n - 1).findings + StepFindings(c, Loop(c, t0, cards, n - 1).index, n - 1, cards[n - 1])
  {
  }

  /** Against a coherent index, the loop body reports what the uncached resolution gives. */
  lemma StepFindingsCoherent(base: Index, c: DeckCtx, idx: Index, i: nat, entry: Json)
    requires Coherent(base, c.tree, idx)
    ensures StepFindings(c, idx, i, entry) == EntryFindings(c, i, entry, EntryMeta(base, c.tree, entry))
  {
    match Counted(entry)
    case Some((cid, qty)) => LookupCardCoherent(base, c.tree, idx, cid);
    case None =>
  }

  /** The first `n` runs of `own`, one after the other. */
  function Concat(own: nat -> seq<EntryFinding>, n: nat): seq<EntryFinding> {
    if n == 0 then [] else Concat(own, n - 1) + own(n - 1)
  }

  /** A list that grows by one run of `own` at each step ends with its start followed by the runs. */
  lemma {:induction false} ConcatRun(own: nat -> seq<EntryFinding>, fs: seq<seq<EntryFinding>>, n: nat)
    requires n < |fs|
    requires forall k :: 0 <= k < n ==> fs[k + 1] == fs[k] + own(k)
    ensures fs[n] == fs[0] + Concat(own, n)
  {
    if n == 0 {
      assert fs[0] + [] == fs[0];
    } else {
      ConcatRun(own, fs, n - 1);
      AppendAssoc(fs[0], Concat(own, n - 1), own(n - 1));
    }
  }

  /**
   * When each run speaks only of its own entry, a finding is among the first
   * `n` runs iff its entry is one of them and that entry's run has it.
   */
  lemma {:induction false} ConcatIff(own: nat -> seq<EntryFinding>, n: nat, f: EntryFinding)
    requires forall k: nat, g: EntryFinding :: g in own(k) ==> g.message.entry == k
    ensures f in Concat(own, n) <==> f.message.entry < n && f in own(f.message.entry)
  {
    if n > 0 {
      ConcatIff(own, n - 1, f);
    }
  }

  /** Entry `i`'s own checks against the uncached resolution; nothing past the last entry. */
  function Own(base: Index, c: DeckCtx, cards: seq<Json>): nat -> seq<EntryFinding> {
    (i: nat) => if i < |cards| then EntryFindings(c, i, cards[i], EntryMeta(base, c.tree, cards[i])) else []
  }

  /** The entry findings by definition: each of the first `n` entries' own checks, in entry order. */
  function EntriesFindings(base: Index, c: DeckCtx, cards: seq<Json>, n: nat): seq<EntryFinding> {
    Concat(Own(base, c, cards), n)
  }

  /**
   * A run of indexes and finding lists that the loop body moves from a
   * coherent index adds exactly the reference entry findings.
   */
  lemma CoherentFindingsRun(base: Index, c: DeckCtx, idxs: seq<Index>, fs: seq<seq<EntryFinding>>,
                            cards: seq<Json>, n: nat)
    requires n < |idxs| && n < |fs| && n <= |cards| && Coherent(base, c.tree, idxs[0])
    requires forall k :: 0 <= k < n ==> idxs[k + 1] == StepIndex(c.tree, idxs[k], cards[k])
    requires forall k :: 0 <= k < n ==> fs[k + 1] == fs[k] + StepFindings(c, idxs[k], k, cards[k])
    ensures fs[n] == fs[0] + EntriesFindings(base, c, cards, n)
  {
    forall k | 0 <= k < n
      ensures fs[k + 1] == fs[k] + Own(base, c, cards)(k)
    {
      CoherentRun(base, c.tree, idxs, cards, k);
      StepFindingsCoherent(base, c, idxs[k], k, cards[k]);
    }
    ConcatRun(Own(base, c, cards), fs, n);
  }

  /** From a coherent starting index, the loop adds exactly the reference entry findings. */
  lemma LoopFindings(base: Index, c: DeckCtx, t0: Tally, cards: seq<Json>, n: nat)
    requires n <= |cards| && Coherent(base, c.tree, t0.index)
    ensures Loop(c, t0, cards, n).findings == t0.findings + EntriesFindings(base, c, cards, n)
  {
    var idxs := seq(n + 1, k requires 0 <= k <= n => Loop(c, t0, cards, k).index);
    var fs := seq(n + 1, k requires 0 <= k <= n => Loop(c, t0, cards, k).findings);
    forall k | 0 <= k < n
      ensures idxs[k + 1] == StepIndex(c.tree, idxs[k], cards[k])
      ensures fs[k + 1] == fs[k] + StepFindings(c, idxs[k], k, cards[k])
    {
      LoopIndexStep(c, t0, cards, k + 1);
      LoopFindingsStep(c, t0, cards, k + 1);
    }
    CoherentFindingsRun(base, c, idxs, fs, cards, n);
  }

  /**
   * A finding about entry `e` is among the reference entry findings iff `e`
   * is among the first `n` entries and its own checks report it.
   */
  lemma EntriesFindingsIff(base: Index, c: DeckCtx, cards: seq<Json>, n: nat, f: EntryFinding)
    requires n <= |cards|
    ensures f in EntriesFindings(base, c, cards, n) <==>
              f.message.entry < n
              && f in EntryFindings(c, f.message.entry, cards[f.message.entry],
                                    EntryMeta(base, c.tree, cards[f.message.entry]))
  {
    ConcatIff(Own(base, c, cards), n, f);
  }

  /**
   * The fold computes the reference counters: from a coherent index, each
   * counter (rare, unique, hero copies, copies per name) grows by its
   * reference count over the entries seen, whatever the lookups cache.
   */
  lemma {:induction false} LoopCount(base: Index, c: DeckCtx, t0: Tally, cards: seq<Json>, n: nat, w: Counter)
    requires n <= |cards| && Coherent(base, c.tree, t0.index) && Tracks(c, w)
    ensures CounterOf(Loop(c, t0, cards, n), w) == CounterOf(t0, w) + Count(base, c.tree, w, cards[..n])
  {
    if n > 0 {
      var prev := Loop(c, t0, cards, n - 1);
      LoopCount(base, c, t0, cards, n - 1, w);
      LoopCoherent(base, c, t0, cards, n - 1);
      EntryCount(base, c, prev, n - 1, cards[n - 1], w);
      assert Loop(c, t0, cards, n) == EntryStep(c, prev, n - 1, cards[n - 1]);
      assert cards[..n][..n - 1] == cards[..n - 1];
      assert Count(base, c.tree, w, cards[..n]) == Count(base, c.tree, w, cards[..n - 1]) + Weight(base, c.tree, w, cards[n - 1]);
    }
  }

  /** The names of the resolved entries of `cards`. */
  function NamesSeen(base: Index, tree: seq<RepoFile>, cards: seq<Json>): set<Json> {
    if |cards| == 0 then {}
    else NamesSeen(base, tree, cards[..|cards| - 1]) + EntryNames(base, tree, cards[|cards| - 1])
  }

  /** A name is seen iff some entry resolves to a card counted under it. */
  lemma {:induction false} NamesSeenIff(base: Index, tree: seq<RepoFile>, cards: seq<Json>, k: Json)
    ensures k in NamesSeen(base, tree, cards) <==> exists j :: 0 <= j < |cards| && EntryName(base, tree, cards[j]) == Some(k)
  {
    if |cards| > 0 {
      var front, last := cards[..|cards| - 1], cards[|cards| - 1];
      NamesSeenIff(base, tree, front, k);
      assert NamesSeen(base, tree, cards) == NamesSeen(base, tree, front) + EntryNames(base, tree, last);
      assert k in EntryNames(base, tree, last) <==> EntryName(base, tree, last) == Some(k);
      if k in NamesSeen(base, tree, front) {
        var j :| 0 <= j < |front| && EntryName(base, tree, front[j]) == Some(k);
        assert cards[j] == front[j];
      } else if EntryName(base, tree, last) == Some(k) {
        assert cards[|cards| - 1] == last;
      } else {
        forall j | 0 <= j < |cards| ensures EntryName(base, tree, cards[j]) != Some(k) {
          if j < |cards| - 1 {
            assert cards[j] == front[j];
          }
        }
      }
    }
  }

  /** The names one entry contributes. */
  function EntryNames(base: Index, tree: seq<RepoFile>, entry: Json): set<Json> {
    match EntryName(base, tree, entry)
    case Some(k) => {k}
    case None => {}
  }

  /** How one entry moves the listed names: it adds its own name, keeping them distinct. */
  lemma NamesStep(base: Index, c: DeckCtx, t: Tally, i: nat, entry: Json)
    requires Coherent(base, c.tree, t.index) && Distinct(t.names)
    ensures Distinct(EntryStep(c, t, i, entry).names)
    ensures Names(EntryStep(c, t, i, entry).names) == Names(t.names) + EntryNames(base, c.tree, entry)
  {
    EntryNameCounts(base, c, t, i, entry);
    match EntryName(base, c.tree, entry)
    case Some(name) =>
      AddDistinct(t.names, name, Qty(entry));
      AddNames(t.names, name, Qty(entry));
    case None =>
  }

  /**
   * `name_counts` lists each name once, and exactly the names of the
   * resolved entries seen (beyond those it started with).
   */
  lemma {:induction false} LoopNames(base: Index, c: DeckCtx, t0: Tally, cards: seq<Json>, n: nat)
    requires n <= |cards| && Coherent(base, c.tree, t0.index) && Distinct(t0.names)
    ensures Distinct(Loop(c, t0, cards, n).names)
    ensures Names(Loop(c, t0, cards, n).names) == Names(t0.names) + NamesSeen(base, c.tree, cards[..n])
  {
    if n > 0 {
      LoopNames(base, c, t0, cards, n - 1);
      LoopCoherent(base, c, t0, cards, n - 1);
      NamesStep(base, c, Loop(c, t0, cards, n - 1), n - 1, cards[n - 1]);
      NamesSeenLast(base, c.tree, cards, n);
    }
  }

  lemma NamesSeenLast(base: Index, tree: seq<RepoFile>, cards: seq<Json>, n: nat)
    requires 0 < n <= |cards|
    ensures NamesSeen(base, tree, cards[..n]) == NamesSeen(base, tree, cards[..n - 1]) + EntryNames(base, tree, cards[n - 1])
  {
    assert cards[..n][..n - 1] == cards[..n - 1];
  }

  // ---------- totals ----------

  /** One ERROR per listed name whose count exceeds `max`, in insertion order. */
  function CopyErrors(path: FilePath, max: int, names: Counts): (r: seq<Finding>)
    ensures forall f :: f in r ==> f.level == Error && f.message.TooManyCopies? && f.message.max == max
  {
    if |names| == 0 then []
    else
      (if names[0].1 > max then [Finding(path, Error, TooManyCopies(max, names[0].0, names[0].1))] else [])
      + CopyErrors(path, max, names[1..])
  }

  /**
   * With distinct names, there is a copy ERROR naming `k` iff `k` is listed
   * with a count above `max`, and it reports that count.
   */
  lemma {:induction false} CopyErrorsIff(path: FilePath, max: int, names: Counts, k: Json, n: int)
    requires Distinct(names)
    ensures Finding(path, Error, TooManyCopies(max, k, n)) in CopyErrors(path, max, names)
            <==> k in Names(names) && n == CountOf(names, k) && n > max
  {
    if |names| > 0 {
      CopyErrorsIff(path, max, names[1..], k, n);
      if names[0].0 == k {
        NotListedCount(names[1..], k);
      }
    }
  }

  /** An unlisted name has count 0 and no copy ERROR mentions it. */
  lemma {:induction false} NotListedCount(names: Counts, k: Json)
    requires k !in Names(names)
    ensures CountOf(names, k) == 0
    ensures forall path, max, n :: Finding(path, Error, TooManyCopies(max, k, n)) !in CopyErrors(path, max, names)
  {
    if |names| > 0 {
      NotListedCount(names[1..], k);
    }
  }

  /** The checks on the totals, in source order. */
  function TotalsFindings(path: FilePath, lim: DeckLimits, t: Tally): (r: seq<Finding>)
    ensures forall f :: f in r ==> f.level == Error && IsTotalsMessage(f.message)
  {
    (if t.total < lim.minCards || t.total > lim.maxCards
     then [Finding(path, Error, DeckSize(t.total, lim.minCards, lim.maxCards))] else [])
    + CopyErrors(path, lim.maxSame, t.names)
    + (if t.rare > lim.maxRare then [Finding(path, Error, TooManyRare(t.rare, lim.maxRare))] else [])
    + (if t.unique > lim.maxUnique then [Finding(path, Error, TooManyUnique(t.unique, lim.maxUnique))] else [])
    + (if lim.uniqueHero && t.heroSeen != 1 then [Finding(path, Error, HeroCopies(t.heroSeen))] else [])
  }

  // ---------- the whole file ----------

  /** `deck_faction`, upper-cased. */
  function DeckFaction(data: Json): string { Faction(data) }

  /** `cards = data.get("cards") or []`. */
  function CardsValue(data: Json): Json { Or(Get(data, "cards"), JArr([])) }

  /** The required-field ERRORs of a deck object. */
  function DeckFieldErrors(path: FilePath, rule: FileRule, data: Json): (r: seq<Finding>)
    ensures forall f :: f in r ==> f.level == Error && f.message.DeckMissingField?
  {
    var missing := MissingFields(rule.requiredFields, data);
    seq(|missing|, k requires 0 <= k < |missing| => Finding(path, Error, DeckMissingField(missing[k])))
  }

  /** The hero check of a deck object. */
  function DeckHero(path: FilePath, data: Json, idx: Index, tree: seq<RepoFile>): HeroInfo {
    HeroCheck(path, Get(data, "hero_id"), DeckFaction(data), idx, tree)
  }

  /** The fold's starting state: zero counters, no entry findings, the index after the hero lookup. */
  function Start(path: FilePath, data: Json, idx: Index, tree: seq<RepoFile>): Tally {
    Tally(0, [], 0, 0, 0, [], DeckHero(path, data, idx, tree).index)
  }

  function Ctx(path: FilePath, rule: FileRule, data: Json, idx: Index, tree: seq<RepoFile>): DeckCtx {
    DeckCtx(path, Limits(rule), Get(data, "hero_id"), DeckHero(path, data, idx, tree).faction, tree)
  }

  /** The counters after the whole `cards` list. */
  function DeckTally(path: FilePath, rule: FileRule, data: Json, idx: Index, tree: seq<RepoFile>): Tally
    requires CardsValue(data).JArr?
  {
    var cards := CardsValue(data).items;
    Loop(Ctx(path, rule, data, idx, tree), Start(path, data, idx, tree), cards, |cards|)
  }

  /**
   * The findings of a deck that passed the structural gates, in the order the
   * check reports them, and the index after it; every index it leaves holds
   * only what the uncached resolution would answer.
   */
  function CheckedDeck(path: FilePath, rule: FileRule, data: Json, idx: Index, tree: seq<RepoFile>): (r: Step)
    requires CardsValue(data).JArr?
    ensures Coherent(idx, tree, r.index)
  {
    var cards := CardsValue(data).items;
    var t := DeckTally(path, rule, data, idx, tree);
    StartCoherent(path, data, idx, tree);
    LoopCoherent(idx, Ctx(path, rule, data, idx, tree), Start(path, data, idx, tree), cards, |cards|);
    Step(DeckFieldErrors(path, rule, data) + DeckHero(path, data, idx, tree).findings
         + t.findings + TotalsFindings(path, Limits(rule), t), t.index)
  }

  /** A deck past the structural gates: a loaded object whose `cards` is a list. */
  predicate IsListDeck(data: Json) {
    !IsLoadError(data) && data.JObj? && CardsValue(data).JArr?
  }

  /** `validate_deck_file` on one file: its findings and the index after it. */
  function ValidateDeckFile(path: FilePath, src: Source, rule: FileRule,
                            idx: Index, tree: seq<RepoFile>): (r: Step)
    ensures IsLoadError(LoadJson(src)) ==>
              r == Step([Finding(path, Error, LoadFailed(Get(LoadJson(src), "__load_error__")))], idx)
    ensures !LoadJson(src).JObj? ==> r == Step([Finding(path, Error, DeckNotObject)], idx)
    ensures !IsLoadError(LoadJson(src)) && LoadJson(src).JObj? && !CardsValue(LoadJson(src)).JArr? ==>
              r == Step(DeckFieldErrors(path, rule, LoadJson(src)) + [Finding(path, Error, CardsNotList)], idx)
    ensures IsListDeck(LoadJson(src)) ==> r == CheckedDeck(path, rule, LoadJson(src), idx, tree)
    ensures Coherent(idx, tree, r.index)
  {
    var data := LoadJson(src);
    if IsLoadError(data) then
      Step([Finding(path, Error, LoadFailed(Get(data, "__load_error__")))], idx)
    else if !data.JObj? then
      Step([Finding(path, Error, DeckNotObject)], idx)
    else if !CardsValue(data).JArr? then
      Step(DeckFieldErrors(path, rule, data) + [Finding(path, Error, CardsNotList)], idx)
    else
      CheckedDeck(path, rule, data, idx, tree)
  }

  // ---------- what a checked deck reports ----------

  /** A deck that is missing a required field gets exactly one ERROR naming it. */
  lemma DeckFieldErrorsIff(path: FilePath, rule: FileRule, data: Json, name: string)
    ensures Finding(path, Error, DeckMissingField(name)) in DeckFieldErrors(path, rule, data)
            <==> name in rule.requiredFields && !Has(data, name)
  {
    var missing := MissingFields(rule.requiredFields, data);
    var r := DeckFieldErrors(path, rule, data);
    assert multiset(missing)[name] > 0 <==> name in missing;
    assert multiset(rule.requiredFields)[name] > 0 <==> name in rule.requiredFields;
    if name in missing {
      var k :| 0 <= k < |missing| && missing[k] == name;
      assert r[k] == Finding(path, Error, DeckMissingField(name));
    }
  }

  /** The index the fold starts from extends the deck's index coherently. */
  lemma StartCoherent(path: FilePath, data: Json, idx: Index, tree: seq<RepoFile>)
    ensures Coherent(idx, tree, Start(path, data, idx, tree).index)
  {
    if Truthy(Get(data, "hero_id")) {
      LookupCardCoherent(idx, tree, idx, Get(data, "hero_id"));
    }
  }

  /**
   * After the whole `cards` list the counters are the reference counts,
   * resolved against the index the deck check started from.
   */
  lemma DeckCounters(path: FilePath, rule: FileRule, data: Json, idx: Index, tree: seq<RepoFile>, w: Counter)
    requires CardsValue(data).JArr?
    requires w.HeroCopy? ==> w.heroId == Get(data, "hero_id")
    ensures DeckTally(path, rule, data, idx, tree).total == Total(CardsValue(data).items)
    ensures CounterOf(DeckTally(path, rule, data, idx, tree), w) == Count(idx, tree, w, CardsValue(data).items)
  {
    var cards := CardsValue(data).items;
    var c, t0 := Ctx(path, rule, data, idx, tree), Start(path, data, idx, tree);
    StartCoherent(path, data, idx, tree);
    LoopTotal(c, t0, cards, |cards|);
    LoopCount(idx, c, t0, cards, |cards|, w);
    assert cards[..|cards|] == cards;
  }

  /** After the whole list, `name_counts` lists each name once: exactly the names the entries resolve to. */
  lemma DeckNames(path: FilePath, rule: FileRule, data: Json, idx: Index, tree: seq<RepoFile>)
    requires CardsValue(data).JArr?
    ensures Distinct(DeckTally(path, rule, data, idx, tree).names)
    ensures Names(DeckTally(path, rule, data, idx, tree).names) == NamesSeen(idx, tree, CardsValue(data).items)
  {
    var cards := CardsValue(data).items;
    StartCoherent(path, data, idx, tree);
    LoopNames(idx, Ctx(path, rule, data, idx, tree), Start(path, data, idx, tree), cards, |cards|);
    assert cards[..|cards|] == cards;
  }

  /** No finding of the field, hero or entry checks carries a totals message. */
  lemma NoTotalsBefore(path: FilePath, rule: FileRule, data: Json, idx: Index, tree: seq<RepoFile>, f: Finding)
    requires CardsValue(data).JArr?
    requires f in DeckFieldErrors(path, rule, data) + DeckHero(path, data, idx, tree).findings
                  + DeckTally(path, rule, data, idx, tree).findings
    ensures !IsTotalsMessage(f.message)
  {
    var h := DeckHero(path, data, idx, tree);
    assert h == HeroCheck(path, Get(data, "hero_id"), DeckFaction(data), idx, tree);
    NoTotalsAmong(DeckFieldErrors(path, rule, data), h.findings, DeckTally(path, rule, data, idx, tree).findings, f);
  }

  /** Field, hero and entry findings never carry a totals message. */
  lemma NoTotalsAmong(a: seq<Finding>, h: seq<Finding>, e: seq<EntryFinding>, f: Finding)
    requires forall g :: g in a ==> g.message.DeckMissingField?
    requires forall g :: g in h ==> IsHeroMessage(g.message)
    requires f in a + h + e
    ensures !IsTotalsMessage(f.message)
  {
    if f in e {
      assert IsEntryMessage(f.message);
    }
  }

  /** A totals message among a checked deck's findings comes from the totals checks, and all of those are reported. */
  lemma TotalsPart(path: FilePath, rule: FileRule, data: Json, idx: Index, tree: seq<RepoFile>, f: Finding)
    requires CardsValue(data).JArr?
    ensures f in CheckedDeck(path, rule, data, idx, tree).findings && IsTotalsMessage(f.message)
            <==> f in TotalsFindings(path, Limits(rule), DeckTally(path, rule, data, idx, tree))
  {
    var t := DeckTally(path, rule, data, idx, tree);
    var before := DeckFieldErrors(path, rule, data) + DeckHero(path, data, idx, tree).findings + t.findings;
    assert CheckedDeck(path, rule, data, idx, tree).findings == before + TotalsFindings(path, Limits(rule), t);
    if f in before {
      NoTotalsBefore(path, rule, data, idx, tree, f);
    }
  }

  /** The four limit checks over the whole deck. */
  datatype Breach = SizeBreach | RareBreach | UniqueBreach | HeroBreach

  /** The message a limit check reports with. */
  predicate Reports(m: Message, b: Breach) {
    match b
    case SizeBreach => m.DeckSize?
    case RareBreach => m.TooManyRare?
    case UniqueBreach => m.TooManyUnique?
    case HeroBreach => m.HeroCopies?
  }

  /** When each limit check fires, in terms of the counters. */
  predicate Breached(lim: DeckLimits, t: Tally, b: Breach) {
    match b
    case SizeBreach => t.total < lim.minCards || t.total > lim.maxCards
    case RareBreach => t.rare > lim.maxRare
    case UniqueBreach => t.unique > lim.maxUnique
    case HeroBreach => lim.uniqueHero && t.heroSeen != 1
  }

  /** The totals checks report a limit's message iff that limit is breached. */
  lemma TotalsBreach(path: FilePath, lim: DeckLimits, t: Tally, b: Breach)
    ensures (exists f :: f in TotalsFindings(path, lim, t) && Reports(f.message, b)) <==> Breached(lim, t, b)
  {
    var r := TotalsFindings(path, lim, t);
    var f := match b
      case SizeBreach => Finding(path, Error, DeckSize(t.total, lim.minCards, lim.maxCards))
      case RareBreach => Finding(path, Error, TooManyRare(t.rare, lim.maxRare))
      case UniqueBreach => Finding(path, Error, TooManyUnique(t.unique, lim.maxUnique))
      case HeroBreach => Finding(path, Error, HeroCopies(t.heroSeen));
    if Breached(lim, t, b) {
      assert f in r;
    }
  }

  /** A checked deck reports a limit's message iff the totals checks do. */
  lemma DeckBreach(path: FilePath, rule: FileRule, data: Json, idx: Index, tree: seq<RepoFile>, b: Breach)
    requires CardsValue(data).JArr?
    ensures var t := DeckTally(path, rule, data, idx, tree);
            (exists f :: f in CheckedDeck(path, rule, data, idx, tree).findings && Reports(f.message, b))
            <==> Breached(Limits(rule), t, b)
  {
    var t := DeckTally(path, rule, data, idx, tree);
    TotalsBreach(path, Limits(rule), t, b);
    forall f: Finding | Reports(f.message, b)
      ensures f in CheckedDeck(path, rule, data, idx, tree).findings <==> f in TotalsFindings(path, Limits(rule), t)
    {
      TotalsPart(path, rule, data, idx, tree, f);
    }
  }

  /** A size ERROR is reported iff the summed `qty` lies outside `[min_cards, max_cards]`. */
  lemma DeckSizeIff(path: FilePath, rule: FileRule, data: Json, idx: Index, tree: seq<RepoFile>)
    requires CardsValue(data).JArr?
    ensures var total, lim := Total(CardsValue(data).items), Limits(rule);
            (exists f :: f in CheckedDeck(path, rule, data, idx, tree).findings && f.message.DeckSize?)
            <==> total < lim.minCards || total > lim.maxCards
  {
    var t := DeckTally(path, rule, data, idx, tree);
    DeckCounters(path, rule, data, idx, tree, Rare);
    DeckBreach(path, rule, data, idx, tree, SizeBreach);
    var fs := CheckedDeck(path, rule, data, idx, tree).findings;
    if f :| f in fs && f.message.DeckSize? {
      assert Reports(f.message, SizeBreach);
    }
    if Breached(Limits(rule), t, SizeBreach) {
      var f :| f in fs && Reports(f.message, SizeBreach);
      assert f.message.DeckSize?;
    }
  }

  /** The fold of a checked deck reports exactly the reference entry findings, resolved against the deck's index. */
  lemma DeckEntryFindings(path: FilePath, rule: FileRule, data: Json, idx: Index, tree: seq<RepoFile>)
    requires CardsValue(data).JArr?
    ensures var cards := CardsValue(data).items;
            DeckTally(path, rule, data, idx, tree).findings
            == EntriesFindings(idx, Ctx(path, rule, data, idx, tree), cards, |cards|)
  {
    var cards := CardsValue(data).items;
    var c, t0 := Ctx(path, rule, data, idx, tree), Start(path, data, idx, tree);
    StartCoherent(path, data, idx, tree);
    LoopFindings(idx, c, t0, cards, |cards|);
    assert t0.findings == [];
  }

  /** Entry messages are neither field, hero nor totals messages. */
  lemma EntryAmong(a: seq<Finding>, h: seq<Finding>, e: seq<EntryFinding>, z: seq<Finding>, f: EntryFinding)
    requires forall g :: g in a ==> g.message.DeckMissingField?
    requires forall g :: g in h ==> IsHeroMessage(g.message)
    requires forall g :: g in z ==> IsTotalsMessage(g.message)
    ensures f in a + h + e + z <==> f in e
  {
  }

  /**
   * An entry finding is among a checked deck's findings iff its entry is in
   * `cards` and that entry's own checks, against the deck's index, report it.
   */
  lemma DeckEntryIff(path: FilePath, rule: FileRule, data: Json, idx: Index, tree: seq<RepoFile>, f: EntryFinding)
    requires CardsValue(data).JArr?
    ensures var cards := CardsValue(data).items;
            f in CheckedDeck(path, rule, data, idx, tree).findings <==>
              f.message.entry < |cards|
              && f in EntryFindings(Ctx(path, rule, data, idx, tree), f.message.entry, cards[f.message.entry],
                                    EntryMeta(idx, tree, cards[f.message.entry]))
  {
    var cards := CardsValue(data).items;
    var t := DeckTally(path, rule, data, idx, tree);
    var h := DeckHero(path, data, idx, tree);
    assert h == HeroCheck(path, Get(data, "hero_id"), DeckFaction(data), idx, tree);
    EntryAmong(DeckFieldErrors(path, rule, data), h.findings, t.findings, TotalsFindings(path, Limits(rule), t), f);
    DeckEntryFindings(path, rule, data, idx, tree);
    EntriesFindingsIff(idx, Ctx(path, rule, data, idx, tree), cards, |cards|, f);
  }

  /**
   * A token ERROR is reported for entry `i` iff that entry is counted and
   * resolves, against the deck's index, to a card whose type is `token`.
   */
  lemma TokenIff(path: FilePath, rule: FileRule, data: Json, idx: Index, tree: seq<RepoFile>, i: nat)
    requires CardsValue(data).JArr?
    ensures var cards := CardsValue(data).items;
            (exists f :: f in CheckedDeck(path, rule, data, idx, tree).findings
                         && f.message.TokenInDeck? && f.message.entry == i)
            <==> i < |cards| && EntryMeta(idx, tree, cards[i]).Some?
                 && CardType(EntryMeta(idx, tree, cards[i]).value) == "token"
  {
    var cards := CardsValue(data).items;
    var c := Ctx(path, rule, data, idx, tree);
    var fs := CheckedDeck(path, rule, data, idx, tree).findings;
    if f :| f in fs && f.message.TokenInDeck? && f.message.entry == i {
      var g: EntryFinding := f;
      DeckEntryIff(path, rule, data, idx, tree, g);
      EntryTokenIff(c, i, cards[i], EntryMeta(idx, tree, cards[i]));
    }
    if i < |cards| && EntryMeta(idx, tree, cards[i]).Some?
       && CardType(EntryMeta(idx, tree, cards[i]).value) == "token" {
      var m := EntryMeta(idx, tree, cards[i]);
      EntryTokenIff(c, i, cards[i], m);
      var g :| g in EntryFindings(c, i, cards[i], m) && g.message.TokenInDeck?;
      DeckEntryIff(path, rule, data, idx, tree, g);
    }
  }

  /**
   * A card-faction ERROR is reported for entry `i` iff the rule is on, the
   * hero's faction is known, and that entry is counted and resolves to a
   * card whose faction is non-empty and different from the hero's.
   */
  lemma CardFactionIff(path: FilePath, rule: FileRule, data: Json, idx: Index, tree: seq<RepoFile>, i: nat)
    requires CardsValue(data).JArr?
    ensures var cards, hf := CardsValue(data).items, DeckHero(path, data, idx, tree).faction;
            (exists f :: f in CheckedDeck(path, rule, data, idx, tree).findings
                         && f.message.CardFactionMismatch? && f.message.entry == i)
            <==> Limits(rule).sameFactionAsHero && hf != ""
                 && i < |cards| && EntryMeta(idx, tree, cards[i]).Some?
                 && Faction(EntryMeta(idx, tree, cards[i]).value) != ""
                 && Faction(EntryMeta(idx, tree, cards[i]).value) != hf
  {
    var cards := CardsValue(data).items;
    var c := Ctx(path, rule, data, idx, tree);
    var fs := CheckedDeck(path, rule, data, idx, tree).findings;
    if f :| f in fs && f.message.CardFactionMismatch? && f.message.entry == i {
      var g: EntryFinding := f;
      DeckEntryIff(path, rule, data, idx, tree, g);
      EntryFactionIff(c, i, cards[i], EntryMeta(idx, tree, cards[i]));
    }
    if Limits(rule).sameFactionAsHero && DeckHero(path, data, idx, tree).faction != ""
       && i < |cards| && EntryMeta(idx, tree, cards[i]).Some?
       && Faction(EntryMeta(idx, tree, cards[i]).value) != ""
       && Faction(EntryMeta(idx, tree, cards[i]).value) != DeckHero(path, data, idx, tree).faction {
      var m := EntryMeta(idx, tree, cards[i]);
      EntryFactionIff(c, i, cards[i], m);
      var g :| g in EntryFindings(c, i, cards[i], m) && g.message.CardFactionMismatch?;
      DeckEntryIff(path, rule, data, idx, tree, g);
    }
  }

  /** A rarity ERROR is reported iff more copies than `max_rare` resolve to cards with rarity R. */
  lemma RareIff(path: FilePath, rule: FileRule, data: Json, idx: Index, tree: seq<RepoFile>)
    requires CardsValue(data).JArr?
    ensures (exists f :: f in CheckedDeck(path, rule, data, idx, tree).findings && f.message.TooManyRare?)
            <==> Count(idx, tree, Rare, CardsValue(data).items) > Limits(rule).maxRare
  {
    var t := DeckTally(path, rule, data, idx, tree);
    DeckCounters(path, rule, data, idx, tree, Rare);
    assert t.rare == Count(idx, tree, Rare, CardsValue(data).items);
    DeckBreach(path, rule, data, idx, tree, RareBreach);
    var fs := CheckedDeck(path, rule, data, idx, tree).findings;
    if f :| f in fs && f.message.TooManyRare? {
      assert Reports(f.message, RareBreach);
    }
    if Breached(Limits(rule), t, RareBreach) {
      var f :| f in fs && Reports(f.message, RareBreach);
      assert f.message.TooManyRare?;
    }
  }

  /** A uniques ERROR is reported iff more copies than `max_unique` resolve to unique cards. */
  lemma UniqueIff(path: FilePath, rule: FileRule, data: Json, idx: Index, tree: seq<RepoFile>)
    requires CardsValue(data).JArr?
    ensures (exists f :: f in CheckedDeck(path, rule, data, idx, tree).findings && f.message.TooManyUnique?)
            <==> Count(idx, tree, Unique, CardsValue(data).items) > Limits(rule).maxUnique
  {
    var t := DeckTally(path, rule, data, idx, tree);
    DeckCounters(path, rule, data, idx, tree, Unique);
    assert t.unique == Count(idx, tree, Unique, CardsValue(data).items);
    DeckBreach(path, rule, data, idx, tree, UniqueBreach);
    var fs := CheckedDeck(path, rule, data, idx, tree).findings;
    if f :| f in fs && f.message.TooManyUnique? {
      assert Reports(f.message, UniqueBreach);
    }
    if Breached(Limits(rule), t, UniqueBreach) {
      var f :| f in fs && Reports(f.message, UniqueBreach);
      assert f.message.TooManyUnique?;
    }
  }

  /**
   * With `unique_hero` on, a hero-copies ERROR is reported iff the found
   * entries naming the deck's hero do not add up to exactly one copy.
   */
  lemma HeroCopiesIff(path: FilePath, rule: FileRule, data: Json, idx: Index, tree: seq<RepoFile>)
    requires CardsValue(data).JArr?
    ensures var heroCopies := Count(idx, tree, HeroCopy(Get(data, "hero_id")), CardsValue(data).items);
            (exists f :: f in CheckedDeck(path, rule, data, idx, tree).findings && f.message.HeroCopies?)
            <==> Limits(rule).uniqueHero && heroCopies != 1
  {
    var t := DeckTally(path, rule, data, idx, tree);
    DeckCounters(path, rule, data, idx, tree, HeroCopy(Get(data, "hero_id")));
    assert t.heroSeen == Count(idx, tree, HeroCopy(Get(data, "hero_id")), CardsValue(data).items);
    DeckBreach(path, rule, data, idx, tree, HeroBreach);
    var fs := CheckedDeck(path, rule, data, idx, tree).findings;
    if f :| f in fs && f.message.HeroCopies? {
      assert Reports(f.message, HeroBreach);
    }
    if Breached(Limits(rule), t, HeroBreach) {
      var f :| f in fs && Reports(f.message, HeroBreach);
      assert f.message.HeroCopies?;
    }
  }

  /**
   * A copies ERROR for name `k` with count `n` is reported iff some entry of
   * the deck resolves to a card named `k`, `n` is the number of copies of that
   * name, and `n` exceeds `max_same_name`.
   */
  lemma CopiesIff(path: FilePath, rule: FileRule, data: Json, idx: Index, tree: seq<RepoFile>, k: Json, n: int)
    requires CardsValue(data).JArr?
    ensures var cards, max := CardsValue(data).items, Limits(rule).maxSame;
            Finding(path, Error, TooManyCopies(max, k, n)) in CheckedDeck(path, rule, data, idx, tree).findings
            <==> && (exists j :: 0 <= j < |cards| && EntryName(idx, tree, cards[j]) == Some(k))
                 && n == Count(idx, tree, Named(k), cards)
                 && n > max
  {
    DeckCopies(path, rule, data, idx, tree, k, n);
    TallyCopies(path, rule, data, idx, tree, k, n);
  }

  /** The per-name check over the deck's final `name_counts` reports exactly the names over the limit. */
  lemma TallyCopies(path: FilePath, rule: FileRule, data: Json, idx: Index, tree: seq<RepoFile>, k: Json, n: int)
    requires CardsValue(data).JArr?
    ensures var cards, max := CardsValue(data).items, Limits(rule).maxSame;
            Finding(path, Error, TooManyCopies(max, k, n)) in CopyErrors(path, max, DeckTally(path, rule, data, idx, tree).names)
            <==> && (exists j :: 0 <= j < |cards| && EntryName(idx, tree, cards[j]) == Some(k))
                 && n == Count(idx, tree, Named(k), cards)
                 && n > max
  {
    var cards := CardsValue(data).items;
    var t := DeckTally(path, rule, data, idx, tree);
    DeckNames(path, rule, data, idx, tree);
    DeckCounters(path, rule, data, idx, tree, Named(k));
    NamesSeenIff(idx, tree, cards, k);
    CopiesOfNames(path, Limits(rule).maxSame, t.names, k, n, k in NamesSeen(idx, tree, cards), Count(idx, tree, Named(k), cards));
  }

  /** `CopyErrorsIff` for a listing whose membership and count of `k` are known. */
  lemma CopiesOfNames(path: FilePath, max: int, names: Counts, k: Json, n: int, seen: bool, count: int)
    requires Distinct(names) && (k in Names(names) <==> seen) && CountOf(names, k) == count
    ensures Finding(path, Error, TooManyCopies(max, k, n)) in CopyErrors(path, max, names)
            <==> seen && n == count && n > max
  {
    CopyErrorsIff(path, max, names, k, n);
  }

  /** The copies ERRORs of a checked deck are those of the per-name check over the final `name_counts`. */
  lemma DeckCopies(path: FilePath, rule: FileRule, data: Json, idx: Index, tree: seq<RepoFile>, k: Json, n: int)
    requires CardsValue(data).JArr?
    ensures var f, max := Finding(path, Error, TooManyCopies(Limits(rule).maxSame, k, n)), Limits(rule).maxSame;
            f in CheckedDeck(path, rule, data, idx, tree).findings
            <==> f in CopyErrors(path, max, DeckTally(path, rule, data, idx, tree).names)
  {
    var lim := Limits(rule);
    var f := Finding(path, Error, TooManyCopies(lim.maxSame, k, n));
    TotalsPart(path, rule, data, idx, tree, f);
    TotalsCopies(path, lim, DeckTally(path, rule, data, idx, tree), k, n);
  }

  /** The only copies ERRORs among the totals findings are those of the per-name check. */
  lemma TotalsCopies(path: FilePath, lim: DeckLimits, t: Tally, k: Json, n: int)
    ensures var f := Finding(path, Error, TooManyCopies(lim.maxSame, k, n));
            f in TotalsFindings(path, lim, t) <==> f in CopyErrors(path, lim.maxSame, t.names)
  {
  }

  /**
   * The counts a deck is judged by do not depend on which lookups ran before
   * it: against any coherent extension of `base` they are the counts against `base`.
   */
  lemma {:induction false} CountCoherent(base: Index, tree: seq<RepoFile>, idx: Index, w: Counter, cards: seq<Json>)
    requires Coherent(base, tree, idx)
    ensures Count(idx, tree, w, cards) == Count(base, tree, w, cards)
  {
    if |cards| > 0 {
      CountCoherent(base, tree, idx, w, cards[..|cards| - 1]);
      WeightCoherent(base, tree, idx, w, cards[|cards| - 1]);
    }
  }

  /** An entry weighs the same against any coherent extension of `base`. */
  lemma WeightCoherent(base: Index, tree: seq<RepoFile>, idx: Index, w: Counter, entry: Json)
    requires Coherent(base, tree, idx)
    ensures Weight(idx, tree, w, entry) == Weight(base, tree, w, entry)
  {
    if Counted(entry).Some? {
      CardCoherent(base, tree, idx, Counted(entry).value.0);
    }
  }

  /** A card identifier resolves the same against any coherent extension of `base`. */
  lemma CardCoherent(base: Index, tree: seq<RepoFile>, idx: Index, cid: Json)
    requires Coherent(base, tree, idx)
    ensures Card(idx, tree, cid) == Card(base, tree, cid)
  {
    if cid.JStr? {
      ResolveCoherent(base, tree, idx, cid.s);
    }
  }
}
