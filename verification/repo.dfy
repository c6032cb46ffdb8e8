/**
 * The whole validator run: card files first (filling the card index), then
 * collections, rules and decks, each pass over what its directory glob
 * yields and filtered by its classifier; then the summary and exit status.
 */
module Repo {
  import opened Wrappers
  import opened Json
  import opened Paths
  import opened Schema
  import opened Findings
  import opened CardIndex
  import opened Checks
  import CardFile
  import CollectionFile
  import RulesFile
  import DeckFile

  /**
   * What the four directory globs yield, each in enumeration order: JSON
   * files at any depth under CARDS, JSON files directly in COLLECTION, any
   * file directly in RULES, JSON files at any depth under DECKS.
   * The card list is also the tree the lazy card lookup scans.
   */
  datatype Tree = Tree(cards: seq<RepoFile>, collections: seq<RepoFile>,
                       rules: seq<RepoFile>, decks: seq<RepoFile>)

  /** The library calls the validators use: `re.match` on the id pattern and `json.dumps`. */
  datatype Library = Library(reMatch: (string, string) -> bool, dumps: Json -> string)

  /** The card pass: every card-shaped file validated in order, threading the index. */
  function CardPass(files: seq<RepoFile>, rule: FileRule, reMatch: (string, string) -> bool, idx: Index): (r: Step)
    ensures forall k :: k in idx ==> k in r.index && r.index[k] == idx[k]
    decreases |files|
  {
    if |files| == 0 then Step([], idx)
    else
      var prev := CardPass(files[..|files| - 1], rule, reMatch, idx);
      var f := files[|files| - 1];
      if LooksLikeCardFile(f.path) then
        var s := CardFile.ValidateCardFile(f.path, f.source, rule, reMatch, prev.index);
        Step(prev.findings + s.findings, s.index)
      else prev
  }

  /** The items the card pass indexes: those of every card-shaped file that loads, in order. */
  function CardItems(files: seq<RepoFile>): seq<Json> {
    if |files| == 0 then []
    else
      var f := files[|files| - 1];
      CardItems(files[..|files| - 1])
      + (if LooksLikeCardFile(f.path) && !IsLoadError(LoadJson(f.source)) then Items(LoadJson(f.source)) else [])
  }

  /** The card pass indexes exactly the items of its files, in order, first-seen-wins. */
  lemma {:induction false} CardPassIndex(files: seq<RepoFile>, rule: FileRule, reMatch: (string, string) -> bool, idx: Index)
    ensures CardPass(files, rule, reMatch, idx).index == CardFile.IndexItems(idx, CardItems(files))
  {
    if |files| > 0 {
      var front, f := files[..|files| - 1], files[|files| - 1];
      var prev := CardPass(front, rule, reMatch, idx);
      CardPassIndex(front, rule, reMatch, idx);
      if LooksLikeCardFile(f.path) {
        var s := CardFile.ValidateCardFile(f.path, f.source, rule, reMatch, prev.index);
        assert CardPass(files, rule, reMatch, idx).index == s.index;
        if !IsLoadError(LoadJson(f.source)) {
          assert CardItems(files) == CardItems(front) + Items(LoadJson(f.source));
          CardFile.IndexItemsAppend(idx, CardItems(front), Items(LoadJson(f.source)));
        } else {
          assert s.index == prev.index;
          assert CardItems(files) == CardItems(front) + [] == CardItems(front);
        }
      } else {
        assert CardItems(files) == CardItems(front) + [] == CardItems(front);
      }
    }
  }

  /**
   * After the card pass, the index holds exactly the non-empty identifiers of
   * the indexed items, and each new one holds the first item carrying it.
   */
  lemma CardPassContents(files: seq<RepoFile>, rule: FileRule, reMatch: (string, string) -> bool, k: string)
    ensures var r := CardPass(files, rule, reMatch, map[]).index;
            var items := CardItems(files);
            && r.Keys == CardFile.Ids(items)
            && (k in r ==> exists j :: 0 <= j < |items| && CardFile.CardId(items[j]) == k && r[k] == items[j]
                                       && forall i :: 0 <= i < j ==> CardFile.CardId(items[i]) != k)
  {
    CardPassIndex(files, rule, reMatch, map[]);
    CardFile.IndexItemsKeys(map[], CardItems(files));
    if k in CardPass(files, rule, reMatch, map[]).index {
      CardFile.IndexItemsFirst(map[], CardItems(files), k);
    }
  }

  /** The collection pass. */
  function CollectionPass(files: seq<RepoFile>, rule: FileRule): (r: seq<Finding>)
    ensures forall f :: f in r ==> exists j :: 0 <= j < |files| && LooksLikeCollectionFile(files[j].path)
                                              && f.path == files[j].path
  {
    if |files| == 0 then []
    else
      var prev := CollectionPass(files[..|files| - 1], rule);
      var f := files[|files| - 1];
      assert forall j :: 0 <= j < |files| - 1 ==> files[..|files| - 1][j] == files[j];
      if LooksLikeCollectionFile(f.path) then prev + CollectionFile.ValidateCollectionFile(f.path, f.source, rule)
      else prev
  }

  /** The rules pass. */
  function RulesPass(files: seq<RepoFile>, rule: FileRule, dumps: Json -> string): (r: seq<Finding>)
    ensures forall f :: f in r ==> exists j :: 0 <= j < |files| && LooksLikeRulesFile(files[j].path)
                                              && f.path == files[j].path
  {
    if |files| == 0 then []
    else
      var prev := RulesPass(files[..|files| - 1], rule, dumps);
      var f := files[|files| - 1];
      assert forall j :: 0 <= j < |files| - 1 ==> files[..|files| - 1][j] == files[j];
      if LooksLikeRulesFile(f.path) then prev + RulesFile.ValidateRulesFile(f.path, f.source, rule, dumps)
      else prev
  }

  /**
   * The deck pass: every deck-shaped file validated in order, threading the
   * index. It only ever adds scan results to the index it starts from.
   */
  function DeckPass(files: seq<RepoFile>, rule: FileRule, idx: Index, tree: seq<RepoFile>): (r: Step)
    ensures Coherent(idx, tree, r.index)
    decreases |files|
  {
    if |files| == 0 then Step([], idx)
    else
      var prev := DeckPass(files[..|files| - 1], rule, idx, tree);
      var f := files[|files| - 1];
      if LooksLikeDeckFile(f.path) then
        var s := DeckFile.ValidateDeckFile(f.path, f.source, rule, prev.index, tree);
        CoherentTrans(idx, tree, prev.index, s.index);
        Step(prev.findings + s.findings, s.index)
      else prev
  }

  /**
   * A pass stated once for all four kinds: the findings each file
   * contributes, gathered in file order.
   */
  function Gather(files: seq<RepoFile>, of: RepoFile -> seq<Finding>): seq<Finding> {
    if |files| == 0 then [] else Gather(files[..|files| - 1], of) + of(files[|files| - 1])
  }

  /** Gathering over two runs of files is gathering over each, one after the other. */
  lemma {:induction false} GatherAppend(a: seq<RepoFile>, b: seq<RepoFile>, of: RepoFile -> seq<Finding>)
    ensures Gather(a + b, of) == Gather(a, of) + Gather(b, of)
    decreases |b|
  {
    if |b| == 0 {
      assert a + b == a;
    } else {
      var front := b[..|b| - 1];
      assert (a + b)[..|a + b| - 1] == a + front;
      assert (a + b)[|a + b| - 1] == b[|b| - 1];
      GatherAppend(a, front, of);
    }
  }

  /** A file between two runs contributes its own findings between theirs. */
  lemma GatherSplit(pre: seq<RepoFile>, x: RepoFile, post: seq<RepoFile>, of: RepoFile -> seq<Finding>)
    ensures Gather(pre + [x] + post, of) == Gather(pre, of) + of(x) + Gather(post, of)
  {
    GatherAppend(pre + [x], post, of);
    assert (pre + [x])[..|pre|] == pre;
  }

  /** File `j` contributes its own findings, contiguously, between those of the files around it. */
  lemma GatherAt(files: seq<RepoFile>, of: RepoFile -> seq<Finding>, j: nat)
    requires j < |files|
    ensures Gather(files, of) == Gather(files[..j], of) + of(files[j]) + Gather(files[j + 1..], of)
  {
    SplitAt(files, j);
    GatherSplit(files[..j], files[j], files[j + 1..], of);
  }

  /** A pass that threads the index: each file is validated against the index its predecessors left. */
  function Thread(files: seq<RepoFile>, step: (RepoFile, Index) -> Step, idx: Index): Step {
    if |files| == 0 then Step([], idx)
    else
      var prev := Thread(files[..|files| - 1], step, idx);
      var s := step(files[|files| - 1], prev.index);
      Step(prev.findings + s.findings, s.index)
  }

  /** Threading over two runs of files: the second run starts from the index the first left. */
  lemma {:induction false} ThreadAppend(a: seq<RepoFile>, b: seq<RepoFile>, step: (RepoFile, Index) -> Step, idx: Index)
    ensures var first := Thread(a, step, idx);
            var second := Thread(b, step, first.index);
            Thread(a + b, step, idx) == Step(first.findings + second.findings, second.index)
    decreases |b|
  {
    var first := Thread(a, step, idx);
    if |b| == 0 {
      assert a + b == a;
      assert first.findings + [] == first.findings;
    } else {
      var front := b[..|b| - 1];
      assert (a + b)[..|a + b| - 1] == a + front;
      assert (a + b)[|a + b| - 1] == b[|b| - 1];
      ThreadAppend(a, front, step, idx);
    }
  }

  /**
   * File `j` contributes, contiguously and in file order, what `step` gives
   * it against the index its predecessors left.
   */
  lemma ThreadAt(files: seq<RepoFile>, step: (RepoFile, Index) -> Step, idx: Index, j: nat)
    requires j < |files|
    ensures var before := Thread(files[..j], step, idx);
            var s := step(files[j], before.index);
            Thread(files, step, idx).findings
              == before.findings + s.findings + Thread(files[j + 1..], step, s.index).findings
  {
    var pre, mid, post := files[..j], [files[j]], files[j + 1..];
    var before := Thread(pre, step, idx);
    var s := step(files[j], before.index);
    assert files == pre + (mid + post);
    ThreadAppend(pre, mid + post, step, idx);
    ThreadAppend(mid, post, step, before.index);
    assert Thread(mid, step, before.index) == Step(s.findings, s.index) by {
      assert mid[..0] == [];
      assert [] + s.findings == s.findings;
    }
    AppendAssoc(before.findings, s.findings, Thread(post, step, s.index).findings);
  }

  /** What one file contributes to the card pass. */
  function CardOf(f: RepoFile, rule: FileRule, reMatch: (string, string) -> bool, idx: Index): Step {
    if LooksLikeCardFile(f.path) then CardFile.ValidateCardFile(f.path, f.source, rule, reMatch, idx)
    else Step([], idx)
  }

  /** The card pass threads `validate_card_file` through the card-shaped files and skips the rest. */
  lemma {:induction false} CardPassThread(files: seq<RepoFile>, rule: FileRule,
                                          reMatch: (string, string) -> bool, idx: Index)
    ensures CardPass(files, rule, reMatch, idx) == Thread(files, (f, i) => CardOf(f, rule, reMatch, i), idx)
    decreases |files|
  {
    if |files| > 0 {
      var prev := CardPass(files[..|files| - 1], rule, reMatch, idx);
      CardPassThread(files[..|files| - 1], rule, reMatch, idx);
      assert prev.findings + [] == prev.findings;
    }
  }

  /**
   * The findings of the card pass hold, contiguously and in file order, the
   * findings `validate_card_file` gives each card-shaped file `j` against the
   * index the files before it built.
   */
  lemma CardPassAt(files: seq<RepoFile>, rule: FileRule, reMatch: (string, string) -> bool, idx: Index, j: nat)
    requires j < |files| && LooksLikeCardFile(files[j].path)
    ensures var before := CardPass(files[..j], rule, reMatch, idx);
            var s := CardFile.ValidateCardFile(files[j].path, files[j].source, rule, reMatch, before.index);
            CardPass(files, rule, reMatch, idx).findings
              == before.findings + s.findings + CardPass(files[j + 1..], rule, reMatch, s.index).findings
  {
    var step := (f, i) => CardOf(f, rule, reMatch, i);
    var before := CardPass(files[..j], rule, reMatch, idx);
    var s := CardFile.ValidateCardFile(files[j].path, files[j].source, rule, reMatch, before.index);
    CardPassThread(files, rule, reMatch, idx);
    CardPassThread(files[..j], rule, reMatch, idx);
    CardPassThread(files[j + 1..], rule, reMatch, s.index);
    ThreadAt(files, step, idx, j);
  }

  /** What one file contributes to the collection pass. */
  function CollectionOf(f: RepoFile, rule: FileRule): seq<Finding> {
    if LooksLikeCollectionFile(f.path) then CollectionFile.ValidateCollectionFile(f.path, f.source, rule) else []
  }

  /** The collection pass gathers `validate_collection_file` over the collection files and skips the rest. */
  lemma {:induction false} CollectionPassGather(files: seq<RepoFile>, rule: FileRule)
    ensures CollectionPass(files, rule) == Gather(files, f => CollectionOf(f, rule))
    decreases |files|
  {
    if |files| > 0 {
      CollectionPassGather(files[..|files| - 1], rule);
    }
  }

  /** The collection pass over two runs of files is the two passes one after the other. */
  lemma CollectionPassAppend(a: seq<RepoFile>, b: seq<RepoFile>, rule: FileRule)
    ensures CollectionPass(a + b, rule) == CollectionPass(a, rule) + CollectionPass(b, rule)
  {
    CollectionPassGather(a + b, rule);
    CollectionPassGather(a, rule);
    CollectionPassGather(b, rule);
    GatherAppend(a, b, f => CollectionOf(f, rule));
  }

  /** Within the collection pass, file `j` contributes exactly its own findings, in file order. */
  lemma CollectionPassAt(files: seq<RepoFile>, rule: FileRule, j: nat)
    requires j < |files|
    ensures CollectionPass(files, rule)
              == CollectionPass(files[..j], rule)
                 + (if LooksLikeCollectionFile(files[j].path)
                    then CollectionFile.ValidateCollectionFile(files[j].path, files[j].source, rule) else [])
                 + CollectionPass(files[j + 1..], rule)
  {
    CollectionPassGather(files, rule);
    CollectionPassGather(files[..j], rule);
    CollectionPassGather(files[j + 1..], rule);
    GatherAt(files, f => CollectionOf(f, rule), j);
  }

  /** What one file contributes to the rules pass. */
  function RulesOf(f: RepoFile, rule: FileRule, dumps: Json -> string): seq<Finding> {
    if LooksLikeRulesFile(f.path) then RulesFile.ValidateRulesFile(f.path, f.source, rule, dumps) else []
  }

  /** The rules pass gathers `validate_rules_file` over the rules files and skips the rest. */
  lemma {:induction false} RulesPassGather(files: seq<RepoFile>, rule: FileRule, dumps: Json -> string)
    ensures RulesPass(files, rule, dumps) == Gather(files, f => RulesOf(f, rule, dumps))
    decreases |files|
  {
    if |files| > 0 {
      RulesPassGather(files[..|files| - 1], rule, dumps);
    }
  }

  /** The rules pass over two runs of files is the two passes one after the other. */
  lemma RulesPassAppend(a: seq<RepoFile>, b: seq<RepoFile>, rule: FileRule, dumps: Json -> string)
    ensures RulesPass(a + b, rule, dumps) == RulesPass(a, rule, dumps) + RulesPass(b, rule, dumps)
  {
    RulesPassGather(a + b, rule, dumps);
    RulesPassGather(a, rule, dumps);
    RulesPassGather(b, rule, dumps);
    GatherAppend(a, b, f => RulesOf(f, rule, dumps));
  }

  /** Within the rules pass, file `j` contributes exactly its own findings, in file order. */
  lemma RulesPassAt(files: seq<RepoFile>, rule: FileRule, dumps: Json -> string, j: nat)
    requires j < |files|
    ensures RulesPass(files, rule, dumps)
              == RulesPass(files[..j], rule, dumps)
                 + (if LooksLikeRulesFile(files[j].path)
                    then RulesFile.ValidateRulesFile(files[j].path, files[j].source, rule, dumps) else [])
                 + RulesPass(files[j + 1..], rule, dumps)
  {
    RulesPassGather(files, rule, dumps);
    RulesPassGather(files[..j], rule, dumps);
    RulesPassGather(files[j + 1..], rule, dumps);
    GatherAt(files, f => RulesOf(f, rule, dumps), j);
  }

  /** What one file contributes to the deck pass. */
  function DeckOf(f: RepoFile, rule: FileRule, idx: Index, tree: seq<RepoFile>): Step {
    if LooksLikeDeckFile(f.path) then DeckFile.ValidateDeckFile(f.path, f.source, rule, idx, tree)
    else Step([], idx)
  }

  /** The deck pass threads `validate_deck_file` through the deck files and skips the rest. */
  lemma {:induction false} DeckPassThread(files: seq<RepoFile>, rule: FileRule, idx: Index, tree: seq<RepoFile>)
    ensures DeckPass(files, rule, idx, tree) == Thread(files, (f, i) => DeckOf(f, rule, i, tree), idx)
    decreases |files|
  {
    if |files| > 0 {
      var prev := DeckPass(files[..|files| - 1], rule, idx, tree);
      DeckPassThread(files[..|files| - 1], rule, idx, tree);
      assert prev.findings + [] == prev.findings;
    }
  }

  /**
   * The findings of the deck pass hold, contiguously and in file order, the
   * findings `validate_deck_file` gives each deck file `j` against the index
   * the files before it left.
   */
  lemma DeckPassAt(files: seq<RepoFile>, rule: FileRule, idx: Index, tree: seq<RepoFile>, j: nat)
    requires j < |files| && LooksLikeDeckFile(files[j].path)
    ensures var before := DeckPass(files[..j], rule, idx, tree);
            var s := DeckFile.ValidateDeckFile(files[j].path, files[j].source, rule, before.index, tree);
            DeckPass(files, rule, idx, tree).findings
              == before.findings + s.findings + DeckPass(files[j + 1..], rule, s.index, tree).findings
  {
    var step := (f, i) => DeckOf(f, rule, i, tree);
    var before := DeckPass(files[..j], rule, idx, tree);
    var s := DeckFile.ValidateDeckFile(files[j].path, files[j].source, rule, before.index, tree);
    DeckPassThread(files, rule, idx, tree);
    DeckPassThread(files[..j], rule, idx, tree);
    DeckPassThread(files[j + 1..], rule, s.index, tree);
    ThreadAt(files, step, idx, j);
  }

  /** `scan_and_validate`: the findings of the four passes in pass order, and the final index. */
  function ScanAndValidate(schema: RuleSet, t: Tree, lib: Library): (r: Step)
    ensures var cards := CardPass(t.cards, GetSchemaRule(schema, "card_file"), lib.reMatch, map[]);
            && Coherent(cards.index, t.cards, r.index)
            && cards.findings <= r.findings
    ensures var cards := CardPass(t.cards, GetSchemaRule(schema, "card_file"), lib.reMatch, map[]);
            var decks := DeckPass(t.decks, GetSchemaRule(schema, "deck_file"), cards.index, t.cards);
            && r.findings == cards.findings
                             + CollectionPass(t.collections, GetSchemaRule(schema, "collection_file"))
                             + RulesPass(t.rules, GetSchemaRule(schema, "rules_file"), lib.dumps)
                             + decks.findings
            && r.index == decks.index
  {
    var cards := CardPass(t.cards, GetSchemaRule(schema, "card_file"), lib.reMatch, map[]);
    var colls := CollectionPass(t.collections, GetSchemaRule(schema, "collection_file"));
    var rules := RulesPass(t.rules, GetSchemaRule(schema, "rules_file"), lib.dumps);
    var decks := DeckPass(t.decks, GetSchemaRule(schema, "deck_file"), cards.index, t.cards);
    Step(cards.findings + colls + rules + decks.findings, decks.index)
  }

  /**
   * The deck checks are judged against the index the card pass built: for
   * every deck, the counts its limits are compared with are the counts
   * resolved against the card-pass index, whatever earlier decks looked up.
   */
  lemma DeckCountsStable(schema: RuleSet, t: Tree, lib: Library, n: nat, w: DeckFile.Counter, cards: seq<Json>)
    requires n <= |t.decks|
    ensures var base := CardPass(t.cards, GetSchemaRule(schema, "card_file"), lib.reMatch, map[]).index;
            var before := DeckPass(t.decks[..n], GetSchemaRule(schema, "deck_file"), base, t.cards).index;
            DeckFile.Count(before, t.cards, w, cards) == DeckFile.Count(base, t.cards, w, cards)
  {
    var base := CardPass(t.cards, GetSchemaRule(schema, "card_file"), lib.reMatch, map[]).index;
    var before := DeckPass(t.decks[..n], GetSchemaRule(schema, "deck_file"), base, t.cards).index;
    DeckFile.CountCoherent(base, t.cards, before, w, cards);
  }

  /** How the schema file turned out: absent, unreadable, or loaded. */
  datatype SchemaFile = SchemaMissing | SchemaUnreadable(reason: Json) | SchemaLoaded(schema: RuleSet)

  /** The outcome of `main`: the summary when validation ran, and the exit status. */
  datatype Outcome = Outcome(summary: Option<Summary>, exitCode: int)

  /**
   * `main`: a missing or unreadable schema stops with status 1 before any
   * validation; otherwise the run's summary and its status.
   */
  function Main(schemaFile: SchemaFile, t: Tree, lib: Library, strict: bool): (r: Outcome)
    ensures !schemaFile.SchemaLoaded? ==> r == Outcome(None, 1)
    ensures r.exitCode == 0 || r.exitCode == 1
    ensures schemaFile.SchemaLoaded? ==> r.summary.Some?
    ensures schemaFile.SchemaLoaded? ==>
              var fs := ScanAndValidate(schemaFile.schema, t, lib).findings;
              && (r.exitCode == 1 <==> (exists i :: 0 <= i < |fs| && fs[i].level == Error)
                                       || (strict && exists i :: 0 <= i < |fs| && fs[i].level == Warn))
              && r.summary.value.indexedCards == |ScanAndValidate(schemaFile.schema, t, lib).index|
  {
    match schemaFile
    case SchemaMissing => Outcome(None, 1)
    case SchemaUnreadable(_) => Outcome(None, 1)
    case SchemaLoaded(schema) =>
      var run := ScanAndValidate(schema, t, lib);
      Outcome(Some(Summarize(run.findings, |run.index|, strict)), ExitCode(run.findings, strict))
  }

  /** An ERROR anywhere in the run makes `main` exit with status 1, strict or not. */
  lemma ErrorFails(schema: RuleSet, t: Tree, lib: Library, strict: bool, g: Finding)
    requires g in ScanAndValidate(schema, t, lib).findings && g.level == Error
    ensures Main(SchemaLoaded(schema), t, lib, strict).exitCode == 1
  {
    var fs := ScanAndValidate(schema, t, lib).findings;
    var i :| 0 <= i < |fs| && fs[i] == g;
    assert fs[i].level == Error;
  }

  /** An ERROR `validate_card_file` reports for a card-shaped file makes `main` exit with status 1. */
  lemma CardErrorFails(schema: RuleSet, t: Tree, lib: Library, strict: bool, j: nat, g: Finding)
    requires j < |t.cards| && LooksLikeCardFile(t.cards[j].path)
    requires var rule := GetSchemaRule(schema, "card_file");
             var before := CardPass(t.cards[..j], rule, lib.reMatch, map[]);
             g in CardFile.ValidateCardFile(t.cards[j].path, t.cards[j].source, rule, lib.reMatch, before.index).findings
             && g.level == Error
    ensures Main(SchemaLoaded(schema), t, lib, strict).exitCode == 1
  {
    CardPassAt(t.cards, GetSchemaRule(schema, "card_file"), lib.reMatch, map[], j);
    ErrorFails(schema, t, lib, strict, g);
  }

  /** An ERROR `validate_collection_file` reports for a collection file makes `main` exit with status 1. */
  lemma CollectionErrorFails(schema: RuleSet, t: Tree, lib: Library, strict: bool, j: nat, g: Finding)
    requires j < |t.collections| && LooksLikeCollectionFile(t.collections[j].path)
    requires g in CollectionFile.ValidateCollectionFile(t.collections[j].path, t.collections[j].source,
                                                        GetSchemaRule(schema, "collection_file"))
             && g.level == Error
    ensures Main(SchemaLoaded(schema), t, lib, strict).exitCode == 1
  {
    CollectionPassAt(t.collections, GetSchemaRule(schema, "collection_file"), j);
    ErrorFails(schema, t, lib, strict, g);
  }

  /** An ERROR `validate_rules_file` reports for a rules file makes `main` exit with status 1. */
  lemma RulesErrorFails(schema: RuleSet, t: Tree, lib: Library, strict: bool, j: nat, g: Finding)
    requires j < |t.rules| && LooksLikeRulesFile(t.rules[j].path)
    requires g in RulesFile.ValidateRulesFile(t.rules[j].path, t.rules[j].source,
                                              GetSchemaRule(schema, "rules_file"), lib.dumps)
             && g.level == Error
    ensures Main(SchemaLoaded(schema), t, lib, strict).exitCode == 1
  {
    RulesPassAt(t.rules, GetSchemaRule(schema, "rules_file"), lib.dumps, j);
    ErrorFails(schema, t, lib, strict, g);
  }

  /**
   * An ERROR `validate_deck_file` reports for a deck file, against the index
   * the card pass and the earlier decks left, makes `main` exit with status 1.
   */
  lemma DeckErrorFails(schema: RuleSet, t: Tree, lib: Library, strict: bool, j: nat, g: Finding)
    requires j < |t.decks| && LooksLikeDeckFile(t.decks[j].path)
    requires var base := CardPass(t.cards, GetSchemaRule(schema, "card_file"), lib.reMatch, map[]).index;
             var rule := GetSchemaRule(schema, "deck_file");
             var before := DeckPass(t.decks[..j], rule, base, t.cards);
             g in DeckFile.ValidateDeckFile(t.decks[j].path, t.decks[j].source, rule, before.index, t.cards).findings
             && g.level == Error
    ensures Main(SchemaLoaded(schema), t, lib, strict).exitCode == 1
  {
    var base := CardPass(t.cards, GetSchemaRule(schema, "card_file"), lib.reMatch, map[]).index;
    DeckPassAt(t.decks, GetSchemaRule(schema, "deck_file"), base, t.cards, j);
    ErrorFails(schema, t, lib, strict, g);
  }

  /** The printed verdict and the exit status agree on every run that reaches the summary. */
  lemma MainVerdict(schemaFile: SchemaFile, t: Tree, lib: Library, strict: bool)
    requires schemaFile.SchemaLoaded?
    ensures var r := Main(schemaFile, t, lib, strict);
            r.summary.Some? && (r.summary.value.result == FAIL <==> r.exitCode == 1)
  {
    var run := ScanAndValidate(schemaFile.schema, t, lib);
    VerdictMatchesExit(run.findings, |run.index|, strict);
  }
}
