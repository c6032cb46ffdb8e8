# A verified model of the Altered knowledge-repository tooling

The repository keeps the cards, collections, rules and decks of the trading
card game Altered as JSON files in a fixed folder layout (`CARDS/<LANG>/<SET>/<FACTION>/<file>.json`,
`COLLECTION/`, `RULES/`, `DECKS/`). This project models three of its Python tools as
pure Dafny functions and proves what they promise.

- **The repository validator** (`UTILS/validate_repo.py`).
  - It classifies paths into card, collection, rules and deck files.
  - It checks every parsed document against the rule the schema gives for its kind.
  - It indexes cards by id, and checks each deck against that index:
    - hero resolution and hero type;
    - deck and hero faction;
    - deck size;
    - copies per card name;
    - rare and unique caps;
    - token exclusion;
    - the number of hero copies.
  - It collects `(path, level, message)` findings and turns them into an OK/FAIL verdict and an exit code.
- **The manifest builder** (`UTILS/build_manifest_v2.py`).
  - It infers kind, language, set, faction, reference and rarity from a path.
  - It takes card fields from the first truthy of several alias keys.
  - It slugifies names.
  - It builds per-kind counters, the entry map and six indexes.
- **The repository scanner** (`core/scan_repo.py`).
  - It runs a leftmost, case-insensitive `/TOKEN/` search for language, faction, set and rarity.
  - It maps a top-level folder to its kind.
  - It projects JSON content onto nine keys.
  - It builds the per-kind indexes.

## How the model is organised

JSON is the inductive datatype `Json.Json`, with objects as `map<string, Json>`.
A file is either unparsable, with the loader's message, or a parsed value
(`Json.Source`). Findings carry a structured `Findings.Message` instead of
formatted text. The validator's card index is a `map<string, Json>` threaded
through the passes. The deck check is a fold over `cards` with an explicit
counter record (`DeckFile.Tally`). `DeckFile.Counter` names each counter the
deck check keeps. `DeckFile.Count` is an independent reference definition of
that counter over the whole list. The lemmas prove that the fold computes it.

Calls into code the model cannot see are function parameters. The `id_pattern`
regular expression (`re.match`) is `reMatch`. `json.dumps` is `dumps`. The
Unicode half of `norm_slug` is `fold`. `str()` of a non-string is `str`. The key
order of a JSON object is `keyOrder`. Hashes, sizes and timestamps are plain fields.

| file | module |
|---|---|
| wrappers.dfy | `Wrappers`: `Option` |
| json.dfy | `Json`: JSON values, truthiness, `.get`, `or`, `isinstance(x, int)`, loading |
| strings.dfy | `Strings`: ASCII case mapping, `strip`, `split`/`join`, `rfind` |
| paths.dfy | `Paths`: path parts, suffix and the four classifiers |
| schema.dfy | `Schema`: rules per file kind and deck constraints with defaults |
| findings.dfy | `Findings`: findings, selection by level, summary and exit code |
| cardmeta.dfy | `CardMeta`: `norm_type` and `rarity_flags` |
| checks.dfy | `Checks`: required-field checks shared by the validators |
| namecounts.dfy | `NameCounts`: the insertion-ordered `name_counts` dictionary |
| cardfile.dfy, collectionfile.dfy, rulesfile.dfy | the three file validators |
| cardindex.dfy | `CardIndex`: `setdefault`, the lazy `_load_card_meta` and index coherence |
| deckfile.dfy | `DeckFile`: `validate_deck_file` and its counting proofs |
| repo.dfy | `Repo`: `scan_and_validate` and `main` |
| manifestpaths.dfy, cardfields.dfy, slug.dfy, manifest.dfy | the manifest builder |
| scanrepo.dfy | `ScanRepo`: the scanner |

## Model

| member | source | states |
|---|---|---|
| Json.LoadJson | UTILS/validate_repo.py:55-60 | a parsed file is its value; an unreadable one becomes an object whose `__load_error__` holds the loader's message, and it is recognised as a load error |
| Json.AsInt | UTILS/validate_repo.py:163-168 | `isinstance(x, int)` holds exactly for integers and booleans, and a boolean counts as 0 or 1 |
| Json.Text | UTILS/validate_repo.py:136-142 | a string field reads as its text; any other value reads as the empty string, and a non-empty text comes only from a truthy value |
| Strings.LowerIdempotent | UTILS/validate_repo.py:85 | lower-casing twice is lower-casing once |
| Strings.UpperIdempotent | UTILS/validate_repo.py:98 | upper-casing twice is upper-casing once |
| Strings.StripEnds | UTILS/validate_repo.py:85 | `strip()` leaves no white space at either end |
| Strings.StripSlice | UTILS/validate_repo.py:85 | `strip()` keeps one contiguous slice and drops only white space around it |
| Strings.StripOfStripped | UTILS/validate_repo.py:85 | text without white space at its ends is its own `strip()` |
| Strings.JoinSplit | UTILS/build_manifest_v2.py:23 | joining the parts of `split("/")` with "/" gives back the path |
| Strings.SplitJoin | UTILS/build_manifest_v2.py:23 | splitting segments joined by "/" gives back the segments when none contains "/" |
| Strings.RFind | UTILS/build_manifest_v2.py:31 | the result is the last position of the character, or -1 when it does not occur |
| Paths.Suffix | UTILS/validate_repo.py:62-63 | the suffix is non-empty iff the name has a "." that is neither its first nor its last character and has no "." after it; it then runs from that "." to the end of the name |
| Paths.HasSuffixIff | UTILS/validate_repo.py:62-63 | `suffix.lower() == ext` holds iff the name is longer than `ext` and its last characters lower-case to `ext`, for an extension of a dot and lower-case letters |
| Paths.FirstIndex | UTILS/validate_repo.py:69 | `parts.index(seg)` is the first position holding the segment, and missing exactly when the segment does not occur |
| Paths.LooksLikeCardFileIff | UTILS/validate_repo.py:65-72 | a card file is a `.json` file, compared case-insensitively, whose first `CARDS` segment has at least four segments after it |
| Paths.LooksLikeCollectionFile | UTILS/validate_repo.py:74-75 | a collection file has a `COLLECTION` segment and a name of more than five characters ending in `.json`, in any case |
| Paths.LooksLikeDeckFile | UTILS/validate_repo.py:77-78 | a deck file is a name of more than five characters ending in `.json`, in any case, below a `DECKS` directory at any depth |
| Paths.LooksLikeRulesFile | UTILS/validate_repo.py:80-81 | a rules file has a `RULES` segment and a name ending in `.json` or `.pdf`, in any case, with at least one character before the extension |
| Schema.GetSchemaRule | UTILS/validate_repo.py:103-104 | a kind the schema names gets its rule; any other kind gets the empty rule, with no required fields, rarities, keywords or constraints |
| Schema.Limits | UTILS/validate_repo.py:231-238 | without constraints a deck must hold 40 to 60 cards, exactly one hero copy, at most 3 copies per name, 15 rare and 3 unique cards, and only the hero's faction; a given bound overrides its default |
| Findings.AnyAtIff | UTILS/validate_repo.py:45-51 | `has_errors` and `has_warnings` hold iff some finding has that level |
| Findings.Select | UTILS/validate_repo.py:346-347 | the selected findings all have the requested level and are never more than the input |
| Findings.SelectAppend | UTILS/validate_repo.py:346-347 | selecting from a concatenation concatenates the selections, so discovery order is kept |
| Findings.SelectNone | UTILS/validate_repo.py:346-347 | a list with no finding of a level selects nothing |
| Findings.SelectAll | UTILS/validate_repo.py:346-347 | a list whose findings all have the level is selected whole and in order |
| Findings.SelectPartition | UTILS/validate_repo.py:346-347 | the errors and the warnings together are exactly the findings, as a multiset and by count |
| Findings.SelectNonEmpty | UTILS/validate_repo.py:355-362 | the selection of a level is non-empty iff some finding has that level |
| Findings.Summarize | UTILS/validate_repo.py:344-368 | the summary lists the errors and then the warnings, each the findings of that level in discovery order; together they are the findings; the result is FAIL iff some finding is an error, or strict mode is on and some finding is a warning |
| Findings.ExitCode | UTILS/validate_repo.py:392 | the exit code is 0 or 1, and it is 1 iff some finding is an error, or strict mode is on and some finding is a warning |
| Findings.VerdictMatchesExit | UTILS/validate_repo.py:368 | the printed FAIL and exit code 1 always agree |
| CardMeta.Synonym | UTILS/validate_repo.py:86-93 | every synonym maps to one of hero, companion, character, spell, permanent or token, and each of these maps to itself |
| CardMeta.NormType | UTILS/validate_repo.py:83-94 | the stripped, lower-cased value maps to its canonical type when it is a synonym, and is returned as it is otherwise |
| CardMeta.CanonicalIsFixed | UTILS/validate_repo.py:86-93 | each canonical type normalises to itself |
| CardMeta.NormTypeIdempotent | UTILS/validate_repo.py:83-94 | normalising a type twice is normalising it once |
| CardMeta.NormTypeEmpty | UTILS/validate_repo.py:140-142 | a type normalises to the empty string iff it is empty after stripping |
| CardMeta.Flags | UTILS/validate_repo.py:96-101 | a card is rare iff its `rarity` is the string "R" or "r", and unique iff its `unique` field is truthy or its `rarity` is "U" or "u"; a rare card is unique only through its `unique` field |
| CardMeta.RareAndUnique | UTILS/validate_repo.py:96-101 | a card can be rare and unique at once, so it counts toward both caps |
| Checks.MissingFields | UTILS/validate_repo.py:125-127 | the missing fields are exactly the required fields the object lacks, each as often as the rule lists it |
| Checks.MissingFieldsAppend | UTILS/validate_repo.py:125-127 | the fields are checked in rule order: the names missing from a concatenated list are those missing from the first part followed by those missing from the second |
| Checks.MissingFieldsNone | UTILS/validate_repo.py:125-127 | nothing is missing iff the object has every required field |
| Checks.MissingFieldErrors | UTILS/validate_repo.py:125-127 | one ERROR per missing field, each naming the element and the field |
| NameCounts.Add | UTILS/validate_repo.py:283 | adding to a name keeps the existing names in their order and appends a new name at the end |
| NameCounts.AddCounts | UTILS/validate_repo.py:283 | adding a quantity raises that name's count by it and leaves every other name's count alone |
| NameCounts.AddNames | UTILS/validate_repo.py:283 | the names after adding are the old names plus the added one, and the dictionary grows iff the name is new |
| NameCounts.AddDistinct | UTILS/validate_repo.py:283 | the dictionary never holds a name twice |
| NameCounts.ListedCount | UTILS/validate_repo.py:310 | iterating the items yields each name with its count |
| CardFile.IdWarning | UTILS/validate_repo.py:129-132 | a WARN is raised iff the card's id is non-empty and does not match the id pattern at its start |
| CardFile.RarityWarning | UTILS/validate_repo.py:136-138 | a WARN is raised iff the rule lists allowed rarities and the card's rarity is non-empty and, upper-cased, not among them |
| CardFile.TypeWarning | UTILS/validate_repo.py:140-142 | a WARN is raised iff the type is empty after stripping |
| CardFile.ItemWarnings | UTILS/validate_repo.py:129-142 | an element's checks other than required fields only ever warn |
| CardFile.ItemFindings | UTILS/validate_repo.py:119-122 | an element that is not an object yields exactly one ERROR and nothing else |
| CardFile.ObjectItemErrors | UTILS/validate_repo.py:124-127 | the ERRORs of an object element are exactly one per missing required field |
| CardFile.ObjectItemHas | UTILS/validate_repo.py:124-142 | a finding is among an object element's findings iff the required-field loop, the id check, the rarity check or the type check reports it |
| CardFile.ItemErrorsIff | UTILS/validate_repo.py:119-127 | an element draws an ERROR iff it is not an object or lacks a required field; its warnings never make it fail |
| CardFile.ItemsFindings | UTILS/validate_repo.py:118-142 | the findings of all elements are all at the file's path, and none is an ERROR iff every element is an object carrying every required field |
| CardFile.ItemsFindingsAt | UTILS/validate_repo.py:118-142 | element `k`'s own findings, under its own position `k`, follow right after those of the elements before it |
| CardFile.TypeWarningIff | UTILS/validate_repo.py:140-142 | the type WARN appears iff the element is an object whose normalised type is empty, so unknown non-empty types pass |
| CardFile.IdWarningIff | UTILS/validate_repo.py:129-132 | the id WARN appears iff the element is an object with a non-empty id the pattern rejects |
| CardFile.IndexItems | UTILS/validate_repo.py:134 | indexing never overwrites an id already in the index |
| CardFile.IdsIff | UTILS/validate_repo.py:129-134 | an id is indexed iff it is non-empty and some element carries it |
| CardFile.IndexItemsKeys | UTILS/validate_repo.py:134 | the index gains exactly the non-empty ids of the file |
| CardFile.IndexItemsAppend | UTILS/validate_repo.py:119-134 | indexing a concatenation is indexing one part after the other |
| CardFile.IndexItemsFirst | UTILS/validate_repo.py:133-134 | a newly indexed id maps to the first element carrying it |
| CardFile.ValidateCardFile | UTILS/validate_repo.py:107-142 | a load error yields exactly one ERROR and leaves the index alone; otherwise the findings are those of the elements in order and every element is indexed, with no existing entry changed; every finding is at the file's path, and the file draws no ERROR iff it loads and every element is an object carrying every required field |
| CollectionFile.CountFindings | UTILS/validate_repo.py:163-168 | a count that is not an integer, absent included, yields one ERROR; an integer yields one WARN iff it lies outside the inclusive bounds, and nothing otherwise |
| CollectionFile.MissingCountIsError | UTILS/validate_repo.py:163-168 | a missing count is an ERROR |
| CollectionFile.BooleanCountPasses | UTILS/validate_repo.py:164 | `true` counts as the integer 1: it passes the default bounds and is out of range for a minimum of 2 |
| CollectionFile.ItemFindings | UTILS/validate_repo.py:154-168 | a non-object element yields one ERROR; every finding is at the file's path; an element draws no finding iff it is an object with every required field and an integer or boolean `count` within the bounds; an object's findings start with one ERROR per missing field in rule order and add at most one more |
| CollectionFile.ItemsFindings | UTILS/validate_repo.py:154-168 | every finding is at the file's path, and there is none iff every element is accepted |
| CollectionFile.ValidateCollectionFile | UTILS/validate_repo.py:144-168 | a load error yields exactly one ERROR; otherwise the file draws no finding iff every element is accepted; every finding is at the file's path |
| RulesFile.AbsentKeywords | UTILS/validate_repo.py:181-183 | the reported keywords are exactly the lower-cased required keywords that do not occur in the lower-cased document text |
| RulesFile.ValidateRulesFile | UTILS/validate_repo.py:170-185 | every finding is at the file's path; a PDF passes; a load error yields one ERROR; otherwise one WARN appears iff some required keyword is absent from the text, and it lists exactly the absent ones |
| CardIndex.SetDefault | UTILS/validate_repo.py:134 | `setdefault` adds the id when it is new and never changes an existing entry |
| CardIndex.FirstInList | UTILS/validate_repo.py:198-202 | the result is an element of the list with the id, and there is none iff no element has the id |
| CardIndex.FileMatch | UTILS/validate_repo.py:194-202 | a file's content yields a card with the id iff the content is an object with that id, or a list holding one |
| CardIndex.ScanSpec | UTILS/validate_repo.py:191-202 | a file yields a card iff it is a card file whose content holds the id |
| CardIndex.FirstMatchSpec | UTILS/validate_repo.py:191-203 | the scan finds nothing iff no file yields the id, and otherwise returns what the first yielding file gives |
| CardIndex.LoadCardMeta | UTILS/validate_repo.py:187-203 | an indexed id is returned without scanning; otherwise the tree is scanned, a hit is stored under the id and a miss leaves the index unchanged |
| CardIndex.HitIsCached | UTILS/validate_repo.py:188-189 | after a hit, a second lookup of the same id does not scan and returns the same card |
| CardIndex.MissIsRescanned | UTILS/validate_repo.py:203 | after a miss, the id is still absent and a second lookup scans again with the same outcome |
| CardIndex.LookupCoherent | UTILS/validate_repo.py:187-203 | looking up through an index built from the same card tree gives what the starting index and the tree give, and keeps the index coherent |
| CardIndex.CoherentTrans | UTILS/validate_repo.py:187-203 | coherence with the tree carries over a chain of lookups |
| CardIndex.ResolveCoherent | UTILS/validate_repo.py:187-203 | resolving an id through a coherent index agrees with resolving it through the starting index |
| DeckFile.LookupCard | UTILS/validate_repo.py:276 | an id that is not a string resolves to nothing and leaves the index alone |
| DeckFile.NameKey | UTILS/validate_repo.py:282 | a card is counted under its name, else its title, else its id |
| DeckFile.FactionCheck | UTILS/validate_repo.py:260-261 | a faction mismatch is reported only when both factions are non-empty and differ, as one ERROR |
| DeckFile.HeroCheck | UTILS/validate_repo.py:248-261 | a missing hero id and an unresolved hero are one ERROR each; the hero's faction is known only for a resolved hero; every hero finding is an ERROR |
| DeckFile.HeroTypeIff | UTILS/validate_repo.py:255-259 | a resolved hero is reported as not a hero iff its normalised type is not hero, and the hero's faction is the card's upper-cased faction |
| DeckFile.FactionMismatchNeedsBoth | UTILS/validate_repo.py:259-261 | a reported mismatch names the non-empty deck faction and the resolved hero's non-empty, different faction |
| DeckFile.CardFactionCheck | UTILS/validate_repo.py:297-300 | a card's faction is reported iff the rule is on, the hero's faction is known, and the card's faction is non-empty and different |
| DeckFile.TokenCheck | UTILS/validate_repo.py:303-304 | a card is reported iff its normalised type is token |
| DeckFile.Counted | UTILS/validate_repo.py:265-274 | an entry counts iff it is an object with a truthy `card_id` and an integer `qty`, booleans included |
| DeckFile.EntryFindings | UTILS/validate_repo.py:265-304 | a non-object entry, an entry with a bad id or quantity, and an unresolved card each yield exactly one ERROR; a resolved card yields the faction check's findings followed by the token check's; every entry finding is an ERROR about that entry |
| DeckFile.EntryTokenIff | UTILS/validate_repo.py:302-304 | an entry draws the token ERROR iff it is counted and its card resolves with normalised type `token` |
| DeckFile.EntryFactionIff | UTILS/validate_repo.py:296-300 | an entry draws the faction ERROR iff it is counted and resolves, the rule is on, the hero's faction is known, and the card's faction is non-empty and different |
| DeckFile.LoopCoherent | UTILS/validate_repo.py:262-304 | from a coherent start, the index the loop carries stays coherent with the card tree after every entry |
| DeckFile.LoopFindings | UTILS/validate_repo.py:262-304 | from a coherent start, the loop adds exactly each entry's own findings against the uncached resolution, in entry order |
| DeckFile.EntriesFindingsIff | UTILS/validate_repo.py:262-304 | a finding about entry `e` is among the entry findings iff `e` is among the entries and its own checks report it |
| DeckFile.DeckEntryIff | UTILS/validate_repo.py:262-304 | an entry finding is among a checked deck's findings iff its entry is in the list and that entry's own checks, against the deck's index, report it |
| DeckFile.TokenIff | UTILS/validate_repo.py:302-304 | a checked deck reports a token ERROR for entry `i` iff that entry is counted and resolves to a card of type `token` |
| DeckFile.CardFactionIff | UTILS/validate_repo.py:296-300 | a checked deck reports a faction ERROR for entry `i` iff the rule is on, the hero's faction is known, and the entry resolves to a card whose faction is non-empty and differs from the hero's |
| DeckFile.LookupCardCoherent | UTILS/validate_repo.py:276 | a lookup inside the deck loop finds a card iff the reference resolution does, and finds the same card |
| DeckFile.LoopTotal | UTILS/validate_repo.py:270-274 | `total_qty` is the sum of `qty` over exactly the counted entries, whether or not their cards resolve |
| DeckFile.LoopCount | UTILS/validate_repo.py:276-294 | every counter the loop keeps equals its reference count over the entries seen so far |
| DeckFile.LoopNames | UTILS/validate_repo.py:282-283 | `name_counts` never holds a name twice, and holds exactly the names of the resolved entries seen so far |
| DeckFile.NamesSeenIff | UTILS/validate_repo.py:282 | a name is seen iff some entry resolves to a card under that name |
| DeckFile.CopyErrors | UTILS/validate_repo.py:310-312 | every copy finding is an ERROR naming the copy limit |
| DeckFile.CopyErrorsIff | UTILS/validate_repo.py:310-312 | a copy ERROR for a name and count appears iff the name is in `name_counts` with that count and the count exceeds the limit |
| DeckFile.NotListedCount | UTILS/validate_repo.py:310-312 | a name that is not in `name_counts` has count 0 and is never reported |
| DeckFile.TotalsFindings | UTILS/validate_repo.py:306-321 | the aggregate checks only produce ERRORs of the aggregate kinds |
| DeckFile.DeckFieldErrorsIff | UTILS/validate_repo.py:215-218 | a missing-field ERROR appears iff the rule requires the field and the deck lacks it |
| DeckFile.ValidateDeckFile | UTILS/validate_repo.py:205-228 | a load error and a non-object deck yield exactly one ERROR; a `cards` value that is not a list yields the missing-field ERRORs plus one ERROR and nothing else; the index stays coherent with the card tree |
| DeckFile.CheckedDeck | UTILS/validate_repo.py:229-321 | the full check of a well-formed deck keeps the card index coherent with the card tree |
| DeckFile.DeckCounters | UTILS/validate_repo.py:264-294 | after the loop, `total_qty` and the rare, unique, hero and per-name counters equal their reference counts over the whole list |
| DeckFile.DeckNames | UTILS/validate_repo.py:281-283 | after the loop, `name_counts` holds each resolved name once |
| DeckFile.NoTotalsBefore | UTILS/validate_repo.py:215-304 | no finding before the aggregate checks is an aggregate finding |
| DeckFile.TotalsPart | UTILS/validate_repo.py:306-321 | the aggregate findings of a deck are exactly those of the aggregate checks on the final counters |
| DeckFile.TotalsBreach | UTILS/validate_repo.py:306-321 | each aggregate check reports iff its counter breaches its limit |
| DeckFile.DeckBreach | UTILS/validate_repo.py:306-321 | a deck's size, rare, unique or hero-copy ERROR appears iff the final counter breaches its limit |
| DeckFile.DeckSizeIff | UTILS/validate_repo.py:307-308 | a size ERROR appears iff the summed quantity lies outside the inclusive card bounds |
| DeckFile.RareIff | UTILS/validate_repo.py:314-315 | a rare ERROR appears iff the rare count exceeds the cap |
| DeckFile.UniqueIff | UTILS/validate_repo.py:317-318 | a unique ERROR appears iff the unique count exceeds the cap |
| DeckFile.HeroCopiesIff | UTILS/validate_repo.py:320-321 | with a unique hero required, a hero-copy ERROR appears iff the hero's copies in the list are not exactly 1 |
| DeckFile.CopiesIff | UTILS/validate_repo.py:310-312 | a copy ERROR for a name and count appears iff some entry resolves under that name, the count is its summed quantity, and it exceeds the limit |
| DeckFile.CountCoherent | UTILS/validate_repo.py:276-294 | a card count is the same through any coherent index |
| Repo.CardPass | UTILS/validate_repo.py:325-327 | the card pass never changes an entry already in the index |
| Repo.CardPassIndex | UTILS/validate_repo.py:325-327 | the card pass indexes the elements of all card files in walk order |
| Repo.CardPassContents | UTILS/validate_repo.py:325-327 | after the card pass, the index holds exactly the non-empty ids of the card files, each mapped to the first element carrying it |
| Repo.CardPassAt | UTILS/validate_repo.py:325-327 | the card pass's findings hold, contiguously and in walk order, each card file's own findings against the index the earlier card files built |
| Repo.CollectionPass | UTILS/validate_repo.py:330-332 | every collection finding is at the path of a walked file that is a collection file |
| Repo.CollectionPassAppend | UTILS/validate_repo.py:330-332 | the collection pass over two runs of files is the pass over the first followed by the pass over the second |
| Repo.CollectionPassAt | UTILS/validate_repo.py:330-332 | file `j` contributes exactly its own collection findings when it looks like a collection file and nothing otherwise, between the findings of the files before and after it |
| Repo.RulesPass | UTILS/validate_repo.py:335-337 | every rules finding is at the path of a walked file that is a rules file |
| Repo.RulesPassAppend | UTILS/validate_repo.py:335-337 | the rules pass over two runs of files is the pass over the first followed by the pass over the second |
| Repo.RulesPassAt | UTILS/validate_repo.py:335-337 | file `j` contributes exactly its own rules findings when it looks like a rules file and nothing otherwise, between the findings of the files before and after it |
| Repo.DeckPass | UTILS/validate_repo.py:340-342 | the deck pass keeps the card index coherent with the card tree |
| Repo.DeckPassAt | UTILS/validate_repo.py:340-342 | the deck pass's findings hold, contiguously and in walk order, each deck file's own findings against the index the earlier deck files left |
| Repo.ScanAndValidate | UTILS/validate_repo.py:323-342 | the run's findings are the card, collection, rules and deck passes' findings, in that order; the decks are checked against the index the card pass built, and the final index is coherent with it |
| Repo.DeckCountsStable | UTILS/validate_repo.py:340-342 | the lookups of earlier decks do not change the counts of a later deck |
| Repo.Main | UTILS/validate_repo.py:370-392 | a missing or unreadable schema exits 1 with no summary; otherwise the exit code is 1 iff some finding is an error, or strict mode is on and some finding is a warning, and the summary reports the index size |
| Repo.MainVerdict | UTILS/validate_repo.py:368-392 | with a loaded schema the printed FAIL and the exit code 1 agree |
| Repo.ErrorFails | UTILS/validate_repo.py:388-392 | any ERROR among the run's findings makes `main` exit with status 1 |
| Repo.CardErrorFails | UTILS/validate_repo.py:325-327 | an ERROR that `validate_card_file` reports for a card file makes `main` exit with status 1 |
| Repo.CollectionErrorFails | UTILS/validate_repo.py:330-332 | an ERROR that `validate_collection_file` reports for a collection file makes `main` exit with status 1 |
| Repo.RulesErrorFails | UTILS/validate_repo.py:335-337 | an ERROR that `validate_rules_file` reports for a rules file makes `main` exit with status 1 |
| Repo.DeckErrorFails | UTILS/validate_repo.py:340-342 | an ERROR that `validate_deck_file` reports for a deck file, against the index the card pass and the earlier decks left, makes `main` exit with status 1 |
| ManifestPaths.Stem | UTILS/build_manifest_v2.py:31 | `rsplit(".", 1)[0]` removes only the last extension, and keeps a name without "." whole |
| ManifestPaths.DropDigits | UTILS/build_manifest_v2.py:33 | the result is a prefix that does not end in a digit, and only digits follow it |
| ManifestPaths.DropDigitsOf | UTILS/build_manifest_v2.py:33 | digits appended to text not ending in a digit are exactly what is removed |
| ManifestPaths.RarityLetter | UTILS/build_manifest_v2.py:33-35 | a captured rarity is one of C, R, U |
| ManifestPaths.RarityIff | UTILS/build_manifest_v2.py:33-35 | a letter is captured iff `_`, the letter and digits end the stem, before an optional final newline |
| ManifestPaths.InferFromPath | UTILS/build_manifest_v2.py:22-42 | the kind depends only on the first segment (CARDS to CARD, COLLECTION, RULES, anything else OTHER), and only card paths get further keys |
| ManifestPaths.InferOfSegments | UTILS/build_manifest_v2.py:25-35 | a card path's language, set and faction are segments 1 to 3 and appear iff there are at least five segments; the reference is the file stem; the rarity matches the stem's pattern |
| CardFields.AliasSpec | UTILS/build_manifest_v2.py:52-64 | an alias chain is truthy iff some alias is, and then yields the first truthy alias's value; otherwise it yields the last alias's value |
| CardFields.Aliases | UTILS/build_manifest_v2.py:52-64 | every field has at least one alias key |
| CardFields.Keywords | UTILS/build_manifest_v2.py:60-61 | `keywords` is never None or a string; it is truthy iff `keywords` or `keyword` is, and an empty list otherwise |
| CardFields.ExtractCardFields | UTILS/build_manifest_v2.py:51-69 | `unique` is always a boolean, the truthiness of the `unique` field |
| CardFields.ExtractFirstTruthy | UTILS/build_manifest_v2.py:52-64 | each aliased field is the value of its first truthy alias in the listed order, else its last alias's value |
| CardFields.MergePathKeys | UTILS/build_manifest_v2.py:97-101 | each path-inferred key, the rarity included, keeps its value exactly when the card's value is None; a card value that is not None wins; `unique` and `keywords` are always set |
| Slug.AlnumsAppend | UTILS/build_manifest_v2.py:20 | the `[a-z0-9]` characters of a concatenation are those of the parts, in order |
| Slug.Collapse | UTILS/build_manifest_v2.py:20 | the substitution leaves only `[a-z0-9-]`, starts with "-" iff the input starts with a run, and is empty iff the input is |
| Slug.CollapseNoDoubleDash | UTILS/build_manifest_v2.py:20 | after the substitution no two "-" stand next to each other |
| Slug.CollapseAlnums | UTILS/build_manifest_v2.py:20 | the substitution keeps every `[a-z0-9]` character, in order |
| Slug.StripDashesSlice | UTILS/build_manifest_v2.py:20 | `strip("-")` keeps a contiguous slice and drops only dashes |
| Slug.SlugTail | UTILS/build_manifest_v2.py:20 | a slug neither starts nor ends with "-" |
| Slug.SlugShape | UTILS/build_manifest_v2.py:20 | a slug holds only `[a-z0-9-]`, never two "-" in a row, and exactly the `[a-z0-9]` characters of its input, in order |
| Slug.SlugEmptyIff | UTILS/build_manifest_v2.py:20 | a slug is empty iff its input has no `[a-z0-9]` character |
| Manifest.FileMeta | UTILS/build_manifest_v2.py:86-103 | an entry keeps the path's kind and its own path; files that are not cards with content get the path metadata alone; non-object card content raises; otherwise the entry is the path metadata with every non-None content field written over it, and gets `name_slug`, the slug of its name, iff that name is truthy |
| Manifest.AppendAllSpec | UTILS/build_manifest_v2.py:106-118 | after posting, each key's list is its old list followed by the path once per occurrence of the key |
| Manifest.AppendAllKeys | UTILS/build_manifest_v2.py:106-118 | after posting, the index holds exactly its old keys and the posted ones |
| Manifest.CountKindsSpec | UTILS/build_manifest_v2.py:121-122 | with counters keyed by the produced kinds, `ALL` counts every entry and each kind's counter counts the entries of that kind |
| Manifest.KindsPartition | UTILS/build_manifest_v2.py:121-122 | every entry has exactly one of the four kinds |
| Manifest.CardsCounterStaysZero | UTILS/build_manifest_v2.py:79-122 | as written, the `CARDS` counter stays 0 whatever the files |
| Manifest.CardCountedUnderStrayKey | UTILS/build_manifest_v2.py:79-122 | as written, one card leaves `CARDS` at 0 and adds a sixth counter `CARD` |
| Manifest.Judge | UTILS/build_manifest_v2.py:86-122 | a file makes the loop raise iff its metadata cannot be built, or its truthy reference cannot be a key, or its truthy keywords cannot be iterated |
| Manifest.FedIsCardWithContent | UTILS/build_manifest_v2.py:97 | the indexes are fed exactly from card files with truthy content |
| Manifest.RunSucceeds | UTILS/build_manifest_v2.py:81-122 | the loop completes iff no file raises |
| Manifest.BuildSucceeds | UTILS/build_manifest_v2.py:71-137 | the builder returns a manifest iff no file makes it raise |
| Manifest.ManifestCounts | UTILS/build_manifest_v2.py:79-122 | with the counters corrected to start from the key `CARD` where the source writes `CARDS` (see Findings), the counters are `ALL` and the four kinds, `ALL` is the number of files, each kind counts its files, and `ALL` is the sum of the kind counters |
| Manifest.BuildLists | UTILS/build_manifest_v2.py:106-118 | each list index maps a key to the paths of the files that post it, in walk order and once per posting, and holds exactly the keys some file posts |
| Manifest.BuildReference | UTILS/build_manifest_v2.py:108-109 | `by_reference` holds exactly the truthy references of fed files, each mapped to the path of the last file carrying it |
| Manifest.BuildEntries | UTILS/build_manifest_v2.py:120 | the entries hold exactly the walked paths, each with the metadata of the last file at that path |
| Manifest.ManifestEntriesCount | UTILS/build_manifest_v2.py:120-121 | with distinct paths, the number of entries equals `counts["ALL"]` |
| ScanRepo.FirstAlternativeSpec | core/scan_repo.py:71-74 | at one position the alternatives are tried in the listed order: the first that matches is chosen, and none is chosen iff none matches |
| ScanRepo.AlternativeUnique | core/scan_repo.py:71-74 | at one position at most one `/TOKEN/` can match, whatever the order |
| ScanRepo.SearchFromSpec | core/scan_repo.py:100-103 | the search from a position finds a token iff it is chosen at the first position with any match |
| ScanRepo.SearchLeftmost | core/scan_repo.py:100-103 | `search` returns the token chosen at the leftmost position where any alternative matches |
| ScanRepo.SearchNone | core/scan_repo.py:100-103 | the search fails iff no alternative matches at any position |
| ScanRepo.RarityNormalised | core/scan_repo.py:111-121 | every rarity the pattern finds is normalised to its initial, one of C, R, E, L, M |
| ScanRepo.ExtractMetaFromPath | core/scan_repo.py:98-122 | each key is one of its pattern's tokens; rarity is set iff its pattern matches, and then it is the first letter of the token found, always one of C, R, E, L, M |
| ScanRepo.DetectedIsLeftmost | core/scan_repo.py:98-110 | language, faction and set are each set iff their pattern matches, to the token chosen at the leftmost matching position, upper-cased |
| ScanRepo.FileKindFromTopdir | core/scan_repo.py:125-133 | the kind is "other" iff the folder is not one of the six top folders, and otherwise one of card, collection, rule, set, deck, history |
| ScanRepo.FolderKindsDistinct | core/scan_repo.py:125-133 | the six top folders map to six different kinds |
| ScanRepo.ProjectSpec | core/scan_repo.py:167-171 | `meta` exists iff the object has one of the nine keys, and then holds exactly those of the nine keys it has, with their values |
| ScanRepo.EntryOf | core/scan_repo.py:150-172 | an entry keeps its path, size and hash, takes its kind from the top folder and its detection from the path wrapped in "/"; `valid_json` is set iff a `.json` file parsed; `meta` exists iff the parsed content is an object holding one of the nine keys, and then holds exactly those of the nine keys the object has, with their values |
| ScanRepo.ProblemsSpec | core/scan_repo.py:160-163 | a problem is reported exactly for each `.json` file that does not parse, and for nothing else |
| ScanRepo.ProblemsAppend | core/scan_repo.py:160-163 | problems are reported in walk order: the problems of a walk over `a` then `b` are those of `a` followed by those of `b` |
| ScanRepo.Scan | core/scan_repo.py:136-174 | the scan yields one entry per file, the `j`-th being the entry of the `j`-th walked file, and the problems of the walk |
| ScanRepo.RowFallbacks | core/scan_repo.py:196-203 | a card row's rarity is the detected one, else the content's; its id falls back from id to ref to reference_id |
| ScanRepo.CardsIndexSpec | core/scan_repo.py:184-203 | each set's group lists the rows of the card entries of that set in order, and a set is present iff some card has it |
| ScanRepo.UnknownGroup | core/scan_repo.py:195 | a card falls into the UNKNOWN group iff no set was detected |
| ScanRepo.KindIndexSpec | core/scan_repo.py:185-209 | a kind index holds exactly the paths of entries of that kind, each mapped to the row of the last such entry |
| ScanRepo.BuildIndexes | core/scan_repo.py:184-209 | the cards index groups exactly the card rows by set, in scan order; each per-kind index holds exactly the paths of its own kind, each with its last entry's row; only collection rows record a size, and the set, rules, deck and history rows do not |
| ScanRepo.KindSizes | core/scan_repo.py:205-209 | a kind row has a size iff the kind is collection |

## Left out

- File walking, file reading and JSON decoding are left out. The model takes the walked files in order, each already parsed or with its load error. `rglob` order is whatever order the caller supplies.
- Printing, argparse, `sys.exit` and the printed summary text are left out. Only the verdict, the exit code and the summary's contents are modelled.
- The schema file arrives already parsed into rule records. The model does not check the types of schema values.
- The `id_pattern` regular expression, `json.dumps`, Unicode decomposition and case mapping in `norm_slug`, `str()`, and JSON object key order are function parameters. They are foreign library calls.
- SHA-1 and SHA-256 hashes, file sizes, `mtime` and generation timestamps are plain input fields or left out. They come from the file system and the clock.
- Python's equal-key merging of `1`, `1.0` and `True` in dictionaries and sets is not modelled. JSON values are compared structurally, and floating-point numbers are left out.
- Case-insensitive matching and `\d` are modelled for ASCII only. Only ASCII letters are case-mapped, and only ASCII digits are digits.
- Strings.Lower, Strings.Upper: ASCII only, for the same reason; Python also maps non-ASCII letters.
- Typed crash paths of the validator are not modelled. A non-string truthy `rarity`, `type`, `id` or `faction` makes Python raise; the model reads such a field as empty text.
- DeckFile.LookupCard: a truthy list or object `hero_id` makes `card_id in ctx.card_index` raise `TypeError` (UTILS/validate_repo.py:188), because it is unhashable; the model reports the hero as not found instead.
- DeckFile.LookupCard: the same holds for a truthy list or object `card_id` of a deck entry, which the model reports as a card not found instead of a crash.
- DeckFile.LoopNames: an unhashable `name` (a list or object in the card's `name` or `title`) makes `name_counts[name]` raise `TypeError` (UTILS/validate_repo.py:283); the model counts it like any other key.
- The manifest builder's crash paths are modelled only as "the build raises" (`None`), not with the exception raised.
- Manifest.ManifestEntriesCount: it assumes the walk yields distinct paths, which a directory walk does; Manifest.BuildEntries makes no such assumption.
- `tools/sync_to_vector_store.py`, `UTILS/cards_cli.py`, `UTILS/update_manifest_from_sets.py` and `UTILS/load_card_by_name.py` are not part of this model. They are a network client, a command-line wrapper, a globbing script and a wrapper around an unavailable plugin.
- `_load_card_meta` caches only hits, so a miss scans the card tree again on every lookup, although the index is described as a cache (UTILS/validate_repo.py:39). The model follows the code (`CardIndex.MissIsRescanned`).
- The scanner's documentation shows the path `CARDS/EN/ALIZE/AX/ALT_ALIZE_B_AX_37_C.json` detected with faction `AX` and rarity `C` (core/scan_repo.py:406-412). The code as written picks the leftmost faction token, so it detects faction `ALIZE`. It detects no rarity, because no segment is a rarity token. The model follows the code.

## Findings

| source | as written | input that shows it | evidently intended | confidence | as-written member | corrected member |
|---|---|---|---|---|---|---|
| UTILS/build_manifest_v2.py:79 | the counters start with the key `CARDS`, but card entries have kind `CARD` | one file `CARDS/EN/CORE/AX/X_C.json`: `counts["CARDS"]` stays 0 and a sixth counter `CARD` becomes 1 | the counter for card entries is keyed by the kind `CARD`, so `ALL` is the sum of the kind counters | not executed | Manifest.CardCountedUnderStrayKey | Manifest.ManifestCounts |
