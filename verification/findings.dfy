/**
 * Findings, the validation context's `has_errors` / `has_warnings`, the
 * grouped summary and the OK/FAIL verdict with its exit code.
 */
module Findings {
  import opened Json
  import opened Paths

  datatype Level = Error | Warn

  /** One constructor per message the validators emit, carrying its data. */
  datatype Message =
    | LoadFailed(detail: Json)
      // card and collection items
    | NotAnObject(item: nat)
    | MissingField(item: nat, field: string)
    | IdMismatch(item: nat, id: string)
    | RarityNotAllowed(item: nat, rarity: string, allowed: set<string>)
    | EmptyType(item: nat)
    | CountOutOfRange(item: nat, count: int, lo: int, hi: int)
    | CountNotInteger(item: nat)
      // rules documents
    | MissingKeywords(missing: set<string>)
      // deck files: structure and hero
    | DeckNotObject
    | DeckMissingField(field: string)
    | CardsNotList
    | HeroMissing
    | HeroNotFound(heroId: Json)
    | HeroNotHero(heroId: Json, heroType: Json)
    | FactionMismatch(deckFaction: string, heroFaction: string)
      // deck files: entries of `cards`
    | EntryNotObject(entry: nat)
    | EntryInvalid(entry: nat)
    | CardNotFound(entry: nat, cardId: Json)
    | CardFactionMismatch(entry: nat, name: Json, faction: string, heroFaction: string)
    | TokenInDeck(entry: nat, name: Json)
      // deck files: totals
    | DeckSize(total: int, lo: int, hi: int)
    | TooManyCopies(max: int, name: Json, count: int)
    | TooManyRare(count: int, max: int)
    | TooManyUnique(count: int, max: int)
    | HeroCopies(found: int)

  datatype Finding = Finding(path: FilePath, level: Level, message: Message)

  /** Every finding of `fs` is about `path` and at `level`. */
  predicate AllAt(fs: seq<Finding>, path: FilePath, level: Level) {
    forall f :: f in fs ==> f.path == path && f.level == level
  }

  /** Findings about one file at one level stay so when concatenated. */
  lemma AllAtAppend(a: seq<Finding>, b: seq<Finding>, path: FilePath, level: Level)
    requires AllAt(a, path, level) && AllAt(b, path, level)
    ensures AllAt(a + b, path, level)
  {
  }

  /** `any(f.level == level for f in findings)`. */
  predicate AnyAt(fs: seq<Finding>, level: Level)
    decreases |fs|
  {
    |fs| > 0 && (fs[0].level == level || AnyAt(fs[1..], level))
  }

  lemma {:induction false} AnyAtIff(fs: seq<Finding>, level: Level)
    ensures AnyAt(fs, level) <==> exists i :: 0 <= i < |fs| && fs[i].level == level
    decreases |fs|
  {
    if |fs| > 0 {
      AnyAtIff(fs[1..], level);
      if !AnyAt(fs, level) {
        forall i | 0 <= i < |fs| ensures fs[i].level != level {
          if i > 0 { assert fs[i] == fs[1..][i - 1]; }
        }
      } else if fs[0].level != level {
        var j :| 0 <= j < |fs[1..]| && fs[1..][j].level == level;
        assert fs[j + 1].level == level;
      }
    }
  }

  predicate HasErrors(fs: seq<Finding>) { AnyAt(fs, Error) }
  predicate HasWarnings(fs: seq<Finding>) { AnyAt(fs, Warn) }

  /** `[f for f in findings if f.level == level]`. */
  function Select(fs: seq<Finding>, level: Level): (r: seq<Finding>)
    ensures |r| <= |fs|
    ensures forall k :: 0 <= k < |r| ==> r[k].level == level
    decreases |fs|
  {
    if |fs| == 0 then []
    else (if fs[0].level == level then [fs[0]] else []) + Select(fs[1..], level)
  }

  /** Selecting from a concatenation keeps discovery order across both parts. */
  lemma {:induction false} SelectAppend(a: seq<Finding>, b: seq<Finding>, level: Level)
    ensures Select(a + b, level) == Select(a, level) + Select(b, level)
    decreases |a|
  {
    if |a| > 0 {
      assert (a + b)[1..] == a[1..] + b;
      SelectAppend(a[1..], b, level);
    } else {
      assert a + b == b;
    }
  }

  lemma {:induction false} SelectNone(fs: seq<Finding>, level: Level)
    requires forall f :: f in fs ==> f.level != level
    ensures Select(fs, level) == []
    decreases |fs|
  {
    if |fs| > 0 {
      assert fs[0] in fs;
      SelectNone(fs[1..], level);
    }
  }

  lemma {:induction false} SelectAll(fs: seq<Finding>, level: Level)
    requires forall f :: f in fs ==> f.level == level
    ensures Select(fs, level) == fs
    decreases |fs|
  {
    if |fs| > 0 {
      assert fs[0] in fs;
      SelectAll(fs[1..], level);
    }
  }

  /** Errors and warnings together are a rearrangement of all findings. */
  lemma {:induction false} SelectPartition(fs: seq<Finding>)
    ensures multiset(Select(fs, Error) + Select(fs, Warn)) == multiset(fs)
    ensures |Select(fs, Error)| + |Select(fs, Warn)| == |fs|
    decreases |fs|
  {
    if |fs| > 0 {
      SelectPartition(fs[1..]);
      assert fs == [fs[0]] + fs[1..];
    }
  }

  /** An element is selected exactly when the level holds for some finding. */
  lemma {:induction false} SelectNonEmpty(fs: seq<Finding>, level: Level)
    ensures Select(fs, level) != [] <==> AnyAt(fs, level)
    decreases |fs|
  {
    if |fs| > 0 {
      SelectNonEmpty(fs[1..], level);
    }
  }

  datatype Status = OK | FAIL

  /** What `print_summary` reports: errors, then warnings, then the verdict. */
  datatype Summary = Summary(errors: seq<Finding>, warnings: seq<Finding>, indexedCards: nat, result: Status)

  /**
   * `print_summary`: errors first and warnings second, each in discovery
   * order; FAIL when there is an error, or a warning in strict mode.
   */
  function Summarize(fs: seq<Finding>, indexedCards: nat, strict: bool): (r: Summary)
    ensures r.errors == Select(fs, Error) && r.warnings == Select(fs, Warn)
    ensures multiset(r.errors + r.warnings) == multiset(fs)
    ensures forall k :: 0 <= k < |r.errors| ==> r.errors[k].level == Error
    ensures forall k :: 0 <= k < |r.warnings| ==> r.warnings[k].level == Warn
    ensures r.result == FAIL <==> (exists i :: 0 <= i < |fs| && fs[i].level == Error)
                                  || (strict && exists i :: 0 <= i < |fs| && fs[i].level == Warn)
  {
    var errs := Select(fs, Error);
    var warns := Select(fs, Warn);
    SelectPartition(fs);
    SelectNonEmpty(fs, Error);
    SelectNonEmpty(fs, Warn);
    AnyAtIff(fs, Error);
    AnyAtIff(fs, Warn);
    Summary(errs, warns, indexedCards, if errs != [] || (strict && warns != []) then FAIL else OK)
  }

  /** `main`'s exit status after validation: 1 on errors, or warnings when strict. */
  function ExitCode(fs: seq<Finding>, strict: bool): (code: int)
    ensures code == 0 || code == 1
    ensures code == 1 <==> (exists i :: 0 <= i < |fs| && fs[i].level == Error)
                           || (strict && exists i :: 0 <= i < |fs| && fs[i].level == Warn)
  {
    AnyAtIff(fs, Error);
    AnyAtIff(fs, Warn);
    if HasErrors(fs) || (strict && HasWarnings(fs)) then 1 else 0
  }

  /** The printed verdict and the process exit status always agree. */
  lemma VerdictMatchesExit(fs: seq<Finding>, indexedCards: nat, strict: bool)
    ensures Summarize(fs, indexedCards, strict).result == FAIL <==> ExitCode(fs, strict) == 1
  {
  }
}
