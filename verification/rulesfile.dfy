/**
 * `validate_rules_file`: PDF documents pass unread; JSON documents are
 * searched, as lower-cased serialised text, for the indicative keywords.
 */
module RulesFile {
  import opened Json
  import opened Strings
  import opened Paths
  import opened Schema
  import opened Findings

  /**
   * The configured keywords, lower-cased, that do not occur in `blob`.
   * As in `validate_rules_file`, this is a set: its listing order is unspecified.
   */
  function AbsentKeywords(keywords: seq<string>, blob: string): (r: set<string>)
    ensures forall kw :: kw in r <==> (exists k :: k in keywords && Lower(k) == kw) && !Contains(blob, kw)
  {
    set k | k in keywords && !Contains(blob, Lower(k)) :: Lower(k)
  }

  /**
   * `validate_rules_file`. `dumps` stands for `json.dumps`, whose output the
   * source lower-cases before searching it.
   */
  function ValidateRulesFile(path: FilePath, src: Source, rule: FileRule, dumps: Json -> string): (r: seq<Finding>)
    ensures forall f :: f in r ==> f.path == path
    ensures IsPdf(path) ==> r == []
    ensures !IsPdf(path) && IsLoadError(LoadJson(src)) ==>
              r == [Finding(path, Error, LoadFailed(Get(LoadJson(src), "__load_error__")))]
    ensures !IsPdf(path) && !IsLoadError(LoadJson(src)) ==>
              (r != [] <==> exists k :: k in rule.requiredKeywords && !Contains(Lower(dumps(LoadJson(src))), Lower(k)))
    ensures !IsPdf(path) && !IsLoadError(LoadJson(src)) && r != [] ==>
              r == [Finding(path, Warn, MissingKeywords(AbsentKeywords(rule.requiredKeywords, Lower(dumps(LoadJson(src))))))]
  {
    if IsPdf(path) then []
    else
      var data := LoadJson(src);
      if IsLoadError(data) then [Finding(path, Error, LoadFailed(Get(data, "__load_error__")))]
      else
        var missing := AbsentKeywords(rule.requiredKeywords, Lower(dumps(data)));
        if missing != {} then [Finding(path, Warn, MissingKeywords(missing))] else []
  }
}
