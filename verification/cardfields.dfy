/**
 * `extract_card_fields` of the manifest builder and the way its result is
 * laid over the path-inferred metadata.
 */
module CardFields {
  import opened Wrappers
  import opened Json
  import opened ManifestPaths

  /** `d.get(a) or d.get(b) or ...`: the first truthy alias value, else the last alias's value. */
  function Alias(data: Json, names: seq<string>): Json {
    if |names| == 0 then JNull
    else if |names| == 1 then Get(data, names[0])
    else Or(Get(data, names[0]), Alias(data, names[1..]))
  }

  /**
   * An alias chain is truthy iff some alias holds a truthy value; it then
   * yields the value of the first such alias, and otherwise the last alias's
   * value.
   */
  lemma {:induction false} AliasSpec(data: Json, names: seq<string>)
    requires |names| > 0
    ensures var r := Alias(data, names);
            && (Truthy(r) <==> exists j :: 0 <= j < |names| && Truthy(Get(data, names[j])))
            && (Truthy(r) ==> exists j :: 0 <= j < |names| && r == Get(data, names[j])
                                          && forall i :: 0 <= i < j ==> !Truthy(Get(data, names[i])))
            && (!Truthy(r) ==> r == Get(data, names[|names| - 1]))
  {
    if |names| > 1 {
      var rest := names[1..];
      AliasSpec(data, rest);
      assert forall j :: 0 < j < |names| ==> names[j] == rest[j - 1];
      if !Truthy(Get(data, names[0])) && Truthy(Alias(data, rest)) {
        var j :| 0 <= j < |rest| && Alias(data, rest) == Get(data, rest[j])
                 && forall i :: 0 <= i < j ==> !Truthy(Get(data, rest[i]));
        assert Alias(data, names) == Get(data, names[j + 1]);
      }
    }
  }

  /** The aliased card fields. */
  datatype Field = Name | Rarity | Type | Reference | Faction | Lang | SetCode | HandCost | Power | Life

  /** The alias keys of each field, in the order they are tried. */
  function Aliases(f: Field): (r: seq<string>)
    ensures |r| > 0
  {
    match f
    case Name => ["name", "cardName", "title"]
    case Rarity => ["rarity", "rar"]
    case Type => ["type", "cardType"]
    case Reference => ["reference", "ref", "id"]
    case Faction => ["faction", "affinity"]
    case Lang => ["lang", "language", "locale"]
    case SetCode => ["set", "setCode", "expansion"]
    case HandCost => ["hand_cost", "cost", "handCost"]
    case Power => ["power", "attack", "atk"]
    case Life => ["life", "health", "hp"]
  }

  /** What `extract_card_fields` returns; `ctype` and `setCode` are the `type` and `set` keys. */
  datatype Card = Card(name: Json, rarity: Json, ctype: Json, reference: Json, faction: Json,
                       lang: Json, setCode: Json, unique: Json, keywords: Json,
                       handCost: Json, power: Json, life: Json)

  /** The value of an aliased field. */
  function FieldOf(c: Card, f: Field): Json {
    match f
    case Name => c.name
    case Rarity => c.rarity
    case Type => c.ctype
    case Reference => c.reference
    case Faction => c.faction
    case Lang => c.lang
    case SetCode => c.setCode
    case HandCost => c.handCost
    case Power => c.power
    case Life => c.life
  }

  /**
   * The `keywords` value: the first truthy of `keywords` and `keyword`, else an
   * empty list; a string becomes a one-element list.
   */
  function Keywords(data: Json): (r: Json)
    ensures r != JNull && !r.JStr?
    ensures Truthy(r) <==> Truthy(Get(data, "keywords")) || Truthy(Get(data, "keyword"))
    ensures !Truthy(r) ==> r == JArr([])
  {
    var names := ["keywords", "keyword"];
    var k := Or(Alias(data, names), JArr([]));
    AliasSpec(data, names);
    assert names[0] == "keywords" && names[1] == "keyword";
    if k.JStr? then JArr([k]) else k
  }

  /** `extract_card_fields`. */
  function ExtractCardFields(data: Json): (r: Card)
    ensures r.unique == JBool(Truthy(Get(data, "unique")))
    ensures r.keywords == Keywords(data)
  {
    Card(Alias(data, Aliases(Name)), Alias(data, Aliases(Rarity)), Alias(data, Aliases(Type)),
         Alias(data, Aliases(Reference)), Alias(data, Aliases(Faction)), Alias(data, Aliases(Lang)),
         Alias(data, Aliases(SetCode)), JBool(Truthy(Get(data, "unique"))), Keywords(data),
         Alias(data, Aliases(HandCost)), Alias(data, Aliases(Power)), Alias(data, Aliases(Life)))
  }

  /**
   * Each aliased field of `extract_card_fields` is truthy iff one of its
   * aliases is, and is then the value of the first truthy alias in order;
   * otherwise it is the last alias's value.
   */
  lemma ExtractFirstTruthy(data: Json, f: Field)
    ensures var v, names := FieldOf(ExtractCardFields(data), f), Aliases(f);
            && (Truthy(v) <==> exists j :: 0 <= j < |names| && Truthy(Get(data, names[j])))
            && (Truthy(v) ==> exists j :: 0 <= j < |names| && v == Get(data, names[j])
                                          && forall i :: 0 <= i < j ==> !Truthy(Get(data, names[i])))
            && (!Truthy(v) ==> v == Get(data, names[|names| - 1]))
  {
    assert FieldOf(ExtractCardFields(data), f) == Alias(data, Aliases(f));
    AliasSpec(data, Aliases(f));
  }

  /**
   * One manifest entry's metadata as a record: the path-inferred keys, the
   * card keys, and `name_slug`; None stands for an absent key. The size,
   * hash and modification time of the file are not modelled.
   */
  datatype Meta = Meta(kind: string, path: string,
                       lang: Option<Json>, setCode: Option<Json>, faction: Option<Json>,
                       reference: Option<Json>, rarity: Option<Json>,
                       name: Option<Json>, ctype: Option<Json>, unique: Option<Json>, keywords: Option<Json>,
                       handCost: Option<Json>, power: Option<Json>, life: Option<Json>,
                       nameSlug: Option<string>)

  function StrOpt(s: Option<string>): Option<Json> {
    match s
    case Some(v) => Some(JStr(v))
    case None => None
  }

  /** `infer_from_path(rel)` updated with `path`. */
  function FromPath(rel: string, pm: PathMeta): Meta {
    Meta(pm.kind, rel, StrOpt(pm.lang), StrOpt(pm.setCode), StrOpt(pm.faction), StrOpt(pm.reference),
         match pm.rarity case Some(l) => Some(JStr([l])) case None => None,
         None, None, None, None, None, None, None, None)
  }

  /** `meta[k] = v` for a card value that is not None. */
  function Override(prev: Option<Json>, v: Json): Option<Json> {
    if v != JNull then Some(v) else prev
  }

  /** The card's keys laid over the metadata, skipping those whose value is None. */
  function MergeCard(m: Meta, c: Card): Meta {
    m.(lang := Override(m.lang, c.lang), setCode := Override(m.setCode, c.setCode),
       faction := Override(m.faction, c.faction), reference := Override(m.reference, c.reference),
       rarity := Override(m.rarity, c.rarity), name := Override(m.name, c.name),
       ctype := Override(m.ctype, c.ctype), unique := Override(m.unique, c.unique),
       keywords := Override(m.keywords, c.keywords), handCost := Override(m.handCost, c.handCost),
       power := Override(m.power, c.power), life := Override(m.life, c.life))
  }

  /**
   * After merging, a path-inferred key keeps its path value exactly when the
   * card's value for it is None; a card value that is not None wins.
   */
  lemma MergePathKeys(rel: string, data: Json)
    ensures var pm, c := InferFromPath(rel), ExtractCardFields(data);
            var m := MergeCard(FromPath(rel, pm), c);
            && m.kind == pm.kind && m.path == rel
            && (c.reference == JNull ==> m.reference == StrOpt(pm.reference))
            && (c.reference != JNull ==> m.reference == Some(c.reference))
            && (c.setCode == JNull ==> m.setCode == StrOpt(pm.setCode))
            && (c.setCode != JNull ==> m.setCode == Some(c.setCode))
            && (c.faction == JNull ==> m.faction == StrOpt(pm.faction))
            && (c.faction != JNull ==> m.faction == Some(c.faction))
            && (c.lang == JNull ==> m.lang == StrOpt(pm.lang))
            && (c.lang != JNull ==> m.lang == Some(c.lang))
            && (c.rarity == JNull ==> m.rarity == (match pm.rarity case Some(l) => Some(JStr([l])) case None => None))
            && (c.rarity != JNull ==> m.rarity == Some(c.rarity))
            && (c.name == JNull ==> m.name.None?) && (c.name != JNull ==> m.name == Some(c.name))
            && (c.ctype == JNull ==> m.ctype.None?) && (c.ctype != JNull ==> m.ctype == Some(c.ctype))
            && m.unique == Some(c.unique) && m.keywords == Some(c.keywords)
  {
  }
}
