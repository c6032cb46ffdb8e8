/**
 * The card index: identifiers mapped to card objects, filled first-seen-wins
 * by the card-file pass and extended on demand by `_load_card_meta`, which
 * scans the card tree for an identifier it does not hold yet.
 */
module CardIndex {
  import opened Wrappers
  import opened Json
  import opened Paths

  type Index = map<string, Json>

  /** A file of the tree: its path and what its text decodes to. */
  datatype RepoFile = RepoFile(path: FilePath, source: Source)

  /** `setdefault(id, obj)`: insert only when the identifier is new. */
  function SetDefault(idx: Index, id: string, obj: Json): (r: Index)
    ensures r.Keys == idx.Keys + {id}
    ensures forall k :: k in idx ==> r[k] == idx[k]
    ensures id !in idx ==> r[id] == obj
  {
    if id in idx then idx else idx[id := obj]
  }

  /** `isinstance(obj, dict) and obj.get("id") == id`. */
  predicate HasId(obj: Json, id: string) {
    obj.JObj? && Get(obj, "id") == JStr(id)
  }

  /** The first element of `items` that is a card object with identifier `id`. */
  function FirstInList(items: seq<Json>, id: string): (r: Option<Json>)
    ensures r.Some? ==> r.value in items && HasId(r.value, id)
    ensures r.None? <==> forall k :: 0 <= k < |items| ==> !HasId(items[k], id)
  {
    if |items| == 0 then None
    else if HasId(items[0], id) then Some(items[0])
    else
      var r := FirstInList(items[1..], id);
      assert forall k :: 1 <= k < |items| ==> items[k] == items[1..][k - 1];
      r
  }

  /** The file holds a card with identifier `id`, as a single object or as an array element. */
  predicate FileHolds(content: Json, id: string) {
    HasId(content, id) || (content.JArr? && exists k :: 0 <= k < |content.items| && HasId(content.items[k], id))
  }

  /** What one file of the lazy scan yields: the document itself, or the first matching array element. */
  function FileMatch(content: Json, id: string): (r: Option<Json>)
    ensures r.Some? ==> HasId(r.value, id)
    ensures r.Some? <==> FileHolds(content, id)
  {
    if HasId(content, id) then Some(content)
    else if content.JArr? then FirstInList(content.items, id)
    else None
  }

  /** What the scan takes from one file: nothing unless it is a card file. */
  function Scan(f: RepoFile, id: string): (r: Option<Json>)
    ensures r.Some? ==> HasId(r.value, id)
  {
    if LooksLikeCardFile(f.path) then FileMatch(LoadJson(f.source), id) else None
  }

  /** A file yields a card iff it is a card file holding the identifier. */
  lemma ScanSpec(f: RepoFile, id: string)
    ensures Scan(f, id).Some? <==> LooksLikeCardFile(f.path) && FileHolds(LoadJson(f.source), id)
  {
  }

  /**
   * The tree scan of `_load_card_meta`: card files in order; the first one
   * holding the identifier yields its matching object.
   */
  function FirstMatch(tree: seq<RepoFile>, id: string): (r: Option<Json>)
    ensures r.Some? ==> HasId(r.value, id)
  {
    if |tree| == 0 then None
    else match Scan(tree[0], id)
      case Some(card) => Some(card)
      case None => FirstMatch(tree[1..], id)
  }

  /**
   * The scan finds nothing iff no card file holds the identifier, and
   * otherwise answers from the first file that does.
   */
  lemma {:induction false} FirstMatchSpec(tree: seq<RepoFile>, id: string)
    ensures var r := FirstMatch(tree, id);
            && (r.None? <==> forall j :: 0 <= j < |tree| ==> Scan(tree[j], id).None?)
            && (r.Some? ==> exists j :: 0 <= j < |tree| && r == Scan(tree[j], id)
                                        && forall i :: 0 <= i < j ==> Scan(tree[i], id).None?)
  {
    if |tree| > 0 && Scan(tree[0], id).None? {
      var rest := tree[1..];
      FirstMatchSpec(rest, id);
      assert forall j :: 0 < j < |tree| ==> tree[j] == rest[j - 1];
      if FirstMatch(rest, id).Some? {
        var j :| 0 <= j < |rest| && FirstMatch(rest, id) == Scan(rest[j], id)
                 && forall i :: 0 <= i < j ==> Scan(rest[i], id).None?;
        assert FirstMatch(tree, id) == Scan(tree[j + 1], id);
      }
    }
  }

  /** The result of a lookup: the card found, the index afterwards, whether the tree was scanned. */
  datatype Lookup = Lookup(meta: Option<Json>, index: Index, scanned: bool)

  /**
   * `_load_card_meta`: an indexed identifier is answered from the index
   * without scanning; otherwise the tree is scanned, a hit is stored under
   * the identifier, and a miss is NOT stored, so the next lookup scans again.
   */
  function LoadCardMeta(idx: Index, tree: seq<RepoFile>, id: string): (r: Lookup)
    ensures id in idx ==> !r.scanned && r.index == idx && r.meta == Some(idx[id])
    ensures id !in idx ==> r.scanned && r.meta == FirstMatch(tree, id)
    ensures r.index == (if r.meta.Some? then idx[id := r.meta.value] else idx)
  {
    if id in idx then Lookup(Some(idx[id]), idx, false)
    else
      var found := FirstMatch(tree, id);
      if found.Some? then Lookup(found, idx[id := found.value], true)
      else Lookup(None, idx, true)
  }

  /** After a hit the identifier is cached: the next lookup answers the same without scanning. */
  lemma HitIsCached(idx: Index, tree: seq<RepoFile>, id: string)
    requires LoadCardMeta(idx, tree, id).meta.Some?
    ensures var first := LoadCardMeta(idx, tree, id);
            var again := LoadCardMeta(first.index, tree, id);
            !again.scanned && again.meta == first.meta && again.index == first.index
  {
  }

  /** After a miss nothing is cached: the next lookup scans the tree again. */
  lemma MissIsRescanned(idx: Index, tree: seq<RepoFile>, id: string)
    requires LoadCardMeta(idx, tree, id).meta.None?
    ensures var first := LoadCardMeta(idx, tree, id);
            var again := LoadCardMeta(first.index, tree, id);
            id !in first.index && again.scanned && again == first
  {
  }

  /**
   * The index `idx` is `base` extended only by scan results: every key of
   * `base` keeps its card, and every added key holds what the scan finds.
   */
  ghost predicate Coherent(base: Index, tree: seq<RepoFile>, idx: Index) {
    && (forall k :: k in base ==> k in idx && idx[k] == base[k])
    && (forall k :: k in idx && k !in base ==> FirstMatch(tree, k) == Some(idx[k]))
  }

  /** The answer a lookup would give without any caching of scan results. */
  function Resolve(base: Index, tree: seq<RepoFile>, id: string): Option<Json> {
    if id in base then Some(base[id]) else FirstMatch(tree, id)
  }

  /**
   * Caching is transparent: on a coherent index a lookup answers exactly
   * what the uncached resolution answers, and the index stays coherent.
   */
  lemma LookupCoherent(base: Index, tree: seq<RepoFile>, idx: Index, id: string)
    requires Coherent(base, tree, idx)
    ensures LoadCardMeta(idx, tree, id).meta == Resolve(base, tree, id)
    ensures Coherent(base, tree, LoadCardMeta(idx, tree, id).index)
  {
  }

  /** Coherent extension composes: extending an extension of `base` by scan results is an extension of `base`. */
  lemma CoherentTrans(base: Index, tree: seq<RepoFile>, mid: Index, idx: Index)
    requires Coherent(base, tree, mid) && Coherent(mid, tree, idx)
    ensures Coherent(base, tree, idx)
  {
  }

  /** Coherence is a property of the index's contents. */
  lemma CoherentEq(base: Index, tree: seq<RepoFile>, a: Index, b: Index)
    requires Coherent(base, tree, a) && a == b
    ensures Coherent(base, tree, b)
  {
  }

  /** Resolution against a coherent extension answers as resolution against `base` does. */
  lemma ResolveCoherent(base: Index, tree: seq<RepoFile>, idx: Index, id: string)
    requires Coherent(base, tree, idx)
    ensures Resolve(idx, tree, id) == Resolve(base, tree, id)
  {
  }
}
