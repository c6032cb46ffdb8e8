/**
 * `name_counts`: a Python dict from display name to copy count, kept as an
 * association list so that iteration follows insertion order.
 */
module NameCounts {
  import opened Json

  type Counts = seq<(Json, int)>

  /** The names listed. */
  function Names(c: Counts): set<Json>
    decreases |c|
  {
    if |c| == 0 then {} else {c[0].0} + Names(c[1..])
  }

  /** Each name occurs at most once. */
  predicate Distinct(c: Counts)
    decreases |c|
  {
    |c| == 0 || (c[0].0 !in Names(c[1..]) && Distinct(c[1..]))
  }

  /** `name_counts.get(name, 0)`. */
  function CountOf(c: Counts, name: Json): int
    decreases |c|
  {
    if |c| == 0 then 0
    else if c[0].0 == name then c[0].1
    else CountOf(c[1..], name)
  }

  /**
   * `name_counts[name] = name_counts.get(name, 0) + qty`: an existing name
   * keeps its position, a new name is appended.
   */
  function Add(c: Counts, name: Json, qty: int): (r: Counts)
    ensures |r| == |c| || |r| == |c| + 1
    ensures forall i :: 0 <= i < |c| ==> r[i].0 == c[i].0
    ensures |r| == |c| + 1 ==> r[|c|] == (name, qty)
    decreases |c|
  {
    if |c| == 0 then [(name, qty)]
    else if c[0].0 == name then [(name, c[0].1 + qty)] + c[1..]
    else
      var rest := Add(c[1..], name, qty);
      assert forall i :: 1 <= i < |c| ==> c[i] == c[1..][i - 1];
      [c[0]] + rest
  }

  /** Adding changes the count of `name` by `qty` and no other count. */
  lemma {:induction false} AddCounts(c: Counts, name: Json, qty: int, other: Json)
    ensures CountOf(Add(c, name, qty), other) == CountOf(c, other) + (if other == name then qty else 0)
    decreases |c|
  {
    if |c| > 0 && c[0].0 != name {
      AddCounts(c[1..], name, qty, other);
    }
  }

  /** Adding lists exactly one more name, `name`, and appends only when `name` was new. */
  lemma {:induction false} AddNames(c: Counts, name: Json, qty: int)
    ensures Names(Add(c, name, qty)) == Names(c) + {name}
    ensures |Add(c, name, qty)| == |c| + 1 <==> name !in Names(c)
    decreases |c|
  {
    if |c| > 0 {
      var r := Add(c, name, qty);
      if c[0].0 != name {
        AddNames(c[1..], name, qty);
        assert r[1..] == Add(c[1..], name, qty);
      } else {
        assert r[1..] == c[1..];
      }
    }
  }

  /** Adding keeps the names distinct. */
  lemma {:induction false} AddDistinct(c: Counts, name: Json, qty: int)
    requires Distinct(c)
    ensures Distinct(Add(c, name, qty))
    decreases |c|
  {
    if |c| > 0 {
      var r := Add(c, name, qty);
      if c[0].0 != name {
        AddDistinct(c[1..], name, qty);
        AddNames(c[1..], name, qty);
        assert r[1..] == Add(c[1..], name, qty);
      } else {
        assert r[1..] == c[1..];
      }
    }
  }

  /** With distinct names, a listed pair carries the name's count. */
  lemma {:induction false} ListedCount(c: Counts, i: int)
    requires Distinct(c) && 0 <= i < |c|
    ensures CountOf(c, c[i].0) == c[i].1
    decreases |c|
  {
    if i > 0 {
      assert c[1..][i - 1] == c[i];
      assert c[i].0 in Names(c[1..]) by { NamesListed(c[1..], i - 1); }
      ListedCount(c[1..], i - 1);
    }
  }

  /** Every listed pair's name is in `Names`. */
  lemma {:induction false} NamesListed(c: Counts, i: int)
    requires 0 <= i < |c|
    ensures c[i].0 in Names(c)
    decreases |c|
  {
    if i > 0 {
      assert c[1..][i - 1] == c[i];
      NamesListed(c[1..], i - 1);
    }
  }
}
