/** The category part of one item's `metadata.toml` and the in-place edit applied to it. */
module CategoryEdits {
  import opened Collections

  type Category = string

  /** `categories` is the top-level array, `removed` the tombstones in `[state].removed_categories`. */
  datatype Metadata = Metadata(categories: seq<Category>, removed: seq<Category>)

  /** Append `value` unless the array already holds it. */
  function ArrayInsert(list: seq<Category>, value: Category): (r: seq<Category>) {
    if value in list then list else list + [value]
  }

  /** Drop every occurrence of `value`, keeping the order of the rest. */
  function ArrayRemove(list: seq<Category>, value: Category): (r: seq<Category>)
    ensures Elements(r) == Elements(list) - {value}
  {
    if list == [] then []
    else
      assert Elements(list) == {list[0]} + Elements(list[1..]);
      var rest := ArrayRemove(list[1..], value);
      if list[0] == value then rest
      else
        assert Elements([list[0]] + rest) == {list[0]} + Elements(rest);
        [list[0]] + rest
  }

  function InsertAll(list: seq<Category>, values: seq<Category>): (r: seq<Category>)
    ensures Elements(r) == Elements(list) + Elements(values)
    decreases values
  {
    if values == [] then list
    else
      assert Elements(values) == {values[0]} + Elements(values[1..]);
      InsertAll(ArrayInsert(list, values[0]), values[1..])
  }

  function RemoveAll(list: seq<Category>, values: seq<Category>): (r: seq<Category>)
    ensures Elements(r) == Elements(list) - Elements(values)
    decreases values
  {
    if values == [] then list
    else
      assert Elements(values) == {values[0]} + Elements(values[1..]);
      RemoveAll(ArrayRemove(list, values[0]), values[1..])
  }

  /** `add`, then `remove`, then `drop`; `remove` leaves tombstones, `add` and `drop` clear them. */
  function ApplyCategoryEdits(
    text: Metadata, add: seq<Category>, remove: seq<Category>, drop: seq<Category>): (edited: Metadata)
  {
    Metadata(
      RemoveAll(InsertAll(text.categories, add), remove + drop),
      InsertAll(RemoveAll(text.removed, add + drop), remove))
  }

  /**
    What the edit means, for every combination of lists, overlapping ones included: a category that is both added
    and removed ends up removed and tombstoned, one both added and dropped simply disappears.
   */
  lemma EditMeaning(text: Metadata, add: seq<Category>, remove: seq<Category>, drop: seq<Category>, c: Category)
    ensures
      var edited := ApplyCategoryEdits(text, add, remove, drop);
      && (c in edited.categories <==> (c in text.categories || c in add) && c !in remove && c !in drop)
      && (c in edited.removed <==> c in remove || (c in text.removed && c !in add && c !in drop))
  {
    var edited := ApplyCategoryEdits(text, add, remove, drop);
    assert c in edited.categories <==> c in Elements(edited.categories);
    assert c in edited.removed <==> c in Elements(edited.removed);
    assert c in Elements(text.categories) <==> c in text.categories;
    assert c in Elements(remove + drop) <==> c in remove || c in drop;
    assert c in Elements(add + drop) <==> c in add || c in drop;
    assert c in Elements(add) <==> c in add;
    assert c in Elements(remove) <==> c in remove;
    assert c in Elements(text.removed) <==> c in text.removed;
  }

  // ---------- the order of the entries ----------

  /** `r` consists of the entries of `all` at the positions that `keep` names, in their order. */
  ghost predicate Selection(all: seq<Category>, r: seq<Category>, keep: set<int>) {
    exists f: seq<nat> :: Selects(all, r, keep, f)
  }

  ghost predicate Selects(all: seq<Category>, r: seq<Category>, keep: set<int>, f: seq<nat>) {
    && |f| == |r|
    && (forall i :: 0 <= i < |f| ==> f[i] < |all| && r[i] == all[f[i]])
    && (forall i, j :: 0 <= i < j < |f| ==> f[i] < f[j])
    && forall p :: 0 <= p < |all| ==> (p in f <==> p in keep)
  }

  lemma {:induction false} RemoveAllSnoc(list: seq<Category>, x: Category, values: seq<Category>)
    ensures RemoveAll(list + [x], values) == RemoveAll(list, values) + if x in values then [] else [x]
    decreases values
  {
    if values != [] {
      ArrayRemoveSnoc(list, x, values[0]);
      if x == values[0] {
        assert ArrayRemove(list, x) + [] == ArrayRemove(list, x);
        assert RemoveAll(list, values) + [] == RemoveAll(list, values);
      } else {
        RemoveAllSnoc(ArrayRemove(list, values[0]), x, values[1..]);
      }
    }
  }

  lemma {:induction false} ArrayRemoveSnoc(list: seq<Category>, x: Category, value: Category)
    ensures ArrayRemove(list + [x], value) == ArrayRemove(list, value) + if x == value then [] else [x]
  {
    if list != [] {
      ArrayRemoveSnoc(list[1..], x, value);
      assert (list + [x])[1..] == list[1..] + [x];
    } else {
      assert ([] + [x])[1..] == [];
    }
  }

  lemma {:induction false} InsertAllSnoc(list: seq<Category>, values: seq<Category>, x: Category)
    ensures InsertAll(list, values + [x]) == ArrayInsert(InsertAll(list, values), x)
    decreases values
  {
    if values != [] {
      InsertAllSnoc(ArrayInsert(list, values[0]), values[1..], x);
      assert (values + [x])[1..] == values[1..] + [x];
    } else {
      assert ([] + [x])[1..] == [];
    }
  }

  /** One more entry at the end, which is selected or not. */
  lemma SelectOneMore(all: seq<Category>, r: seq<Category>, keep: set<int>, f: seq<nat>, x: Category) returns (g: seq<nat>)
    requires Selects(all, r, keep, f)
    ensures Selects(all + [x], if (|all| in keep) then r + [x] else r, keep, g)
  {
    g := if (|all| in keep) then f + [|all|] else f;
  }

  /** Removing selects what is not among the values. */
  lemma {:induction false} RemoveSelects(list: seq<Category>, values: seq<Category>, keep: set<int>) returns (f: seq<nat>)
    requires forall p :: 0 <= p < |list| ==> (p in keep <==> list[p] !in values)
    ensures Selects(list, RemoveAll(list, values), keep, f)
  {
    if list == [] {
      RemoveFromNone(values);
      return [];
    }
    hide RemoveAll, Selects;
    var n := |list| - 1;
    f := RemoveSelects(list[..n], values, keep);
    RemoveAllSnoc(list[..n], list[n], values);
    assert list == list[..n] + [list[n]];
    f := SelectOneMore(list[..n], RemoveAll(list[..n], values), keep, f, list[n]);
    assert RemoveAll(list[..n], values) + [] == RemoveAll(list[..n], values);
  }

  lemma {:induction false} RemoveFromNone(values: seq<Category>)
    ensures RemoveAll([], values) == []
  {
    if values != [] { RemoveFromNone(values[1..]); }
  }

  /** Inserting appends a selection of the values: what is not there already. */
  lemma {:induction false} InsertSelects(list: seq<Category>, values: seq<Category>, n: nat, keep: set<int>)
    returns (added: seq<Category>, f: seq<nat>)
    requires n <= |values|
    requires forall p :: 0 <= p < |values| ==> (p in keep <==> NewAt(list, values, p))
    ensures InsertAll(list, values[..n]) == list + added
    ensures Selects(values[..n], added, keep, f)
  {
    hide InsertAll, Selects, NewAt;
    if n == 0 {
      InsertNone(list, values, keep);
      return [], [];
    }
    added, f := InsertSelects(list, values, n - 1, keep);
    added, f := AppendNew(list, values, n - 1, keep, added, f);
  }

  lemma InsertNone(list: seq<Category>, values: seq<Category>, keep: set<int>)
    ensures InsertAll(list, values[..0]) == list + []
    ensures Selects(values[..0], [], keep, [])
  {
    assert list + [] == list;
  }

  lemma AppendNew(list: seq<Category>, values: seq<Category>, n: nat, keep: set<int>, some: seq<Category>, f: seq<nat>)
    returns (added: seq<Category>, g: seq<nat>)
    requires n < |values| && (n in keep <==> NewAt(list, values, n))
    requires Selects(values[..n], some, keep, f) && InsertAll(list, values[..n]) == list + some
    ensures Selects(values[..n + 1], added, keep, g) && InsertAll(list, values[..n + 1]) == list + added
  {
    hide InsertAll, Selects, NewAt;
    InsertOneMore(list, values, n);
    assert values[..n + 1] == values[..n] + [values[n]];
    g := SelectOneMore(values[..n], some, keep, f, values[n]);
    added := if n in keep then some + [values[n]] else some;
    assert list + some + [values[n]] == list + (some + [values[n]]);
  }

  lemma InsertSelection(list: seq<Category>, values: seq<Category>) returns (added: seq<Category>)
    ensures InsertAll(list, values) == list + added
    ensures Selection(values, added, set p | 0 <= p < |values| && NewAt(list, values, p))
  {
    hide NewAt, Selects, InsertAll;
    var f;
    added, f := InsertSelects(list, values, |values|, set p | 0 <= p < |values| && NewAt(list, values, p));
    assert values[..|values|] == values;
  }

  /** An entry that is neither in the list nor among the values before it. */
  predicate NewAt(list: seq<Category>, values: seq<Category>, p: int)
    requires 0 <= p < |values|
  {
    values[p] !in list && values[p] !in values[..p]
  }

  lemma InsertOneMore(list: seq<Category>, values: seq<Category>, n: nat)
    requires n < |values|
    ensures InsertAll(list, values[..n + 1]) ==
            if NewAt(list, values, n) then InsertAll(list, values[..n]) + [values[n]] else InsertAll(list, values[..n])
  {
    hide InsertAll;
    var front, x := values[..n], values[n];
    assert values[..n + 1] == front + [x];
    InsertAllSnoc(list, front, x);
    assert x in Elements(InsertAll(list, front)) <==> x in Elements(list) || x in Elements(front);
  }

  /** A selection from a selection. */
  lemma SelectTwice(all: seq<Category>, some: seq<Category>, r: seq<Category>, keep: set<int>, also: set<int>,
                    both: set<int>, gone: seq<Category>, f: seq<nat>, g: seq<nat>) returns (h: seq<nat>)
    requires Selects(all, some, keep, f) && Selects(some, r, also, g)
    requires forall i :: 0 <= i < |some| ==> (i in also <==> some[i] !in gone)
    requires forall p :: 0 <= p < |all| ==> (p in both <==> p in keep && all[p] !in gone)
    ensures Selects(all, r, both, h)
  {
    h := seq(|g|, i requires 0 <= i < |g| => f[g[i]]);
    forall p | 0 <= p < |all| && p in both
      ensures p in h
    {
      var i :| 0 <= i < |f| && f[i] == p;
      var k :| 0 <= k < |g| && g[k] == i;
      assert h[k] == p;
    }
    forall k | 0 <= k < |h|
      ensures h[k] in both
    {
      assert g[k] in g && f[g[k]] in f;
    }
  }

  /**
    Order is kept: the edited array consists of the entries that stay, in the order and as often as they were, and then
    of the added ones that are new and stay, in the order they were given; likewise the tombstones.
   */
  lemma EditOrder(text: Metadata, add: seq<Category>, remove: seq<Category>, drop: seq<Category>)
    ensures
      var edited := ApplyCategoryEdits(text, add, remove, drop);
      exists kept, added ::
        && edited.categories == kept + added
        && Selection(text.categories, kept,
                     set p | 0 <= p < |text.categories| && text.categories[p] !in remove && text.categories[p] !in drop)
        && Selection(add, added, set p |
             && 0 <= p < |add| && NewAt(text.categories, add, p) && add[p] !in remove && add[p] !in drop)
    ensures
      var edited := ApplyCategoryEdits(text, add, remove, drop);
      exists kept, added ::
        && edited.removed == kept + added
        && Selection(text.removed, kept,
                     set p | 0 <= p < |text.removed| && text.removed[p] !in add && text.removed[p] !in drop)
        && Selection(remove, added, set p | 0 <= p < |remove| && NewAt(kept, remove, p))
  {
    hide Selection, NewAt, InsertAll, RemoveAll;
    var kept, added := CategoriesOrder(text.categories, add, remove, drop);
    kept, added := TombstonesOrder(text.removed, add, remove, drop);
  }

  lemma CategoriesOrder(list: seq<Category>, add: seq<Category>, remove: seq<Category>, drop: seq<Category>)
    returns (kept: seq<Category>, added: seq<Category>)
    ensures RemoveAll(InsertAll(list, add), remove + drop) == kept + added
    ensures Selection(list, kept, set p | 0 <= p < |list| && list[p] !in remove && list[p] !in drop)
    ensures Selection(add, added, set p |
              && 0 <= p < |add| && NewAt(list, add, p) && add[p] !in remove && add[p] !in drop)
  {
    hide *;
    var news := InsertedStay(list, add, remove, drop);
    RemoveSelection(list, remove, drop);
    RemoveAllAppend(list, news, remove + drop);
    kept, added := RemoveAll(list, remove + drop), RemoveAll(news, remove + drop);
  }

  lemma RemoveSelection(list: seq<Category>, a: seq<Category>, b: seq<Category>)
    ensures Selection(list, RemoveAll(list, a + b), set p | 0 <= p < |list| && list[p] !in a && list[p] !in b)
  {
    hide Selects, RemoveAll;
    var f := RemoveSelects(list, a + b, set p | 0 <= p < |list| && list[p] !in a && list[p] !in b);
  }

  /** The new entries, and those of them that are not removed again. */
  lemma InsertedStay(list: seq<Category>, add: seq<Category>, a: seq<Category>, b: seq<Category>)
    returns (news: seq<Category>)
    ensures InsertAll(list, add) == list + news
    ensures Selection(add, RemoveAll(news, a + b), set p |
              && 0 <= p < |add| && NewAt(list, add, p) && add[p] !in a && add[p] !in b)
  {
    hide NewAt, Selects, RemoveAll, InsertAll;
    var gone := a + b;
    var isNew := set p | 0 <= p < |add| && NewAt(list, add, p);
    var f;
    assert add[..|add|] == add;
    news, f := InsertSelects(list, add, |add|, isNew);
    var stays := set i | 0 <= i < |news| && news[i] !in gone;
    var g := RemoveSelects(news, gone, stays);
    var both := set p | 0 <= p < |add| && NewAt(list, add, p) && add[p] !in a && add[p] !in b;
    var h := SelectTwice(add, news, RemoveAll(news, gone), isNew, stays, both, gone, f, g);
  }

  lemma {:induction false} RemoveAllAppend(a: seq<Category>, b: seq<Category>, values: seq<Category>)
    ensures RemoveAll(a + b, values) == RemoveAll(a, values) + RemoveAll(b, values)
  {
    if b == [] {
      assert a + b == a;
      RemoveFromNone(values);
    } else {
      var n := |b| - 1;
      RemoveAllAppend(a, b[..n], values);
      RemoveAllSnoc(a + b[..n], b[n], values);
      RemoveAllSnoc(b[..n], b[n], values);
      assert a + b == (a + b[..n]) + [b[n]] && b == b[..n] + [b[n]];
    }
  }

  lemma TombstonesOrder(list: seq<Category>, add: seq<Category>, remove: seq<Category>, drop: seq<Category>)
    returns (kept: seq<Category>, added: seq<Category>)
    ensures InsertAll(RemoveAll(list, add + drop), remove) == kept + added
    ensures Selection(list, kept, set p | 0 <= p < |list| && list[p] !in add && list[p] !in drop)
    ensures Selection(remove, added, set p | 0 <= p < |remove| && NewAt(kept, remove, p))
  {
    hide *;
    kept := RemoveAll(list, add + drop);
    RemoveSelection(list, add, drop);
    added := InsertSelection(kept, remove);
  }
}
