/** Category paths as slash-separated strings, and the prefix rewriting done when a category tree moves. */
module CategoryPaths {
  import opened Collections
  import opened CategoryEdits

  /** `c` is `p` itself or lies below it: the string test used by the rename code. */
  predicate Under(p: Category, c: Category) {
    c == p || p + "/" <= c
  }

  /** The path components of `c`; splitting never yields an empty list. */
  function Components(c: Category): (r: seq<string>)
    ensures |r| > 0
  {
    if c == "" then [""]
    else
      var rest := Components(c[1..]);
      if c[0] == '/' then [""] + rest else [[c[0]] + rest[0]] + rest[1..]
  }

  /** The new path of `c` when the tree at `from` moves to `to`, if it is part of that tree. */
  function Remap(from: Category, to: Category, c: Category): (r: Option<Category>) {
    if c == from then Some(to)
    else if from + "/" <= c then Some(to + "/" + c[|from| + 1..])
    else None
  }

  /** Where `c` ends up when the whole tree moves at once. */
  function Moved(from: Category, to: Category, c: Category): (r: Category) {
    var target := Remap(from, to, c);
    if target.Some? then target.value else c
  }

  /** Simultaneous substitution of `from` by `to` in a set of categories. */
  function Substitute(from: Category, to: Category, s: set<Category>): (r: set<Category>) {
    set c | c in s :: Moved(from, to, c)
  }

  /** The moved path keeps its tail, so `Remap` is defined exactly on the tree and lands below `to`. */
  lemma RemapShape(from: Category, to: Category, c: Category)
    ensures Remap(from, to, c).Some? <==> Under(from, c)
    ensures Under(from, c) ==> c == from + c[|from|..] && Moved(from, to, c) == to + c[|from|..]
    ensures Under(from, c) ==> Under(to, Moved(from, to, c))
  {
  }

  lemma RemapInjective(from: Category, to: Category, c: Category, d: Category)
    requires Under(from, c) && Under(from, d) && Moved(from, to, c) == Moved(from, to, d)
    ensures c == d
  {
    RemapShape(from, to, c);
    RemapShape(from, to, d);
    var m := Moved(from, to, c);
    assert m[|to|..] == c[|from|..];
    assert m[|to|..] == d[|from|..];
  }

  /** Moving a tree and moving it back restores every path of that tree. */
  lemma MoveBack(from: Category, to: Category, c: Category)
    requires Under(from, c)
    ensures Moved(to, from, Moved(from, to, c)) == c
  {
  }

  /** Two trees that share a path are nested. */
  lemma UnderBoth(p: Category, q: Category, c: Category)
    requires Under(p, c) && Under(q, c)
    ensures Under(p, q) || Under(q, p)
  {
    if |p| < |q| {
      assert p + "/" <= c && q <= c;
      assert q[..|p| + 1] == c[..|p| + 1] == p + "/";
    } else if |q| < |p| {
      assert q + "/" <= c && p <= c;
      assert p[..|q| + 1] == c[..|q| + 1] == q + "/";
    } else {
      assert p == c[..|p|] && q == c[..|q|];
    }
  }

  /** The slash-separated string with the given components. */
  function Join(parts: seq<string>): (r: string)
    requires |parts| > 0
  {
    if |parts| == 1 then parts[0] else parts[0] + "/" + Join(parts[1..])
  }

  lemma {:induction false} JoinComponents(c: Category)
    ensures Join(Components(c)) == c
  {
    if c != "" {
      JoinComponents(c[1..]);
      var rest := Components(c[1..]);
      var all := Components(c);
      assert c == [c[0]] + c[1..];
      if c[0] == '/' {
        assert all[1..] == rest;
      } else {
        assert all[1..] == rest[1..];
      }
    }
  }

  lemma {:induction false} JoinAppend(a: seq<string>, b: seq<string>)
    requires |a| > 0 && |b| > 0
    ensures Join(a + b) == Join(a) + "/" + Join(b)
  {
    if |a| == 1 {
      assert (a + b)[1..] == b;
    } else {
      JoinAppend(a[1..], b);
      assert (a + b)[1..] == a[1..] + b;
      assert a[0] + "/" + (Join(a[1..]) + "/" + Join(b)) == a[0] + "/" + Join(a[1..]) + "/" + Join(b);
    }
  }

  lemma {:induction false} ComponentsBelow(p: Category, c: Category)
    requires p + "/" <= c
    ensures Components(c) == Components(p) + Components(c[|p| + 1..])
    decreases |p|
  {
    if p != "" {
      var p', c' := p[1..], c[1..];
      assert p + "/" == [p[0]] + (p' + "/");
      ComponentsBelow(p', c');
      assert c'[|p'| + 1..] == c[|p| + 1..];
      assert c[0] == p[0];
    }
  }

  /** The string test agrees with the prefix relation on path components. */
  lemma UnderIsComponentPrefix(p: Category, c: Category)
    ensures Under(p, c) <==> Components(p) <= Components(c)
  {
    if p + "/" <= c {
      ComponentsBelow(p, c);
    }
    if Components(p) <= Components(c) {
      ComponentPrefixIsUnder(p, c);
    }
  }

  lemma ComponentPrefixIsUnder(p: Category, c: Category)
    requires Components(p) <= Components(c)
    ensures Under(p, c)
  {
    var parts := Components(p);
    var tail := Components(c)[|parts|..];
    assert Components(c) == parts + tail;
    JoinComponents(p);
    JoinComponents(c);
    if tail == [] {
      assert parts + tail == parts;
    } else {
      JoinAppend(parts, tail);
      assert p + "/" <= p + "/" + Join(tail);
    }
  }

  /**
    Renaming a tree and renaming it back is the identity on any set of categories that had nothing below the new
    name, however the two names are related.
   */
  lemma RenameBack(from: Category, to: Category, s: set<Category>)
    requires forall c :: c in s ==> !Under(to, c)
    ensures Substitute(to, from, Substitute(from, to, s)) == s
  {
    forall c | c in s
      ensures Moved(to, from, Moved(from, to, c)) == c
    {
      RemapShape(from, to, c);
      RemapShape(to, from, c);
      if Under(from, c) { MoveBack(from, to, c); }
    }
    var there := Substitute(from, to, s);
    forall c | c in s
      ensures c in Substitute(to, from, there)
    {
      assert Moved(from, to, c) in there;
    }
  }
}
