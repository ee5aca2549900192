/** Small facts about sequences and finite sets shared by the other modules. */
module Collections {

  datatype Option<+T> = None | Some(value: T)

  ghost predicate NoDuplicates<T(!new)>(s: seq<T>) {
    forall i, j :: 0 <= i < j < |s| ==> s[i] != s[j]
  }

  /** The elements of `s`, forgetting order and repetition. */
  function Elements<T>(s: seq<T>): (r: set<T>) {
    set x | x in s
  }

  /** `s` lists every element of `all` exactly once. */
  ghost predicate Enumerates<T(!new)>(s: seq<T>, all: set<T>) {
    NoDuplicates(s) && Elements(s) == all
  }

  /** The image of a finite set. */
  function Image<T, U>(f: T -> U, s: set<T>): (r: set<U>) {
    set x | x in s :: f(x)
  }

  lemma ImageInsert<T, U>(f: T -> U, s: set<T>, x: T)
    ensures Image(f, s + {x}) == Image(f, s) + {f(x)}
  {
  }

  lemma ElementsSnoc<T>(s: seq<T>, x: T)
    ensures Elements(s + [x]) == Elements(s) + {x}
  {
  }

  lemma PrefixSnoc<T>(s: seq<T>, i: nat)
    requires i < |s|
    ensures s[..i + 1] == s[..i] + [s[i]]
    ensures Elements(s[..i + 1]) == Elements(s[..i]) + {s[i]}
  {
  }

  lemma SubsetCardinality<T>(a: set<T>, b: set<T>)
    requires a <= b
    ensures |a| <= |b|
    ensures |a| == |b| ==> a == b
  {
    assert b == a + (b - a);
  }

  lemma {:induction false} ImageCardinality<T, U>(f: T -> U, s: set<T>)
    ensures |Image(f, s)| <= |s|
  {
    if s != {} {
      var x :| x in s;
      var rest := s - {x};
      ImageInsert(f, rest, x);
      assert rest + {x} == s;
      ImageCardinality(f, rest);
    }
  }

  /** A finite set contained in its own image is a fixed point of the image. */
  lemma ImageFixpoint<T>(f: T -> T, s: set<T>)
    requires s <= Image(f, s)
    ensures Image(f, s) == s
  {
    ImageCardinality(f, s);
    SubsetCardinality(s, Image(f, s));
  }
}
