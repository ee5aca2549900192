/** The manifest of projected junctions: per item, the categories whose junction the daemon made. */
module CatManifests {
  import opened Collections
  import opened CategoryEdits

  type ItemId = string
  type Entries = map<ItemId, set<Category>>

  /** The categories recorded for one item; an absent item has none. */
  function Recorded(entries: Entries, id: ItemId): (r: set<Category>) {
    if id in entries then entries[id] else {}
  }

  /** No item is kept with an empty set. */
  ghost predicate Pruned(entries: Entries) {
    forall id :: id in entries ==> entries[id] != {}
  }

  /** Pruned manifests that record the same junctions are equal, so a fully emptied one equals the default. */
  lemma PrunedIsCanonical(a: Entries, b: Entries)
    requires Pruned(a) && Pruned(b)
    requires forall id :: Recorded(a, id) == Recorded(b, id)
    ensures a == b
  {
    forall id
      ensures id in a <==> id in b
      ensures id in a ==> a[id] == b[id]
    {
      assert Recorded(a, id) == Recorded(b, id);
    }
  }

  class CatManifest {
    var entries: Entries

    /** Load the entries found in the manifest file; a missing file yields none. */
    constructor (stored: Entries)
      ensures entries == stored
    {
      entries := stored;
    }

    method Insert(id: ItemId, c: Category)
      modifies this
      ensures forall o :: Recorded(entries, o) ==
                          if o == id then old(Recorded(entries, id)) + {c} else old(Recorded(entries, o))
      ensures old(Pruned(entries)) ==> Pruned(entries)
    {
      entries := entries[id := Recorded(entries, id) + {c}];
    }

    method Remove(id: ItemId, c: Category)
      modifies this
      ensures forall o :: Recorded(entries, o) ==
                          if o == id then old(Recorded(entries, id)) - {c} else old(Recorded(entries, o))
      ensures old(Pruned(entries)) ==> Pruned(entries)
    {
      if id in entries {
        var left := entries[id] - {c};
        if left == {} {
          entries := entries - {id};
        } else {
          entries := entries[id := left];
        }
      }
    }

    method RemoveItem(id: ItemId)
      modifies this
      ensures forall o :: Recorded(entries, o) == if o == id then {} else old(Recorded(entries, o))
      ensures old(Pruned(entries)) ==> Pruned(entries)
    {
      entries := entries - {id};
    }

    method Contains(id: ItemId, c: Category) returns (found: bool)
      ensures found <==> c in Recorded(entries, id)
    {
      found := id in entries && c in entries[id];
    }

    /** Inserting and removing a new record leaves the manifest exactly as it was. */
    method InsertThenRemove(id: ItemId, c: Category)
      requires Pruned(entries) && c !in Recorded(entries, id)
      modifies this
      ensures entries == old(entries)
    {
      Insert(id, c);
      Remove(id, c);
      PrunedIsCanonical(entries, old(entries));
    }
  }
}
