/** The registry of open collections (core/collectionlist.go): a map from collection name to
    collection, guarded in Go by a read-write lock that this model leaves out. */
module CollectionList {
  import Collections

  class CollectionList {
    var collections: map<string, Collections.Collection>

    /** Each collection is registered under its own name. */
    ghost predicate Valid()
      reads this, collections.Values
    {
      forall n :: n in collections ==> collections[n].name == n
    }

    /** The registry `init` makes: empty. */
    constructor ()
      ensures Valid() && collections == map[]
    {
      collections := map[];
    }

    /** `Add`: register the collection under its name, replacing whatever was registered under
        that name; a new name adds one entry, a known name keeps the count. */
    method Add(collection: Collections.Collection)
      requires Valid()
      modifies this
      ensures Valid()
      ensures collections == old(collections)[collection.name := collection]
      ensures collection.name in old(collections) ==> |collections| == |old(collections)|
      ensures collection.name !in old(collections) ==> |collections| == |old(collections)| + 1
    {
      collections := collections[collection.name := collection];
      assert collections.Keys == old(collections).Keys + {collection.name};
    }

    /** `Get`: the collection registered under `name`, and whether there is one. */
    method Get(name: string) returns (collection: Collections.Collection?, ok: bool)
      ensures ok <==> name in collections
      ensures ok ==> collection == collections[name]
      ensures !ok ==> collection == null
    {
      if name in collections {
        return collections[name], true;
      }
      return null, false;
    }

    /** `Delete`: forget `name`; every other entry stays, and an unknown name changes nothing. */
    method Delete(name: string)
      requires Valid()
      modifies this
      ensures Valid()
      ensures collections == old(collections) - {name}
      ensures name !in old(collections) ==> collections == old(collections)
      ensures name in old(collections) ==> |collections| == |old(collections)| - 1
    {
      collections := collections - {name};
      assert collections.Keys == old(collections).Keys - {name};
    }

    /** `Len`: the number of registered names. */
    method Len() returns (n: int)
      ensures n == |collections| == |collections.Keys|
    {
      return |collections|;
    }

    /** `List`: every registered collection exactly once, in no particular order (Go's map
        iteration order is unspecified; here the order is whatever the choice of the next key
        gives). */
    method List() returns (indexes: seq<Collections.Collection>)
      requires Valid()
      ensures |indexes| == |collections|
      ensures forall i :: 0 <= i < |indexes| ==> indexes[i].name in collections && collections[indexes[i].name] == indexes[i]
      ensures forall n :: n in collections ==> collections[n] in indexes
      ensures forall i, j :: 0 <= i < j < |indexes| ==> indexes[i] != indexes[j]
    {
      indexes := [];
      var rest := collections.Keys;
      ghost var names: seq<string> := [];
      while rest != {}
        invariant rest <= collections.Keys && |names| == |indexes|
        invariant forall i :: 0 <= i < |names| ==> names[i] in collections && names[i] !in rest
        invariant forall i :: 0 <= i < |names| ==> indexes[i] == collections[names[i]]
        invariant forall n :: n in collections && n !in rest ==> n in names
        invariant forall i, j :: 0 <= i < j < |names| ==> names[i] != names[j]
        invariant |names| + |rest| == |collections|
        decreases |rest|
      {
        var name :| name in rest;
        names, indexes := names + [name], indexes + [collections[name]];
        rest := rest - {name};
      }
      forall i | 0 <= i < |indexes|
        ensures indexes[i].name in collections && collections[indexes[i].name] == indexes[i]
      {
        assert indexes[i].name == names[i];
      }
      forall n | n in collections
        ensures collections[n] in indexes
      {
        var i :| 0 <= i < |names| && names[i] == n;
        assert indexes[i] == collections[n];
      }
    }
  }
}
