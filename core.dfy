/** The service entry points (core/core.go) and the collection constructor (core/collection.go):
    guard chains over the registry of open collections, the search-option defaults and the
    service-wide statistics. The registry is the one `CollectionList` the Go code keeps in a
    package variable, passed here as a parameter. */
module Core {
  import opened Types
  import opened CoreTypes
  import opened MetadataTable
  import Engine
  import Segments
  import Collections
  import CollectionList

  // ---------------------------------------------------------------------------------
  // Search options

  const DefaultTopK: int := 30
  const DefaultTimeout: int := 60
  const DefaultNProbe: int := 128
  const DefaultReorder: int := 128

  /** `CheckSearchOpt`: every option left at zero takes its default. Go updates the caller's
      value in place; here the updated value is returned. */
  function CheckSearchOpt(opt: QueryOpt): (r: QueryOpt)
    ensures r.topK != 0 && r.timeout != 0 && r.nProbe != 0 && r.reorder != 0
    ensures opt.topK != 0 ==> r.topK == opt.topK
    ensures opt.timeout != 0 ==> r.timeout == opt.timeout
    ensures opt.nProbe != 0 ==> r.nProbe == opt.nProbe
    ensures opt.reorder != 0 ==> r.reorder == opt.reorder
    ensures opt.topK == 0 ==> r.topK == DefaultTopK
    ensures opt.timeout == 0 ==> r.timeout == DefaultTimeout
    ensures opt.nProbe == 0 ==> r.nProbe == DefaultNProbe
    ensures opt.reorder == 0 ==> r.reorder == DefaultReorder
  {
    var topK := if opt.topK == 0 then DefaultTopK else opt.topK;
    var timeout := if opt.timeout == 0 then DefaultTimeout else opt.timeout;
    var nProbe := if opt.nProbe == 0 then DefaultNProbe else opt.nProbe;
    var reorder := if opt.reorder == 0 then DefaultReorder else opt.reorder;
    QueryOpt(topK, nProbe, reorder, timeout)
  }

  /** Filling in the defaults twice is filling them in once; options with no zero field are
      left as they are. */
  lemma CheckSearchOptIdempotent(opt: QueryOpt)
    ensures CheckSearchOpt(CheckSearchOpt(opt)) == CheckSearchOpt(opt)
    ensures opt.topK != 0 && opt.timeout != 0 && opt.nProbe != 0 && opt.reorder != 0 ==>
              CheckSearchOpt(opt) == opt
  {
  }

  // ---------------------------------------------------------------------------------
  // Collections in the registry

  /** `utils.Join(dataPath, name)`, without `path.Join`'s cleaning. */
  function CollectionWorkDir(dataPath: string, name: string): string
  {
    dataPath + "/" + name
  }

  /** The error every entry point gives for a name that is not registered. */
  function NotExists(name: string): string
  {
    "collection [" + name + "] not exists"
  }

  /** `NewCollection`: refuse a registered name, then a negative dimension; otherwise an empty
      collection in `dataPath/name`, registered under its name. Creating the directory is left
      out. */
  method NewCollection(registry: CollectionList.CollectionList, dataPath: string, name: string, dim: int)
    returns (r: Result<Collections.Collection, string>)
    requires registry.Valid()
    modifies registry
    ensures registry.Valid()
    ensures name in old(registry.collections) ==>
              r == Failure("collection is exist") && registry.collections == old(registry.collections)
    ensures name !in old(registry.collections) && dim < 0 ==>
              r == Failure("NewCollection dim can not smaller than 0") && registry.collections == old(registry.collections)
    ensures name !in old(registry.collections) && dim >= 0 ==>
              && r.Success? && fresh(r.value) && r.value.Valid()
              && r.value.name == name && r.value.dim == dim && r.value.workDir == CollectionWorkDir(dataPath, name)
              && r.value.segments == [] && r.value.maxSegmentId == 0
              && registry.collections == old(registry.collections)[name := r.value]
  {
    var collectionPath := CollectionWorkDir(dataPath, name);
    var _, ok := registry.Get(name);
    if ok {
      return Failure("collection is exist");
    }
    if dim < 0 {
      return Failure("NewCollection dim can not smaller than 0");
    }
    var col := new Collections.Collection(name, collectionPath, dim);
    registry.Add(col);
    return Success(col);
  }

  /** `CreateCollection`: refuse an empty name, a dimension that is not positive and a name
      already registered, in that order and leaving the registry as it was; otherwise create and
      register the collection. */
  method CreateCollection(registry: CollectionList.CollectionList, dataPath: string, collectionName: string, dim: int)
    returns (r: Result<Collections.Collection, string>)
    requires registry.Valid()
    modifies registry
    ensures registry.Valid()
    ensures r.Success? <==> collectionName != "" && dim > 0 && collectionName !in old(registry.collections)
    ensures r.Failure? ==> registry.collections == old(registry.collections)
    ensures collectionName == "" ==> r == Failure("collection name is empty")
    ensures collectionName != "" && dim <= 0 ==> r == Failure("dim must be greater than 0")
    ensures collectionName != "" && dim > 0 && collectionName in old(registry.collections) ==>
              r == Failure("collection [" + collectionName + "] already exists")
    ensures r.Success? ==>
              && fresh(r.value) && r.value.Valid() && r.value.name == collectionName && r.value.dim == dim
              && r.value.segments == []
              && registry.collections == old(registry.collections)[collectionName := r.value]
  {
    if collectionName == "" {
      return Failure("collection name is empty");
    }
    if dim <= 0 {
      return Failure("dim must be greater than 0");
    }
    var _, ok := registry.Get(collectionName);
    if ok {
      return Failure("collection [" + collectionName + "] already exists");
    }
    r := NewCollection(registry, dataPath, collectionName, dim);
  }

  /** `DropCollection` with `Collection.Drop`: an unknown name is an error; otherwise the
      segments and the directory are removed (file-system work whose outcome `dropError` stands
      for) and, when that succeeds, the name leaves the registry. */
  method DropCollection(registry: CollectionList.CollectionList, collectionName: string, dropError: Option<string>)
    returns (err: Option<string>)
    requires registry.Valid()
    modifies registry
    ensures registry.Valid()
    ensures collectionName !in old(registry.collections) ==>
              err == Some(NotExists(collectionName)) && registry.collections == old(registry.collections)
    ensures collectionName in old(registry.collections) && dropError.Some? ==>
              err == dropError && registry.collections == old(registry.collections)
    ensures collectionName in old(registry.collections) && dropError.None? ==>
              err.None? && registry.collections == old(registry.collections) - {collectionName}
  {
    var collection, ok := registry.Get(collectionName);
    if !ok {
      return Some(NotExists(collectionName));
    }
    if dropError.Some? {
      return dropError;
    }
    registry.Delete(collection.name);
    return None;
  }

  // ---------------------------------------------------------------------------------
  // Document operations: the checks before the call goes to the collection

  /** `AddDocument`: an unknown collection, an empty vqid and a document without vectors are
      refused in that order; otherwise the document goes to the collection returned. */
  method AddDocument(registry: CollectionList.CollectionList, collectionName: string, doc: AddDocumentRequest)
    returns (err: Option<string>, target: Collections.Collection?)
    ensures err.None? <==> collectionName in registry.collections && doc.vqid != "" && |doc.vectors| > 0
    ensures err.None? ==> target == registry.collections[collectionName]
    ensures collectionName !in registry.collections ==> err == Some(NotExists(collectionName))
    ensures collectionName in registry.collections && doc.vqid == "" ==> err == Some("vqid is empty")
    ensures collectionName in registry.collections && doc.vqid != "" && |doc.vectors| == 0 ==>
              err == Some("vectors is empty")
  {
    var collection, ok := registry.Get(collectionName);
    if !ok {
      return Some(NotExists(collectionName)), null;
    }
    if doc.vqid == "" {
      return Some("vqid is empty"), null;
    }
    if |doc.vectors| == 0 {
      return Some("vectors is empty"), null;
    }
    return None, collection;
  }

  /** `BatchAddDocuments`: an unknown collection and an empty batch are refused; otherwise the
      batch goes to the collection returned. */
  method BatchAddDocuments(registry: CollectionList.CollectionList, collectionName: string, documents: seq<AddDocumentRequest>)
    returns (err: Option<string>, target: Collections.Collection?)
    ensures err.None? <==> collectionName in registry.collections && |documents| > 0
    ensures err.None? ==> target == registry.collections[collectionName]
    ensures collectionName !in registry.collections ==> err == Some(NotExists(collectionName))
    ensures collectionName in registry.collections && |documents| == 0 ==> err == Some("documents is empty")
  {
    var collection, ok := registry.Get(collectionName);
    if !ok {
      return Some(NotExists(collectionName)), null;
    }
    if |documents| == 0 {
      return Some("documents is empty"), null;
    }
    return None, collection;
  }

  /** The segment tables of the collection registered under `name`, or nothing. */
  function TablesUnder(registry: CollectionList.CollectionList, name: string): set<SegmentMetadata>
    reads registry, if name in registry.collections then {registry.collections[name]} else {}
  {
    if name in registry.collections then
      set s | s in registry.collections[name].segments :: s.table
    else {}
  }

  /** `DeleteDocument`: an unknown collection and an empty vqid are refused with count 0 and
      nothing deleted; otherwise every segment of the collection tombstones its first live
      record with the vqid, and the count is the number of segments that had one. */
  method DeleteDocument(registry: CollectionList.CollectionList, collectionName: string, vqid: string)
    returns (deletedCount: int, err: Option<string>)
    requires collectionName in registry.collections ==> registry.collections[collectionName].Valid()
    modifies TablesUnder(registry, collectionName)
    ensures collectionName !in registry.collections ==> deletedCount == 0 && err == Some(NotExists(collectionName))
    ensures collectionName in registry.collections && vqid == "" ==>
              var col := registry.collections[collectionName];
              && deletedCount == 0 && err == Some("vqid is empty")
              && forall i :: 0 <= i < |col.segments| ==>
                   col.segments[i].table.metadata == old(col.segments[i].table.metadata)
    ensures collectionName in registry.collections && vqid != "" ==>
              var col := registry.collections[collectionName];
              && err.None?
              && deletedCount == Collections.DeletedCount(old(Collections.TablesOf(col.segments)), vqid)
              && forall i :: 0 <= i < |col.segments| ==>
                   col.segments[i].table.metadata == DeleteFirst(old(col.segments[i].table.metadata), vqid)
  {
    var collection, ok := registry.Get(collectionName);
    if !ok {
      return 0, Some(NotExists(collectionName));
    }
    if vqid == "" {
      return 0, Some("vqid is empty");
    }
    deletedCount := collection.DeleteDocument(vqid);
    err := None;
  }

  /** `UpdateDocumentMetadata`: an unknown collection and an empty vqid are refused with count
      0 and nothing changed; otherwise every live record with the vqid gets the new metadata,
      and the count is how many there were. */
  method UpdateDocumentMetadata(registry: CollectionList.CollectionList, collectionName: string, doc: UpdateDocumentMetadataRequest)
    returns (updatedCount: int, err: Option<string>)
    requires collectionName in registry.collections ==> registry.collections[collectionName].Valid()
    modifies TablesUnder(registry, collectionName)
    ensures collectionName !in registry.collections ==> updatedCount == 0 && err == Some(NotExists(collectionName))
    ensures collectionName in registry.collections && doc.vqid == "" ==>
              var col := registry.collections[collectionName];
              && updatedCount == 0 && err == Some("vqid is empty")
              && forall i :: 0 <= i < |col.segments| ==>
                   col.segments[i].table.metadata == old(col.segments[i].table.metadata)
    ensures collectionName in registry.collections && doc.vqid != "" ==>
              var col := registry.collections[collectionName];
              && err.None?
              && updatedCount == Collections.UpdatedCount(old(Collections.TablesOf(col.segments)), doc.vqid)
              && forall i :: 0 <= i < |col.segments| ==>
                   col.segments[i].table.metadata ==
                     UpdateData(old(col.segments[i].table.metadata), doc.vqid, doc.metadata)
  {
    var collection, ok := registry.Get(collectionName);
    if !ok {
      return 0, Some(NotExists(collectionName));
    }
    if doc.vqid == "" {
      return 0, Some("vqid is empty");
    }
    updatedCount := collection.UpdateDocumentMetadata(doc);
    err := None;
  }

  /** `GetDocumentMetadata`: an unknown collection is refused; otherwise the collection's
      matches for the vqid. */
  method GetDocumentMetadata(registry: CollectionList.CollectionList, collectionName: string, vqid: string, checkDuplicate: bool)
    returns (r: Result<seq<DocumentMetadataResult>, string>)
    ensures collectionName !in registry.collections <==> r == Failure(NotExists(collectionName))
    ensures collectionName in registry.collections ==>
              var col := registry.collections[collectionName];
              r == Success(Collections.Gathered(Collections.SegmentIds(col.segments), Collections.TablesOf(col.segments),
                                                vqid, checkDuplicate))
  {
    var collection, ok := registry.Get(collectionName);
    if !ok {
      return Failure(NotExists(collectionName));
    }
    var list := collection.GetDocumentMetadata(vqid, checkDuplicate);
    return Success(list);
  }

  // ---------------------------------------------------------------------------------
  // Service statistics

  function SumTotalIndexSize(cs: seq<CollectionStatistics>): int
  {
    if cs == [] then 0 else SumTotalIndexSize(cs[..|cs| - 1]) + cs[|cs| - 1].totalIndexSize
  }

  function SumTotalDocCount(cs: seq<CollectionStatistics>): int
  {
    if cs == [] then 0 else SumTotalDocCount(cs[..|cs| - 1]) + cs[|cs| - 1].docCount
  }

  /** Appending one collection's statistics adds its figures to both sums. */
  lemma TotalsSnoc(cs: seq<CollectionStatistics>, x: CollectionStatistics)
    ensures SumTotalIndexSize(cs + [x]) == SumTotalIndexSize(cs) + x.totalIndexSize
    ensures SumTotalDocCount(cs + [x]) == SumTotalDocCount(cs) + x.docCount
  {
    assert (cs + [x])[..|cs|] == cs;
  }

  /** What a collection's statistics call needs: one engine report per segment, and an index
      in every segment. */
  ghost predicate Reportable(col: Collections.Collection, raws: seq<Engine.RawStats>)
    reads col, col.segments
  {
    |raws| == |col.segments| && forall i :: 0 <= i < |col.segments| ==> col.segments[i].index != null
  }

  /** `Statistics`: one entry per registered collection, each under the name it is registered
      by and with that collection's segment count, the number of entries, and the sums of the
      collections' index sizes and document counts. `raws[name]` is what the engines of that
      collection's segments report. */
  method Statistics(registry: CollectionList.CollectionList, raws: map<string, seq<Engine.RawStats>>)
    returns (r: VQLiteStatistics)
    requires registry.Valid()
    requires forall n :: n in registry.collections ==> n in raws && Reportable(registry.collections[n], raws[n])
    ensures r.collectionCount == |r.collections| == |registry.collections|
    ensures forall i :: 0 <= i < |r.collections| ==>
              && r.collections[i].collectionName in registry.collections
              && r.collections[i].segmentCount == |registry.collections[r.collections[i].collectionName].segments|
              && Collections.StatsOf(registry.collections[r.collections[i].collectionName],
                                     raws[r.collections[i].collectionName], r.collections[i])
    ensures forall i, j :: 0 <= i < j < |r.collections| ==>
              r.collections[i].collectionName != r.collections[j].collectionName
    ensures r.totalIndexSize == SumTotalIndexSize(r.collections)
    ensures r.docCount == SumTotalDocCount(r.collections)
  {
    var cols := registry.List();
    var collections, totalIndexSize, docCount := CollectionsStatistics(cols, raws);
    assert forall i :: 0 <= i < |cols| ==> collections[i].collectionName == cols[i].name;
    return VQLiteStatistics(collections, |cols|, totalIndexSize, docCount);
  }

  /** Entry `i` of `stats` is the statistics of `cols[i]`, for every entry. */
  ghost predicate StatsOfEach(cols: seq<Collections.Collection>, raws: map<string, seq<Engine.RawStats>>,
                              stats: seq<CollectionStatistics>)
    reads set c, o | c in cols && o in Collections.StatsFootprint(c) :: o
  {
    && |stats| <= |cols|
    && forall i :: 0 <= i < |stats| ==>
         cols[i].name in raws && Collections.StatsOf(cols[i], raws[cols[i].name], stats[i])
  }

  /** Appending the next collection's statistics keeps every entry the statistics of its
      collection. */
  lemma StatsSnoc(cols: seq<Collections.Collection>, raws: map<string, seq<Engine.RawStats>>,
                  stats: seq<CollectionStatistics>, x: CollectionStatistics)
    requires |stats| < |cols| && cols[|stats|].name in raws
    requires StatsOfEach(cols, raws, stats)
    requires Collections.StatsOf(cols[|stats|], raws[cols[|stats|].name], x)
    ensures StatsOfEach(cols, raws, stats + [x])
  {
    forall i | 0 <= i <= |stats|
      ensures cols[i].name in raws && Collections.StatsOf(cols[i], raws[cols[i].name], (stats + [x])[i])
    {
      if i < |stats| {
        assert (stats + [x])[i] == stats[i];
      }
    }
  }

  /** The loop of `Statistics`, over the collections in the order listed. */
  method CollectionsStatistics(cols: seq<Collections.Collection>, raws: map<string, seq<Engine.RawStats>>)
    returns (stats: seq<CollectionStatistics>, totalIndexSize: int, docCount: int)
    requires forall i :: 0 <= i < |cols| ==> cols[i].name in raws && Reportable(cols[i], raws[cols[i].name])
    ensures |stats| == |cols|
    ensures forall i :: 0 <= i < |cols| ==>
              stats[i].collectionName == cols[i].name && stats[i].segmentCount == |cols[i].segments|
    ensures forall i :: 0 <= i < |cols| ==> Collections.StatsOf(cols[i], raws[cols[i].name], stats[i])
    ensures totalIndexSize == SumTotalIndexSize(stats) && docCount == SumTotalDocCount(stats)
  {
    stats, totalIndexSize, docCount := [], 0, 0;
    var k := 0;
    while k < |cols|
      invariant 0 <= k <= |cols| && |stats| == k
      invariant StatsOfEach(cols, raws, stats)
      invariant totalIndexSize == SumTotalIndexSize(stats) && docCount == SumTotalDocCount(stats)
    {
      var col := cols[k];
      var collectionStatistics := col.Statistics(raws[col.name]);
      TotalsSnoc(stats, collectionStatistics);
      StatsSnoc(cols, raws, stats, collectionStatistics);
      stats := stats + [collectionStatistics];
      totalIndexSize := totalIndexSize + collectionStatistics.totalIndexSize;
      docCount := docCount + collectionStatistics.docCount;
      k := k + 1;
    }
  }
}
