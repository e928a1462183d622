/** A segment (core/segment.go): a document table plus one vector index. A new document
    takes the next slot of the table as its document id, and each of its vectors gets the
    vector id that packs that document id with the vector's tag. */
module Segments {
  import opened Types
  import opened CoreTypes
  import VecId
  import Vecs
  import Engine
  import opened MetadataTable

  // ---------------------------------------------------------------------------------
  // Vector ids of a document

  /** What Go's types guarantee of a request: tags are `int64`, lengths fit an `int`. */
  predicate WellFormed(doc: AddDocumentRequest)
  {
    && |doc.vectors| < TwoTo63 && |doc.vectorsTag| < TwoTo63
    && forall t :: 0 <= t < |doc.vectorsTag| ==> IsInt64(doc.vectorsTag[t])
  }

  /** The number of tags of a document: its own tags, or one per vector when it gives none. */
  function TagCount(doc: AddDocumentRequest): nat
  {
    if doc.vectorsTag == [] then |doc.vectors| else |doc.vectorsTag|
  }

  /** Tag `i`: the position itself when the document gives no tags. */
  function TagAt(doc: AddDocumentRequest, i: nat): (r: int)
    requires WellFormed(doc) && i < TagCount(doc)
    ensures IsInt64(r)
  {
    if doc.vectorsTag == [] then i else doc.vectorsTag[i]
  }

  /** The vector ids of the first `n` tags, leaving out those whose encoding fails. */
  function VectorIds(docId: int, doc: AddDocumentRequest, n: nat): (r: seq<int>)
    requires IsInt64(docId) && WellFormed(doc) && n <= TagCount(doc)
    ensures |r| <= n
    ensures forall t :: 0 <= t < |r| ==> IsInt64(r[t])
  {
    if n == 0 then []
    else
      var e := VecId.EncodeVectorId(docId, TagAt(doc, n - 1));
      VectorIds(docId, doc, n - 1) + if e.Success? then [e.value] else []
  }

  /** The vector ids of a whole document. */
  function DocumentVectorIds(docId: int, doc: AddDocumentRequest): seq<int>
    requires IsInt64(docId) && WellFormed(doc)
  {
    VectorIds(docId, doc, TagCount(doc))
  }

  /** Every tag of the document fits the low 32 bits of a vector id. */
  predicate TagsInRange(doc: AddDocumentRequest)
    requires WellFormed(doc)
  {
    forall i :: 0 <= i < TagCount(doc) ==> 0 <= TagAt(doc, i) <= VecId.MaxUint32
  }

  /** When the document id and all tags are in range, no id is left out and each one decodes
      to the document and the tag. */
  lemma {:induction false} VectorIdsDecode(docId: int, doc: AddDocumentRequest, n: nat)
    requires 0 <= docId < TwoTo31 && WellFormed(doc) && TagsInRange(doc) && n <= TagCount(doc)
    ensures |VectorIds(docId, doc, n)| == n
    ensures forall i :: 0 <= i < n ==> VecId.DecodeVectorId(VectorIds(docId, doc, n)[i]) == (docId, TagAt(doc, i))
  {
    if n > 0 {
      VectorIdsDecode(docId, doc, n - 1);
      VecId.RoundTrip(docId, TagAt(doc, n - 1));
    }
  }

  /** In a batch each vector is looked up by its tag's position, so a tag past the last
      vector must be one whose encoding fails (otherwise the lookup is out of range):
      encoding fails exactly when a part exceeds `MaxUint32`. */
  predicate TagsFit(docId: int, doc: AddDocumentRequest)
    requires IsInt64(docId) && WellFormed(doc)
  {
    forall i :: |doc.vectors| <= i < TagCount(doc) ==> docId > VecId.MaxUint32 || TagAt(doc, i) > VecId.MaxUint32
  }

  /** The (vector id, vector) pairs of the first `n` tags of a document. */
  function VectorPairs(docId: int, doc: AddDocumentRequest, n: nat): (r: seq<(int, seq<Float32>)>)
    requires IsInt64(docId) && WellFormed(doc) && TagsFit(docId, doc) && n <= TagCount(doc)
  {
    if n == 0 then []
    else
      var e := VecId.EncodeVectorId(docId, TagAt(doc, n - 1));
      VectorPairs(docId, doc, n - 1) + if e.Success? then [(e.value, doc.vectors[n - 1])] else []
  }

  /** The ids of a list of pairs. */
  function Ids(ps: seq<(int, seq<Float32>)>): (r: seq<int>)
    ensures |r| == |ps|
  {
    seq(|ps|, t requires 0 <= t < |ps| => ps[t].0)
  }

  /** The vectors of a list of pairs. */
  function Vectors(ps: seq<(int, seq<Float32>)>): (r: seq<seq<Float32>>)
    ensures |r| == |ps|
  {
    seq(|ps|, t requires 0 <= t < |ps| => ps[t].1)
  }

  /** A batch whose documents take the slots `start, start + 1, ...` is well formed:
      every document is, and its tags fit its vectors. */
  predicate BatchWellFormed(start: int, docs: seq<AddDocumentRequest>)
  {
    && 0 <= start && start + |docs| <= TwoTo63
    && (docs == [] ||
        var n := |docs|;
        BatchWellFormed(start, docs[..n - 1]) && WellFormed(docs[n - 1]) && TagsFit(start + n - 1, docs[n - 1]))
  }

  /** Every prefix of a well-formed batch is one. */
  lemma {:induction false} BatchPrefix(start: int, docs: seq<AddDocumentRequest>, k: nat)
    requires BatchWellFormed(start, docs) && k <= |docs|
    ensures BatchWellFormed(start, docs[..k])
  {
    if k < |docs| {
      var front := docs[..|docs| - 1];
      BatchPrefix(start, front, k);
      assert front[..k] == docs[..k];
    } else {
      assert docs[..k] == docs;
    }
  }

  /** The slots of a batch stay below 2^31 and all its tags fit 32 bits: the domain where
      vector ids decode back to their documents. */
  predicate BatchInRange(start: int, docs: seq<AddDocumentRequest>)
    requires BatchWellFormed(start, docs)
  {
    && start + |docs| <= TwoTo31
    && (docs == [] ||
        var n := |docs|;
        BatchInRange(start, docs[..n - 1]) && TagsInRange(docs[n - 1]))
  }

  /** The (vector id, vector) pairs of a batch, document after document. */
  function BatchPairs(start: int, docs: seq<AddDocumentRequest>): (r: seq<(int, seq<Float32>)>)
    requires BatchWellFormed(start, docs)
  {
    if docs == [] then []
    else
      var n := |docs|;
      BatchPairs(start, docs[..n - 1]) + VectorPairs(start + n - 1, docs[n - 1], TagCount(docs[n - 1]))
  }

  /** Every pair in `ps` has an id in the id range of the slots `[lo, hi)`. */
  predicate PairsWithin(ps: seq<(int, seq<Float32>)>, lo: int, hi: int)
  {
    forall t :: 0 <= t < |ps| ==> lo * 0x1_0000_0000 <= ps[t].0 < hi * 0x1_0000_0000
  }

  lemma PairsWithinConcat(a: seq<(int, seq<Float32>)>, b: seq<(int, seq<Float32>)>, lo: int, mid: int, hi: int)
    requires PairsWithin(a, lo, mid) && PairsWithin(b, mid, hi) && lo <= mid <= hi
    ensures PairsWithin(a + b, lo, hi)
  {
    forall t | 0 <= t < |a + b|
      ensures lo * 0x1_0000_0000 <= (a + b)[t].0 < hi * 0x1_0000_0000
    {
      if t < |a| {
        assert (a + b)[t] == a[t];
      } else {
        assert (a + b)[t] == b[t - |a|];
      }
    }
  }

  /** An id in the range of the slots `[lo, hi)` decodes to one of them. */
  lemma DecodeWithin(vid: int, lo: int, hi: int)
    requires IsInt64(vid) && lo * TwoTo32 <= vid < hi * TwoTo32
    ensures lo <= VecId.DecodeVectorId(vid).0 < hi
  {
    var d := VecId.DecodeVectorId(vid);
    assert d.0 * TwoTo32 + d.1 == vid;
  }

  /** The ids of one document lie in the range of its own slot. */
  lemma DocumentPairsWithin(docId: int, doc: AddDocumentRequest)
    requires 0 <= docId < TwoTo31 && WellFormed(doc) && TagsInRange(doc) && TagsFit(docId, doc)
    ensures PairsWithin(VectorPairs(docId, doc, TagCount(doc)), docId, docId + 1)
  {
    var ids := DocumentVectorIds(docId, doc);
    var ps := VectorPairs(docId, doc, TagCount(doc));
    VectorIdsDecode(docId, doc, TagCount(doc));
    IdsOfVectorPairs(docId, doc, TagCount(doc));
    forall t | 0 <= t < |ps|
      ensures docId * 0x1_0000_0000 <= ps[t].0 < (docId + 1) * 0x1_0000_0000
    {
      var d := VecId.DecodeVectorId(ids[t]);
      assert Ids(ps)[t] == ps[t].0;
      assert d.0 * TwoTo32 + d.1 == ids[t] == ps[t].0;
    }
  }

  /** The ids of a document's pairs are its vector ids. */
  lemma {:induction false} IdsOfVectorPairs(docId: int, doc: AddDocumentRequest, n: nat)
    requires IsInt64(docId) && WellFormed(doc) && TagsFit(docId, doc) && n <= TagCount(doc)
    ensures Ids(VectorPairs(docId, doc, n)) == VectorIds(docId, doc, n)
  {
    if n > 0 {
      IdsOfVectorPairs(docId, doc, n - 1);
      var e := VecId.EncodeVectorId(docId, TagAt(doc, n - 1));
      if e.Success? {
        PairsSnoc(VectorPairs(docId, doc, n - 1), (e.value, doc.vectors[n - 1]));
      }
    }
  }

  lemma PairsConcat(a: seq<(int, seq<Float32>)>, b: seq<(int, seq<Float32>)>)
    ensures Ids(a + b) == Ids(a) + Ids(b)
    ensures Vectors(a + b) == Vectors(a) + Vectors(b)
  {
  }

  /** In a batch whose slots and tags are in range, every vector id lies in the id range of
      the batch's slots. */
  lemma {:induction false} BatchPairsWithin(start: int, docs: seq<AddDocumentRequest>)
    requires BatchWellFormed(start, docs) && BatchInRange(start, docs)
    ensures PairsWithin(BatchPairs(start, docs), start, start + |docs|)
  {
    if docs != [] {
      var front := docs[..|docs| - 1];
      var doc := docs[|docs| - 1];
      var mid := start + |front|;
      var hi := start + |docs|;
      BatchPairsLast(start, docs, front, mid);
      BatchPairsWithin(start, front);
      DocumentPairsWithin(mid, doc);
      PairsWithinConcat(BatchPairs(start, front), VectorPairs(mid, doc, TagCount(doc)), start, mid, hi);
    }
  }

  lemma BatchPairsLast(start: int, docs: seq<AddDocumentRequest>, front: seq<AddDocumentRequest>, mid: int)
    requires docs != [] && BatchWellFormed(start, docs)
    requires front == docs[..|docs| - 1] && mid == start + |front|
    ensures BatchWellFormed(start, front) && BatchInRange(start, docs) ==> BatchInRange(start, front)
    ensures BatchWellFormed(start, front) && WellFormed(docs[|docs| - 1]) && TagsFit(mid, docs[|docs| - 1])
    ensures BatchInRange(start, docs) ==> mid < TwoTo31 && TagsInRange(docs[|docs| - 1])
    ensures BatchPairs(start, docs) ==
              BatchPairs(start, front) + VectorPairs(mid, docs[|docs| - 1], TagCount(docs[|docs| - 1]))
  {
  }

  /** So every vector id of the batch decodes to the slot of one of its documents. */
  lemma BatchPairsDecode(start: int, docs: seq<AddDocumentRequest>)
    requires BatchWellFormed(start, docs) && BatchInRange(start, docs)
    ensures forall t :: 0 <= t < |BatchPairs(start, docs)| ==>
              IsInt64(BatchPairs(start, docs)[t].0) &&
              start <= VecId.DecodeVectorId(BatchPairs(start, docs)[t].0).0 < start + |docs|
  {
    var ps := BatchPairs(start, docs);
    BatchPairsWithin(start, docs);
    forall t | 0 <= t < |ps|
      ensures IsInt64(ps[t].0) && start <= VecId.DecodeVectorId(ps[t].0).0 < start + |docs|
    {
      DecodeWithin(ps[t].0, start, start + |docs|);
    }
  }

  lemma PairsSnoc(ps: seq<(int, seq<Float32>)>, p: (int, seq<Float32>))
    ensures Ids(ps + [p]) == Ids(ps) + [p.0]
    ensures Vectors(ps + [p]) == Vectors(ps) + [p.1]
  {
  }

  /** One more document of a batch adds its pairs and its record at the end. */
  lemma BatchStep(start: int, docs: seq<AddDocumentRequest>, d: nat)
    requires BatchWellFormed(start, docs) && d < |docs|
    ensures WellFormed(docs[d]) && TagsFit(start + d, docs[d])
    ensures BatchWellFormed(start, docs[..d]) && BatchWellFormed(start, docs[..d + 1])
  {
    BatchPrefix(start, docs, d + 1);
    BatchPrefix(start, docs, d);
    assert docs[..d + 1][d] == docs[d];
  }

  lemma BatchPairsSnoc(start: int, docs: seq<AddDocumentRequest>, d: nat)
    requires d < |docs| && BatchWellFormed(start, docs[..d + 1])
    ensures BatchWellFormed(start, docs[..d])
    ensures BatchPairs(start, docs[..d + 1]) ==
              BatchPairs(start, docs[..d]) + VectorPairs(start + d, docs[d], TagCount(docs[d]))
  {
    var p := docs[..d + 1];
    assert p[..d] == docs[..d];
    assert p[d] == docs[d];
    assert BatchPairs(start, p) == BatchPairs(start, p[..d]) + VectorPairs(start + d, p[d], TagCount(p[d]));
  }

  lemma RecordsSnoc(docs: seq<AddDocumentRequest>, d: nat)
    requires d < |docs|
    ensures Records(docs[..d + 1]) == Records(docs[..d]) + [Some(Metadata(docs[d].vqid, docs[d].metadata))]
  {
  }

  /** The records a batch appends to the table, one per document in input order. */
  function Records(docs: seq<AddDocumentRequest>): (r: seq<Slot>)
    ensures |r| == |docs|
    ensures forall d :: 0 <= d < |docs| ==> r[d] == Some(Metadata(docs[d].vqid, docs[d].metadata))
  {
    seq(|docs|, d requires 0 <= d < |docs| => Some(Metadata(docs[d].vqid, docs[d].metadata)))
  }

  // ---------------------------------------------------------------------------------
  // The segment

  /** `Segment`: its configuration, its index state and its document table. */
  class Segment {
    const segmentId: nat
    const workDir: string
    const dim: int
    const table: SegmentMetadata
    var index: Engine.ScaNNIndex?
    var sealed: bool
    var hasNewIndex: bool

    /** The index, when there is one, belongs to this segment. */
    ghost predicate Valid()
      reads this
    {
      index != null ==> index.indexId == segmentId && index.dim == dim && index.workDir == workDir
    }

    constructor (segmentId: nat, workDir: string, dim: int, index: Engine.ScaNNIndex?)
      requires index != null ==> index.indexId == segmentId && index.dim == dim && index.workDir == workDir
      ensures Valid()
      ensures this.segmentId == segmentId && this.workDir == workDir && this.dim == dim
      ensures this.index == index && !sealed && !hasNewIndex
      ensures fresh(table) && table.metadata == []
    {
      this.segmentId := segmentId;
      this.workDir := workDir;
      this.dim := dim;
      this.index := index;
      sealed := false;
      hasNewIndex := false;
      table := new SegmentMetadata();
    }

    /** `NewSegment`: an index is created only for a positive dimension; if the engine
        cannot create it (`initOk` false) there is no segment either. */
    static method NewSegment(segmentId: nat, workDir: string, dim: int, initOk: bool) returns (seg: Segment?)
      ensures seg == null <==> dim > 0 && !initOk
      ensures seg != null ==> fresh(seg) && fresh(seg.table) && seg.Valid()
      ensures seg != null ==> seg.segmentId == segmentId && seg.workDir == workDir && seg.dim == dim
      ensures seg != null ==> !seg.sealed && !seg.hasNewIndex && seg.table.metadata == []
      ensures seg != null ==> (seg.index != null <==> dim > 0)
      ensures seg != null && seg.index != null ==> fresh(seg.index) && seg.index.live && seg.index.entries == []
    {
      var vIndex: Engine.ScaNNIndex? := null;
      if dim > 0 {
        vIndex := Engine.ScaNNIndex.NewScaNNIndex(workDir, dim, segmentId, initOk);
        if vIndex == null {
          return null;
        }
      }
      seg := new Segment(segmentId, workDir, dim, vIndex);
    }

    /** `AddDocument`: the document takes slot `Size()` as its id, its record is appended,
        and its vectors go to the index under the ids of `DocumentVectorIds`. The engine
        answers `engineCode`. */
    method AddDocument(doc: AddDocumentRequest, engineCode: int)
      requires Valid() && index != null && dim >= 0
      requires WellFormed(doc) && |table.metadata| < TwoTo63
      requires Engine.AddSafe(doc.vectors, DocumentVectorIds(|table.metadata|, doc), dim)
      modifies table, index
      ensures table.metadata == old(table.metadata) + [Some(Metadata(doc.vqid, doc.metadata))]
      ensures index.entries == old(index.entries) +
                Engine.Accepted(doc.vectors, DocumentVectorIds(|old(table.metadata)|, doc), dim, engineCode)
      ensures index.live == old(index.live) && index.releases == old(index.releases)
      ensures index.trainings == old(index.trainings)
    {
      var documentId := table.Size();
      table.Add(Metadata(doc.vqid, doc.metadata));
      var vectorsIds := EncodeIds(documentId, doc);
      var _ := index.AddWithIDs(doc.vectors, vectorsIds, engineCode);
    }

    /** `BatchAddDocuments`: the documents take consecutive slots in input order; all their
        vectors go to the index in one call, the ids and the vectors collected side by side. */
    method BatchAddDocuments(docs: seq<AddDocumentRequest>, engineCode: int)
      requires Valid() && index != null && dim >= 0
      requires BatchWellFormed(|table.metadata|, docs)
      requires var ps := BatchPairs(|table.metadata|, docs); Engine.AddSafe(Vectors(ps), Ids(ps), dim)
      modifies table, index
      ensures table.metadata == old(table.metadata) + Records(docs)
      ensures var ps := BatchPairs(|old(table.metadata)|, docs);
              index.entries == old(index.entries) + Engine.Accepted(Vectors(ps), Ids(ps), dim, engineCode)
      ensures index.live == old(index.live) && index.releases == old(index.releases)
      ensures index.trainings == old(index.trainings)
    {
      var vectorsIds, vectors := AppendBatch(table, docs);
      var _ := index.AddWithIDs(vectors, vectorsIds, engineCode);
    }

    /** The id loops of `AddDocument`: a vector id per tag (per position when there are no
        tags), skipping the tags whose encoding fails. */
    static method EncodeIds(documentId: int, doc: AddDocumentRequest) returns (vectorsIds: seq<int>)
      requires IsInt64(documentId) && WellFormed(doc)
      ensures vectorsIds == DocumentVectorIds(documentId, doc)
    {
      var count := |doc.vectors|;
      vectorsIds := [];
      if |doc.vectorsTag| == 0 {
        var i := 0;
        while i < count
          invariant 0 <= i <= count
          invariant vectorsIds == VectorIds(documentId, doc, i)
        {
          var vectorId := VecId.EncodeVectorId(documentId, i);
          if vectorId.Failure? {
            i := i + 1;
            continue;
          }
          vectorsIds := vectorsIds + [vectorId.value];
          i := i + 1;
        }
      } else {
        var i := 0;
        while i < |doc.vectorsTag|
          invariant 0 <= i <= |doc.vectorsTag|
          invariant vectorsIds == VectorIds(documentId, doc, i)
        {
          var vectorId := VecId.EncodeVectorId(documentId, doc.vectorsTag[i]);
          if vectorId.Failure? {
            i := i + 1;
            continue;
          }
          vectorsIds := vectorsIds + [vectorId.value];
          i := i + 1;
        }
      }
    }

    /** The loop of `BatchAddDocuments`: each document in turn takes the next slot of the
        table, and the ids and vectors of its pairs are appended to the batch's. */
    static method AppendBatch(table: SegmentMetadata, docs: seq<AddDocumentRequest>)
      returns (vectorsIds: seq<int>, vectors: seq<seq<Float32>>)
      requires BatchWellFormed(|table.metadata|, docs)
      modifies table
      ensures table.metadata == old(table.metadata) + Records(docs)
      ensures vectorsIds == Ids(BatchPairs(|old(table.metadata)|, docs))
      ensures vectors == Vectors(BatchPairs(|old(table.metadata)|, docs))
    {
      ghost var start := |table.metadata|;
      vectorsIds := [];
      vectors := [];
      ghost var ps: seq<(int, seq<Float32>)> := [];
      var d := 0;
      while d < |docs|
        invariant 0 <= d <= |docs|
        invariant table.metadata == old(table.metadata) + Records(docs[..d])
        invariant BatchWellFormed(start, docs[..d])
        invariant ps == BatchPairs(start, docs[..d])
        invariant vectorsIds == Ids(ps) && vectors == Vectors(ps)
      {
        var document := docs[d];
        var documentId := table.Size();
        assert documentId == start + d;
        ghost var m0 := table.metadata;
        table.Add(Metadata(document.vqid, document.metadata));
        BatchStep(start, docs, d);
        BatchPairsSnoc(start, docs, d);
        RecordsSnoc(docs, d);
        assert table.metadata == old(table.metadata) + Records(docs[..d + 1]) by {
          assert table.metadata == m0 + [Some(Metadata(document.vqid, document.metadata))];
        }
        var ids, vecs := DocumentPairs(documentId, document);
        ghost var vp := VectorPairs(documentId, document, TagCount(document));
        PairsConcat(ps, vp);
        ps := ps + vp;
        vectorsIds := vectorsIds + ids;
        vectors := vectors + vecs;
        d := d + 1;
      }
      assert docs[..|docs|] == docs;
    }

    /** The loop `BatchAddDocuments` runs over one document: the ids of its vectors, each
        with the vector it names, leaving out tags whose encoding fails. The source's two
        loops (over the vectors when there are no tags, over the tags otherwise) are one loop
        over `TagAt` here. */
    static method DocumentPairs(documentId: int, document: AddDocumentRequest)
      returns (vectorsIds: seq<int>, vectors: seq<seq<Float32>>)
      requires IsInt64(documentId) && WellFormed(document) && TagsFit(documentId, document)
      ensures vectorsIds == Ids(VectorPairs(documentId, document, TagCount(document)))
      ensures vectors == Vectors(VectorPairs(documentId, document, TagCount(document)))
    {
      vectorsIds := [];
      vectors := [];
      ghost var ps: seq<(int, seq<Float32>)> := [];
      var count := if |document.vectorsTag| == 0 then |document.vectors| else |document.vectorsTag|;
      var i := 0;
      while i < count
        invariant 0 <= i <= count == TagCount(document)
        invariant ps == VectorPairs(documentId, document, i)
        invariant vectorsIds == Ids(ps) && vectors == Vectors(ps)
      {
        var tag := if |document.vectorsTag| == 0 then i else document.vectorsTag[i];
        var vectorId := VecId.EncodeVectorId(documentId, tag);
        if vectorId.Failure? {
          i := i + 1;
          continue;
        }
        assert tag == TagAt(document, i);
        PairsSnoc(ps, (vectorId.value, document.vectors[i]));
        ps := ps + [(vectorId.value, document.vectors[i])];
        vectorsIds := vectorsIds + [vectorId.value];
        vectors := vectors + [document.vectors[i]];
        i := i + 1;
      }
    }

    /** `DeleteDocument`: tombstone the first live record with `vqid`. */
    method DeleteDocument(vqid: string) returns (deleted: bool)
      modifies table
      ensures deleted <==> FirstLive(old(table.metadata), vqid).Some?
      ensures table.metadata == DeleteFirst(old(table.metadata), vqid)
    {
      deleted := table.DeleteByVqid(vqid);
    }

    /** `UpdateDocumentMetadata`: replace the data of every live record with the vqid. */
    method UpdateDocumentMetadata(doc: UpdateDocumentMetadataRequest) returns (count: int)
      modifies table
      ensures count == CountLive(old(table.metadata), doc.vqid)
      ensures table.metadata == UpdateData(old(table.metadata), doc.vqid, doc.metadata)
    {
      count := table.Update(doc.vqid, doc.metadata);
    }

    /** `GetDocumentMetadata`: the live records with `vqid` in slot order, or only the first
        of them when duplicates are not asked for. */
    method GetDocumentMetadata(vqid: string, checkDuplicate: bool) returns (list: seq<Metadata>)
      ensures checkDuplicate ==> list == LiveMatches(table.metadata, vqid)
      ensures !checkDuplicate && FirstLive(table.metadata, vqid).None? ==> list == []
      ensures !checkDuplicate && FirstLive(table.metadata, vqid).Some? ==>
                list == [table.metadata[FirstLive(table.metadata, vqid).value].value]
    {
      list := [];
      var n := table.Size();
      var i := 0;
      while i < n
        invariant 0 <= i <= n == |table.metadata|
        invariant checkDuplicate ==> list == LiveMatches(table.metadata[..i], vqid)
        invariant !checkDuplicate ==> list == [] && forall j :: 0 <= j < i ==> !IsLiveMatch(table.metadata[j], vqid)
      {
        assert table.metadata[..i + 1][..i] == table.metadata[..i];
        var m := table.GetByid(i);
        if m.None? {
          i := i + 1;
          continue;
        }
        if m.value.vqid == vqid {
          list := list + [m.value];
          if !checkDuplicate {
            assert FirstLive(table.metadata, vqid) == Some(i);
            break;
          }
        }
        i := i + 1;
      }
      assert table.metadata[..n] == table.metadata;
    }

    /** `SealIndex`: the segment takes no more inserts. */
    method SealIndex()
      modifies this
      ensures sealed
      ensures index == old(index) && hasNewIndex == old(hasNewIndex)
    {
      sealed := true;
    }

    /** `IsSearchable`: there is an index, it has indexed something, and its state (`raw` is the
        engine's statistics record) is READY, ADD or DUMP. */
    method IsSearchable(raw: Engine.RawStats) returns (b: bool)
      ensures b <==> index != null && raw.indexSize > 0 && (raw.status == 3 || raw.status == 4 || raw.status == 6)
      ensures b <==> index != null && raw.indexSize > 0 && Engine.StateName(raw.status) in Engine.SearchableStateSlice
    {
      if index == null {
        return false;
      }
      var indexStatistics := Engine.Statistics(raw);
      Engine.SearchableStates(raw.status);
      if indexStatistics.indexSize > 0 {
        return indexStatistics.status in Engine.SearchableStateSlice;
      }
      return false;
    }

    /** `Statistics`: an error without an index; otherwise the segment's state with the
        engine's vid count as its vector count and its slot count (tombstones included) as
        its document count. */
    method Statistics(raw: Engine.RawStats) returns (r: Result<SegmentStatistics, string>)
      ensures index == null <==> r.Failure?
      ensures r.Success? ==> r.value.segmentId == segmentId && r.value.sealed == sealed && r.value.dim == dim
      ensures r.Success? ==> r.value.indexStatistics == Engine.Statistics(raw)
      ensures r.Success? ==> r.value.vectorCount == raw.vidSize && r.value.docCount == |table.metadata|
    {
      if index == null {
        return Failure("index is nil");
      }
      var indexStatistics := Engine.Statistics(raw);
      var vectorCount := indexStatistics.vidSize;
      var docCount := table.Size();
      return Success(SegmentStatistics(segmentId, sealed, dim, indexStatistics, vectorCount, docCount));
    }

    /** `LoadIndex`: without an index, create one; with an index flagged as replaced, create
        the new one, release the old one and clear the flag; otherwise do nothing. A creation
        that fails (`initOk` false) leaves no index. */
    method LoadIndex(initOk: bool)
      requires Valid()
      modifies this, index
      ensures Valid() && sealed == old(sealed)
      ensures old(index) == null ==> (index == null <==> !initOk) && hasNewIndex == old(hasNewIndex)
      ensures old(index) != null && old(hasNewIndex) ==>
                && (index == null <==> !initOk) && !hasNewIndex && !old(index).live
                && old(index).releases == old(index.releases) + (if old(index.live) then 1 else 0)
      ensures (old(index) == null || old(hasNewIndex)) && index != null ==>
                fresh(index) && index.live && index.entries == []
      ensures old(index) != null && !old(hasNewIndex) ==>
                index == old(index) && !hasNewIndex && unchanged(index)
    {
      var replace := HasNewIndex();
      if index == null {
        var newIndex := Engine.ScaNNIndex.NewScaNNIndex(workDir, dim, segmentId, initOk);
        index := newIndex;
      } else if replace {
        var newIndex := Engine.ScaNNIndex.NewScaNNIndex(workDir, dim, segmentId, initOk);
        var oldIndexC := index;
        index := newIndex;
        oldIndexC.Destroy();
        SetNoNewIndex();
      }
    }

    method SetHasNewIndex()
      modifies this
      ensures hasNewIndex && index == old(index) && sealed == old(sealed)
    {
      hasNewIndex := true;
    }

    method SetNoNewIndex()
      modifies this
      ensures !hasNewIndex && index == old(index) && sealed == old(sealed)
    {
      hasNewIndex := false;
    }

    method HasNewIndex() returns (b: bool)
      ensures b == hasNewIndex
    {
      return hasNewIndex;
    }
  }
}
