/** The records shared by the core (core/types.go). JSON-valued fields (document metadata)
    are carried as their serialised bytes; vector elements as `float32` bit patterns. */
module CoreTypes {
  import opened Types
  import Engine

  /** Search options. */
  datatype QueryOpt = QueryOpt(topK: int, nProbe: int, reorder: int, timeout: int)

  /** One stored document record: its external id and its serialised metadata. */
  datatype Metadata = Metadata(vqid: string, data: Bytes)

  /** A document to insert: `vectorsTag`, when not empty, gives each vector its own tag. */
  datatype AddDocumentRequest = AddDocumentRequest(
    vqid: string, metadata: Bytes, vectors: seq<seq<Float32>>, vectorsTag: seq<int>)

  datatype UpdateDocumentMetadataRequest = UpdateDocumentMetadataRequest(vqid: string, metadata: Bytes)

  datatype DocumentMetadataResult = DocumentMetadataResult(vqid: string, data: Bytes, segmentId: nat)

  datatype SearchResult = SearchResult(vqid: string, score: int, metadata: Bytes, tag: int)

  datatype SegmentStatistics = SegmentStatistics(
    segmentId: nat, sealed: bool, dim: int, indexStatistics: Engine.IndexStatistics,
    vectorCount: int, docCount: int)

  datatype CollectionStatistics = CollectionStatistics(
    collectionName: string, segments: seq<SegmentStatistics>, segmentCount: nat,
    totalIndexSize: int, vectorCount: int, docCount: int)

  datatype VQLiteStatistics = VQLiteStatistics(
    collections: seq<CollectionStatistics>, collectionCount: nat, totalIndexSize: int, docCount: int)
}
