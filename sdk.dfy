/** The Python client (python_sdk/vqlite_api.py): the request and response value objects and
    their dictionaries, the client's base URL, the header merge and the retry bound of
    `request`, and the call each API method makes. Python dictionaries keep insertion order, so
    a dictionary is a sequence of key/value pairs with distinct keys; JSON values the SDK only
    passes along (metadata, vectors) are kept as `Json` values. Serialising to text
    (`json.dumps`/`json.loads`) and the transport (`requests`) are not part of this model. */
module Sdk {
  import opened Types
  import opened CoreTypes
  import Core

  // ---------------------------------------------------------------------------------
  // Dictionaries

  datatype Json =
    | Null
    | Bool(b: bool)
    | Num(n: int)
    | Str(s: string)
    | Arr(items: seq<Json>)
    | Obj(fields: seq<(string, Json)>)

  function KeysOf<V>(d: seq<(string, V)>): (r: seq<string>)
    ensures |r| == |d| && forall i :: 0 <= i < |d| ==> r[i] == d[i].0
  {
    seq(|d|, i requires 0 <= i < |d| => d[i].0)
  }

  predicate DistinctKeys<V>(d: seq<(string, V)>)
  {
    forall i, j :: 0 <= i < j < |d| ==> d[i].0 != d[j].0
  }

  /** `d[k]` when `k` is a key of `d`. */
  function Lookup<V>(d: seq<(string, V)>, k: string): (r: Option<V>)
    ensures r.None? <==> k !in KeysOf(d)
    ensures r.Some? ==> exists i :: 0 <= i < |d| && d[i] == (k, r.value)
  {
    if d == [] then None
    else if d[0].0 == k then Some(d[0].1)
    else
      var r := Lookup(d[1..], k);
      assert r.Some? ==> exists i :: 0 <= i < |d[1..]| && d[1..][i] == (k, r.value);
      r
  }

  /** In a dictionary without repeated keys, entry `i` is what its key looks up. */
  lemma {:induction false} LookupAt<V>(d: seq<(string, V)>, i: nat)
    requires DistinctKeys(d) && i < |d|
    ensures Lookup(d, d[i].0) == Some(d[i].1)
  {
    if i > 0 {
      assert DistinctKeys(d[1..]) by {
        assert forall p :: 0 <= p < |d| - 1 ==> d[1..][p] == d[p + 1];
      }
      LookupAt(d[1..], i - 1);
    }
  }

  /** Without its first entry a dictionary without repeated keys still has none, and no
      longer has the first key. */
  lemma DistinctTail<V>(d: seq<(string, V)>)
    requires DistinctKeys(d) && d != []
    ensures DistinctKeys(d[1..]) && d[0].0 !in KeysOf(d[1..])
  {
    assert forall p :: 0 <= p < |d| - 1 ==> d[1..][p] == d[p + 1];
  }

  /** `d[k] = v`: a known key keeps its place and takes the new value; a new key goes last. */
  function Put<V>(d: seq<(string, V)>, k: string, v: V): (r: seq<(string, V)>)
  {
    if d == [] then [(k, v)]
    else if d[0].0 == k then [(k, v)] + d[1..]
    else [d[0]] + Put(d[1..], k, v)
  }

  /** `{**d, **e}`: the entries of `e` written over `d` in order. */
  function Update<V>(d: seq<(string, V)>, e: seq<(string, V)>): seq<(string, V)>
    decreases |e|
  {
    if e == [] then d else Update(Put(d, e[0].0, e[0].1), e[1..])
  }

  /** The keys after `d[k] = v` are those of `d`, with `k` added at the end when it is new. */
  lemma {:induction false} PutKeys<V>(d: seq<(string, V)>, k: string, v: V)
    ensures KeysOf(Put(d, k, v)) == if k in KeysOf(d) then KeysOf(d) else KeysOf(d) + [k]
  {
    if d != [] {
      assert d == [d[0]] + d[1..];
      KeysOfCons(d[0], d[1..]);
      if d[0].0 != k {
        PutKeys(d[1..], k, v);
        KeysOfCons(d[0], Put(d[1..], k, v));
      } else {
        KeysOfCons((k, v), d[1..]);
      }
    }
  }

  /** The keys of an entry followed by a dictionary: the entry's key, then the others. */
  lemma KeysOfCons<V>(x: (string, V), t: seq<(string, V)>)
    ensures KeysOf([x] + t) == [x.0] + KeysOf(t)
  {
    var a, b := KeysOf([x] + t), [x.0] + KeysOf(t);
    forall p | 0 <= p < |a| ensures a[p] == b[p] {
      if p > 0 {
        assert ([x] + t)[p] == t[p - 1];
      }
    }
  }

  /** After `d[k] = v`, `k` maps to `v`. */
  lemma {:induction false} PutLookupSame<V>(d: seq<(string, V)>, k: string, v: V)
    ensures Lookup(Put(d, k, v), k) == Some(v)
  {
    if d != [] && d[0].0 != k {
      PutLookupSame(d[1..], k, v);
      assert Put(d, k, v)[1..] == Put(d[1..], k, v);
    }
  }

  /** After `d[k] = v`, a key other than `k` maps to what it did. */
  lemma {:induction false} PutLookupOther<V>(d: seq<(string, V)>, k: string, v: V, k': string)
    requires k' != k
    ensures Lookup(Put(d, k, v), k') == Lookup(d, k')
  {
    if d != [] {
      if d[0].0 != k {
        PutLookupOther(d[1..], k, v, k');
        assert Put(d, k, v)[1..] == Put(d[1..], k, v);
      } else {
        assert Put(d, k, v)[1..] == d[1..];
      }
    }
  }

  /** `d[k] = v` repeats no key when `d` repeats none. */
  lemma PutDistinct<V>(d: seq<(string, V)>, k: string, v: V)
    requires DistinctKeys(d)
    ensures DistinctKeys(Put(d, k, v))
  {
    var r := Put(d, k, v);
    PutKeys(d, k, v);
    var ks := KeysOf(r);
    forall i, j | 0 <= i < j < |r| ensures r[i].0 != r[j].0 {
      assert ks[i] == r[i].0 && ks[j] == r[j].0;
    }
  }

  /** After `d[k] = v`, `k` maps to `v`, every other key to what it did, and no key appears
      twice. */
  lemma PutLookup<V>(d: seq<(string, V)>, k: string, v: V)
    requires DistinctKeys(d)
    ensures DistinctKeys(Put(d, k, v))
    ensures Lookup(Put(d, k, v), k) == Some(v)
    ensures forall k' :: k' != k ==> Lookup(Put(d, k, v), k') == Lookup(d, k')
  {
    PutDistinct(d, k, v);
    PutLookupSame(d, k, v);
    forall k' | k' != k ensures Lookup(Put(d, k, v), k') == Lookup(d, k') {
      PutLookupOther(d, k, v, k');
    }
  }

  /** The keys of `{**d, **e}` are those of `d` and those of `e`. */
  lemma {:induction false} UpdateKeys<V>(d: seq<(string, V)>, e: seq<(string, V)>)
    ensures forall k :: k in KeysOf(Update(d, e)) <==> k in KeysOf(d) || k in KeysOf(e)
    decreases |e|
  {
    if e != [] {
      PutKeys(d, e[0].0, e[0].1);
      UpdateKeys(Put(d, e[0].0, e[0].1), e[1..]);
      assert KeysOf(e) == [e[0].0] + KeysOf(e[1..]);
    }
  }

  /** `{**d, **e}` repeats no key when `d` repeats none. */
  lemma {:induction false} UpdateDistinct<V>(d: seq<(string, V)>, e: seq<(string, V)>)
    requires DistinctKeys(d)
    ensures DistinctKeys(Update(d, e))
    decreases |e|
  {
    if e != [] {
      PutDistinct(d, e[0].0, e[0].1);
      UpdateDistinct(Put(d, e[0].0, e[0].1), e[1..]);
    }
  }

  /** In `{**d, **e}` a key `e` lacks maps to its value in `d`. */
  lemma {:induction false} UpdateLookupOut<V>(d: seq<(string, V)>, e: seq<(string, V)>, k: string)
    requires k !in KeysOf(e)
    ensures Lookup(Update(d, e), k) == Lookup(d, k)
    decreases |e|
  {
    if e != [] {
      assert KeysOf(e) == [e[0].0] + KeysOf(e[1..]);
      PutLookupOther(d, e[0].0, e[0].1, k);
      UpdateLookupOut(Put(d, e[0].0, e[0].1), e[1..], k);
    }
  }

  /** In `{**d, **e}` a key of `e` maps to its value in `e`. */
  lemma {:induction false} UpdateLookupIn<V>(d: seq<(string, V)>, e: seq<(string, V)>, k: string)
    requires DistinctKeys(e) && k in KeysOf(e)
    ensures Lookup(Update(d, e), k) == Lookup(e, k)
    decreases |e|
  {
    var d' := Put(d, e[0].0, e[0].1);
    assert KeysOf(e) == [e[0].0] + KeysOf(e[1..]);
    DistinctTail(e);
    if e[0].0 == k {
      PutLookupSame(d, k, e[0].1);
      UpdateLookupOut(d', e[1..], k);
    } else {
      UpdateLookupIn(d', e[1..], k);
    }
  }

  /** After `{**d, **e}` every key of `e` maps to its value in `e`, every other key to its
      value in `d`, and no key appears twice. */
  lemma UpdateLookup<V>(d: seq<(string, V)>, e: seq<(string, V)>)
    requires DistinctKeys(d) && DistinctKeys(e)
    ensures DistinctKeys(Update(d, e))
    ensures forall k :: k in KeysOf(e) ==> Lookup(Update(d, e), k) == Lookup(e, k)
    ensures forall k :: k !in KeysOf(e) ==> Lookup(Update(d, e), k) == Lookup(d, k)
    ensures forall k :: k in KeysOf(Update(d, e)) <==> k in KeysOf(d) || k in KeysOf(e)
  {
    UpdateDistinct(d, e);
    UpdateKeys(d, e);
    forall k | k in KeysOf(e) ensures Lookup(Update(d, e), k) == Lookup(e, k) {
      UpdateLookupIn(d, e, k);
    }
    forall k | k !in KeysOf(e) ensures Lookup(Update(d, e), k) == Lookup(d, k) {
      UpdateLookupOut(d, e, k);
    }
  }

  // ---------------------------------------------------------------------------------
  // Value objects

  /** `Document`: `vectors_tag` is `None` unless given. */
  datatype Document = Document(vqid: Json, metadata: Json, vectors: Json, vectorsTag: Json)

  /** `UpdateDocument`. */
  datatype UpdateDocument = UpdateDocument(vqid: Json, metadata: Json)

  /** `obj.get(k)`: the value, or `None` when the key is missing. */
  function Get(obj: seq<(string, Json)>, k: string): (r: Json)
    ensures k !in KeysOf(obj) ==> r == Null
  {
    match Lookup(obj, k)
    case None => Null
    case Some(v) => v
  }

  const DocumentKeys: seq<string> := ["vqid", "metadata", "vectors", "vectors_tag"]
  const UpdateDocumentKeys: seq<string> := ["vqid", "metadata"]

  /** `Document.to_dict`. */
  function DocumentToDict(d: Document): (r: seq<(string, Json)>)
    ensures KeysOf(r) == DocumentKeys && DistinctKeys(r)
  {
    [("vqid", d.vqid), ("metadata", d.metadata), ("vectors", d.vectors), ("vectors_tag", d.vectorsTag)]
  }

  /** `Document.from_dict`: each field from its key, `None` where the key is missing. */
  function DocumentFromDict(obj: seq<(string, Json)>): Document
  {
    Document(Get(obj, "vqid"), Get(obj, "metadata"), Get(obj, "vectors"), Get(obj, "vectors_tag"))
  }

  /** A document survives the trip through its dictionary. */
  lemma DocumentRoundTrip(d: Document)
    ensures DocumentFromDict(DocumentToDict(d)) == d
  {
    var r := DocumentToDict(d);
    LookupAt(r, 0);
    LookupAt(r, 1);
    LookupAt(r, 2);
    LookupAt(r, 3);
  }

  /** Reading a dictionary and writing it back keeps the value of every document key, a missing
      key coming back as an explicit `None`. */
  lemma DocumentDictRoundTrip(obj: seq<(string, Json)>)
    ensures forall k :: k in DocumentKeys ==> Get(DocumentToDict(DocumentFromDict(obj)), k) == Get(obj, k)
  {
    var d := DocumentFromDict(obj);
    DocumentRoundTrip(d);
  }

  /** `UpdateDocument.to_dict`. */
  function UpdateDocumentToDict(d: UpdateDocument): (r: seq<(string, Json)>)
    ensures KeysOf(r) == UpdateDocumentKeys && DistinctKeys(r)
  {
    [("vqid", d.vqid), ("metadata", d.metadata)]
  }

  /** `UpdateDocument.from_dict`. */
  function UpdateDocumentFromDict(obj: seq<(string, Json)>): UpdateDocument
  {
    UpdateDocument(Get(obj, "vqid"), Get(obj, "metadata"))
  }

  lemma UpdateDocumentRoundTrip(d: UpdateDocument)
    ensures UpdateDocumentFromDict(UpdateDocumentToDict(d)) == d
  {
    LookupAt(UpdateDocumentToDict(d), 0);
    LookupAt(UpdateDocumentToDict(d), 1);
  }

  // ---------------------------------------------------------------------------------
  // The client

  /** `Vqlite`: the base URL of the service. */
  datatype Client = Client(apiUrl: string)

  /** `Vqlite.__init__`: one trailing "/" is dropped. */
  function NewClient(url: string): (c: Client)
    ensures |url| > 0 && url[|url| - 1] == '/' ==> c.apiUrl + "/" == url
    ensures !(|url| > 0 && url[|url| - 1] == '/') ==> c.apiUrl == url
  {
    if |url| > 0 && url[|url| - 1] == '/' then Client(url[..|url| - 1]) else Client(url)
  }

  /** Only one slash goes: a URL ending in two keeps one. */
  lemma NewClientStripsOne(url: string)
    ensures NewClient(url + "/").apiUrl == url
    ensures NewClient(url + "//").apiUrl == url + "/"
  {
    assert (url + "/")[..|url|] == url;
    assert (url + "//")[..|url| + 1] == url + "/";
  }

  const DefaultUserAgent: string := "VQLite Python SDK"

  /** The headers `request` sends: a `User-Agent` first, then the caller's headers written over
      it. */
  function MergeHeaders(headers: seq<(string, string)>): seq<(string, string)>
  {
    Update([("User-Agent", DefaultUserAgent)], headers)
  }

  /** Every caller header is sent with the caller's value, the default `User-Agent` is sent
      unless the caller gives one, and nothing else is added. */
  lemma MergeHeadersKeeps(headers: seq<(string, string)>)
    requires DistinctKeys(headers)
    ensures DistinctKeys(MergeHeaders(headers))
    ensures forall k :: k in KeysOf(headers) ==> Lookup(MergeHeaders(headers), k) == Lookup(headers, k)
    ensures "User-Agent" !in KeysOf(headers) ==> Lookup(MergeHeaders(headers), "User-Agent") == Some(DefaultUserAgent)
    ensures forall k :: k in KeysOf(MergeHeaders(headers)) <==> k == "User-Agent" || k in KeysOf(headers)
  {
    UpdateLookup([("User-Agent", DefaultUserAgent)], headers);
  }

  /** What one call of `requests.request` is given. */
  datatype HttpRequest = HttpRequest(httpMethod: string, url: string, headers: seq<(string, string)>, data: Option<Json>)

  /** What the transport answers: the status is carried but never looked at. */
  datatype Response = Response(status: int, text: string)

  const MaxAttempts: nat := 3

  /** `request` under `@retry(stop=stop_after_attempt(3), reraise=True)`: the same request is
      sent until the transport answers, at most three times; `outcomes[i]` is what the transport
      does on attempt `i` (an answer, or the exception it raises). The first answer is returned
      whatever its status; after three exceptions the last one is raised again. */
  method Request(httpMethod: string, url: string, headers: seq<(string, string)>, data: Option<Json>,
                 outcomes: seq<Result<Response, string>>)
    returns (sent: HttpRequest, r: Result<Response, string>, calls: nat)
    requires |outcomes| >= MaxAttempts
    ensures sent == HttpRequest(httpMethod, url, MergeHeaders(headers), data)
    ensures 1 <= calls <= MaxAttempts && r == outcomes[calls - 1]
    ensures forall i :: 0 <= i < calls - 1 ==> outcomes[i].Failure?
    ensures r.Failure? ==> calls == MaxAttempts
  {
    sent := HttpRequest(httpMethod, url, MergeHeaders(headers), data);
    r := outcomes[0];
    calls := 1;
    while r.Failure? && calls < MaxAttempts
      invariant 1 <= calls <= MaxAttempts && r == outcomes[calls - 1]
      invariant forall i :: 0 <= i < calls - 1 ==> outcomes[i].Failure?
      decreases MaxAttempts - calls
    {
      r := outcomes[calls];
      calls := calls + 1;
    }
  }

  // ---------------------------------------------------------------------------------
  // The API methods: the request each one makes

  datatype Call = Call(httpMethod: string, url: string, data: Option<Json>)

  function CollectionUrl(c: Client, collectionName: string): string
  {
    c.apiUrl + "/collection/" + collectionName
  }

  function Statistics(c: Client): Call
  {
    Call("GET", c.apiUrl + "/statistics", None)
  }

  function DropCollection(c: Client, collectionName: string): Call
  {
    Call("DELETE", CollectionUrl(c, collectionName), None)
  }

  function DumpCollection(c: Client, collectionName: string): Call
  {
    Call("POST", CollectionUrl(c, collectionName) + "/dump", None)
  }

  function DumpCollectionIndex(c: Client, collectionName: string): Call
  {
    Call("POST", CollectionUrl(c, collectionName) + "/dump/index", None)
  }

  function DumpCollectionMetadata(c: Client, collectionName: string): Call
  {
    Call("POST", CollectionUrl(c, collectionName) + "/dump/metadata", None)
  }

  function LoadCollection(c: Client, collectionName: string): Call
  {
    Call("POST", CollectionUrl(c, collectionName) + "/load", None)
  }

  function CreateCollection(c: Client, collectionName: string, dim: int): Call
  {
    Call("POST", CollectionUrl(c, collectionName), Some(Obj([("name", Str(collectionName)), ("dim", Num(dim))])))
  }

  function TrainCollection(c: Client, collectionName: string, threads: int, ignoreCheck: bool): Call
  {
    Call("POST", CollectionUrl(c, collectionName) + "/train",
         Some(Obj([("threads", Num(threads)), ("ignore_check", Bool(ignoreCheck))])))
  }

  const SearchDefaultTopK: int := 30
  const SearchDefaultNProbe: int := 128
  const SearchDefaultReorder: int := 128
  const SearchDefaultTimeout: int := 60

  function SearchOptions(topk: int, nprobe: int, reorder: int, timeout: int): (r: Json)
    ensures r.Obj? && KeysOf(r.fields) == ["topk", "nprobe", "reorder", "timeout"] && DistinctKeys(r.fields)
  {
    Obj([("topk", Num(topk)), ("nprobe", Num(nprobe)), ("reorder", Num(reorder)), ("timeout", Num(timeout))])
  }

  function SearchCollection(c: Client, collectionName: string, queryVecs: Json,
                            topk: int, nprobe: int, reorder: int, timeout: int): Call
  {
    Call("POST", CollectionUrl(c, collectionName) + "/search",
         Some(Obj([("vectors", queryVecs), ("opt", SearchOptions(topk, nprobe, reorder, timeout))])))
  }

  /** `search_collection` with its default options. */
  function SearchCollectionDefaults(c: Client, collectionName: string, queryVecs: Json): Call
  {
    SearchCollection(c, collectionName, queryVecs,
                     SearchDefaultTopK, SearchDefaultNProbe, SearchDefaultReorder, SearchDefaultTimeout)
  }

  function AddDocument(c: Client, collectionName: string, document: Document): Call
  {
    Call("POST", CollectionUrl(c, collectionName) + "/document", Some(Obj(DocumentToDict(document))))
  }

  /** The `documents` list of a batch: each document's dictionary, in input order. */
  function DocumentDicts(documents: seq<Document>): (r: seq<Json>)
    ensures |r| == |documents|
    ensures forall i :: 0 <= i < |documents| ==> r[i] == Obj(DocumentToDict(documents[i]))
  {
    seq(|documents|, i requires 0 <= i < |documents| => Obj(DocumentToDict(documents[i])))
  }

  function BatchAddDocuments(c: Client, collectionName: string, documents: seq<Document>): Call
  {
    Call("POST", CollectionUrl(c, collectionName) + "/document/batch",
         Some(Obj([("documents", Arr(DocumentDicts(documents)))])))
  }

  function UpdateDocumentCall(c: Client, collectionName: string, updateDocument: UpdateDocument): Call
  {
    Call("PUT", CollectionUrl(c, collectionName) + "/document", Some(Obj(UpdateDocumentToDict(updateDocument))))
  }

  function DeleteDocument(c: Client, collectionName: string, vqid: Json): Call
  {
    Call("DELETE", CollectionUrl(c, collectionName) + "/document", Some(Obj([("vqid", vqid)])))
  }

  /** The batch payload reads back as the documents, one per entry, in input order. */
  lemma BatchReadsBack(c: Client, collectionName: string, documents: seq<Document>)
    ensures var body := BatchAddDocuments(c, collectionName, documents).data.value;
            && body.Obj? && Get(body.fields, "documents").Arr?
            && var items := Get(body.fields, "documents").items;
            && |items| == |documents|
            && forall i :: 0 <= i < |items| ==> items[i].Obj? && DocumentFromDict(items[i].fields) == documents[i]
  {
  }

  // ---------------------------------------------------------------------------------
  // The search options as the server reads them

  /** One integer field of the options object as Go's decoder fills a `QueryOpt` field: zero
      when missing or `null`, the number when there is one, a decoding error otherwise. */
  function DecodeIntField(obj: seq<(string, Json)>, k: string): Option<int>
  {
    match Get(obj, k)
    case Null => Some(0)
    case Num(n) => Some(n)
    case _ => None
  }

  /** The `opt` object decoded into the server's `QueryOpt` (field names `topk`, `nprobe`,
      `reorder`, `timeout`). */
  function DecodeQueryOpt(j: Json): Option<QueryOpt>
  {
    if !j.Obj? then None
    else
      var topK := DecodeIntField(j.fields, "topk");
      var nProbe := DecodeIntField(j.fields, "nprobe");
      var reorder := DecodeIntField(j.fields, "reorder");
      var timeout := DecodeIntField(j.fields, "timeout");
      if topK.None? || nProbe.None? || reorder.None? || timeout.None? then None
      else Some(QueryOpt(topK.value, nProbe.value, reorder.value, timeout.value))
  }

  /** The options the client sends are the options the server decodes. */
  lemma SearchOptionsReachServer(c: Client, collectionName: string, queryVecs: Json,
                                 topk: int, nprobe: int, reorder: int, timeout: int)
    ensures var body := SearchCollection(c, collectionName, queryVecs, topk, nprobe, reorder, timeout).data.value;
            DecodeQueryOpt(Get(body.fields, "opt")) == Some(QueryOpt(topk, nprobe, reorder, timeout))
  {
    var o := SearchOptions(topk, nprobe, reorder, timeout);
    var fields := [("vectors", queryVecs), ("opt", o)];
    assert DistinctKeys(fields);
    LookupAt(fields, 1);
    SearchOptionsDecode(topk, nprobe, reorder, timeout);
  }

  /** The options object decodes to the four numbers it was built from. */
  lemma SearchOptionsDecode(topk: int, nprobe: int, reorder: int, timeout: int)
    ensures DecodeQueryOpt(SearchOptions(topk, nprobe, reorder, timeout)) == Some(QueryOpt(topk, nprobe, reorder, timeout))
  {
    var o := SearchOptions(topk, nprobe, reorder, timeout);
    LookupAt(o.fields, 0);
    LookupAt(o.fields, 1);
    LookupAt(o.fields, 2);
    LookupAt(o.fields, 3);
  }

  /** After the server fills in its defaults, every option the caller left at zero has the
      client's default: the two sides agree on the defaults. */
  lemma SearchDefaultsAgree(topk: int, nprobe: int, reorder: int, timeout: int)
    ensures var opt := Core.CheckSearchOpt(QueryOpt(topk, nprobe, reorder, timeout));
            && opt.topK == (if topk == 0 then SearchDefaultTopK else topk)
            && opt.nProbe == (if nprobe == 0 then SearchDefaultNProbe else nprobe)
            && opt.reorder == (if reorder == 0 then SearchDefaultReorder else reorder)
            && opt.timeout == (if timeout == 0 then SearchDefaultTimeout else timeout)
  {
  }

  /** The client's defaults are already complete: the server's check leaves them unchanged. */
  lemma SearchDefaultsAreFixed()
    ensures var opt := QueryOpt(SearchDefaultTopK, SearchDefaultNProbe, SearchDefaultReorder, SearchDefaultTimeout);
            Core.CheckSearchOpt(opt) == opt
  {
  }

  /** Every call goes below the client's base URL, and every call about a collection below that
      collection's URL. */
  lemma CallsUnderBase(c: Client, collectionName: string)
    ensures c.apiUrl <= Statistics(c).url
    ensures c.apiUrl + "/collection/" <= CollectionUrl(c, collectionName)
    ensures var u := CollectionUrl(c, collectionName);
            && u <= DropCollection(c, collectionName).url
            && u <= DumpCollection(c, collectionName).url
            && u <= DumpCollectionIndex(c, collectionName).url
            && u <= DumpCollectionMetadata(c, collectionName).url
            && u <= LoadCollection(c, collectionName).url
            && u <= CreateCollection(c, collectionName, 0).url
            && u <= TrainCollection(c, collectionName, 0, false).url
            && u <= SearchCollectionDefaults(c, collectionName, Null).url
            && u <= AddDocument(c, collectionName, Document(Null, Null, Null, Null)).url
            && u <= BatchAddDocuments(c, collectionName, []).url
            && u <= UpdateDocumentCall(c, collectionName, UpdateDocument(Null, Null)).url
            && u <= DeleteDocument(c, collectionName, Null).url
  {
  }

  /** The bodies of the collection calls read back as the arguments they were built from. */
  lemma CollectionPayloadsReadBack(c: Client, collectionName: string, dim: int, threads: int, ignoreCheck: bool)
    ensures var body := CreateCollection(c, collectionName, dim).data.value.fields;
            Get(body, "name") == Str(collectionName) && Get(body, "dim") == Num(dim)
    ensures var body := TrainCollection(c, collectionName, threads, ignoreCheck).data.value.fields;
            Get(body, "threads") == Num(threads) && Get(body, "ignore_check") == Bool(ignoreCheck)
  {
    var create := [("name", Str(collectionName)), ("dim", Num(dim))];
    assert DistinctKeys(create);
    LookupAt(create, 0);
    LookupAt(create, 1);
    var train := [("threads", Num(threads)), ("ignore_check", Bool(ignoreCheck))];
    assert DistinctKeys(train);
    LookupAt(train, 0);
    LookupAt(train, 1);
  }

  /** The bodies of the single-document calls read back as the document, the update and the
      vqid they were built from. */
  lemma DocumentPayloadsReadBack(c: Client, collectionName: string, document: Document,
                                 updateDocument: UpdateDocument, vqid: Json)
    ensures DocumentFromDict(AddDocument(c, collectionName, document).data.value.fields) == document
    ensures UpdateDocumentFromDict(UpdateDocumentCall(c, collectionName, updateDocument).data.value.fields) == updateDocument
    ensures Get(DeleteDocument(c, collectionName, vqid).data.value.fields, "vqid") == vqid
  {
    DocumentRoundTrip(document);
    UpdateDocumentRoundTrip(updateDocument);
    LookupAt([("vqid", vqid)], 0);
  }
}
