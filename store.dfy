/** The part of a chromadb persistent client the pipeline uses, as an
    abstract store: named collections, each a map from record id to the
    stored document and its metadata. Embeddings and similarity search are
    not modelled; retrieval is an oracle supplied by the callers. */
module Store {

  /** The metadata the pipeline stores: {chunk_id, page_number} for a chunk,
      {pdf_id} for a summary. */
  datatype Meta = ChunkMeta(chunkId: string, pageNumber: int) | SummaryMeta(pdfId: string)

  /** One stored record. */
  datatype Entry = Entry(document: string, metadata: Meta)

  /** A collection: record id to record. */
  type Collection = map<string, Entry>

  /** get_or_create_collection on the map of collections. */
  function GetOrCreate(cols: map<string, Collection>, name: string): (r: map<string, Collection>)
    ensures name in r && r.Keys == cols.Keys + {name}
    ensures name in cols ==> r == cols
    ensures name !in cols ==> r[name] == map[]
    ensures forall n :: n in cols ==> n in r && r[n] == cols[n]
  {
    if name in cols then cols else cols[name := map[]]
  }

  /** collection.add(ids, documents, metadatas): records are added in order;
      an id that is already stored keeps its record. */
  function AddAll(col: Collection, ids: seq<string>, docs: seq<string>, metas: seq<Meta>): Collection
    requires |ids| == |docs| == |metas|
    decreases |ids|
  {
    if ids == [] then col
    else
      var col' := if ids[0] in col then col else col[ids[0] := Entry(docs[0], metas[0])];
      AddAll(col', ids[1..], docs[1..], metas[1..])
  }

  /** Adding keeps every record already stored, stores every new id, and
      stores nothing else. */
  lemma {:induction false} AddAllKeeps(col: Collection, ids: seq<string>, docs: seq<string>, metas: seq<Meta>)
    requires |ids| == |docs| == |metas|
    ensures AddAll(col, ids, docs, metas).Keys == col.Keys + set i | 0 <= i < |ids| :: ids[i]
    ensures forall id :: id in col ==> AddAll(col, ids, docs, metas)[id] == col[id]
    decreases |ids|
  {
    if ids != [] {
      var col' := if ids[0] in col then col else col[ids[0] := Entry(docs[0], metas[0])];
      AddAllKeeps(col', ids[1..], docs[1..], metas[1..]);
      var rest := set i | 0 <= i < |ids[1..]| :: ids[1..][i];
      var all := set i | 0 <= i < |ids| :: ids[i];
      assert all == {ids[0]} + rest by {
        forall x | x in all ensures x in {ids[0]} + rest {
          var i :| 0 <= i < |ids| && ids[i] == x;
          if i > 0 {
            assert ids[1..][i - 1] == x;
          }
        }
        forall x | x in rest ensures x in all {
          var i :| 0 <= i < |ids[1..]| && ids[1..][i] == x;
          assert ids[i + 1] == x;
        }
      }
    }
  }

  /** The ids of a batch are pairwise different. */
  predicate Unique(ids: seq<string>) {
    forall i, j :: 0 <= i < j < |ids| ==> ids[i] != ids[j]
  }

  /** Adding a batch of distinct, new ids stores each record under its id. */
  lemma {:induction false} AddAllStores(col: Collection, ids: seq<string>, docs: seq<string>, metas: seq<Meta>, k: nat)
    requires |ids| == |docs| == |metas| && Unique(ids)
    requires k < |ids| && ids[k] !in col
    ensures ids[k] in AddAll(col, ids, docs, metas)
    ensures AddAll(col, ids, docs, metas)[ids[k]] == Entry(docs[k], metas[k])
    decreases |ids|
  {
    var col' := if ids[0] in col then col else col[ids[0] := Entry(docs[0], metas[0])];
    AddAllKeeps(col', ids[1..], docs[1..], metas[1..]);
    if k > 0 {
      assert ids[k] != ids[0];
      AddAllStores(col', ids[1..], docs[1..], metas[1..], k - 1);
    }
  }

  /** Adding n distinct ids to an empty collection stores n records. */
  lemma AddAllCount(ids: seq<string>, docs: seq<string>, metas: seq<Meta>)
    requires |ids| == |docs| == |metas| && Unique(ids)
    ensures |AddAll(map[], ids, docs, metas)| == |ids|
  {
    AddAllKeeps(map[], ids, docs, metas);
    DistinctCard(ids);
  }

  lemma {:induction false} DistinctCard(ids: seq<string>)
    requires Unique(ids)
    ensures |set i | 0 <= i < |ids| :: ids[i]| == |ids|
    decreases |ids|
  {
    if ids != [] {
      var n := |ids|;
      var front := ids[..n - 1];
      DistinctCard(front);
      var s := set i | 0 <= i < n :: ids[i];
      var s' := set i | 0 <= i < n - 1 :: front[i];
      assert s == s' + {ids[n - 1]} by {
        forall x | x in s ensures x in s' + {ids[n - 1]} {
          var i :| 0 <= i < n && ids[i] == x;
          if i < n - 1 {
            assert front[i] == x;
          }
        }
      }
      assert ids[n - 1] !in s';
    }
  }

  /** A chromadb client: its collections by name. */
  class Client {
    var collections: map<string, Collection>

    /** chromadb.PersistentClient(path): the client holds the collections
        that earlier runs left in the persist directory. */
    constructor (persisted: map<string, Collection>)
      ensures collections == persisted
    {
      collections := persisted;
    }

    /** client.get_or_create_collection(name). */
    method GetOrCreateCollection(name: string)
      modifies this
      ensures collections == GetOrCreate(old(collections), name)
    {
      if name !in collections {
        collections := collections[name := map[]];
      }
    }

    /** collection.count(). */
    method Count(name: string) returns (n: nat)
      requires name in collections
      ensures n == |collections[name]|
    {
      n := |collections[name]|;
    }

    /** collection.add(documents=..., metadatas=..., ids=...). */
    method Add(name: string, ids: seq<string>, docs: seq<string>, metas: seq<Meta>)
      requires name in collections && |ids| == |docs| == |metas|
      modifies this
      ensures collections == old(collections)[name := AddAll(old(collections)[name], ids, docs, metas)]
    {
      collections := collections[name := AddAll(collections[name], ids, docs, metas)];
    }

    /** Whether collection.get(ids=[id]) finds a record. */
    method Contains(name: string, id: string) returns (found: bool)
      requires name in collections
      ensures found <==> id in collections[name]
    {
      found := id in collections[name];
    }

    /** collection.delete(ids=[id]). */
    method Delete(name: string, id: string)
      requires name in collections
      modifies this
      ensures collections == old(collections)[name := old(collections)[name] - {id}]
    {
      collections := collections[name := collections[name] - {id}];
    }

    /** The names of client.list_collections(). */
    method ListNames() returns (names: set<string>)
      ensures names == collections.Keys
    {
      names := collections.Keys;
    }

    /** client.delete_collection(name). */
    method DeleteCollection(name: string)
      requires name in collections
      modifies this
      ensures collections == old(collections) - {name}
    {
      collections := collections - {name};
    }
  }
}
