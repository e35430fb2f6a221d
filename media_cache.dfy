/**
  The browser-side media cache the pages write through
  (src/custom-hooks/useCache.ts and its companions).  The store is an
  abstract key-to-record map plus one slot for the device summary; a ghost
  trace records the order of the mutating calls so that the pages can
  promise an order of writes.
 */
module MediaCache {
  import opened DeviceData

  /** One mutating call on the cache, as it appears in the trace. */
  datatype CacheOp = ClearAll | ClearContent | Put(key: string) | PutSummary(summary: Summary)

  /** The trace entries of saving `vs` one after another. */
  function PutOps(vs: seq<MultimediaContent>): (ops: seq<CacheOp>)
    ensures |ops| == |vs|
  {
    if vs == [] then [] else PutOps(vs[..|vs| - 1]) + [Put(vs[|vs| - 1].content)]
  }

  /** The i-th save of the trace is under the `content` key of the i-th record. */
  lemma {:induction false} PutOpsAt(vs: seq<MultimediaContent>, i: nat)
    requires i < |vs|
    ensures PutOps(vs)[i] == Put(vs[i].content)
  {
    if i < |vs| - 1 {
      PutOpsAt(vs[..|vs| - 1], i);
    }
  }

  class Cache {
    var entries: map<string, MultimediaContent>
    var summary: Option<Summary>
    ghost var ops: seq<CacheOp>

    constructor ()
      ensures entries == map[] && summary == None && ops == []
    {
      entries, summary, ops := map[], None, [];
    }

    /** `clearCache`: empties the whole store, summary included. */
    method ClearCache()
      modifies this
      ensures entries == map[] && summary == None
      ensures ops == old(ops) + [ClearAll]
    {
      entries, summary := map[], None;
      ops := ops + [ClearAll];
    }

    /** `clearCachedContent`: empties the content records and keeps the summary. */
    method ClearCachedContent()
      modifies this
      ensures entries == map[] && summary == old(summary)
      ensures ops == old(ops) + [ClearContent]
    {
      entries := map[];
      ops := ops + [ClearContent];
    }

    /** `saveToCache(key, value)`: a later save under the same key overwrites. */
    method SaveToCache(key: string, value: MultimediaContent)
      modifies this
      ensures entries == old(entries)[key := value] && summary == old(summary)
      ensures ops == old(ops) + [Put(key)]
    {
      entries := entries[key := value];
      ops := ops + [Put(key)];
    }

    /** `saveDeviceSummary(summary)`. */
    method SaveDeviceSummary(s: Summary)
      modifies this
      ensures entries == old(entries) && summary == Some(s)
      ensures ops == old(ops) + [PutSummary(s)]
    {
      summary := Some(s);
      ops := ops + [PutSummary(s)];
    }
  }
}
