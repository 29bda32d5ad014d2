/**
 * parseCached of the stream and task services: the segmentation of a document is stored under
 * the key `uri#version` and handed out again for the same key without segmenting the document
 * a second time.
 */
module ParseCache {
  import opened Text

  /** The cache key of a document version: its uri, `#`, and its version number. */
  function CacheKey(uri: string, version: int): (r: string)
    ensures |r| > |uri| && r[..|uri|] == uri && r[|uri|] == '#'
  {
    uri + "#" + IntToString(version)
  }

  /** Two document versions share a key only when they have the same uri and the same version. */
  lemma CacheKeyInjective(u1: string, v1: int, u2: string, v2: int)
    requires CacheKey(u1, v1) == CacheKey(u2, v2)
    ensures u1 == u2 && v1 == v2
  {
    var key := CacheKey(u1, v1);
    var s1, s2 := IntToString(v1), IntToString(v2);
    assert key == u1 + "#" + s1 == u2 + "#" + s2;
    var n := |key|;
    assert s1 == key[n - |s1|..] == s2;
    assert u1 == key[..n - |s1| - 1] == u2;
    IntToStringInjective(v1, v2);
  }

  /**
   * The item cache: segmentations stored by key. `documents` records, for the proof only,
   * which document text each stored segmentation was computed from.
   */
  class ItemCache<V> {
    const segment: seq<string> -> V
    var entries: map<string, V>
    ghost var documents: map<string, seq<string>>

    /** Every stored segmentation is the segmentation of the document stored with it. */
    ghost predicate Valid()
      reads this
    {
      entries.Keys == documents.Keys && forall k :: k in entries ==> entries[k] == segment(documents[k])
    }

    constructor(segment: seq<string> -> V)
      ensures Valid() && this.segment == segment && entries == map[]
    {
      this.segment := segment;
      entries := map[];
      documents := map[];
    }

    /**
     * parseCached: the stored segmentation for the document's key, or its segmentation,
     * stored on the way. A key names one document text: a version number is not reused for
     * other content.
     */
    method Get(uri: string, version: int, doc: seq<string>) returns (r: V)
      requires Valid()
      requires CacheKey(uri, version) in documents ==> documents[CacheKey(uri, version)] == doc
      modifies this
      ensures Valid()
      ensures r == segment(doc)
      ensures CacheKey(uri, version) in old(entries) ==> entries == old(entries) && r == old(entries)[CacheKey(uri, version)]
      ensures entries == old(entries)[CacheKey(uri, version) := r]
    {
      var key := CacheKey(uri, version);
      if key in entries {
        r := entries[key];
      } else {
        r := segment(doc);
        entries := entries[key := r];
        documents := documents[key := doc];
      }
    }
  }
}
