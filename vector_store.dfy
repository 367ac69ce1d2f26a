/** The de-duplication step of the legal vector store's search: the
    ranked hits of the nearest-neighbour index are resolved to metadata
    records, and only the first record for each `section-subsection` key
    is kept, in rank order. */
module VectorStore {

  /** A metadata record: each field name mapped to the text Python's
      `str()` gives for its value (a JSON `null` is the text "None"). */
  type Document = map<string, string>

  /** `item.get(field)` as an f-string renders it: an absent field gives
      `None`, which renders as the text "None". */
  function Get(item: Document, field: string): string {
    if field in item then item[field] else "None"
  }

  /** The de-duplication key, built as text: section, a dash, subsection. */
  function DedupKey(item: Document): string {
    Get(item, "section") + "-" + Get(item, "subsection")
  }

  /** The key splits back into the section text, the dash at its first
      position after it, and the subsection text. */
  lemma DedupKeyParts(item: Document)
    ensures var section := Get(item, "section");
      var key := DedupKey(item);
      && |key| == |section| + 1 + |Get(item, "subsection")|
      && key[..|section|] == section && key[|section|] == '-'
      && key[|section| + 1..] == Get(item, "subsection")
  {
  }

  /** The records the ranked hit indices point at, in rank order. */
  function Resolve(metadata: seq<Document>, hits: seq<nat>): (docs: seq<Document>)
    requires forall i | 0 <= i < |hits| :: hits[i] < |metadata|
    ensures |docs| == |hits|
    ensures forall i | 0 <= i < |hits| :: docs[i] == metadata[hits[i]]
  {
    if hits == [] then []
    else Resolve(metadata, hits[..|hits| - 1]) + [metadata[hits[|hits| - 1]]]
  }

  /** The keys of a list of records. */
  function KeySet(docs: seq<Document>): set<string> {
    set i | 0 <= i < |docs| :: DedupKey(docs[i])
  }

  /** No two records of the list share a key. */
  predicate KeysDistinct(docs: seq<Document>) {
    forall i, j | 0 <= i < j < |docs| :: DedupKey(docs[i]) != DedupKey(docs[j])
  }

  /** Record `i` is the first with its key. */
  predicate IsFirstOccurrence(docs: seq<Document>, i: int) {
    && 0 <= i < |docs|
    && forall j | 0 <= j < i :: DedupKey(docs[j]) != DedupKey(docs[i])
  }

  predicate StrictlyIncreasing(xs: seq<nat>) {
    forall m, n | 0 <= m < n < |xs| :: xs[m] < xs[n]
  }

  lemma KeySetSnoc(docs: seq<Document>, x: Document)
    ensures KeySet(docs + [x]) == KeySet(docs) + {DedupKey(x)}
  {
    var d := docs + [x];
    forall key | key in KeySet(d) ensures key in KeySet(docs) + {DedupKey(x)} {
      var i :| 0 <= i < |d| && DedupKey(d[i]) == key;
      if i < |docs| {
        assert d[i] == docs[i];
      }
    }
    forall key | key in KeySet(docs) ensures key in KeySet(d) {
      var i :| 0 <= i < |docs| && DedupKey(docs[i]) == key;
      assert d[i] == docs[i];
    }
    assert d[|docs|] == x;
  }

  /** The list with every record whose key an earlier record already had
      removed. */
  function Dedupe(docs: seq<Document>): (r: seq<Document>)
    ensures |r| <= |docs|
    ensures KeysDistinct(r)
    ensures KeySet(r) == KeySet(docs)
    ensures forall m | 0 <= m < |r| :: r[m] in docs
  {
    if docs == [] then []
    else
      var prefix := docs[..|docs| - 1];
      var last := docs[|docs| - 1];
      var kept := Dedupe(prefix);
      assert docs == prefix + [last];
      KeySetSnoc(prefix, last);
      if DedupKey(last) in KeySet(kept) then kept
      else
        KeySetSnoc(kept, last);
        kept + [last]
  }

  /** The positions of the records that are first with their key, in
      increasing order. */
  function FirstIndices(docs: seq<Document>): seq<nat> {
    if docs == [] then []
    else
      var n := |docs| - 1;
      FirstIndices(docs[..n]) + (if IsFirstOccurrence(docs, n) then [n] else [])
  }

  lemma FirstOccurrencePrefix(docs: seq<Document>, n: nat, i: int)
    requires n <= |docs| && 0 <= i < n
    ensures IsFirstOccurrence(docs[..n], i) <==> IsFirstOccurrence(docs, i)
  {
    assert forall j | 0 <= j <= i :: docs[..n][j] == docs[j];
  }

  lemma FirstOccurrenceLast(docs: seq<Document>)
    requires docs != []
    ensures IsFirstOccurrence(docs, |docs| - 1) <==> DedupKey(docs[|docs| - 1]) !in KeySet(docs[..|docs| - 1])
  {
    var n := |docs| - 1;
    var prefix := docs[..n];
    if DedupKey(docs[n]) in KeySet(prefix) {
      var j :| 0 <= j < n && DedupKey(prefix[j]) == DedupKey(docs[n]);
      assert docs[j] == prefix[j];
    }
    if !IsFirstOccurrence(docs, n) {
      var j :| 0 <= j < n && DedupKey(docs[j]) == DedupKey(docs[n]);
      assert prefix[j] == docs[j];
    }
  }

  /** One more record is kept exactly when it is the first with its key. */
  lemma DedupeSnoc(docs: seq<Document>)
    requires docs != []
    ensures var n := |docs| - 1;
      && FirstIndices(docs) == FirstIndices(docs[..n]) + (if IsFirstOccurrence(docs, n) then [n] else [])
      && Dedupe(docs) == Dedupe(docs[..n]) + (if IsFirstOccurrence(docs, n) then [docs[n]] else [])
  {
    FirstOccurrenceLast(docs);
  }

  /** `FirstIndices` lists, in increasing order, exactly the positions
      whose record is the first with its key. */
  lemma {:induction false} FirstIndicesExact(docs: seq<Document>)
    ensures StrictlyIncreasing(FirstIndices(docs))
    ensures forall m | 0 <= m < |FirstIndices(docs)| :: FirstIndices(docs)[m] < |docs|
    ensures forall i | 0 <= i < |docs| :: IsFirstOccurrence(docs, i) <==> i in FirstIndices(docs)
  {
    if docs != [] {
      var n := |docs| - 1;
      FirstIndicesExact(docs[..n]);
      var before := FirstIndices(docs[..n]);
      assert FirstIndices(docs) == before + (if IsFirstOccurrence(docs, n) then [n] else []);
      forall i | 0 <= i < n
        ensures IsFirstOccurrence(docs, i) <==> i in FirstIndices(docs)
      {
        FirstOccurrencePrefix(docs, n, i);
      }
    }
  }

  /** Result `m` of `Dedupe` is the record at position `FirstIndices(docs)[m]`. */
  lemma {:induction false} DedupeAtFirstIndices(docs: seq<Document>)
    ensures |FirstIndices(docs)| == |Dedupe(docs)|
    ensures forall m | 0 <= m < |Dedupe(docs)| ::
      FirstIndices(docs)[m] < |docs| && Dedupe(docs)[m] == docs[FirstIndices(docs)[m]]
  {
    FirstIndicesExact(docs);
    if docs != [] {
      var n := |docs| - 1;
      var prefix := docs[..n];
      DedupeAtFirstIndices(prefix);
      DedupeSnoc(docs);
      forall m | 0 <= m < |FirstIndices(prefix)|
        ensures Dedupe(docs)[m] == docs[FirstIndices(docs)[m]]
      {
        assert FirstIndices(docs)[m] == FirstIndices(prefix)[m];
        assert Dedupe(docs)[m] == Dedupe(prefix)[m];
        assert prefix[FirstIndices(prefix)[m]] == docs[FirstIndices(prefix)[m]];
      }
    }
  }

  /** A list whose keys are already distinct is left as it is, and only
      such a list is. */
  lemma {:induction false} DedupeIdentity(docs: seq<Document>)
    ensures Dedupe(docs) == docs <==> KeysDistinct(docs)
  {
    if KeysDistinct(docs) && docs != [] {
      var n := |docs| - 1;
      var prefix := docs[..n];
      assert KeysDistinct(prefix) by {
        assert forall i | 0 <= i < n :: prefix[i] == docs[i];
      }
      DedupeIdentity(prefix);
      FirstOccurrenceLast(docs);
      assert IsFirstOccurrence(docs, n);
      assert DedupKey(docs[n]) !in KeySet(Dedupe(prefix));
      assert docs == prefix + [docs[n]];
      assert Dedupe(docs) == Dedupe(prefix) + [docs[n]];
    }
  }

  /** De-duplicating a second time changes nothing. */
  lemma DedupeIdempotent(docs: seq<Document>)
    ensures Dedupe(Dedupe(docs)) == Dedupe(docs)
  {
    DedupeIdentity(Dedupe(docs));
  }

  /** Hits whose records have the keys "3-1", "3-1" and "4-2" keep the
      first and the third record, in that order. */
  lemma DedupeExample(a: Document, b: Document, c: Document)
    requires DedupKey(a) == "3-1" && DedupKey(b) == "3-1" && DedupKey(c) == "4-2"
    ensures Dedupe([a, b, c]) == [a, c]
  {
    assert [a, b, c][..2] == [a, b];
    assert [a, b][..1] == [a];
    assert [a][..0] == [];
    assert KeySet([a]) == {"3-1"} by { KeySetSnoc([], a); }
  }

  /** An absent subsection and a subsection whose value renders as "None"
      give the same key. */
  lemma AbsentSubsectionKey(section: string)
    ensures DedupKey(map["section" := section]) == DedupKey(map["section" := section, "subsection" := "None"])
    ensures DedupKey(map["section" := section]) == section + "-None"
  {
  }

  /** The key is text, not a pair: different (section, subsection) pairs
      can give the same key, and the later record is then dropped. */
  lemma DashCollision()
    ensures var a := map["section" := "1-2", "subsection" := "3"];
      var b := map["section" := "1", "subsection" := "2-3"];
      a != b && DedupKey(a) == DedupKey(b) && Dedupe([a, b]) == [a]
  {
    var a: Document := map["section" := "1-2", "subsection" := "3"];
    var b: Document := map["section" := "1", "subsection" := "2-3"];
    assert a["section"] != b["section"];
    assert DedupKey(a) == "1-2-3" && DedupKey(b) == "1-2-3";
    assert [a, b][..1] == [a];
    var none: seq<Document> := [];
    assert [a][..0] == none;
    assert KeySet([a]) == {"1-2-3"} by { KeySetSnoc([], a); }
  }

  /** The search's answer for the hits `hits`. */
  function SearchResults(metadata: seq<Document>, hits: seq<nat>): seq<Document>
    requires forall i | 0 <= i < |hits| :: hits[i] < |metadata|
  {
    Dedupe(Resolve(metadata, hits))
  }

  /** Every record the search returns is the record of one of the hits,
      and the search returns no more records than hits. */
  lemma SearchResultsFromHits(metadata: seq<Document>, hits: seq<nat>)
    requires forall i | 0 <= i < |hits| :: hits[i] < |metadata|
    ensures |SearchResults(metadata, hits)| <= |hits|
    ensures forall m | 0 <= m < |SearchResults(metadata, hits)| ::
      exists i | 0 <= i < |hits| :: SearchResults(metadata, hits)[m] == metadata[hits[i]]
  {
    var docs := Resolve(metadata, hits);
    forall m | 0 <= m < |SearchResults(metadata, hits)|
      ensures exists i | 0 <= i < |hits| :: SearchResults(metadata, hits)[m] == metadata[hits[i]]
    {
      var x := SearchResults(metadata, hits)[m];
      assert x in docs;
      var i :| 0 <= i < |docs| && docs[i] == x;
      assert x == metadata[hits[i]];
    }
  }

  lemma ResolveStep(metadata: seq<Document>, hits: seq<nat>, i: nat)
    requires forall j | 0 <= j < |hits| :: hits[j] < |metadata|
    requires i < |hits|
    ensures Resolve(metadata, hits[..i + 1]) == Resolve(metadata, hits[..i]) + [metadata[hits[i]]]
  {
    assert hits[..i + 1][..i] == hits[..i];
  }

  /** One more record is kept exactly when its key is new. */
  lemma DedupeStep(docs: seq<Document>, x: Document)
    ensures Dedupe(docs + [x])
         == if DedupKey(x) in KeySet(Dedupe(docs)) then Dedupe(docs) else Dedupe(docs) + [x]
  {
    assert (docs + [x])[..|docs|] == docs;
  }

  /** One step of the search loop: the next hit's record is kept exactly
      when its key has not been seen, and keeping it adds its key. */
  lemma SearchStep(metadata: seq<Document>, hits: seq<nat>, i: nat)
    requires forall j | 0 <= j < |hits| :: hits[j] < |metadata|
    requires i < |hits|
    ensures var kept := Dedupe(Resolve(metadata, hits[..i]));
      var item := metadata[hits[i]];
      && Dedupe(Resolve(metadata, hits[..i + 1]))
         == (if DedupKey(item) in KeySet(kept) then kept else kept + [item])
      && KeySet(kept + [item]) == KeySet(kept) + {DedupKey(item)}
  {
    ResolveStep(metadata, hits, i);
    DedupeStep(Resolve(metadata, hits[..i]), metadata[hits[i]]);
    KeySetSnoc(Dedupe(Resolve(metadata, hits[..i])), metadata[hits[i]]);
  }

  /** The store: the metadata records, row for row aligned with the
      vectors of the nearest-neighbour index. */
  class LegalVectorStore {
    const metadata: seq<Document>

    constructor(metadata: seq<Document>)
      ensures this.metadata == metadata
    {
      this.metadata := metadata;
    }

    /** The de-duplication loop of `search`, over the ranked row indices
        `hits` that the index returned for the query. */
    method Search(hits: seq<nat>) returns (results: seq<Document>)
      requires forall i | 0 <= i < |hits| :: hits[i] < |metadata|
      ensures results == SearchResults(metadata, hits)
    {
      results := [];
      var seen: set<string> := {};
      for i := 0 to |hits|
        invariant results == Dedupe(Resolve(metadata, hits[..i]))
        invariant seen == KeySet(results)
      {
        var item := metadata[hits[i]];
        var key := DedupKey(item);
        SearchStep(metadata, hits, i);
        if key !in seen {
          seen := seen + {key};
          results := results + [item];
        }
      }
      assert hits[..|hits|] == hits;
    }
  }
}
