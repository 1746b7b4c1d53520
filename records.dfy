/** The one persisted entity: a document record as stored in the `'documents'` slot. */
module Records {
  import opened Text

  /**
   * A document. Both source components share this shape; the id is an integer
   * throughout. Image and text payloads are strings, empty when absent.
   */
  datatype Document = Document(id: int, name: string, description: string, image: string, date: string, text: string)

  /** The record invariant the add form enforces: a name, a description and at least one payload. */
  predicate WellFormed(d: Document) {
    !AllWhitespace(d.name) && !AllWhitespace(d.description) && (d.image != [] || d.text != [])
  }

  /** The ids of a stored sequence, in order. */
  function Ids(docs: seq<Document>): (r: seq<int>)
    ensures |r| == |docs| && forall i :: 0 <= i < |docs| ==> r[i] == docs[i].id
  {
    if docs == [] then [] else [docs[0].id] + Ids(docs[1..])
  }

  /** Ids as assigned by an add-only history: the record at position `i` has id `i + 1`. */
  predicate SequentialIds(docs: seq<Document>) {
    forall i :: 0 <= i < |docs| ==> docs[i].id == i + 1
  }

  /** No two records share an id. */
  predicate UniqueIds(docs: seq<Document>) {
    forall i, j :: 0 <= i < j < |docs| ==> docs[i].id != docs[j].id
  }

  /** The largest id in `docs`, or 0 when no id is larger. */
  function MaxId(docs: seq<Document>): (m: int)
    ensures m >= 0
  {
    if docs == [] then 0
    else
      var rest := MaxId(docs[1..]);
      if docs[0].id > rest then docs[0].id else rest
  }

  /** `MaxId` bounds every id and is either 0 or the id of some record. */
  lemma {:induction false} MaxIdBounds(docs: seq<Document>)
    ensures forall i :: 0 <= i < |docs| ==> docs[i].id <= MaxId(docs)
    ensures MaxId(docs) == 0 || exists i :: 0 <= i < |docs| && docs[i].id == MaxId(docs)
  {
    if docs != [] {
      MaxIdBounds(docs[1..]);
      forall i | 1 <= i < |docs| ensures docs[i].id <= MaxId(docs) {
        assert docs[i] == docs[1..][i - 1];
      }
      if MaxId(docs) != 0 && MaxId(docs) != docs[0].id {
        var j :| 0 <= j < |docs[1..]| && docs[1..][j].id == MaxId(docs[1..]);
        assert docs[j + 1].id == MaxId(docs);
      }
    }
  }

  /** An id for a new record: one more than the largest id in use, 1 for an empty list. */
  function FreshId(docs: seq<Document>): (id: int)
  {
    MaxId(docs) + 1
  }

  /** A fresh id is positive and exceeds the id of every stored record. */
  lemma FreshIdIsNew(docs: seq<Document>)
    ensures FreshId(docs) >= 1
    ensures forall i :: 0 <= i < |docs| ==> docs[i].id < FreshId(docs)
  {
    MaxIdBounds(docs);
  }

  /** On records numbered 1..n the fresh id is n + 1, the count-based id. */
  lemma FreshIdOnSequential(docs: seq<Document>)
    requires SequentialIds(docs)
    ensures FreshId(docs) == |docs| + 1
  {
    MaxIdBounds(docs);
    if docs != [] {
      assert docs[|docs| - 1].id == |docs|;
    }
  }
}
