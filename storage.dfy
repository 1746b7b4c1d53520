/**
 * Browser local storage, reduced to the one slot the application uses, `'documents'`.
 * Serialisation to and from JSON is the identity here: the slot holds the sequence itself.
 */
module Storage {
  import opened Wrappers
  import opened Records

  /** `JSON.parse(localStorage.getItem('documents') || '[]')`: an absent slot reads as no documents. */
  function Loaded(slot: Option<seq<Document>>): (docs: seq<Document>) {
    if slot.Some? then slot.value else []
  }

  class LocalStorage {
    /** The `'documents'` slot; `None` until something is written. */
    var documents: Option<seq<Document>>

    /** A browser profile where nothing has been stored yet. */
    constructor ()
      ensures documents.None?
    {
      documents := None;
    }

    /** Reads the slot, treating an absent slot as the empty sequence. */
    method GetDocuments() returns (docs: seq<Document>)
      ensures documents.None? ==> docs == []
      ensures documents.Some? ==> docs == documents.value
    {
      docs := if documents.Some? then documents.value else [];
    }

    /** `localStorage.setItem('documents', JSON.stringify(docs))`: replaces the whole slot. */
    method SetDocuments(docs: seq<Document>)
      modifies this
      ensures documents == Some(docs)
      ensures Loaded(documents) == docs
    {
      documents := Some(docs);
    }
  }
}
