/**
 * The "Browse" view: the list loaded from the `'documents'` slot, a search box
 * filtering by name, per-row View and Delete actions, and the detail overlay
 * (selected document plus a visibility flag).
 */
module Documents {
  import opened Wrappers
  import opened Text
  import opened ArrayMethods
  import opened Records
  import opened Storage

  /** The search test: the lower-cased name contains the lower-cased query. */
  predicate MatchesQuery(d: Document, searchQuery: string) {
    Includes(ToLower(d.name), ToLower(searchQuery))
  }

  /** `filteredDocuments`: the documents whose name matches the query. */
  function FilteredDocuments(documents: seq<Document>, searchQuery: string): (r: seq<Document>) {
    Filter(documents, (d: Document) => MatchesQuery(d, searchQuery))
  }

  /**
   * `documentsToBeDisplayed()`: the filtered list when it is not empty; otherwise
   * nothing for a non-empty query and the whole list for an empty one.
   */
  function DocumentsToBeDisplayed(documents: seq<Document>, searchQuery: string): (r: seq<Document>) {
    var filtered := FilteredDocuments(documents, searchQuery);
    if |filtered| > 0 then filtered else if searchQuery != [] then [] else documents
  }

  /** The list after `handleDeleteDocument(id)`: every record whose id differs. */
  function WithoutId(documents: seq<Document>, id: int): (r: seq<Document>) {
    Filter(documents, (d: Document) => d.id != id)
  }

  /** `documents.find(doc => doc.id === id)`. */
  function FindById(documents: seq<Document>, id: int): (r: Option<Document>) {
    Find(documents, (d: Document) => d.id == id)
  }

  /**
   * The filtered list is an order-preserving subsequence of the list and holds
   * exactly the documents whose lower-cased name contains the lower-cased query,
   * each as many times as it occurs in the list.
   */
  lemma FilteredIsMatchingSubsequence(documents: seq<Document>, searchQuery: string)
    ensures IsSubsequence(FilteredDocuments(documents, searchQuery), documents)
    ensures forall d :: d in FilteredDocuments(documents, searchQuery) <==> d in documents && MatchesQuery(d, searchQuery)
    ensures forall d ::
              multiset(FilteredDocuments(documents, searchQuery))[d]
              == if MatchesQuery(d, searchQuery) then multiset(documents)[d] else 0
  {
    FilterIsSubsequence(documents, (d: Document) => MatchesQuery(d, searchQuery));
    FilterMembers(documents, (d: Document) => MatchesQuery(d, searchQuery));
    FilterCounts(documents, (d: Document) => MatchesQuery(d, searchQuery));
  }

  /** With an empty query every document matches, so the filter and the display keep the whole list. */
  lemma EmptyQueryShowsAll(documents: seq<Document>)
    ensures FilteredDocuments(documents, []) == documents
    ensures DocumentsToBeDisplayed(documents, []) == documents
  {
    assert ToLower([]) == [];
    FilterKeepsAll(documents, (d: Document) => MatchesQuery(d, []));
  }

  /**
   * The fallback in `documentsToBeDisplayed` never changes the outcome: what is
   * displayed is always the filtered list.
   */
  lemma DisplayedIsFiltered(documents: seq<Document>, searchQuery: string)
    ensures DocumentsToBeDisplayed(documents, searchQuery) == FilteredDocuments(documents, searchQuery)
  {
    if searchQuery == [] {
      EmptyQueryShowsAll(documents);
    }
  }

  /** A query that matches nothing displays an empty list, not the whole list. */
  lemma NoMatchDisplaysNothing(documents: seq<Document>, searchQuery: string)
    requires forall d :: d in documents ==> !MatchesQuery(d, searchQuery)
    ensures DocumentsToBeDisplayed(documents, searchQuery) == []
  {
    DisplayedIsFiltered(documents, searchQuery);
    FilterKeepsNone(documents, (d: Document) => MatchesQuery(d, searchQuery));
  }

  /**
   * After a delete no record carries the id; every record with another id is kept,
   * as many times as before and in its original relative order.
   */
  lemma WithoutIdRemovesExactly(documents: seq<Document>, id: int)
    ensures forall d :: d in WithoutId(documents, id) ==> d.id != id
    ensures forall d :: d in documents && d.id != id ==> d in WithoutId(documents, id)
    ensures IsSubsequence(WithoutId(documents, id), documents)
    ensures forall d :: multiset(WithoutId(documents, id))[d] == if d.id != id then multiset(documents)[d] else 0
  {
    FilterIsSubsequence(documents, (d: Document) => d.id != id);
    FilterMembers(documents, (d: Document) => d.id != id);
    FilterCounts(documents, (d: Document) => d.id != id);
  }

  /** Deleting an id that no record carries leaves the list as it was. */
  lemma DeleteAbsentIdIsNoOp(documents: seq<Document>, id: int)
    requires id !in Ids(documents)
    ensures WithoutId(documents, id) == documents
  {
    assert forall i :: 0 <= i < |documents| ==> Ids(documents)[i] == documents[i].id;
    FilterKeepsAll(documents, (d: Document) => d.id != id);
  }

  /** Deleting the same id twice is the same as deleting it once. */
  lemma DeleteIdempotent(documents: seq<Document>, id: int)
    ensures WithoutId(WithoutId(documents, id), id) == WithoutId(documents, id)
  {
    FilterIdempotent(documents, (d: Document) => d.id != id);
  }

  /** Viewing picks the first record with the id, and nothing when no record has it. */
  lemma FindByIdIsFirst(documents: seq<Document>, id: int)
    ensures FindById(documents, id).None? <==> id !in Ids(documents)
    ensures FindById(documents, id).Some? ==>
      exists i :: 0 <= i < |documents| && documents[i] == FindById(documents, id).value
        && documents[i].id == id && forall j :: 0 <= j < i ==> documents[j].id != id
  {
    if id in Ids(documents) {
      var i :| 0 <= i < |documents| && Ids(documents)[i] == id;
      assert documents[i] in documents;
    }
  }

  /** Case is ignored on both sides: "Invoice Jan" and "invoice_feb" contain "invoice", "Receipt" does not. */
  lemma InvoiceNames()
    ensures Includes(ToLower("Invoice Jan"), ToLower("invoice"))
    ensures Includes(ToLower("invoice_feb"), ToLower("invoice"))
    ensures !Includes(ToLower("Receipt"), ToLower("invoice"))
  {
    assert ToLower("invoice") == "invoice";
    assert ToLower("Invoice Jan") == "invoice jan";
    assert ToLower("invoice_feb") == "invoice_feb";
    assert StartsWith("invoice jan", "invoice");
    assert StartsWith("invoice_feb", "invoice");
    assert ToLower("Receipt") == "receipt";
    SameLengthIncludes("receipt", "invoice");
  }

  /** A worked search: the query "invoice" displays the first and third of three documents, in order. */
  lemma InvoiceSearchExample(date: string)
    ensures var jan := Document(1, "Invoice Jan", "d", "", date, "t");
      var receipt := Document(2, "Receipt", "d", "", date, "t");
      var feb := Document(3, "invoice_feb", "d", "", date, "t");
      DocumentsToBeDisplayed([jan, receipt, feb], "invoice") == [jan, feb]
  {
    var jan := Document(1, "Invoice Jan", "d", "", date, "t");
    var receipt := Document(2, "Receipt", "d", "", date, "t");
    var feb := Document(3, "invoice_feb", "d", "", date, "t");
    InvoiceNames();
    var matches := (d: Document) => MatchesQuery(d, "invoice");
    assert matches(jan) && !matches(receipt) && matches(feb);
    assert [jan, receipt, feb][1..] == [receipt, feb];
    assert [receipt, feb][1..] == [feb];
    assert Filter([feb], matches) == [feb];
    assert Filter([receipt, feb], matches) == [feb];
    assert Filter([jan, receipt, feb], matches) == [jan, feb];
    DisplayedIsFiltered([jan, receipt, feb], "invoice");
  }

  class DocumentsView {
    var documents: seq<Document>
    var selectedDocument: Option<Document>
    var showModal: bool
    var searchQuery: string
    var isMounted: bool
    const storage: LocalStorage

    /** The initial component state: nothing loaded, nothing selected, overlay hidden. */
    constructor (storage: LocalStorage)
      ensures this.storage == storage
      ensures documents == [] && selectedDocument.None? && !showModal && searchQuery == [] && !isMounted
    {
      this.storage := storage;
      documents, selectedDocument, showModal, searchQuery, isMounted := [], None, false, [], false;
    }

    /** The overlay is rendered only when the flag is set and a document is selected. */
    predicate ModalVisible()
      reads this
    {
      showModal && selectedDocument.Some?
    }

    /** The in-memory list and the `'documents'` slot agree. */
    predicate Persisted()
      reads this, storage
    {
      storage.documents == Some(documents)
    }

    /** The mount effect: marks the view mounted and loads the slot, an absent slot as no documents. */
    method Mount()
      modifies this`isMounted, this`documents
      ensures isMounted
      ensures documents == Loaded(storage.documents)
    {
      isMounted := true;
      documents := storage.GetDocuments();
    }

    method HandleSearchChange(value: string)
      modifies this`searchQuery
      ensures searchQuery == value
    {
      searchQuery := value;
    }

    /**
     * View: selects the first document with the id (nothing if there is none) and
     * always raises the flag; the overlay then shows exactly when the id is present.
     */
    method HandleViewDocument(id: int)
      modifies this`selectedDocument, this`showModal
      ensures selectedDocument == FindById(documents, id)
      ensures showModal
      ensures ModalVisible() <==> id in Ids(documents)
    {
      FindByIdIsFirst(documents, id);
      selectedDocument := FindById(documents, id);
      showModal := true;
    }

    /**
     * Delete: drops every record with the id from the list and writes the list
     * back to the slot, so that the two agree afterwards.
     */
    method HandleDeleteDocument(id: int)
      modifies this`documents, storage
      ensures documents == WithoutId(old(documents), id)
      ensures Persisted()
      ensures id !in Ids(documents)
    {
      var updatedDocuments := WithoutId(documents, id);
      documents := updatedDocuments;
      storage.SetDocuments(updatedDocuments);
      WithoutIdRemovesExactly(old(documents), id);
    }

    /** Closing clears the flag only; the selection stays. */
    method CloseModal()
      modifies this`showModal
      ensures !showModal && !ModalVisible()
      ensures selectedDocument == old(selectedDocument)
    {
      showModal := false;
    }
  }
}
