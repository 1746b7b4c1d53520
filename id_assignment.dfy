/**
 * How ids behave across the two views. The add form numbers a new record by the
 * current count plus one, and delete filters records out, so ids stay unique
 * only while nothing has been deleted. Numbering by the largest id plus one
 * keeps them unique across any mix of adds and deletes.
 */
module IdAssignment {
  import opened Wrappers
  import opened Text
  import opened ArrayMethods
  import opened Records
  import opened Storage
  import opened AddDocument
  import opened Documents

  /** Without deletes, each add keeps the ids numbered 1..n, hence unique. */
  lemma AddKeepsSequentialIds(existing: seq<Document>, name: string, description: string, image: string, text: string, date: string)
    requires SequentialIds(existing)
    requires AddToList(existing, name, description, image, text, date).Ok?
    ensures SequentialIds(AddToList(existing, name, description, image, text, date).value)
    ensures UniqueIds(AddToList(existing, name, description, image, text, date).value)
  {
    AddToListOutcome(existing, name, description, image, text, date);
    var r := AddToList(existing, name, description, image, text, date).value;
    forall i | 0 <= i < |r| ensures r[i].id == i + 1 {
      if i < |existing| {
        assert r[i] == r[..|existing|][i];
      }
    }
  }

  /** Deleting id `k` from records numbered 1..n keeps every other record, in order. */
  lemma DeleteFromSequential(existing: seq<Document>, k: int)
    requires SequentialIds(existing) && 1 <= k <= |existing|
    ensures WithoutId(existing, k) == existing[..k - 1] + existing[k..]
  {
    FilterRemovesOne(existing, k - 1, (d: Document) => d.id != k);
  }

  /**
   * The id collision: from records numbered 1..n, deleting any id but the last
   * and then adding gives the new record the id n, which the old last record
   * still carries.
   */
  lemma DeleteThenAddDuplicatesId(existing: seq<Document>, k: int, name: string, description: string, image: string, text: string, date: string)
    requires SequentialIds(existing) && 1 <= k < |existing|
    requires AddToList(WithoutId(existing, k), name, description, image, text, date).Ok?
    ensures var r := AddToList(WithoutId(existing, k), name, description, image, text, date).value;
      && |r| == |existing|
      && r[|r| - 2].id == |existing| && r[|r| - 1].id == |existing|
      && !UniqueIds(r)
  {
    DeleteFromSequential(existing, k);
    var kept := WithoutId(existing, k);
    AddToListOutcome(kept, name, description, image, text, date);
    var r := AddToList(kept, name, description, image, text, date).value;
    assert kept[|kept| - 1] == existing[|existing| - 1];
    assert r[|r| - 2] == r[..|kept|][|kept| - 1];
  }

  /**
   * The intended numbering: submitting the form gives the new record an id one
   * more than the largest stored id, so an earlier delete cannot make it collide.
   */
  function AddWithFreshId(existing: seq<Document>, name: string, description: string, image: string, text: string, date: string)
    : (r: Result<seq<Document>, string>)
  {
    AddWithId(existing, FreshId(existing), name, description, image, text, date)
  }

  /** Without deletes the intended numbering and the count-based one agree. */
  lemma FreshIdAgreesOnSequential(existing: seq<Document>, name: string, description: string, image: string, text: string, date: string)
    requires SequentialIds(existing)
    ensures AddWithFreshId(existing, name, description, image, text, date) == AddToList(existing, name, description, image, text, date)
  {
    FreshIdOnSequential(existing);
  }

  /**
   * An add under the intended numbering fails exactly as the form's add does; when
   * it succeeds it appends one record to `existing` and keeps the ids unique.
   */
  lemma FreshAddKeepsUnique(existing: seq<Document>, name: string, description: string, image: string, text: string, date: string)
    requires UniqueIds(existing)
    ensures var r := AddWithFreshId(existing, name, description, image, text, date);
      && r.Err? == AddToList(existing, name, description, image, text, date).Err?
      && (r.Ok? ==> |r.value| == |existing| + 1 && r.value[..|existing|] == existing)
      && (r.Ok? ==> UniqueIds(r.value))
  {
    var r := AddWithFreshId(existing, name, description, image, text, date);
    if r.Ok? {
      FreshIdIsNew(existing);
      var docs := r.value;
      assert docs == existing + [docs[|existing|]];
      forall i, j | 0 <= i < j < |docs| ensures docs[i].id != docs[j].id {
        if j < |existing| {
          assert docs[i] == existing[i] && docs[j] == existing[j];
        } else {
          assert docs[i] == existing[i];
        }
      }
    }
  }

  /** Filtering records keeps their ids unique. */
  lemma {:induction false} FilterKeepsUnique(s: seq<Document>, p: Document -> bool)
    requires UniqueIds(s)
    ensures UniqueIds(Filter(s, p))
  {
    if s != [] {
      var tail := s[1..];
      assert UniqueIds(tail) by {
        forall i, j | 0 <= i < j < |tail| ensures tail[i].id != tail[j].id {
          assert tail[i] == s[i + 1] && tail[j] == s[j + 1];
        }
      }
      FilterKeepsUnique(tail, p);
      if p(s[0]) {
        FilterMembers(tail, p);
        var f := Filter(s, p);
        assert f == [s[0]] + Filter(tail, p);
        forall j | 1 <= j < |f| ensures f[j].id != s[0].id {
          assert f[j] in tail;
          var k :| 0 <= k < |tail| && tail[k] == f[j];
          assert s[k + 1] == f[j];
        }
        forall i, j | 0 <= i < j < |f| ensures f[i].id != f[j].id {
          if i > 0 {
            assert f[i] == Filter(tail, p)[i - 1] && f[j] == Filter(tail, p)[j - 1];
          }
        }
      }
    }
  }

  /** A delete keeps the ids unique. */
  lemma DeleteKeepsUnique(documents: seq<Document>, id: int)
    requires UniqueIds(documents)
    ensures UniqueIds(WithoutId(documents, id))
  {
    FilterKeepsUnique(documents, (d: Document) => d.id != id);
  }

  /**
   * The corrected counterpart of the collision: from records with unique ids, a
   * delete followed by an add under the intended numbering leaves the ids unique.
   */
  lemma DeleteThenFreshAddKeepsUnique(existing: seq<Document>, k: int, name: string, description: string, image: string, text: string, date: string)
    requires UniqueIds(existing)
    requires AddWithFreshId(WithoutId(existing, k), name, description, image, text, date).Ok?
    ensures UniqueIds(AddWithFreshId(WithoutId(existing, k), name, description, image, text, date).value)
  {
    DeleteKeepsUnique(existing, k);
    FreshAddKeepsUnique(WithoutId(existing, k), name, description, image, text, date);
  }

  lemma ReportIsValid()
    ensures ValidationError("report", "quarterly", "", "notes") == None
  {
  }

  /** Types "report" / "quarterly" into the form and submits it; the text payload is already set. */
  method SubmitReport(form: AddDocumentForm)
    requires form.text == "notes" && form.image == []
    modifies form`documentName, form`description, form`image, form.storage
    ensures form.text == "notes" && form.image == []
    ensures Loaded(form.storage.documents)
      == old(Loaded(form.storage.documents)) + [Document(|old(Loaded(form.storage.documents))| + 1, "report", "quarterly", "", "today", "notes")]
  {
    form.HandleDocumentNameChange("report");
    form.HandleDescriptionChange("quarterly");
    ghost var before := Loaded(form.storage.documents);
    ReportIsValid();
    ghost var after := before + [Document(|before| + 1, "report", "quarterly", "", "today", "notes")];
    assert AddToList(before, "report", "quarterly", "", "notes", "today") == Ok(after);
    var toast := form.HandleAddDocument("today");
  }

  /**
   * The collision end to end through both views: add three documents, delete the
   * second from the browse view, add again. The slot then holds ids 1, 3 and 3.
   * The text payload chosen once serves all four adds, since submitting does not
   * clear it.
   */
  method AddDeleteAddScenario() returns (ids: seq<int>)
    ensures ids == [1, 3, 3]
  {
    var storage := new LocalStorage();
    var form := new AddDocumentForm(storage);
    var toast := form.HandleTextFileChange(Some(SelectedFile(5, "notes")));
    SubmitReport(form);
    SubmitReport(form);
    SubmitReport(form);
    var view := new DocumentsView(storage);
    view.Mount();
    ghost var three := view.documents;
    assert SequentialIds(three);
    view.HandleDeleteDocument(2);
    DeleteFromSequential(three, 2);
    SubmitReport(form);
    ids := Ids(Loaded(storage.documents));
  }
}
