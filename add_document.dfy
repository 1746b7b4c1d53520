/**
 * The "Add" view: a form with four fields (name, description, image payload,
 * text payload), two file inputs guarded by a size limit, and a submit handler
 * that validates the form and appends a new record to the `'documents'` slot.
 */
module AddDocument {
  import opened Wrappers
  import opened Text
  import opened Records
  import opened Storage

  /** 1 MiB: the largest file either file input accepts. */
  const MAX_FILE_SIZE: nat := 1024 * 1024

  const FILE_TOO_LARGE: string := "File size exceeds the 1MB limit."
  const NAME_AND_DESCRIPTION_REQUIRED: string := "name and description are required"
  const IMAGE_OR_TEXT_REQUIRED: string := "at least either image or text is required"
  const DOCUMENT_ADDED: string := "Document added successfully."

  /** The notification a handler raises. */
  datatype Toast = Error(message: string) | Success(message: string)

  /**
   * A file picked in one of the file inputs: its size in bytes and the string the
   * file reader delivers for it (a data URL for an image, the decoded content for text).
   */
  datatype SelectedFile = SelectedFile(size: nat, payload: string)

  /**
   * The effect of a file-input change on its form field: the new field value and
   * the toast raised, if any. An oversized file is refused with a toast and the
   * field kept; otherwise a non-empty payload replaces the field.
   */
  function FileSelected(current: string, file: Option<SelectedFile>): (r: (string, Option<Toast>))
    ensures r.1.Some? <==> file.Some? && file.value.size > MAX_FILE_SIZE
    ensures r.1.Some? ==> r == (current, Some(Error(FILE_TOO_LARGE)))
    ensures r.0 != current ==> file.Some? && file.value.size <= MAX_FILE_SIZE && r.0 == file.value.payload && r.0 != []
    ensures file.Some? && file.value.size <= MAX_FILE_SIZE && file.value.payload != [] ==> r.0 == file.value.payload
  {
    if file.Some? && file.value.size > MAX_FILE_SIZE then (current, Some(Error(FILE_TOO_LARGE)))
    else if file.Some? && file.value.payload != [] then (file.value.payload, None)
    else (current, None)
  }

  /** The guard is strict: a file of exactly 1 MiB is accepted, one byte more is refused. */
  lemma FileSizeBoundary(current: string, payload: string)
    requires payload != []
    ensures FileSelected(current, Some(SelectedFile(MAX_FILE_SIZE, payload))) == (payload, None)
    ensures FileSelected(current, Some(SelectedFile(MAX_FILE_SIZE + 1, payload))) == (current, Some(Error(FILE_TOO_LARGE)))
  {
  }

  /**
   * The two submit guards, in order: the message of the first one that fails,
   * or `None` when the form may be submitted. A field counts as missing when
   * trimming it leaves nothing.
   */
  function ValidationError(name: string, description: string, image: string, text: string): (r: Option<string>) {
    if Trim(name) == [] || Trim(description) == [] then Some(NAME_AND_DESCRIPTION_REQUIRED)
    else if image == [] && text == [] then Some(IMAGE_OR_TEXT_REQUIRED)
    else None
  }

  /**
   * Each outcome of the guards, characterised without `trim`: the name/description
   * message exactly when one of them is whitespace only; the payload message exactly
   * when both pass and both payloads are empty; acceptance otherwise.
   */
  lemma ValidationErrorCases(name: string, description: string, image: string, text: string)
    ensures var r := ValidationError(name, description, image, text);
      && (r == Some(NAME_AND_DESCRIPTION_REQUIRED) <==> AllWhitespace(name) || AllWhitespace(description))
      && (r == Some(IMAGE_OR_TEXT_REQUIRED) <==> !AllWhitespace(name) && !AllWhitespace(description) && image == [] && text == [])
      && (r.None? <==> !AllWhitespace(name) && !AllWhitespace(description) && (image != [] || text != []))
  {
    TrimProperties(name);
    TrimProperties(description);
  }

  /**
   * Submitting the form with the new record numbered `id`: either the validation
   * message, or `existing` followed by one new record whose fields are the form
   * fields exactly as typed.
   */
  function AddWithId(existing: seq<Document>, id: int, name: string, description: string, image: string, text: string, date: string)
    : (r: Result<seq<Document>, string>)
  {
    match ValidationError(name, description, image, text)
    case Some(message) => Err(message)
    case None => Ok(existing + [Document(id, name, description, image, date, text)])
  }

  /** What submitting the form does to the stored sequence `existing`: the new id is the old count plus one. */
  function AddToList(existing: seq<Document>, name: string, description: string, image: string, text: string, date: string)
    : (r: Result<seq<Document>, string>)
  {
    AddWithId(existing, |existing| + 1, name, description, image, text, date)
  }

  /**
   * A rejected add reports the first failing guard's message; an accepted one
   * yields `existing` unchanged and in order, followed by exactly one record whose
   * id is the old count plus one, whose fields are the form fields untrimmed, and
   * which is well formed.
   */
  lemma AddToListOutcome(existing: seq<Document>, name: string, description: string, image: string, text: string, date: string)
    ensures var r := AddToList(existing, name, description, image, text, date);
      && (r.Err? <==> AllWhitespace(name) || AllWhitespace(description) || (image == [] && text == []))
      && (r.Err? && (AllWhitespace(name) || AllWhitespace(description)) ==> r.error == NAME_AND_DESCRIPTION_REQUIRED)
      && (r.Err? && !AllWhitespace(name) && !AllWhitespace(description) ==> r.error == IMAGE_OR_TEXT_REQUIRED)
      && (r.Ok? ==> |r.value| == |existing| + 1 && r.value[..|existing|] == existing)
      && (r.Ok? ==> r.value[|existing|] == Document(|existing| + 1, name, description, image, date, text))
      && (r.Ok? ==> WellFormed(r.value[|existing|]))
  {
    ValidationErrorCases(name, description, image, text);
  }

  /** A successful add keeps every stored record well formed. */
  lemma AddKeepsWellFormed(existing: seq<Document>, name: string, description: string, image: string, text: string, date: string)
    requires forall d :: d in existing ==> WellFormed(d)
    requires AddToList(existing, name, description, image, text, date).Ok?
    ensures forall d :: d in AddToList(existing, name, description, image, text, date).value ==> WellFormed(d)
  {
    AddToListOutcome(existing, name, description, image, text, date);
    var r := AddToList(existing, name, description, image, text, date).value;
    assert r == existing + [r[|existing|]];
  }

  class AddDocumentForm {
    var documentName: string
    var description: string
    var image: string
    var text: string
    const storage: LocalStorage

    /** A fresh form: every field empty. */
    constructor (storage: LocalStorage)
      ensures this.storage == storage
      ensures documentName == [] && description == [] && image == [] && text == []
    {
      this.storage := storage;
      documentName, description, image, text := [], [], [], [];
    }

    method HandleDocumentNameChange(value: string)
      modifies this`documentName
      ensures documentName == value
    {
      documentName := value;
    }

    method HandleDescriptionChange(value: string)
      modifies this`description
      ensures description == value
    {
      description := value;
    }

    /** The image input changed; an oversized file leaves `image` as it was. */
    method HandleImageChange(file: Option<SelectedFile>) returns (toast: Option<Toast>)
      modifies this`image
      ensures (image, toast) == FileSelected(old(image), file)
    {
      if file.Some? && file.value.size > MAX_FILE_SIZE {
        return Some(Error(FILE_TOO_LARGE));
      }
      toast := None;
      if file.Some? && file.value.payload != [] {
        image := file.value.payload;
      }
    }

    /** The text-file input changed; an oversized file leaves `text` as it was. */
    method HandleTextFileChange(file: Option<SelectedFile>) returns (toast: Option<Toast>)
      modifies this`text
      ensures (text, toast) == FileSelected(old(text), file)
    {
      if file.Some? && file.value.size > MAX_FILE_SIZE {
        return Some(Error(FILE_TOO_LARGE));
      }
      toast := None;
      if file.Some? && file.value.payload != [] {
        text := file.value.payload;
      }
    }

    /**
     * Submit. On a failed guard: the message, and neither the slot nor a field changes.
     * On success: the slot holds the old sequence plus the new record, and name,
     * description and image are cleared while `text` keeps its value.
     */
    method HandleAddDocument(currentDate: string) returns (toast: Toast)
      modifies this`documentName, this`description, this`image, storage
      ensures var r := AddToList(Loaded(old(storage.documents)), old(documentName), old(description), old(image), old(text), currentDate);
        && (r.Err? ==>
              toast == Error(r.error) && storage.documents == old(storage.documents)
              && documentName == old(documentName) && description == old(description) && image == old(image))
        && (r.Ok? ==>
              toast == Success(DOCUMENT_ADDED) && storage.documents == Some(r.value)
              && documentName == [] && description == [] && image == [])
      ensures text == old(text)
    {
      // The handler reads the field values of the render that created it.
      var name, desc, img, txt := documentName, description, image, text;
      ghost var outcome := AddToList(Loaded(storage.documents), name, desc, img, txt, currentDate);
      if Trim(name) == [] || Trim(desc) == [] {
        assert outcome == Err(NAME_AND_DESCRIPTION_REQUIRED);
        return Error(NAME_AND_DESCRIPTION_REQUIRED);
      }
      if img == [] && txt == [] {
        assert outcome == Err(IMAGE_OR_TEXT_REQUIRED);
        return Error(IMAGE_OR_TEXT_REQUIRED);
      }
      var existingDocuments := storage.GetDocuments();
      var newDocument := Document(|existingDocuments| + 1, name, desc, img, currentDate, txt);
      assert outcome == Ok(existingDocuments + [newDocument]);
      storage.SetDocuments(existingDocuments + [newDocument]);
      documentName := [];
      description := [];
      image := [];
      toast := Success(DOCUMENT_ADDED);
    }
  }
}
