# doc-manager: a Dafny model of the document store

doc-manager is a small client-side document manager. Apart from rendering, it
keeps one persisted slot in browser local storage, `'documents'`. The slot holds
an ordered sequence of document records. Two views work on that slot:

- **Add** (`src/components/AddDocument.tsx`) keeps a form with four fields: name,
  description, image payload and text payload. Its two file inputs reject files
  over 1 MiB. Submitting checks two guards in order. It then appends a record
  whose id is the stored count plus one, rewrites the slot, and clears every field
  except the text payload.
- **Browse** (`src/components/Documents.tsx`) loads the slot on mount, treating an
  absent slot as empty. It shows the documents whose lower-cased name contains the
  lower-cased search query. Delete filters a record out by id and rewrites the
  slot. View selects a document for an overlay that Close hides again.

The model has one module per concern:

| file | module | what it holds |
|---|---|---|
| `wrappers.dfy` | `Wrappers` | `Option` (for `null`/`undefined`) and `Result` |
| `text.dfy` | `Text` | `trim`, ASCII `toLowerCase` and `includes`, with their characterisations |
| `array_methods.dfy` | `ArrayMethods` | `filter` and `find` on sequences, with their lemmas |
| `records.dfy` | `Records` | the `Document` record, the well-formedness invariant, id predicates, and the largest-id-plus-one numbering |
| `storage.dfy` | `Storage` | class `LocalStorage`: the `'documents'` slot as `Option<seq<Document>>` |
| `add_document.dfy` | `AddDocument` | class `AddDocumentForm`, plus the pure specification `AddToList` of a submit |
| `documents.dfy` | `Documents` | class `DocumentsView`, plus the pure search, display, delete and find functions |
| `id_assignment.dfy` | `IdAssignment` | how ids behave across adds and deletes: the collision under the code's numbering, and uniqueness under the corrected one |

Where the source changes state, the model is a class. The form fields, the view
state and the slot are fields, and the handlers are methods whose postconditions
tie the new state to pure functions of the old state. The properties are proved
as lemmas about those functions.

The store's intended behaviour and its code disagree in two places. The two
classes follow the code:

- Ids are meant to be unique within the store: view and delete both pick records
  by id. The code numbers a new record as "count + 1", and delete filters records
  out, so ids can collide. "## Findings" below records this, with the collision
  proved on the code's numbering and uniqueness proved on the corrected one.
- Corrupt stored data is meant to read as an empty list. The code calls
  `JSON.parse` without a guard, which throws on bad data. Parsing is not part of
  this model (see "## Left out").

## Model

| member | source | states |
|---|---|---|
| `Text.Trim` | src/components/AddDocument.tsx:71 | `String.prototype.trim`: `TrimEnd` of `TrimStart`; characterised by `TrimStartSplits`, `TrimEndSplits` and `TrimProperties` |
| `Text.TrimStartSplits` | src/components/AddDocument.tsx:71 | trimming the start leaves the suffix after a whitespace-only prefix, and that suffix is empty or starts with non-whitespace |
| `Text.TrimEndSplits` | src/components/AddDocument.tsx:71 | trimming the end leaves the prefix before a whitespace-only suffix, and that prefix is empty or ends with non-whitespace |
| `Text.TrimProperties` | src/components/AddDocument.tsx:71 | `s.trim()` is empty exactly when every character of `s` is whitespace; otherwise it neither starts nor ends with whitespace |
| `Text.ToLower` | src/components/Documents.tsx:43 | `toLowerCase` on ASCII letters; characterised by `ToLowerIdempotent` |
| `Text.Includes` | src/components/Documents.tsx:43 | `String.prototype.includes`: the empty needle is always included; characterised by `IncludesIff`, `IncludesNeedsRoom` and `SameLengthIncludes` |
| `Text.ToLowerIdempotent` | src/components/Documents.tsx:43 | lower-casing keeps the length, leaves no A-Z letter, and a second pass changes nothing |
| `Text.IncludesIff` | src/components/Documents.tsx:43 | `s.includes(needle)` holds exactly when `needle` occurs at some position of `s` |
| `Text.IncludesNeedsRoom` | src/components/Documents.tsx:43 | a needle longer than the text is never included |
| `Text.SameLengthIncludes` | src/components/Documents.tsx:43 | a text as long as the needle includes it only by being equal to it |
| `ArrayMethods.Filter` | src/components/Documents.tsx:42-44 | `filter` never lengthens the sequence, and every kept element satisfies the test |
| `ArrayMethods.FilterMembers` | src/components/Documents.tsx:42-44 | an element is kept exactly when it is in the sequence and satisfies the test |
| `ArrayMethods.FilterCounts` | src/components/Documents.tsx:42-44 | each element that passes the test is kept as many times as it occurs in the input, and every other element is dropped entirely |
| `ArrayMethods.FilterIsSubsequence` | src/components/Documents.tsx:42-44 | the kept elements form an order-preserving subsequence of the input |
| `ArrayMethods.FilterKeepsAll` | src/components/Documents.tsx:37 | when every element passes, `filter` returns the input unchanged |
| `ArrayMethods.FilterKeepsNone` | src/components/Documents.tsx:42-44 | when no element passes, `filter` returns the empty sequence |
| `ArrayMethods.FilterRemovesOne` | src/components/Documents.tsx:37 | when only the element at `i` fails, `filter` removes exactly that element |
| `ArrayMethods.FilterIdempotent` | src/components/Documents.tsx:37 | filtering twice with the same test equals filtering once |
| `ArrayMethods.FindIndex` | src/components/Documents.tsx:31 | the position found satisfies the test and no earlier position does; there is none exactly when no element passes |
| `ArrayMethods.Find` | src/components/Documents.tsx:31 | `find` returns the first element that passes the test, and nothing exactly when no element passes |
| `Storage.Loaded` | src/components/Documents.tsx:26 | `JSON.parse` of the stored item, or of `'[]'` when the item is absent, with parsing as the identity: the stored sequence, or the empty sequence for an absent slot |
| `Storage.LocalStorage.GetDocuments` | src/components/Documents.tsx:26 | reading the slot gives the stored sequence, and an absent slot gives the empty sequence |
| `Storage.LocalStorage.SetDocuments` | src/components/Documents.tsx:39 | writing the slot replaces its whole content with the given sequence |
| `AddDocument.FileSelected` | src/components/AddDocument.tsx:36-68 | a file over 1 MiB raises the size toast and leaves the field as it was; the field changes only to the non-empty payload of an accepted file |
| `AddDocument.FileSizeBoundary` | src/components/AddDocument.tsx:20 | the size guard is strict: exactly 1024*1024 bytes passes, and one byte more is refused |
| `AddDocument.ValidationError` | src/components/AddDocument.tsx:71-79 | the two guards of `handleAddDocument`, in order, as an optional message; characterised by `ValidationErrorCases` |
| `AddDocument.ValidationErrorCases` | src/components/AddDocument.tsx:70-79 | the name/description message appears exactly when either field is whitespace only; the payload message appears exactly when both pass and image and text are both empty; otherwise the form is accepted |
| `AddDocument.AddWithId` | src/components/AddDocument.tsx:81-91 | validation, then the old sequence with one record appended under the given id; shared by the code's numbering and the corrected one |
| `AddDocument.AddToList` | src/components/AddDocument.tsx:81-91 | a submit with the id the code assigns, the count plus one; characterised by `AddToListOutcome` |
| `AddDocument.AddToListOutcome` | src/components/AddDocument.tsx:81-92 | a rejected add carries the first failing guard's message; an accepted add keeps the old sequence unchanged as a prefix and appends exactly one record, with id old count + 1, the untrimmed field values and the given date, and that record is well formed |
| `AddDocument.AddKeepsWellFormed` | src/components/AddDocument.tsx:70-92 | if every stored record has a name, a description and a payload, this still holds after an add |
| `AddDocument.AddDocumentForm.constructor` | src/components/AddDocument.tsx:23-26 | all four form fields start empty |
| `AddDocument.AddDocumentForm.HandleDocumentNameChange` | src/components/AddDocument.tsx:28-30 | the name field takes the typed value |
| `AddDocument.AddDocumentForm.HandleDescriptionChange` | src/components/AddDocument.tsx:32-34 | the description field takes the typed value |
| `AddDocument.AddDocumentForm.HandleImageChange` | src/components/AddDocument.tsx:36-51 | the image field and the toast are as `FileSelected` describes; no other field changes |
| `AddDocument.AddDocumentForm.HandleTextFileChange` | src/components/AddDocument.tsx:53-68 | the text field and the toast are as `FileSelected` describes; no other field changes |
| `AddDocument.AddDocumentForm.HandleAddDocument` | src/components/AddDocument.tsx:70-97 | on rejection: the guard's message, and neither the slot nor any field changes; on success: the slot holds `AddToList` of the old slot, the success toast is raised, name, description and image are cleared, and text keeps its value |
| `Documents.MatchesQuery` | src/components/Documents.tsx:43 | the search test: the lower-cased name includes the lower-cased query; `InvoiceNames` exhibits it |
| `Documents.FilteredDocuments` | src/components/Documents.tsx:42-44 | `filteredDocuments`: the documents that pass `MatchesQuery`; characterised by `FilteredIsMatchingSubsequence` and `EmptyQueryShowsAll` |
| `Documents.DocumentsToBeDisplayed` | src/components/Documents.tsx:46-48 | `documentsToBeDisplayed`, with its fallback kept; equals `FilteredDocuments` by `DisplayedIsFiltered` |
| `Documents.WithoutId` | src/components/Documents.tsx:37 | the delete filter; characterised by `WithoutIdRemovesExactly`, `DeleteAbsentIdIsNoOp` and `DeleteIdempotent` |
| `Documents.FindById` | src/components/Documents.tsx:31 | the view lookup `documents.find(doc => doc.id === id)`; characterised by `FindByIdIsFirst` |
| `Documents.FilteredIsMatchingSubsequence` | src/components/Documents.tsx:42-44 | the filtered list is an order-preserving subsequence, and it holds exactly the documents whose lower-cased name includes the lower-cased query, each as many times as it occurs in the list |
| `Documents.EmptyQueryShowsAll` | src/components/Documents.tsx:42-47 | with an empty query, both the filtered list and the displayed list are the whole list |
| `Documents.DisplayedIsFiltered` | src/components/Documents.tsx:46-48 | the displayed list always equals the filtered list; the fallback to all documents never changes the outcome |
| `Documents.NoMatchDisplaysNothing` | src/components/Documents.tsx:46-48 | a query that matches no document displays the empty list, not the whole list |
| `Documents.WithoutIdRemovesExactly` | src/components/Documents.tsx:36-37 | after deleting an id, no record carries it; every record with another id is kept, as many times as before and in original order |
| `Documents.DeleteAbsentIdIsNoOp` | src/components/Documents.tsx:37 | deleting an id that no record carries leaves the list unchanged |
| `Documents.DeleteIdempotent` | src/components/Documents.tsx:37 | deleting the same id twice gives the same list as deleting it once |
| `Documents.FindByIdIsFirst` | src/components/Documents.tsx:30-31 | the view lookup finds nothing exactly when the id is absent; otherwise it finds the first record with that id |
| `Documents.InvoiceNames` | src/components/Documents.tsx:43 | ignoring case, "Invoice Jan" and "invoice_feb" include "invoice" and "Receipt" does not |
| `Documents.InvoiceSearchExample` | src/components/Documents.tsx:42-48 | for names "Invoice Jan", "Receipt" and "invoice_feb", the query "invoice" displays the first and third documents, in that order |
| `Documents.DocumentsView.constructor` | src/components/Documents.tsx:18-22 | the view starts with nothing loaded, nothing selected, the overlay flag off, an empty query and not mounted |
| `Documents.DocumentsView.ModalVisible` | src/components/Documents.tsx:108 | the overlay is shown when `showModal && selectedDocument.Some?`, as at the render condition; `HandleViewDocument` and `CloseModal` state how it changes |
| `Documents.DocumentsView.Mount` | src/components/Documents.tsx:24-28 | mounting sets the mounted flag and loads the slot as `Loaded` reads it: the stored sequence, or the empty list for an absent slot |
| `Documents.DocumentsView.HandleSearchChange` | src/components/Documents.tsx:66 | the query takes the typed value |
| `Documents.DocumentsView.HandleViewDocument` | src/components/Documents.tsx:30-34 | the selection is the first document with the id, or none; the flag is always set; the overlay is visible exactly when the id is present |
| `Documents.DocumentsView.HandleDeleteDocument` | src/components/Documents.tsx:36-40 | the list loses exactly the records with the id; the slot then equals the in-memory list; the id is gone |
| `Documents.DocumentsView.CloseModal` | src/components/Documents.tsx:119 | closing clears the flag, so the overlay is hidden, and it keeps the selection |
| `IdAssignment.AddKeepsSequentialIds` | src/components/AddDocument.tsx:84 | with no deletes, ids stay numbered 1..n after an add, so they stay unique |
| `IdAssignment.DeleteFromSequential` | src/components/Documents.tsx:37 | deleting id k from records numbered 1..n removes exactly the k-th record |
| `IdAssignment.DeleteThenAddDuplicatesId` | src/components/AddDocument.tsx:84 | from records numbered 1..n, deleting any id below n and then adding gives two records with id n |
| `Records.FreshId` | src/components/AddDocument.tsx:84 | the corrected id, one more than the largest stored id; characterised by `FreshIdIsNew` and `FreshIdOnSequential` |
| `IdAssignment.AddWithFreshId` | src/components/AddDocument.tsx:81-91 | the corrected submit: `AddWithId` with `FreshId`; characterised by `FreshAddKeepsUnique` and `FreshIdAgreesOnSequential` |
| `Records.MaxIdBounds` | src/components/AddDocument.tsx:84 | the largest id bounds every stored id, and it is 0 or the id of some record |
| `Records.FreshIdIsNew` | src/components/AddDocument.tsx:84 | the corrected new id is at least 1 and larger than every stored id |
| `Records.FreshIdOnSequential` | src/components/AddDocument.tsx:84 | on records numbered 1..n the corrected new id is n + 1, the id the code assigns |
| `IdAssignment.FreshIdAgreesOnSequential` | src/components/AddDocument.tsx:82-89 | with no deletes, the corrected add produces exactly what the code's add produces |
| `IdAssignment.FreshAddKeepsUnique` | src/components/AddDocument.tsx:70-92 | the corrected add is rejected exactly when the code's add is; when accepted it appends one record to the unchanged sequence and keeps ids unique |
| `IdAssignment.FilterKeepsUnique` | src/components/Documents.tsx:37 | filtering records with unique ids leaves their ids unique |
| `IdAssignment.DeleteKeepsUnique` | src/components/Documents.tsx:36-37 | a delete keeps the ids unique |
| `IdAssignment.DeleteThenFreshAddKeepsUnique` | src/components/AddDocument.tsx:84 | from unique ids, a delete followed by a corrected add leaves the ids unique |
| `IdAssignment.AddDeleteAddScenario` | src/components/AddDocument.tsx:82-92 | through both views, three adds, deleting id 2 and another add leave ids [1, 3, 3] in the slot |

## Findings

| source | as written | input that shows it | evidently intended | confidence | as-written member | corrected member |
|---|---|---|---|---|---|---|
| src/components/AddDocument.tsx:84 | a new record gets id `existingDocuments.length + 1` | three stored records with ids 1, 2, 3; delete id 2, then add: the new record gets id 3, which the old third record still has | the new id differs from every stored id, e.g. one more than the largest stored id (1 for an empty store) | not executed | `IdAssignment.DeleteThenAddDuplicatesId` | `IdAssignment.DeleteThenFreshAddKeepsUnique` |

The two classes keep the numbering as written, so `IdAssignment.AddDeleteAddScenario`
shows the collision through both views. `IdAssignment.AddWithFreshId` is the
corrected add, and `IdAssignment.FreshIdAgreesOnSequential` shows that it differs
from the code only after a delete.

## Left out

- Rendering: the JSX markup, Bootstrap classes, the toast container, the "No Document Found" row, and the overlay's display of the image and the text. A toast is modelled only as the `Toast` value a handler returns.
- Navigation: `src/components/Navbar.tsx` is not part of this model. It only highlights route links and toggles a menu.
- The file reader: reading runs asynchronously in the browser. Here a selected file carries its size and the payload the reader would produce, and the read completes at once. The `if (reader.result)` check is kept: an empty payload leaves the field as it was.
- Local storage and JSON: the slot is a field of type `Option<seq<Document>>`. Serialising and parsing are the identity.
- A failing write to local storage: `localStorage.setItem` can throw, for example when the storage quota is exceeded. The handler would then stop before clearing the fields or raising the success toast, and the slot would keep its old content. The model's `SetDocuments` always succeeds, so `HandleAddDocument` and `HandleDeleteDocument` always persist an accepted change.
- Malformed stored data: `JSON.parse` would throw on it, and the code has no recovery path. The model has none either.
- The creation date: `new Date().toLocaleDateString()` depends on the host and locale. It is a string parameter of `HandleAddDocument`.
- Text.ToLower: lowers the ASCII letters A-Z only. Other Unicode case mappings of `toLowerCase` are not modelled.
- Ids: the two source files declare the id as a number and as a string. The model uses one `Document` record with an `int` id, and it includes the `description` field that the browse view's interface omits.
- Rendering gated on `isMounted`: only the flag itself is modelled.
- Two tabs writing the slot at the same time: the model is single-threaded.
