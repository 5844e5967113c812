# AI IDF generate: a verified model of the form editor's core

The application is a Next.js editor for an Invention Disclosure Form (IDF). The form has a
date, a title, an abstract, a list of inventors, an invention record and three citation
tables: prior art, disclosure and publication plans. A language model can fill the whole
form or regenerate one field. The form can then be exported as a PDF. This project models
the deterministic core of that editor in Dafny and proves what it promises:

- **Document model** (`idf.dfy`, module `Idf`). The records are datatypes.
  - keywords, components and results are a string-or-list sum type.
  - The module defines the all-empty starting document, the keys of the editable
    invention fields and the table-section test.
- **Single-field generation route** (`perplexity_route.dfy`, module `PerplexityRoute`).
  - Models request validation, the prompt-table lookup and the post-processing of the
    model's answer.
  - For citation tables, a bracket-depth scan cuts the text after the first position where
    the depth returns to zero. Every `'` then becomes `"`.
  - The scan is an imperative loop proved equal to a specification function.
  - The properties of the cut are proved about that function.
- **Document state hook** (`use_idf_data.dfy`, module `UseIdfData`). A class holding the
  document, the `loading` flag and the `updatingField` marker.
  - The merge rules of `handleUpdateOne`: tables are parsed or kept; title and abstract are
    stored verbatim; the three list fields are comma-split and trimmed; additionaldata is
    trimmed and filtered by a fixed sentinel list.
  - `handleGenerate`, which keeps images already attached.
  - The partial-update setters.
  - Every state change is specified, including the set-then-clear of the marker.
- **List editing** in the form components:
  - the citation table editor (`data_table.dfy`) and the inventor table editor
    (`inventor_table.dfy`), as classes over a sequence of rows;
  - the invention section's field coercion and image list edits
    (`invention_section.dfy`);
  - the prior-art picker's selection set, URL list and keyword normaliser
    (`right_part.dfy`).
- **PDF layout cursor** (`pdf.dfy`, module `Pdf`). The PDF library is an append-only log of
  drawing instructions. A vertical cursor moves down the page, and page breaks happen at
  fixed thresholds.
  - Each drawing routine is a method proved equal to a layout function.
  - The document's table order and label order are proved about those functions.
- **Helper modules**:
  - `JsString` gives JavaScript's `trim`, `split` and `join` their exact semantics;
  - `SeqEdit` models `splice`, index-filtering and assignment past the end of an array;
  - `Wrappers` holds `Option`, the model of `undefined` and of operations that may fail.

Four library-computed values come in from outside as functions:

- `JSON.parse` of a table answer (None when it throws);
- `isValidUrl`;
- `splitTextToSize(text, 180)`, the lines a text wraps into;
- `lastAutoTable.finalY`, the bottom of a drawn table.

The answers of the two generation services are method parameters.

Where the repository's written description and its code disagree, the model follows the
code:

- **Scalar answers are not trimmed.** Title, abstract and the plain invention fields take
  the answer as it is, untrimmed. Only additionaldata is trimmed.
- **Empty comma pieces are kept.** The three list fields keep empty pieces in
  `handleUpdateOne` and in `handleFieldChange`. Only the picker's `formatKeywords` drops
  them.
- **The bracket cut keeps the whole untrimmed text** in two cases: the depth never returns
  to zero, or it first returns to zero at position 0 (any text whose first character is not
  a bracket). This holds even when an array follows later in the text.
- **Page breaks look only at the cursor.** They compare the cursor with a fixed threshold
  (page height − 50 for text blocks, − 100 for tables). The height of the block is never
  considered.

## Model

| member | source | states |
|---|---|---|
| Idf.InventorSet | src/components/forms/InventorTable.tsx:12 | setting one inventor field changes that field and no other |
| Idf.CoerceList | src/components/forms/InventionSection.tsx:38 | split-and-trim gives one entry per comma plus one, each trimmed and comma-free (empty entries kept) |
| Idf.DefaultIdfData | src/types/idf.ts:73-92 | the default document has every string empty and every list empty |
| Idf.PlaceholderKeysAreEditableFields | src/types/idf.ts:94-103 | placeholderText has one key per editable field, exactly the Invention keys except uploadedImages |
| Idf.TableSectionKeyExactlyTables | src/types/idf.ts:105-109 | isTableSectionKey holds for a field key iff the field is prior_art, disclosure or plans |
| JsString.Trim | src/hooks/useIDFData.ts:73 | the result is the input with an all-space run cut at each end, and has no space left at either end (which fixes it uniquely); it is empty exactly when the input is all space |
| JsString.Split | src/hooks/useIDFData.ts:70 | split on one character gives count+1 pieces, none holding the separator, whose join with the separator is the input |
| JsString.TrimIdempotent | src/components/forms/RightPart.tsx:121 | trimming twice is trimming once |
| JsString.NonEmpty | src/components/forms/RightPart.tsx:122 | the filter keeps every non-empty piece as often as it occurs and drops the empty ones (equal multisets apart from "") |
| JsString.NonEmptyAppend | src/components/forms/RightPart.tsx:122 | filtering a concatenation is concatenating the filtered parts, so the kept pieces stay in input order |
| JsString.SplitAppend | src/components/forms/RightPart.tsx:120 | splitting text joined at one separator gives the pieces of the left side followed by those of the right side |
| JsString.SplitJoinRoundTrip | src/components/forms/InventionSection.tsx:38 | joining comma-free entries with ", " and splitting on ',' and trimming gives back every entry trimmed |
| SeqEdit.RemoveAt | src/components/forms/DataTable.tsx:31-32 | splice(idx, 1) drops exactly position idx and shifts the rest down by one, in order; past the end nothing changes |
| SeqEdit.RemoveAtKeepsOthers | src/components/forms/InventorTable.tsx:16-20 | deleting by position removes one occurrence of that element and keeps every other element |
| SeqEdit.RemoveEitherTwin | src/components/forms/InventorTable.tsx:16-20 | identity is positional: deleting either of two equal neighbours gives the same list |
| SeqEdit.FilterOutIndexIsRemoveAt | src/components/forms/InventionSection.tsx:85 | filtering out index idx is splicing it out when idx is in range and the identity otherwise (negative or too large) |
| SeqEdit.AssignAt | src/components/forms/InventionSection.tsx:119-120 | assigning at idx sets that entry, keeps the others, and past the end grows the array with holes |
| DataTable.EmptyRow | src/components/forms/DataTable.tsx:37-40 | the reduce builds a row with exactly the column keys, each "" |
| DataTable.TableEditor.HandleRowChange | src/components/forms/DataTable.tsx:24-28 | one cell of one row takes the value; length, other rows and other cells unchanged |
| DataTable.TableEditor.HandleDeleteRow | src/components/forms/DataTable.tsx:30-34 | rows become the splice of the old rows at idx |
| DataTable.TableEditor.HandleAddRow | src/components/forms/DataTable.tsx:36-42 | one blank row is appended, earlier rows untouched, every column of the new row "" |
| DataTable.AddThenDeleteLast | src/components/forms/DataTable.tsx:30-42 | adding a row and deleting the last index restores the rows |
| InventorTable.InventorEditor.HandleInventorChange | src/components/forms/InventorTable.tsx:10-14 | one field of one inventor takes the value; every other field and inventor unchanged |
| InventorTable.InventorEditor.HandleDeleteInventor | src/components/forms/InventorTable.tsx:16-20 | inventors become the splice of the old list at idx |
| InventorTable.InventorEditor.HandleAddInventor | src/components/forms/InventorTable.tsx:22-34 | one inventor with eight empty fields is appended |
| InventorTable.EmptyInventorIsBlank | src/components/forms/InventorTable.tsx:23-32 | every field of the appended inventor is "" |
| InventorTable.TwinBlankInventors | src/components/forms/InventorTable.tsx:16-34 | after two adds, deleting either blank gives the same list, which is the list after one add |
| InventionSection.FieldChange | src/components/forms/InventionSection.tsx:33-44 | list fields store the split-and-trimmed edit, others the edit as typed; no other field and not the images change |
| InventionSection.DisplayRoundTrip | src/components/forms/InventionSection.tsx:183-186 | re-submitting the ", "-joined display of a non-empty comma-free list gives back the list trimmed |
| InventionSection.DisplayRoundTripTrimmed | src/components/forms/InventionSection.tsx:183-186 | a trimmed comma-free non-empty list is a fixed point of display-then-edit |
| InventionSection.EmptyListComesBackAsOneEntry | src/components/forms/InventionSection.tsx:183-186 | the empty list is shown as "" and comes back as one empty entry |
| InventionSection.EditAgreesWithGeneratedAnswer | src/components/forms/InventionSection.tsx:35-41 | a manual edit is stored exactly as a generated answer would be, for every field except additionaldata |
| InventionSection.AddUploaded | src/components/forms/InventionSection.tsx:69-74 | a successful reply appends the returned paths after the existing ones, in order; otherwise nothing changes |
| InventionSection.DeleteImage | src/components/forms/InventionSection.tsx:83-88 | an in-range index removes exactly that image, keeping order; an out-of-range index changes nothing |
| InventionSection.ChangeImage | src/components/forms/InventionSection.tsx:117-122 | a successful reply with a file puts its first path at idx, keeping the length and every other image; otherwise nothing changes |
| InventionSection.UploadThenDelete | src/components/forms/InventionSection.tsx:69-88 | deleting an image just uploaded at the end restores the list |
| PerplexityRoute.FirstZeroFromSpec | src/app/api/generate-perplexity/route.ts:75-86 | the break position is the least position after which the depth is zero |
| PerplexityRoute.FirstZeroFromNone | src/app/api/generate-perplexity/route.ts:75-86 | the loop runs to the end iff the depth is never zero after a character |
| PerplexityRoute.SwapQuotes | src/app/api/generate-perplexity/route.ts:88 | every `'` becomes `"`, every other character and the length stay |
| PerplexityRoute.ExtractTableSection | src/app/api/generate-perplexity/route.ts:71-88 | the index/count scan yields the quote-swapped kept prefix of the answer |
| PerplexityRoute.CutAtFirstBalance | src/app/api/generate-perplexity/route.ts:74-88 | when the depth first returns to 0 at j > 0, the output is text[0..j] inclusive, quote-swapped |
| PerplexityRoute.FirstCharNotBracketKeepsAll | src/app/api/generate-perplexity/route.ts:75-87 | a first character that is not a bracket keeps the whole text |
| PerplexityRoute.NeverBalancedKeepsAll | src/app/api/generate-perplexity/route.ts:71-87 | text whose depth never returns to 0 (including empty text) is kept whole |
| PerplexityRoute.FixedAnswerShape | src/app/api/generate-perplexity/route.ts:87-88 | the table output has no `'`, is no longer than the input, and is the swapped image of a prefix |
| PerplexityRoute.ArrayThenProse | src/app/api/generate-perplexity/route.ts:76-87 | a top-level array followed by any prose comes back as exactly the array; nested arrays do not end it early |
| PerplexityRoute.NestedArraysExample | src/app/api/generate-perplexity/route.ts:76-81 | `[[a],[b]] tail` yields `[[a],[b]]` |
| PerplexityRoute.SingleQuotesExample | src/app/api/generate-perplexity/route.ts:88 | `['A']` yields `["A"]` |
| PerplexityRoute.BracketInQuotesCutsEarly | src/app/api/generate-perplexity/route.ts:76-87 | a `]` inside a quoted value ends the array early: `['a]b'] x` yields `["a]` |
| PerplexityRoute.PromptDefinedForEveryField | src/app/api/generate-perplexity/route.ts:7-30 | every regenerable field finds its instruction; keys outside the table, such as date, look up undefined |
| PerplexityRoute.RouteAnswerShape | src/app/api/generate-perplexity/route.ts:74-93 | table types get the fixed prefix (no `'`, no longer); all other types get the answer unchanged |
| PerplexityRoute.Post | src/app/api/generate-perplexity/route.ts:32-101 | missing title/type/basic gives 400 and missing key 500, both without a vendor call; otherwise 500 on vendor failure or 200 with the post-processed answer |
| UseIdfData.MergeChangesOnlyTarget | src/hooks/useIDFData.ts:53-103 | a single-field update never changes uploadedImages, date, inventors or any field but its target |
| UseIdfData.MergeFieldSameExcept | src/hooks/useIDFData.ts:66-101 | merging an invention field changes that field only |
| UseIdfData.MergeTable | src/hooks/useIDFData.ts:55-62 | a table answer that parses replaces the whole table; one that does not keeps it |
| UseIdfData.ParseFailureKeepsDocument | src/hooks/useIDFData.ts:57-62 | an unparsable table answer leaves the whole document unchanged |
| UseIdfData.MergeTopLevelVerbatim | src/hooks/useIDFData.ts:63-65 | title and abstract take the raw, untrimmed answer |
| UseIdfData.MergeListField | src/hooks/useIDFData.ts:68-70 | keywords, components and results take the comma-split trimmed pieces |
| UseIdfData.ListAnswerKeepsEmptyPieces | src/hooks/useIDFData.ts:70 | an answer starting with ',' gets an empty first entry: empty pieces are kept |
| UseIdfData.MergeAdditionalData | src/hooks/useIDFData.ts:71-94 | additionaldata takes the trimmed answer unless it is one of the nine sentinels, in which case the old value stays |
| UseIdfData.SentinelKeepsNote | src/hooks/useIDFData.ts:73-94 | " None\n" trims to a sentinel and leaves the document unchanged |
| UseIdfData.UpperCaseNoneReplacesNote | src/hooks/useIDFData.ts:78-90 | the sentinel comparison is case-sensitive: "NONE" overwrites |
| UseIdfData.MergePlainField | src/hooks/useIDFData.ts:98-100 | description, background, problem and advantages take the raw answer |
| UseIdfData.KeepImages | src/hooks/useIDFData.ts:19-34 | existing images replace the generated list, otherwise the generated list stays; nothing else of the generated document changes |
| UseIdfData.ApplyPatch | src/hooks/useIDFData.ts:111-113 | each key present in the patch wins, each absent key keeps its value |
| UseIdfData.PatchIdempotent | src/hooks/useIDFData.ts:111-113 | applying a patch twice is applying it once; the empty patch changes nothing |
| UseIdfData.EmptyKeywordsBlockSingleFieldUpdates | src/hooks/useIDFData.ts:47-51 | with no keywords the request's basic data is empty, so the route never answers 200 |
| UseIdfData.IdfState.HandleGenerate | src/hooks/useIDFData.ts:11-40 | no-op without title or description; otherwise loading is raised then cleared, one request is sent, and success replaces the document keeping existing images while failure keeps it |
| UseIdfData.IdfState.HandleUpdateOne | src/hooks/useIDFData.ts:42-109 | no-op on empty description; otherwise the marker is set to the item then cleared on every path, one request is sent, and a 200 answer is merged while any failure keeps the document |
| UseIdfData.IdfState.UpdateIdfData | src/hooks/useIDFData.ts:111-113 | the document becomes the patched document |
| UseIdfData.IdfState.UpdateInvention | src/hooks/useIDFData.ts:115-117 | only the invention is replaced |
| UseIdfData.IdfState.UpdateInventors | src/hooks/useIDFData.ts:119-121 | only the inventors are replaced |
| UseIdfData.IdfState.UpdatePriorArt | src/hooks/useIDFData.ts:123-125 | only the prior_art table is replaced |
| UseIdfData.IdfState.UpdateDisclosure | src/hooks/useIDFData.ts:127-129 | only the disclosure table is replaced |
| UseIdfData.IdfState.UpdatePlans | src/hooks/useIDFData.ts:131-133 | only the plans table is replaced |
| RightPart.Toggle | src/components/forms/RightPart.tsx:48-58 | i is in the new set iff it was not; every other index keeps its membership |
| RightPart.ToggleTwice | src/components/forms/RightPart.tsx:48-58 | ticking a row twice restores the selection |
| RightPart.PickIsSelectedRows | src/components/forms/RightPart.tsx:61 | Done's filter yields exactly the rows at the selected positions, in original order |
| RightPart.PickNone | src/components/forms/RightPart.tsx:61 | with nothing ticked Done picks nothing |
| RightPart.PickAll | src/components/forms/RightPart.tsx:61 | with every row ticked Done picks the whole list |
| RightPart.KeywordPieces | src/components/forms/RightPart.tsx:119-122 | the pieces are non-empty, trimmed and comma-free; each is the trim of an input piece, and every non-blank input piece appears trimmed |
| RightPart.KeywordPiecesAppend | src/components/forms/RightPart.tsx:119-122 | the pieces of `a,b` are the pieces of a followed by the pieces of b, so input order is kept |
| RightPart.KeywordPiecesOfOne | src/components/forms/RightPart.tsx:119-122 | comma-free text gives its trim as the single piece, or no piece when it is blank |
| RightPart.FormatKeepsPieces | src/components/forms/RightPart.tsx:118-125 | formatted keywords split back into the same pieces |
| RightPart.NoPiecesFormatsEmpty | src/components/forms/RightPart.tsx:118-125 | a line with no pieces formats to the empty line |
| RightPart.FormatIdempotent | src/components/forms/RightPart.tsx:118-125 | formatting twice equals formatting once |
| RightPart.UrlError | src/components/forms/RightPart.tsx:92-96 | the error slot is empty iff the URL is valid |
| RightPart.BlurErrorIffInvalid | src/components/forms/RightPart.tsx:91-97 | after a blur on a non-blank URL its error slot is non-empty iff the URL is invalid |
| RightPart.PriorArtPicker.constructor | src/components/forms/RightPart.tsx:14-24 | the picker starts with no rows, nothing ticked, the three patent sites, one error slot and the message's keywords |
| RightPart.PriorArtPicker.OnMessage | src/components/forms/RightPart.tsx:44-46 | a new message resets the keyword line to its keywords joined with ", " |
| RightPart.PriorArtPicker.HandleCheckboxChange | src/components/forms/RightPart.tsx:48-58 | the selection becomes the toggle of the old selection |
| RightPart.PriorArtPicker.HandleDone | src/components/forms/RightPart.tsx:60-70 | the message's result becomes the picked rows; nothing else of the message changes |
| RightPart.PriorArtPicker.HandleAddUrl | src/components/forms/RightPart.tsx:72-75 | "" is appended to both the URL list and the error list |
| RightPart.PriorArtPicker.HandleUrlChange | src/components/forms/RightPart.tsx:77-81 | the URL at index takes the value |
| RightPart.PriorArtPicker.HandleUrlBlur | src/components/forms/RightPart.tsx:83-101 | a blank URL is removed with its error slot; otherwise the URLs stay and the slot gets "" or the invalid-format message |
| RightPart.PriorArtPicker.HandleKeywordsChange | src/components/forms/RightPart.tsx:114-116 | the keyword line takes the value |
| RightPart.PriorArtPicker.FormatKeywordsNow | src/components/forms/RightPart.tsx:118-125 | the keyword line becomes its formatted form |
| RightPart.PriorArtPicker.HandleGetArts | src/components/forms/RightPart.tsx:127-133 | fetches only when every URL is empty or valid and no result exists, raising and clearing loading; a parsable answer replaces the rows (with getData at lines 26-42) |
| Pdf.IsHebrewMeans | src/utils/pdf.ts:34 | the Hebrew test holds iff some character lies in U+0590..U+05FF |
| Pdf.LastSegment | src/utils/pdf.ts:126 | the result is the suffix of the path after its last '/', or the whole path when it has none, and holds no '/' |
| Pdf.InventorBody | src/utils/pdf.ts:189-198 | one eight-cell row per inventor, name first |
| Pdf.RowsBody | src/utils/pdf.ts:274-279 | one row per citation with one cell per column |
| Pdf.ImagesMonotone | src/utils/pdf.ts:113-147 | drawing image references never moves the cursor up, and moves it at most 20 per entry |
| Pdf.BlankImagesDrawNothing | src/utils/pdf.ts:118-119 | blank entries draw nothing and leave the cursor |
| Pdf.ImagesAppend | src/utils/pdf.ts:116-144 | drawing a list in two parts is drawing it whole, in order |
| Pdf.MultilineShape | src/utils/pdf.ts:46-73 | a multiline block draws exactly its label and no table |
| Pdf.MultilineAdvance | src/utils/pdf.ts:46-73 | on the current page the block starts at the cursor and ends at least 13 lower; past the threshold it starts a page and begins at 20 |
| Pdf.MultilineCanOverflow | src/utils/pdf.ts:50-67 | at the threshold itself no page is started, so a block of seven or more lines ends below the page |
| Pdf.TableBreak | src/utils/pdf.ts:75-111 | a table below page height − 100 moves to a new page at 20; the cursor ends 15 below the table's bottom |
| Pdf.SectionHeaderNeverBreaks | src/utils/pdf.ts:269-271 | a section header is written at the cursor with no page-break check |
| Pdf.SectionShape | src/utils/pdf.ts:268-282 | a citation section draws its table exactly when it has rows |
| Pdf.FieldsOutShape | src/utils/pdf.ts:249-266 | the field loop draws no table and its labels come field by field in loop order |
| Pdf.FieldLabelsInOrder | src/utils/pdf.ts:237-266 | the invention labels in order: seven text fields, ADDITIONAL DATA or ADDITIONALDATA by content, UPLOADED IMAGES only with images, then RESULTS |
| Pdf.OpeningTables | src/utils/pdf.ts:174-226 | the opening draws exactly one table, the inventor table |
| Pdf.BodyHasNoTables | src/utils/pdf.ts:228-266 | abstract and invention blocks draw no table |
| Pdf.SectionsTables | src/utils/pdf.ts:268-314 | the sections draw prior art, disclosure and plans tables in that order, each iff it has rows |
| Pdf.AfterInventorsTables | src/utils/pdf.ts:226-314 | everything after the inventor table draws exactly the citation tables of the non-empty sections |
| Pdf.DocumentTables | src/utils/pdf.ts:174-314 | the document's tables are the inventor table (always, even with no inventors) then the non-empty citation tables in section order |
| Pdf.PdfDoc.WriteText | src/utils/pdf.ts:36-44 | one line is logged at 12 points for Hebrew text, 10 otherwise |
| Pdf.PdfDoc.AddMultiline | src/utils/pdf.ts:46-73 | the log grows by the multiline layout and the cursor ends where it says |
| Pdf.PdfDoc.AddTable | src/utils/pdf.ts:75-111 | the log grows by the table layout and the cursor ends 15 below the table |
| Pdf.PdfDoc.AddImages | src/utils/pdf.ts:113-147 | the loop logs every entry's reference in order, each starting where the previous ended |
| Pdf.PdfDoc.AddImageEntry | src/utils/pdf.ts:117-139 | a blank entry is skipped; an uploaded file gets a name line and a path line (+20); anything else one line (+8) |
| Pdf.PdfDoc.AddFields | src/utils/pdf.ts:249-266 | the loop over the nine keys logs the field layout in order |
| Pdf.PdfDoc.AddSection | src/utils/pdf.ts:268-282 | a citation section is logged as its layout: header then table, or nothing for no rows |
| Pdf.PdfDoc.AddOpening | src/utils/pdf.ts:174-226 | date, title and inventor header at 60, 75, 90, then the inventor table; the cursor ends 15 below the table |
| Pdf.PdfDoc.AddAbstract | src/utils/pdf.ts:228-231 | the abstract header and the abstract block 15 below it |
| Pdf.PdfDoc.AddInvention | src/utils/pdf.ts:233-266 | the invention header and the field loop 15 below it |
| Pdf.PdfDoc.AddBody | src/utils/pdf.ts:228-266 | the abstract block followed by the invention block |
| Pdf.PdfDoc.AddSections | src/utils/pdf.ts:268-314 | the three citation sections in order |
| Pdf.PdfDoc.ContinueGenerating | src/utils/pdf.ts:149-318 | the log grows by the whole document layout, whose table and label order the lemmas above state |

## Left out

- The HTTP plumbing and the vendor calls are not modelled. This covers axios, fetch, NextResponse, the services in `src/services/api.ts` and the prompt text assembly. Each call's outcome is a parameter, and each request sent is recorded in a log.
- `JSON.parse`, `isValidUrl`, `splitTextToSize` and `lastAutoTable.finalY` are functions given from outside. The URL constructor, the JSON grammar and jsPDF's text metrics are not modelled.
- The upload route (`src/app/api/upload/route.ts`) is not modelled. The invention section sees only its reply: failure, or success with a file list.
- The other route methods (GET/PUT/DELETE return 405) and the whole-document generation route are not modelled.
- PDF drawing details are not modelled:
  - colours, fonts and the font-weight state;
  - the header banner (`src/utils/pdf.ts:151-172`), which draws at fixed positions and does not touch the cursor;
  - `doc.save`;
  - jsPDF's floating-point coordinates. The cursor is an integer, and the library's values are integers.
- The catch branch of `addImages` (`src/utils/pdf.ts:140-143`) is not modelled. It is reached only for an image entry that is not a string, such as an array hole, and image entries are strings in the model. The model never creates holes in the image list, because InventionSection.ChangeImage takes only indices inside the list.
- ImageUpload's index mismatch is not modelled. ImageUpload (`src/components/ui/ImageUpload.tsx:23-25`) numbers only the non-blank images, but the delete and change handlers apply that number to the full list. With blank entries present, the wrong image can be deleted or replaced. The model takes the index as the handlers receive it.
- DOM style helpers (`changeToFallbackStyles`, `resetStyles`), rendering, the file picker, the uploading spinner and `handleDownload` are UI, and are not modelled.
- Asynchronous interleaving is not modelled. Every handler runs as one atomic step, so stale closures over an older `idfData` are outside the model.
- Object aliasing is not modelled. The table editors' `updated[idx][field] = value` mutates a row object shared with the previous state; the model gives rows value semantics. The same holds for the shallow copy in `handleUpdateOne`, which writes into the invention object it shares with the old document.
- Missing object keys and JavaScript array holes in the URL and URL-error lists read as `""` in the model. The readers of those lists treat them that way: `every` skips holes, `|| ''` gives an empty cell, and an empty error slot shows no message. Holes in the image list would behave differently (`addImages` adds 8 for them in its catch branch, and `filter` drops them), so the model does not create them; see InventionSection.ChangeImage.
- UseIdfData.IdfState.HandleUpdateOne: the item is one of the keys the editor dispatches (title, abstract, the three tables, the eight editable invention fields). Other keys such as date or uploadedImages are never dispatched.
- UseIdfData.IdfState.HandleUpdateOne: a table answer that parses to something other than a row list is not modelled. The source stores whatever `JSON.parse` returns, so an answer such as `null`, `{}` or `"x"` would replace the table with a value that is not an array. The model's parser returns either a row list or nothing.
- RightPart.PriorArtPicker.OnMessage: keywords held as a plain string are not modelled. The message's `current` is a string list or absent. In the source, `LeftPart.tsx:50` may send the invention's keywords as a plain string, and `RightPart.tsx:45` then calls `.join` on it and throws.
- UseIdfData.IdfState.HandleGenerate: a title that is present but not a string is not modelled.
- InventionSection.ChangeImage: requires an index inside the image list. ImageUpload passes positions of its filtered list, which are always inside the full list. The source also accepts an index past the end, which leaves holes in the image list; that case is not modelled.
- DataTable.TableEditor.HandleRowChange: requires an existing row index, because the source throws on a missing row and the table only offers rows on screen.
- InventorTable.InventorEditor.HandleInventorChange: requires an existing inventor index, for the same reason.
- DataTable.TableEditor.HandleDeleteRow: takes a non-negative index. Negative indices, which `splice` counts from the end, are never passed by the table.
- InventorTable.InventorEditor.HandleDeleteInventor: takes a non-negative index, for the same reason.
- RightPart.PriorArtPicker.HandleUrlChange: takes a non-negative index; the inputs pass their positions.
- RightPart.PriorArtPicker.HandleGetArts: a route answer that is already an object rather than a string is not modelled. An answer that parses to something other than a row list is also not modelled.
- Pdf.PdfDoc.AddImageEntry, Pdf.PdfDoc.AddOpening, Pdf.PdfDoc.AddBody, Pdf.PdfDoc.AddAbstract, Pdf.PdfDoc.AddInvention and Pdf.PdfDoc.AddSections are pieces of the inline code of `addImages` and `continueGenerating`. They draw the same steps in the same order.
