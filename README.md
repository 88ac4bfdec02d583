# pepperpdf editor core in Dafny

pepperpdf is a browser PDF editor. It renders the first page of a PDF as the
background of a drawing canvas. It then detects the lines of selectable text
and puts a translucent highlight marker over each one.

Clicking a marker promotes that line to an editable text box. The user can
also add free text boxes and rectangles. Export draws every visible object
back onto the source PDF, and a promoted line is first covered by a white
mask. A small REST route keeps the editor's title, tab and zoom for a session.

This project models, and proves properties of:

- `geometry.dfy` (`Geometry`): the 2×3 affine matrices of the text layer and
  `multiply`; the runtime's `Math.hypot`, `Math.round`,
  `parseInt(·, 16)` and `parseFloat` as the parameter record `JsMath`.
- `js_text.dfy` (`JsText`): the JavaScript string operations the core relies
  on. These are `trim` with the exact ECMAScript white-space set, `split` /
  `join` on one character, UTF-16 `length`, ASCII `toLowerCase`, and
  `endsWith`.
- `clustering.dfy` (`Clustering`): the text-layer pass. It measures each
  text item and clusters the runs into lines by first-fit search with a
  vertical tolerance. It then pads every line to a minimum hit box, or takes
  the per-item fallback. The loop is the method `ClusterItems` over
  `AddItem`. It is proved equal to a fold, and the fold is proved equal to an
  independent grouping of the runs.
- `canvas.dfy` (`Canvas`): the canvas objects, which are line markers,
  rectangles and text boxes.
- `color.dfy` (`Color`): `parseColor`, for `#rgb`, `#rrggbb`, `rgb(...)` and
  `rgba(...)`.
- `export.dfy` (`Export`): the export loop, as a list of draw calls per
  object in canvas order.
- `editing.dfy` (`Editing`): the editor component as the class `Editor`. It
  covers loading, the text-layer result, the mouse-down hit test,
  promotion of a line to an edit box, the add buttons, and export.
- `tempdoc_route.dfy` (`TempDocRoute`): the `GET` / `PUT` handlers of
  `/api/temp-doc`. They cover input normalisation, id validation, defaults
  and the mapping from errors to status codes. The database is a parameter.
- `editor_page.dfy` (`EditorPage`): the editor page as the class `Page`. It
  covers the status line, zoom buttons, session start, load and save
  responses, upload acceptance and the export download name.

Geometry is `real`. The runtime's numeric and parsing functions are
parameters: the model assumes nothing of them beyond what the lemma
hypotheses say. Line ids (`line-<index>-<round(top)>`) and item ids
(`item-<index>-<round(left)>-<round(top)>`) are constructors of `BoxId`. A
constructor stands for the string an id renders to. Distinct index
fields then mean distinct ids, as in the source.

Two details of the code shape what the model proves:

- The per-item fallback (app/editor/PdfCanvas.tsx:451-486) runs only when
  clustering yields no line. It applies the same three filters as the
  clustering pass, so it yields a box only for an item that would have
  given a line. It therefore never yields anything, and the hit boxes are
  always the padded lines. `Clustering.FallbackNeverFires` proves this; the
  "No selectable text detected" message is then set.
- The `?? 1.2` line-height default of the export
  (app/editor/PdfCanvas.tsx:684) never applies. Every text box carries the
  canvas library's `lineHeight`, 1.16 by default
  (`Canvas.DefaultLineHeight`), and the model uses that value.

## Model

| member | source | states |
|---|---|---|
| Geometry.MultiplyComposes | app/editor/PdfCanvas.tsx:379-386 | applying `multiply(m1, m2)` to a point is applying `m2` and then `m1` |
| Geometry.MultiplyAssociative | app/editor/PdfCanvas.tsx:379-386 | `multiply` is associative |
| Geometry.MultiplyIdentity | app/editor/PdfCanvas.tsx:379-386 | the identity matrix is a left and right unit of `multiply` |
| Geometry.ApplyDetermines | app/editor/PdfCanvas.tsx:379-386 | two matrices that move every point alike are equal, so `MultiplyComposes` pins `multiply` down |
| Geometry.MultiplyTranslation | app/editor/PdfCanvas.tsx:404-406 | the translation part `(tx[4], tx[5])` of the combined matrix is the item's origin mapped by the viewport |
| Geometry.Multiply | app/editor/PdfCanvas.tsx:379-386 | the `multiply` of the text layer; its contract is stated by `Geometry.MultiplyComposes`, `Geometry.MultiplyAssociative` and `Geometry.MultiplyIdentity` |
| JsText.TrimStartSpec | app/editor/PdfCanvas.tsx:603 | the start-trimmed string is a suffix; everything dropped is white space, and what remains does not start with white space |
| JsText.TrimEndSpec | app/editor/PdfCanvas.tsx:603 | the end-trimmed string is a prefix; everything dropped is white space, and what remains does not end with white space |
| JsText.TrimBounds | app/editor/PdfCanvas.tsx:603 | `trim` returns the slice `s[lo..hi]`, and every character outside it is white space |
| JsText.TrimSpec | app/editor/PdfCanvas.tsx:603 | `trim` returns a slice of its input with white space on both sides removed, and the result neither starts nor ends with white space |
| JsText.TrimTrimmed | app/editor/PdfCanvas.tsx:603 | the result of `trim` is trimmed |
| JsText.Trim | app/editor/PdfCanvas.tsx:400 | JavaScript's `trim`; its contract is stated by `JsText.TrimSpec`, `JsText.TrimBounds` and `JsText.TrimEmptyIffBlank` |
| JsText.TrimEmptyIffBlank | app/editor/PdfCanvas.tsx:400 | `!text.trim()` holds exactly when the text is all white space |
| JsText.TrimOfTrimmed | app/api/temp-doc/route.ts:19 | a string without white space at either end is its own `trim` |
| JsText.TrimIdempotent | app/editor/PdfCanvas.tsx:444 | trimming twice is trimming once |
| JsText.TrimOfSpaceJoin | app/editor/PdfCanvas.tsx:444 | two non-empty trimmed texts joined by a space are trimmed, so the merge's final `trim` keeps the join intact |
| JsText.Split | app/editor/PdfCanvas.tsx:628 | `split` gives at least one part and no part contains the separator |
| JsText.JoinSplit | app/editor/PdfCanvas.tsx:628 | joining the parts of a split with the separator gives back the string |
| JsText.SplitWithoutSeparator | app/editor/PdfCanvas.tsx:628 | a string without the separator splits into itself alone |
| JsText.SplitAtFirst | app/editor/PdfCanvas.tsx:628 | splitting `a + sep + b`, where `a` has no separator, gives `a` followed by the parts of `b` |
| JsText.SplitLength | app/editor/PdfCanvas.tsx:628 | the number of parts is one more than the number of separators |
| JsText.Utf16Length | app/api/temp-doc/route.ts:26 | JavaScript's `length` counts at least one and at most two code units per character |
| JsText.Utf16LengthInPlane | app/api/temp-doc/route.ts:26 | for characters of the Basic Multilingual Plane, `length` is the number of characters |
| JsText.IndexOf | app/editor/PdfCanvas.tsx:623 | the first occurrence of a character at or after a position, or none at all |
| JsText.LowerAscii | app/editor/page.tsx:190 | lower-casing keeps the length and maps each ASCII capital to its small letter, character by character |
| Clustering.FontHeight | app/editor/PdfCanvas.tsx:407-410 | the effective font height is always positive, whichever of the hypot value, the declared height or 12 the fallback of 407-410 picks |
| Clustering.EstimatedWidth | app/editor/PdfCanvas.tsx:420-422 | the width estimate for a collapsed run is positive for non-empty text |
| Clustering.RunOf | app/editor/PdfCanvas.tsx:404-422 | the run of an item carries the item's index, its trimmed text and its scaled height |
| Clustering.Measure | app/editor/PdfCanvas.tsx:399-426 | an item yields a run exactly when its trimmed text is non-empty, it has a transform and its scaled height exceeds 0.5; the run is well formed |
| Clustering.RunOfPositive | app/editor/PdfCanvas.tsx:411-422 | with a positive scale factor, a run's width and font size are positive |
| Clustering.MeasurePositive | app/editor/PdfCanvas.tsx:411-422 | every run that survives the filters has positive width and font size |
| Clustering.Tolerance | app/editor/PdfCanvas.tsx:428 | the vertical tolerance is at least 3 |
| Clustering.FindLine | app/editor/PdfCanvas.tsx:429 | `lines.find`: the first line, in insertion order, whose top is within tolerance of the run, or none when no line is |
| Clustering.Merge | app/editor/PdfCanvas.tsx:444-448 | merging keeps the id and top, never increases left, never decreases right, height or font size, and the merged line encloses the run |
| Clustering.MeasureAll | app/editor/PdfCanvas.tsx:398 | there is one measurement per item, and every run is well formed and carries its item's index |
| Clustering.AddItem | app/editor/PdfCanvas.tsx:398-449 | one iteration of the `forEach`: a dropped item leaves the lines alone; otherwise the run opens a new line or merges into the first matching one |
| Clustering.ClusterItems | app/editor/PdfCanvas.tsx:388-449 | the imperative pass over the items computes exactly the clustered lines of the page |
| Clustering.StepFirstFit | app/editor/PdfCanvas.tsx:428-441 | a dropped item changes nothing; a run merges into the first line that matches, and only that line changes; with no match, exactly one new line is appended |
| Clustering.Step | app/editor/PdfCanvas.tsx:399-447 | one step of the clustering fold; its contract is stated by `Clustering.StepFirstFit` and `Clustering.AddItem` |
| Clustering.Clustered | app/editor/PdfCanvas.tsx:398-449 | the lines of the clustering pass; its contract is stated by `Clustering.ClusteredIsSummary`, `Clustering.LineCoversItem`, `Clustering.LineIdsDistinct` and `Clustering.LinesSeparated` |
| Clustering.JoinWordsTrimmed | app/editor/PdfCanvas.tsx:444 | the space-joined texts of a group of runs are non-empty and trimmed |
| Clustering.MergeSummarize | app/editor/PdfCanvas.tsx:444-448 | merging a run into the summary of a group is the summary of the group extended by the run |
| Clustering.ClusteredIsSummary | app/editor/PdfCanvas.tsx:398-449 | line `k` of the pass is the summary of group `k` of an independent grouping: runs listed in order, text space-joined, left the minimum, right the maximum, height and font size the maxima |
| Clustering.SummaryCovers | app/editor/PdfCanvas.tsx:444-448 | a group's line encloses every run of the group |
| Clustering.LineCoversItem | app/editor/PdfCanvas.tsx:398-449 | every item that passes the filters lies inside some line of the page |
| Clustering.LineIdsDistinct | app/editor/PdfCanvas.tsx:432 | the lines of a page have pairwise distinct ids |
| Clustering.LinesSeparated | app/editor/PdfCanvas.tsx:428-441 | the tops of any two lines are at least 3 apart |
| Clustering.ClusteredEmptyIff | app/editor/PdfCanvas.tsx:430-441 | the pass yields no line exactly when no item passes the filters |
| Clustering.PadLine | app/editor/PdfCanvas.tsx:488-500 | a hit box keeps the line's id, text and left; it is at least 6 wide, 12 high and of font size 10; it encloses the line and has the same vertical centre |
| Clustering.PadLines | app/editor/PdfCanvas.tsx:488-501 | the post-pass pads every line, in order |
| Clustering.FallbackBox | app/editor/PdfCanvas.tsx:476-484 | a fallback box carries the item id, the run's text and position, and at least the minimum sizes |
| Clustering.FallbackEmptyIff | app/editor/PdfCanvas.tsx:452-486 | the fallback yields no box exactly when no item passes the filters |
| Clustering.FallbackNeverFires | app/editor/PdfCanvas.tsx:451-502 | when the pass yields no line, the fallback yields no box either, so the boxes are always the padded lines |
| Clustering.Fallback | app/editor/PdfCanvas.tsx:452-486 | the per-item fallback; its contract is stated by `Clustering.FallbackBox` and `Clustering.FallbackEmptyIff` |
| Clustering.DetectBoxes | app/editor/PdfCanvas.tsx:451-502 | the hit boxes of a page; its contract is stated by `Clustering.FallbackNeverFires`, `Clustering.BoxTextsTrimmed` and `Clustering.BoxIdsDistinct` |
| Clustering.NoSelectableTextIff | app/editor/PdfCanvas.tsx:538-540 | there are no lines and no boxes exactly when no item passes the filters |
| Clustering.BoxTextsTrimmed | app/editor/PdfCanvas.tsx:433-444 | every hit box carries non-empty trimmed text |
| Clustering.BoxIdsDistinct | app/editor/PdfCanvas.tsx:488-501 | the hit boxes have pairwise distinct ids |
| Color.ToInt32 | app/editor/PdfCanvas.tsx:617 | the 32-bit conversion of `>>` lands in the signed 32-bit range and agrees with its operand modulo 2³² |
| Color.Byte | app/editor/PdfCanvas.tsx:617-619 | a channel extracted by shift and mask lies in 0..255 |
| Color.Doubled | app/editor/PdfCanvas.tsx:606-612 | doubling makes each digit appear twice in place, giving twice the length |
| Color.ParseHexColor | app/editor/PdfCanvas.tsx:604-621 | the hex branch gives a colour exactly when the normalised body is six code units long; the colour is in range and opaque |
| Color.CallAt | app/editor/PdfCanvas.tsx:623 | a capture at a position needs `rgb` there, in any case, and is non-empty |
| Color.FindCall | app/editor/PdfCanvas.tsx:623-626 | the leftmost match of `rgba?\(([^)]+)\)`: a capture found at some position, or no match at any position |
| Color.TrimAll | app/editor/PdfCanvas.tsx:628 | every part is trimmed, in place |
| Color.Clamp | app/editor/PdfCanvas.tsx:643-646 | the clamp lands in 0..1 and leaves values already there unchanged |
| Color.FromComponents | app/editor/PdfCanvas.tsx:629-647 | a colour from components is in range |
| Color.ParseFunctionalColor | app/editor/PdfCanvas.tsx:623-647 | a colour from the functional branch is in range |
| Color.ParseColor | app/editor/PdfCanvas.tsx:598-648 | every colour parsed has channels and opacity in 0..1 |
| Color.HexColorShape | app/editor/PdfCanvas.tsx:603-621 | a trimmed value starting with `#` parses exactly when its expanded body is six long, and then with opacity 1 |
| Color.ShortHexDoubles | app/editor/PdfCanvas.tsx:606-612 | `#abc` and `#aabbcc` give the same colour |
| Color.WhiteBody | app/editor/PdfCanvas.tsx:616-620 | the body `ffffff` gives opaque white |
| Color.WhiteShorthand | app/editor/PdfCanvas.tsx:598-621 | `"#fff"` gives (1, 1, 1, 1) |
| Color.NoCallWithoutRgb | app/editor/PdfCanvas.tsx:623-626 | without `rgb` in any case, the pattern does not match |
| Color.TransparentIsNoColor | app/editor/PdfCanvas.tsx:623-626 | `"transparent"` gives no colour, so nothing is filled |
| Color.ColorsWellFormed | app/editor/PdfCanvas.tsx:642-647 | every colour parsed is in range |
| Color.FunctionalColorShape | app/editor/PdfCanvas.tsx:629-647 | components give a colour exactly when there are at least three and r, g, b parse; channels are the clamped values over 255; opacity is the clamped fourth part, or 1 when it is absent or does not parse |
| Color.FunctionalBranch | app/editor/PdfCanvas.tsx:603-628 | a non-empty trimmed value not starting with `#` is parsed by the functional branch |
| Color.CallOfWrapped | app/editor/PdfCanvas.tsx:623 | in `rgb(body)` or `rgba(body)`, the capture is the body |
| Color.SplitFour | app/editor/PdfCanvas.tsx:628 | four comma-free parts joined by commas split back into those four |
| Color.RgbaComponents | app/editor/PdfCanvas.tsx:623-647 | `rgba(r,g,b,a)` gives channels r/255, g/255, b/255, each clamped, and the clamped opacity a; for example `rgba(255,0,0,0.5)` gives (1, 0, 0, 0.5) |
| Color.Components | app/editor/PdfCanvas.tsx:628-647 | the functional notation's parts; its contract is stated by `Color.FunctionalColorShape` and `Color.RgbaComponents` |
| Export.Draw | app/editor/PdfCanvas.tsx:670-747 | one iteration of the export loop appends exactly the object's draw calls |
| Export.Composite | app/editor/PdfCanvas.tsx:668-748 | the imperative export loop emits exactly the draw calls of the objects, in canvas order |
| Export.ExportOpsAppend | app/editor/PdfCanvas.tsx:670 | exporting two lists of objects one after the other gives their draw calls one after the other |
| Export.ExportOpsSnoc | app/editor/PdfCanvas.tsx:670 | the last object's calls come last |
| Export.FlattenAppend | app/editor/PdfCanvas.tsx:670 | the calls of two lists of groups are the calls of each, in order |
| Export.ObjectOpsShape | app/editor/PdfCanvas.tsx:668-747 | an object draws nothing exactly when it is hidden, a marker, blank text or a rectangle without area; a rectangle draws one rectangle; a text box draws its text, preceded by one mask exactly when it was promoted |
| Export.ExportMasksCovered | app/editor/PdfCanvas.tsx:691-715 | every mask is immediately followed by the text that replaces it |
| Export.ObjectDrawnText | app/editor/PdfCanvas.tsx:671-716 | an object draws its text exactly when it is a visible text box with non-blank text |
| Export.ExportDrawsShownTexts | app/editor/PdfCanvas.tsx:668-717 | the texts drawn are exactly the texts of the visible, non-blank text boxes, in canvas order |
| Export.MaskCoversOriginal | app/editor/PdfCanvas.tsx:692-704 | for any original rectangle, including one reaching past the canvas's top or left edge, the mask starts inside the page and covers the part of the rectangle on the canvas, mapped to PDF space with the y axis flipped |
| Export.ObjectPlacement | app/editor/PdfCanvas.tsx:707-738 | drawn text and rectangles sit at `left·scaleX`, and their top edge at `pdfHeight − top·scaleY` |
| Export.ExportInRange | app/editor/PdfCanvas.tsx:713-744 | every colour and opacity written to the PDF is in 0..1 |
| Export.MarkersDrawNothing | app/editor/PdfCanvas.tsx:719-723 | a canvas holding only line markers draws nothing |
| Export.MaskOf | app/editor/PdfCanvas.tsx:691-704 | the white mask of a promoted text box; its contract is stated by `Export.MaskCoversOriginal` |
| Export.TextOps | app/editor/PdfCanvas.tsx:671-716 | the calls of a text box; its contract is stated by `Export.TextDrawnText`, `Export.ObjectOpsShape` and `Export.ObjectPlacement` |
| Export.ShapeOps | app/editor/PdfCanvas.tsx:719-744 | the calls of a rectangle; its contract is stated by `Export.ShapeDrawnText`, `Export.ObjectOpsShape` and `Export.ObjectPlacement` |
| Export.ObjectOps | app/editor/PdfCanvas.tsx:668-747 | the calls of one object; its contract is stated by `Export.ObjectOpsShape`, `Export.ObjectDrawnText` and `Export.ExportInRange` |
| Export.ExportOf | app/editor/PdfCanvas.tsx:650-751 | the outcome of `exportPdf`; its contract is stated by `Editing.Editor.ExportPdf` and `Export.ExportDrawsShownTexts` |
| Export.DrawShape | app/editor/PdfCanvas.tsx:719-744 | the rectangle branch of the loop, built from the object's fields, emits exactly `ShapeOps` |
| Export.DrawTextBox | app/editor/PdfCanvas.tsx:671-716 | the text branch of the loop, built from the object's fields, emits exactly `TextOps`: the mask first, then the text |
| Editing.ClientToCanvasInverse | app/editor/PdfCanvas.tsx:130-145 | mapping a canvas point to client coordinates and back gives the point again |
| Editing.HitTest | app/editor/PdfCanvas.tsx:146-153 | the first box whose closed rectangle contains the cursor, or none when no box does |
| Editing.PaddedBoxesCatchLines | app/editor/PdfCanvas.tsx:146-153 | a cursor on a line's extent always hits some padded box |
| Editing.Picked | app/editor/PdfCanvas.tsx:113-153 | the line a click is about: the marker clicked, else the hit test; its contract is stated by `Editing.HitTest` and `Editing.PaddedBoxesCatchLines` |
| Editing.EditBoxFor | app/editor/PdfCanvas.tsx:169-188 | the promoted text box is visible, has the line's position, width and font size, and remembers the line id and its rectangle as the original |
| Editing.EditBoxText | app/editor/PdfCanvas.tsx:169 | the promoted text is "Edit text" when the line's text is blank and its trimmed text otherwise |
| Editing.PromotedTextIsLineText | app/editor/PdfCanvas.tsx:169 | a detected line is promoted with its own text unchanged |
| Editing.FirstMarker | app/editor/PdfCanvas.tsx:191-193 | the first canvas object that is the line's marker, or none when the line has no marker |
| Editing.RemoveFirstMarkerSpec | app/editor/PdfCanvas.tsx:191-196 | removing the marker leaves no marker for that line and keeps every other line's marker; the canvas loses exactly that one object when there was one, and is unchanged otherwise |
| Editing.RemoveFirstMarker | app/editor/PdfCanvas.tsx:191-196 | removing the line's first marker; its contract is stated by `Editing.RemoveFirstMarkerSpec` |
| Editing.RemovedMarkerAt | app/editor/PdfCanvas.tsx:195 | deleting a line's only marker keeps the other markers and leaves none for that line |
| Editing.AppendNonMarker | app/editor/PdfCanvas.tsx:197 | adding a text box or shape changes no line's marker |
| Editing.MarkersDistinct | app/editor/PdfCanvas.tsx:504-532 | boxes with distinct ids get markers with distinct ids |
| Editing.UneditedPageExportsNothing | app/editor/PdfCanvas.tsx:504-532 | a page just laid out, before any edit, exports without a single draw call |
| Editing.AppendConsistent | app/editor/PdfCanvas.tsx:222 | adding a free text box or rectangle keeps markers and edits consistent |
| Editing.PromotionConsistent | app/editor/PdfCanvas.tsx:190-197 | promotion keeps markers and edits consistent: the line loses its marker, and its edit box is a text box that remembers that line |
| Editing.PromotionOnce | app/editor/PdfCanvas.tsx:160-197 | two clicks that pick the same line: a line without an edit is promoted by the first and reused by the second; the second click leaves canvas objects and edits as the first left them; a click on no line is ignored both times |
| Editing.LayoutPage | app/editor/PdfCanvas.tsx:398-502 | the text layer gives the number of clustered lines and the hit boxes of the page, with pairwise distinct ids |
| Editing.AddMarkers | app/editor/PdfCanvas.tsx:504-532 | one marker per hit box, in order |
| Editing.Editor.constructor | app/editor/PdfCanvas.tsx:37-56 | a new editor is idle and empty |
| Editing.Editor.Clear | app/editor/PdfCanvas.tsx:273-287 | with no source, the editor is emptied and idle |
| Editing.Editor.BeginLoad | app/editor/PdfCanvas.tsx:290-298 | a load starts in the loading state with no source, edits, boxes or counts |
| Editing.Editor.SourceRead | app/editor/PdfCanvas.tsx:317 | the source bytes are kept for export, and nothing else changes |
| Editing.Editor.FinishTextLayer | app/editor/PdfCanvas.tsx:372-540 | the canvas becomes one marker per detected box; the counts are set; the editor is ready; the "No selectable text" message is set exactly when there are no lines and no boxes |
| Editing.Editor.MouseDown | app/editor/PdfCanvas.tsx:100-202 | a click that picks no line changes nothing; one on a line with an edit reuses it; otherwise the line is promoted: one edit box is recorded and added, and the line's marker is removed; consistency is kept |
| Editing.Editor.Promote | app/editor/PdfCanvas.tsx:169-197 | promotion records the edit box under the line id, removes the line's marker, adds the box, and keeps consistency |
| Editing.Editor.AddTextBox | app/editor/PdfCanvas.tsx:208-227 | "Add Text" appends an "Edit text" box at (80, 80), of size 32 and colour `#1f2937` |
| Editing.Editor.AddRectangle | app/editor/PdfCanvas.tsx:229-250 | "Add Rectangle" appends a 180×120 rectangle at (140, 160) with the given fill, stroke and width |
| Editing.Editor.ExportPdf | app/editor/PdfCanvas.tsx:650-751 | no source gives nothing; no canvas gives the source unchanged; otherwise the source and the draw calls of the canvas objects |
| TempDocRoute.AsTrimmedString | app/api/temp-doc/route.ts:14-20 | a string parameter is trimmed, and anything else becomes the empty string |
| TempDocRoute.ValidateId | app/api/temp-doc/route.ts:22-29 | an id passes exactly when its length is 1..128; an empty id is "required"; a longer one is "too long" |
| TempDocRoute.MessagesDiffer | app/api/temp-doc/route.ts:22-38 | the two validation messages differ from each other and from "Missing DATABASE_URL" |
| TempDocRoute.SessionMessagesAreNotDocMessages | app/api/temp-doc/route.ts:22-29 | no session-id message can be mistaken for "docId is required" |
| TempDocRoute.DocIdOf | app/api/temp-doc/route.ts:46 | the document id is non-empty and trimmed; it is "editor-main" exactly when the trimmed parameter is empty or already "editor-main" |
| TempDocRoute.TitleOf | app/api/temp-doc/route.ts:79 | the title is non-empty and trimmed; it is "Untitled Design" exactly when the trimmed title is empty or already that |
| TempDocRoute.ContentOf | app/api/temp-doc/route.ts:80 | object content, including arrays, is kept; anything else becomes `{}` |
| TempDocRoute.ToErrorResponse | app/api/temp-doc/route.ts:36-40 | the body is `{error: message}`, with the error's own message or the fallback; the status is 503 exactly for "Missing DATABASE_URL" and 400 otherwise |
| TempDocRoute.ErrorResponseShape | app/api/temp-doc/route.ts:36-40 | every error response has an error status and a string `error` field |
| TempDocRoute.Normalise | app/api/temp-doc/route.ts:76-80 | a PUT body always yields a document id, a title and object content |
| TempDocRoute.CheckIdsSpec | app/api/temp-doc/route.ts:48-49 | the ids pass exactly when both have length 1..128 |
| TempDocRoute.DocIdNeverMissing | app/api/temp-doc/route.ts:46-49 | the document id is never reported missing |
| TempDocRoute.CheckIds | app/api/temp-doc/route.ts:48-51 | the id checks of both handlers; its contract is stated by `TempDocRoute.CheckIdsSpec` and `TempDocRoute.DocIdNeverMissing` |
| TempDocRoute.GetStatuses | app/api/temp-doc/route.ts:42-72 | a GET answers 200 with a document, 404 with a null document, or an error response |
| TempDocRoute.Get | app/api/temp-doc/route.ts:42-72 | the GET handler; its contract is stated by `TempDocRoute.GetStatuses`, `TempDocRoute.GetRejectsInvalidIds` and `TempDocRoute.GetWithoutSession` |
| TempDocRoute.GetRejectsInvalidIds | app/api/temp-doc/route.ts:48-51 | a GET with invalid ids gets 400, whatever the database does |
| TempDocRoute.GetWithoutSession | app/api/temp-doc/route.ts:45-48 | a GET without a session id gets 400 "sessionId is required" |
| TempDocRoute.SameIdsForGetAndPut | app/api/temp-doc/route.ts:45-78 | GET parameters and a PUT body with the same strings normalise to the same ids |
| TempDocRoute.PutWithoutSession | app/api/temp-doc/route.ts:77-82 | a PUT body without a usable session id gets 400 "sessionId is required" |
| TempDocRoute.PutRejectsInvalidIds | app/api/temp-doc/route.ts:82-85 | a PUT with invalid ids gets 400, whatever the database does |
| TempDocRoute.PutStoresNormalised | app/api/temp-doc/route.ts:76-103 | a valid PUT sends the normalised record to the upsert and answers 200 with the returned row |
| TempDocRoute.Put | app/api/temp-doc/route.ts:74-107 | the PUT handler; its contract is stated by `TempDocRoute.PutStoresNormalised`, `TempDocRoute.PutRejectsInvalidIds` and `TempDocRoute.PutWithoutSession` |
| EditorPage.StatusTextPrecedence | app/editor/page.tsx:62-80 | each status message is shown exactly in its own case: no session first, then autosave off, then saving, saved, failed or not saved yet |
| EditorPage.ZoomOut | app/editor/page.tsx:485 | zooming out gives z − 25 but never below 25 |
| EditorPage.ZoomIn | app/editor/page.tsx:494 | zooming in gives z + 25 but never above 200 |
| EditorPage.ZoomInverse | app/editor/page.tsx:485-494 | away from the limits, zooming in undoes zooming out and the other way round |
| EditorPage.ClicksStayInRange | app/editor/page.tsx:485-494 | from a zoom in 25..200, any sequence of clicks stays in 25..200 |
| EditorPage.ZoomOutsIntoRange | app/editor/page.tsx:485 | a zoom above 200 (such as a stored one) is brought into 25..200 by ⌈(z − 200)/25⌉ or more zoom-out clicks; from 200..225 one click suffices |
| EditorPage.ZoomInsIntoRange | app/editor/page.tsx:494 | a zoom below 25 is brought into 25..200 by ⌈(25 − z)/25⌉ or more zoom-in clicks; from 0..25 one click suffices |
| EditorPage.PageDocIdNormal | app/editor/page.tsx:8 | the page's document id "editor-main" is trimmed and 11 long, so the route keeps it |
| EditorPage.Restore | app/editor/page.tsx:119-130 | a restored title or tab is never empty |
| EditorPage.SaveBodyProperties | app/editor/page.tsx:154-162 | the save body carries the session id, "editor-main", the title and the content `{activeTab, zoom}` |
| EditorPage.SaveBodyNormalised | app/editor/page.tsx:154-162 | the route normalises the page's save body to the same values |
| EditorPage.RestoreStoredRow | app/editor/page.tsx:119-130 | loading a stored row restores its title, tab and zoom |
| EditorPage.SaveThenLoad | app/editor/page.tsx:146-162 | what the page saves, the route stores and a load gives back: the trimmed session id, the trimmed title ("Untitled Design" for a blank one), and the same tab and zoom |
| EditorPage.SaveThenGet | app/editor/page.tsx:98-162 | with a valid session id and a database whose select finds the stored row, the GET handler answers 200 with that row, and the page restores from it the saved title (trimmed, or "Untitled Design" for a blank one), the tab and the zoom |
| EditorPage.SaveBodyIdsValid | app/editor/page.tsx:154-156 | with a valid session id, the save body passes the route's id checks |
| EditorPage.SaveIsAccepted | app/editor/page.tsx:146-175 | with a valid session id and a working database, the route answers the save with 200 and the stored row |
| EditorPage.PdfExtensionIgnoresCase | app/editor/page.tsx:190 | the name ends in ".pdf" after lower-casing exactly when its last four characters are `.`, `p`, `d`, `f` in any case |
| EditorPage.DownloadFilename | app/editor/page.tsx:250 | the download name ends in ".pdf" after a non-empty trimmed stem |
| EditorPage.DownloadFilenameCases | app/editor/page.tsx:250 | a trimmed title gives title + ".pdf"; a blank title gives "document.pdf"; only the trimmed title matters |
| EditorPage.Page.constructor | app/editor/page.tsx:32-42 | the initial page state: tab "elements", zoom 100, "Untitled Design", no PDF, no session |
| EditorPage.Page.StartSession | app/editor/page.tsx:82-91 | a stored session id is reused; otherwise the fresh one is taken and must be stored |
| EditorPage.Page.HandleLoadResponse | app/editor/page.tsx:98-135 | 404 only hydrates; 503 disables saving, sets the status to idle and hydrates; any other failure sets the status to error; success restores the title, tab and zoom present; hydrated on every path |
| EditorPage.Page.BeginSave | app/editor/page.tsx:141-148 | callable only while autosave is due (a session, hydrated, saving not disabled); the save status becomes "saving" and nothing else changes |
| EditorPage.Page.HandleSaveResponse | app/editor/page.tsx:165-178 | 503 disables saving and sets the status to idle; otherwise the save is "saved" exactly on a 2xx status and "error" exactly otherwise |
| EditorPage.Page.ClickZoomOut | app/editor/page.tsx:485 | the zoom-out button sets the zoom to `ZoomOut` of the old zoom and changes nothing else |
| EditorPage.Page.ClickZoomIn | app/editor/page.tsx:494 | the zoom-in button sets the zoom to `ZoomIn` of the old zoom and changes nothing else |
| EditorPage.Page.HandleUpload | app/editor/page.tsx:184-214 | no file changes nothing; a file that is not a PDF by type or name gets "Only PDF files are supported."; an unreadable one gets "Could not read this PDF file."; an empty one gets "Selected PDF is empty."; the PDF state changes only for an accepted, non-empty file, which also switches to the uploads tab |
| EditorPage.Page.HandleExport | app/editor/page.tsx:235-258 | no bytes gives "Upload a PDF before exporting."; a failure gives "Export failed for this PDF."; bytes give a download under the title's file name and clear the message |
| EditorPage.Page.HandleEvents | app/editor/page.tsx:141-182 | over any sequence of page events, a timer firing starts a save only while autosave is due; once saving is disabled it stays disabled and no save starts again, and the status reads "No session" or "Autosave Off"; without a session and no session start, no save starts at all |
| EditorPage.StatusText | app/editor/page.tsx:62-80 | the save-status line; its contract is stated by `EditorPage.StatusTextPrecedence` |
| EditorPage.ShouldAutosave | app/editor/page.tsx:141-144 | the condition under which the autosave timer is armed; `EditorPage.Page.BeginSave` requires it and `EditorPage.Page.HandleEvents` proves that it stays false once saving is disabled |
| EditorPage.SaveBody | app/editor/page.tsx:154-162 | the autosave request body; its contract is stated by `EditorPage.SaveBodyProperties` and `EditorPage.SaveThenLoad` |
| EditorPage.Accepted | app/editor/page.tsx:190 | the upload acceptance test; its contract is stated by `EditorPage.PdfExtensionIgnoresCase` |

## Left out

- The PDF renderer, the canvas library and the PDF writer. These are
  document loading, page rendering, text extraction, object creation,
  canvas sizing and the writing of bytes. The text items, the viewport
  matrix, the scale factor, the canvas and page sizes, and the read bytes
  are inputs. The export result is a list of draw calls, not bytes.
- Asynchrony, cancellation flags, effect clean-up, timers and the 900 ms
  autosave delay. Each handler is a method that runs to completion. The
  timer's arming and clearing are modelled only by its firing being
  effective while autosave is due (`EditorPage.Page.HandleEvents`).
- `Editing.Editor.FinishTextLayer`: consistency of the editor is promised
  only when no edit was recorded while the page loaded. In the source, a
  click while loading can promote a line of the previous page. That stale
  edit then survives into the new page.
- `fetch`, `localStorage`, `crypto.randomUUID`, object URLs and the Blob
  download link of the page. The stored session id, the fresh id, HTTP
  statuses, parsed bodies, file contents and object URLs are parameters.
- The SQL queries, the one-day expiry, the timestamps and the database pool.
  The database is the parameter record `TempDocRoute.Database`, with a
  clean-up result, a select and an upsert.
- IEEE floating point: NaN, infinities and rounding. Geometry is `real`.
  `parseFloat` answers `None` where JavaScript gives NaN.
- `Math.hypot`, `Math.round`, `parseInt(·, 16)` and `parseFloat` are
  uninterpreted functions. No claim is made that invalid hex digits give no
  colour.
- `JsText.LowerAscii`: lower-cases only ASCII capitals. No character outside
  ASCII lower-cases to `.`, `p`, `d` or `f`, so the ".pdf" test is
  unaffected.
- `EditorPage.Restore`: it accepts only a string title or tab. The source
  would also accept other truthy JSON values there.
- `EditorPage.Page.HandleLoadResponse`: a loaded zoom is taken as it is,
  as in the source. So a stored zoom outside 25..200 is possible, and
  `EditorPage.ClicksStayInRange` needs a zoom in range to begin with;
  `EditorPage.ZoomOutsIntoRange` and `EditorPage.ZoomInsIntoRange` bound the
  clicks that bring such a zoom back.
- Font weights, corner radii, selection and editing focus, hover cursors,
  marker fill and stroke colours, and rendering requests. None of these
  reaches the exported draw calls.
- Colour values that are not strings, such as gradients or patterns. The
  model's fill and stroke are optional strings, because every fill and
  stroke the editor creates is a string literal
  (app/editor/PdfCanvas.tsx:175, 219, 242-243 and the markers' 510-511).
  Were one a gradient or a pattern, the source's `value.trim()`
  (app/editor/PdfCanvas.tsx:603) would throw and the export would fail.
- User input apart from clicks and uploads: typing in the title field and
  choosing a tab are plain assignments of the typed or chosen value.
- The error path of loading (app/editor/PdfCanvas.tsx:541-587). It is
  reached only through failures of the renderer, which is not modelled.
- Marker data is always complete. The source's defaults for missing marker
  fields (160, 24, `max(12, 0.85·height)`) and its test for an empty line
  id never apply.
