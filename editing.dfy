/** The PDF canvas component's state: the hit boxes of the detected lines,
    the objects on the canvas, the text boxes promoted so far (by line id),
    the loaded PDF and the status shown above the canvas. A click on a line
    promotes it to an editable text box once; later clicks reuse that box. */
module Editing {
  import opened Geometry
  import opened JsText
  import opened Clustering
  import opened Canvas
  import Export

  // ------------------------------------------------------------ cursor

  /** The source event of a click: a mouse event, or a touch event with its
      list of touches. */
  datatype ClickEvent = Mouse(clientX: real, clientY: real) | Touch(touches: seq<Point>)

  /** The canvas element's bounding rectangle in client coordinates. */
  datatype ClientRect = ClientRect(left: real, top: real, width: real, height: real)

  /** Where the event happened in client coordinates: the first touch, or the
      mouse position. A touch event with no touches has no position (its
      coordinates would be NaN, which no box contains). */
  function ClientPoint(event: ClickEvent): Option<Point> {
    match event
    case Mouse(x, y) => Some(Point(x, y))
    case Touch(touches) => if touches == [] then None else Some(touches[0])
  }

  /** Canvas pixels per client pixel along one axis, 1 when the element has
      no extent. */
  function PixelRatio(canvasSize: real, clientSize: real): real {
    if clientSize == 0.0 then 1.0 else canvasSize / clientSize
  }

  /** The client position as a canvas position. */
  function ClientToCanvas(p: Point, rect: ClientRect, canvasWidth: real, canvasHeight: real): Point {
    Point(Scale(p.x - rect.left, PixelRatio(canvasWidth, rect.width)),
          Scale(p.y - rect.top, PixelRatio(canvasHeight, rect.height)))
  }

  /** The client position a canvas position is displayed at. */
  function CanvasToClient(q: Point, rect: ClientRect, canvasWidth: real, canvasHeight: real): Point
    requires canvasWidth > 0.0 && canvasHeight > 0.0
  {
    Point(rect.left + Scale(q.x, rect.width / canvasWidth), rect.top + Scale(q.y, rect.height / canvasHeight))
  }

  /** Clicking where a canvas point is displayed gives back that point. */
  lemma ClientToCanvasInverse(q: Point, rect: ClientRect, canvasWidth: real, canvasHeight: real)
    requires canvasWidth > 0.0 && canvasHeight > 0.0 && rect.width > 0.0 && rect.height > 0.0
    ensures ClientToCanvas(CanvasToClient(q, rect, canvasWidth, canvasHeight), rect, canvasWidth, canvasHeight) == q
  {
    var kx := rect.width / canvasWidth;
    assert kx * (canvasWidth / rect.width) == 1.0;
    assert (q.x * kx) * (canvasWidth / rect.width) == q.x * (kx * (canvasWidth / rect.width));
    var ky := rect.height / canvasHeight;
    assert ky * (canvasHeight / rect.height) == 1.0;
    assert (q.y * ky) * (canvasHeight / rect.height) == q.y * (ky * (canvasHeight / rect.height));
  }

  /** The closed rectangle of a box contains the point. */
  predicate Contains(box: Box, p: Point) {
    box.left <= p.x <= box.left + box.width && box.top <= p.y <= box.top + box.height
  }

  /** `lineBoxes.find(...)`: the first box whose closed rectangle contains
      the point. */
  function HitTest(boxes: seq<Box>, p: Point): (r: Option<nat>)
    ensures r.Some? ==> r.value < |boxes| && Contains(boxes[r.value], p)
                        && forall j :: 0 <= j < r.value ==> !Contains(boxes[j], p)
    ensures r.None? ==> forall j :: 0 <= j < |boxes| ==> !Contains(boxes[j], p)
  {
    if boxes == [] then None
    else if Contains(boxes[0], p) then Some(0)
    else match HitTest(boxes[1..], p)
      case None => None
      case Some(k) => Some(k + 1)
  }

  /** Padding never loses a click: a point on a line's own extent always
      hits a box, because every padded box encloses its line. */
  lemma PaddedBoxesCatchLines(lines: seq<Line>, k: nat, p: Point)
    requires k < |lines|
    requires lines[k].left <= p.x <= lines[k].right
    requires lines[k].top <= p.y <= lines[k].top + lines[k].height
    ensures HitTest(PadLines(lines), p).Some?
  {
    assert Contains(PadLines(lines)[k], p);
  }

  /** The line a click is about: the line marker that received it, or else
      the first box under the cursor. */
  function Picked(target: Option<CanvasObject>, event: ClickEvent, rect: ClientRect,
                  canvasWidth: real, canvasHeight: real, boxes: seq<Box>): Option<Box>
  {
    if target.Some? && target.value.Marker? then Some(target.value.box)
    else match ClientPoint(event)
      case None => None
      case Some(c) =>
        match HitTest(boxes, ClientToCanvas(c, rect, canvasWidth, canvasHeight))
        case None => None
        case Some(k) => Some(boxes[k])
  }

  // ------------------------------------------------------------ promotion

  const PromotedFill := "#111827"
  const Placeholder := "Edit text"

  /** The text box a line is promoted to: the line's trimmed text, or a
      placeholder when that is empty; the line's position, width and font
      size; and the line's rectangle, frozen. */
  function EditBoxFor(box: Box): (t: CanvasObject)
    ensures t.TextBox? && t.visible && t.edit == Some(EditData(box.id, BoxRect(box)))
    ensures t.left == box.left && t.top == box.top && t.width == box.width && t.fontSize == box.fontSize
  {
    var text := Trim(box.text);
    TextBox(if text == [] then Placeholder else text, box.left, box.top, box.width, box.fontSize,
            1.0, 1.0, DefaultLineHeight, Some(PromotedFill), Some(EditData(box.id, BoxRect(box))), true)
  }

  /** The promoted text is the line's trimmed text, or the placeholder
      exactly when the line is blank. */
  lemma EditBoxText(box: Box)
    ensures EditBoxFor(box).text == if IsBlank(box.text) then Placeholder else Trim(box.text)
  {
    TrimEmptyIffBlank(box.text);
  }

  /** A line of the page is promoted with its own text: box texts are never
      blank and never need trimming. */
  lemma PromotedTextIsLineText(items: seq<TextItem>, ctx: Context, k: nat)
    requires k < |DetectBoxes(items, ctx)|
    ensures EditBoxFor(DetectBoxes(items, ctx)[k]).text == DetectBoxes(items, ctx)[k].text
  {
    var box := DetectBoxes(items, ctx)[k];
    BoxTextsTrimmed(items, ctx);
    EditBoxText(box);
    TrimEmptyIffBlank(box.text);
    TrimOfTrimmed(box.text);
  }

  predicate HasMarker(objects: seq<CanvasObject>, id: BoxId) {
    exists i :: 0 <= i < |objects| && IsMarkerFor(objects[i], id)
  }

  /** No two markers on the canvas belong to the same line. */
  predicate MarkerIdsDistinct(objects: seq<CanvasObject>) {
    forall i, j :: 0 <= i < j < |objects| && objects[i].Marker? && objects[j].Marker? ==>
      objects[i].box.id != objects[j].box.id
  }

  /** The first marker of a line. */
  function FirstMarker(objects: seq<CanvasObject>, id: BoxId): (r: Option<nat>)
    ensures r.Some? ==> r.value < |objects| && IsMarkerFor(objects[r.value], id)
                        && forall j :: 0 <= j < r.value ==> !IsMarkerFor(objects[j], id)
    ensures r.None? ==> !HasMarker(objects, id)
  {
    if objects == [] then None
    else if IsMarkerFor(objects[0], id) then Some(0)
    else match FirstMarker(objects[1..], id)
      case None =>
        assert forall i :: 1 <= i < |objects| ==> objects[i] == objects[1..][i - 1];
        None
      case Some(k) => Some(k + 1)
  }

  /** Remove the first object whose data names the line: its marker. */
  function RemoveFirstMarker(objects: seq<CanvasObject>, id: BoxId): seq<CanvasObject> {
    match FirstMarker(objects, id)
    case None => objects
    case Some(k) => objects[..k] + objects[k + 1..]
  }

  /** The sequence without its element at `k`, element by element. */
  lemma RemovedAt(objects: seq<CanvasObject>, k: nat)
    requires k < |objects|
    ensures var r := objects[..k] + objects[k + 1..];
            |r| + 1 == |objects| && forall i :: 0 <= i < |r| ==> r[i] == (if i < k then objects[i] else objects[i + 1])
    ensures multiset(objects[..k] + objects[k + 1..]) + multiset{objects[k]} == multiset(objects)
  {
    assert objects == objects[..k] + [objects[k]] + objects[k + 1..];
  }

  /** Dropping the marker at `k` drops its line and no other line. */
  lemma RemovedMarkerAt(objects: seq<CanvasObject>, k: nat, id: BoxId)
    requires k < |objects| && IsMarkerFor(objects[k], id) && MarkerIdsDistinct(objects)
    ensures var r := objects[..k] + objects[k + 1..];
            MarkerIdsDistinct(r) && !HasMarker(r, id)
            && forall other :: other != id ==> (HasMarker(r, other) <==> HasMarker(objects, other))
  {
    var r := objects[..k] + objects[k + 1..];
    RemovedAt(objects, k);
    forall other | other != id && HasMarker(objects, other) ensures HasMarker(r, other) {
      var i :| 0 <= i < |objects| && IsMarkerFor(objects[i], other);
      if i < k {
        assert IsMarkerFor(r[i], other);
      } else {
        assert IsMarkerFor(r[i - 1], other);
      }
    }
  }

  /** Removing a line's marker removes exactly that one object, keeps the
      others in order, and, when markers are distinct per line, leaves no
      marker of that line and the markers of every other line. */
  lemma RemoveFirstMarkerSpec(objects: seq<CanvasObject>, id: BoxId)
    requires MarkerIdsDistinct(objects)
    ensures var r := RemoveFirstMarker(objects, id);
            MarkerIdsDistinct(r) && !HasMarker(r, id)
            && (forall other :: other != id ==> (HasMarker(r, other) <==> HasMarker(objects, other)))
    ensures HasMarker(objects, id) ==>
              |RemoveFirstMarker(objects, id)| + 1 == |objects|
              && multiset(RemoveFirstMarker(objects, id)) + multiset{objects[FirstMarker(objects, id).value]} == multiset(objects)
    ensures !HasMarker(objects, id) ==> RemoveFirstMarker(objects, id) == objects
  {
    match FirstMarker(objects, id)
    case None =>
    case Some(k) =>
      RemovedAt(objects, k);
      RemovedMarkerAt(objects, k, id);
  }

  /** Adding an object that is not a marker changes no marker. */
  lemma AppendNonMarker(objects: seq<CanvasObject>, obj: CanvasObject)
    requires MarkerIdsDistinct(objects) && !obj.Marker?
    ensures MarkerIdsDistinct(objects + [obj])
    ensures forall id :: HasMarker(objects + [obj], id) <==> HasMarker(objects, id)
  {
    var next := objects + [obj];
    forall id | HasMarker(next, id) ensures HasMarker(objects, id) {
      var i :| 0 <= i < |next| && IsMarkerFor(next[i], id);
      assert i < |objects| && IsMarkerFor(objects[i], id);
    }
    forall id | HasMarker(objects, id) ensures HasMarker(next, id) {
      var i :| 0 <= i < |objects| && IsMarkerFor(objects[i], id);
      assert IsMarkerFor(next[i], id);
    }
  }

  /** One marker per box. */
  function Markers(boxes: seq<Box>): (r: seq<CanvasObject>)
    ensures |r| == |boxes|
  {
    seq(|boxes|, k requires 0 <= k < |boxes| => Marker(boxes[k]))
  }

  /** A page just laid out, before any edit, exports without a single draw
      call: the source page comes back unchanged. */
  lemma UneditedPageExportsNothing(boxes: seq<Box>, f: Export.Frame, math: JsMath)
    requires Export.ValidFrame(f)
    ensures Export.ExportOps(Markers(boxes), f, math) == []
  {
    Export.MarkersDrawNothing(Markers(boxes), f, math);
  }

  lemma MarkersDistinct(boxes: seq<Box>)
    requires forall j, k :: 0 <= j < k < |boxes| ==> boxes[j].id != boxes[k].id
    ensures MarkerIdsDistinct(Markers(boxes))
  {
  }

  /** Markers are distinct per line, a promoted line has no marker left,
      and every promoted text box remembers the line it stands for. */
  predicate Consistent(objects: seq<CanvasObject>, edits: map<BoxId, CanvasObject>) {
    MarkerIdsDistinct(objects)
    && forall id :: id in edits ==>
         !HasMarker(objects, id) && edits[id].TextBox? && edits[id].edit.Some? && edits[id].edit.value.lineId == id
  }

  /** Adding a text box or a shape keeps the canvas consistent. */
  lemma AppendConsistent(objects: seq<CanvasObject>, edits: map<BoxId, CanvasObject>, obj: CanvasObject)
    requires Consistent(objects, edits) && !obj.Marker?
    ensures Consistent(objects + [obj], edits)
  {
    AppendNonMarker(objects, obj);
  }

  /** Promoting a line that has no text box yet keeps the canvas consistent. */
  lemma PromotionConsistent(objects: seq<CanvasObject>, edits: map<BoxId, CanvasObject>, box: Box)
    requires Consistent(objects, edits) && box.id !in edits
    ensures Consistent(RemoveFirstMarker(objects, box.id) + [EditBoxFor(box)], edits[box.id := EditBoxFor(box)])
  {
    var t := EditBoxFor(box);
    var remaining := RemoveFirstMarker(objects, box.id);
    var next := remaining + [t];
    var nextEdits := edits[box.id := t];
    RemoveFirstMarkerSpec(objects, box.id);
    AppendNonMarker(remaining, t);
    forall id | id in nextEdits
      ensures !HasMarker(next, id) && nextEdits[id].TextBox? && nextEdits[id].edit.Some?
              && nextEdits[id].edit.value.lineId == id
    {
      if id != box.id {
        assert id in edits && nextEdits[id] == edits[id];
        assert !HasMarker(objects, id);
      }
    }
  }

  /** The page's lines and their hit boxes, or the per-item fallback when
      there are items but no line. */
  method LayoutPage(items: seq<TextItem>, ctx: Context) returns (lineCount: nat, found: seq<Box>)
    ensures lineCount == |PageLines(items, ctx)| && found == DetectBoxes(items, ctx)
    ensures forall j, k :: 0 <= j < k < |found| ==> found[j].id != found[k].id
  {
    var lines := ClusterItems(items, ctx);
    if |lines| == 0 && |items| > 0 {
      found := Fallback(MeasureAll(items, ctx), |items|, ctx.math.round);
    } else {
      found := PadLines(lines);
    }
    BoxIdsDistinct(items, ctx);
    lineCount := |lines|;
  }

  /** One marker per box, added in order. */
  method AddMarkers(found: seq<Box>) returns (markers: seq<CanvasObject>)
    ensures markers == Markers(found)
  {
    markers := [];
    var k := 0;
    while k < |found|
      invariant 0 <= k <= |found|
      invariant markers == Markers(found[..k])
    {
      assert Markers(found[..k + 1]) == Markers(found[..k]) + [Marker(found[k])];
      markers := markers + [Marker(found[k])];
      k := k + 1;
    }
    assert found[..k] == found;
  }

  // ------------------------------------------------------------ component

  datatype Status = Idle | Loading | Ready | Error

  const NoTextMessage := "No selectable text detected in this PDF."

  /** What a click did. */
  datatype ClickOutcome = Ignored | Reused(id: BoxId) | Promoted(id: BoxId)

  class Editor {
    var boxes: seq<Box>
    var edits: map<BoxId, CanvasObject>
    var objects: seq<CanvasObject>
    var pdf: Option<seq<bv8>>
    var status: Status
    var errorMessage: Option<string>
    var lineCount: nat
    var textItemCount: nat
    var boxesCount: nat

    /** Markers are distinct per line, a promoted line has no marker left,
        and every promoted text box remembers the line it stands for. */
    ghost predicate Valid()
      reads this
    {
      Consistent(objects, edits)
    }

    constructor()
      ensures boxes == [] && edits == map[] && objects == [] && pdf.None?
      ensures status == Idle && errorMessage.None? && lineCount == 0 && textItemCount == 0 && boxesCount == 0
      ensures Valid()
    {
      boxes := [];
      edits := map[];
      objects := [];
      pdf := None;
      status := Idle;
      errorMessage := None;
      lineCount := 0;
      textItemCount := 0;
      boxesCount := 0;
    }

    /** No PDF selected: everything is cleared and the status is idle. */
    method Clear()
      modifies this
      ensures boxes == [] && edits == map[] && objects == [] && pdf.None?
      ensures status == Idle && errorMessage.None? && lineCount == 0 && textItemCount == 0 && boxesCount == 0
      ensures Valid()
    {
      pdf := None;
      edits := map[];
      boxes := [];
      objects := [];
      status := Idle;
      errorMessage := None;
      lineCount := 0;
      textItemCount := 0;
      boxesCount := 0;
    }

    /** A load starts: the status is loading, the PDF, the promoted boxes and
        the hit boxes are dropped and the counts reset; the canvas keeps its
        objects until the text layer replaces them. */
    method BeginLoad()
      modifies this
      ensures status == Loading && errorMessage.None? && pdf.None? && edits == map[] && boxes == []
      ensures lineCount == 0 && textItemCount == 0 && boxesCount == 0
      ensures objects == old(objects)
      ensures old(MarkerIdsDistinct(objects)) ==> Valid()
    {
      status := Loading;
      errorMessage := None;
      pdf := None;
      edits := map[];
      boxes := [];
      lineCount := 0;
      textItemCount := 0;
      boxesCount := 0;
    }

    /** The source bytes have been read. */
    method SourceRead(bytes: seq<bv8>)
      modifies this
      ensures pdf == Some(bytes)
      ensures boxes == old(boxes) && edits == old(edits) && objects == old(objects) && status == old(status)
      ensures errorMessage == old(errorMessage) && lineCount == old(lineCount)
      ensures textItemCount == old(textItemCount) && boxesCount == old(boxesCount)
      ensures old(Valid()) ==> Valid()
    {
      pdf := Some(bytes);
    }

    /** The text layer of the first page: the canvas is emptied, the lines are
        clustered, their hit boxes (or the per-item fallback) become the
        component's boxes with one marker each, and the status becomes ready,
        with a message when the page has no selectable text. */
    method FinishTextLayer(items: seq<TextItem>, ctx: Context)
      modifies this
      ensures textItemCount == |items| && lineCount == |PageLines(items, ctx)|
      ensures boxes == DetectBoxes(items, ctx) && boxesCount == |boxes|
      ensures objects == Markers(boxes) && status == Ready
      ensures errorMessage == if lineCount == 0 && boxesCount == 0 then Some(NoTextMessage) else old(errorMessage)
      ensures edits == old(edits) && pdf == old(pdf)
      ensures old(edits) == map[] ==> Valid()
    {
      var lines, found := LayoutPage(items, ctx);
      var markers := AddMarkers(found);
      MarkersDistinct(found);
      textItemCount := |items|;
      objects := markers;
      boxes := found;
      status := Ready;
      lineCount := lines;
      boxesCount := |found|;
      if lines == 0 && |found| == 0 {
        errorMessage := Some(NoTextMessage);
      }
    }

    /** A click on the canvas: find the line it is about; reuse that line's
        text box if it was promoted before; otherwise promote it, removing its
        marker and adding the new text box on top. */
    method MouseDown(target: Option<CanvasObject>, event: ClickEvent, rect: ClientRect,
                     canvasWidth: real, canvasHeight: real) returns (outcome: ClickOutcome)
      modifies this
      ensures var picked := Picked(target, event, rect, canvasWidth, canvasHeight, old(boxes));
              (picked.None? ==> outcome == Ignored && edits == old(edits) && objects == old(objects))
              && (picked.Some? && picked.value.id in old(edits) ==>
                    outcome == Reused(picked.value.id) && edits == old(edits) && objects == old(objects))
              && (picked.Some? && picked.value.id !in old(edits) ==>
                    outcome == Promoted(picked.value.id)
                    && edits == old(edits)[picked.value.id := EditBoxFor(picked.value)]
                    && objects == RemoveFirstMarker(old(objects), picked.value.id) + [EditBoxFor(picked.value)])
      ensures boxes == old(boxes) && pdf == old(pdf) && status == old(status) && errorMessage == old(errorMessage)
      ensures lineCount == old(lineCount) && textItemCount == old(textItemCount) && boxesCount == old(boxesCount)
      ensures old(Valid()) ==> Valid()
    {
      var picked := Picked(target, event, rect, canvasWidth, canvasHeight, boxes);
      if picked.None? {
        return Ignored;
      }
      var box := picked.value;
      if box.id in edits {
        return Reused(box.id);
      }
      Promote(box);
      outcome := Promoted(box.id);
    }

    /** Replace a line's marker by its new text box, placed on top. */
    method Promote(box: Box)
      requires box.id !in edits
      modifies this
      ensures edits == old(edits)[box.id := EditBoxFor(box)]
      ensures objects == RemoveFirstMarker(old(objects), box.id) + [EditBoxFor(box)]
      ensures boxes == old(boxes) && pdf == old(pdf) && status == old(status) && errorMessage == old(errorMessage)
      ensures lineCount == old(lineCount) && textItemCount == old(textItemCount) && boxesCount == old(boxesCount)
      ensures old(Valid()) ==> Valid()
    {
      var textbox := EditBoxFor(box);
      var nextEdits := edits[box.id := textbox];
      var nextObjects := RemoveFirstMarker(objects, box.id) + [textbox];
      ghost var wasValid := Consistent(objects, edits);
      if wasValid {
        PromotionConsistent(objects, edits, box);
      }
      edits := nextEdits;
      objects := nextObjects;
      assert wasValid ==> Consistent(objects, edits);
    }

    /** The "add text" button: a placeholder text box at (80, 80), font size
        32; its width is what the canvas library lays the placeholder out to. */
    method AddTextBox(width: real)
      modifies this
      ensures objects == old(objects) + [TextBox(Placeholder, 80.0, 80.0, width, 32.0, 1.0, 1.0, DefaultLineHeight,
                                                 Some("#1f2937"), None, true)]
      ensures boxes == old(boxes) && edits == old(edits) && pdf == old(pdf) && status == old(status)
      ensures errorMessage == old(errorMessage) && lineCount == old(lineCount)
      ensures textItemCount == old(textItemCount) && boxesCount == old(boxesCount)
      ensures old(Valid()) ==> Valid()
    {
      var textbox := TextBox(Placeholder, 80.0, 80.0, width, 32.0, 1.0, 1.0, DefaultLineHeight,
                             Some("#1f2937"), None, true);
      if Valid() {
        AppendConsistent(objects, edits, textbox);
      }
      objects := objects + [textbox];
    }

    /** The "add rectangle" button: a 180 by 120 rectangle at (140, 160),
        translucent slate fill, a 2 pixel slate border. */
    method AddRectangle()
      modifies this
      ensures objects == old(objects) + [Shape(140.0, 160.0, 180.0, 120.0, 1.0, 1.0, Some("rgba(100,116,139,0.15)"),
                                               Some("#334155"), 2.0, true)]
      ensures boxes == old(boxes) && edits == old(edits) && pdf == old(pdf) && status == old(status)
      ensures errorMessage == old(errorMessage) && lineCount == old(lineCount)
      ensures textItemCount == old(textItemCount) && boxesCount == old(boxesCount)
      ensures old(Valid()) ==> Valid()
    {
      var shape := Shape(140.0, 160.0, 180.0, 120.0, 1.0, 1.0, Some("rgba(100,116,139,0.15)"),
                         Some("#334155"), 2.0, true);
      if Valid() {
        AppendConsistent(objects, edits, shape);
      }
      objects := objects + [shape];
    }

    /** `exportPdf`: nothing without a loaded PDF, the bytes as loaded without
        a canvas, otherwise the canvas drawn onto the page. */
    method ExportPdf(frame: Option<Export.Frame>, math: JsMath) returns (outcome: Export.ExportOutcome)
      requires frame.Some? ==> Export.ValidFrame(frame.value)
      ensures outcome == Export.ExportOf(pdf, frame, objects, math)
    {
      if pdf.None? {
        return Export.NoDocument;
      }
      if frame.None? {
        return Export.Original(pdf.value);
      }
      var ops := Export.Composite(objects, frame.value, math);
      outcome := Export.Composited(pdf.value, ops);
    }
  }

  /** Promoting a line twice is impossible: two clicks that pick the same
      line promote it at most once, the second one reuses its text box, and
      the second click leaves the canvas and the edits as the first left
      them. */
  method PromotionOnce(e: Editor, target: Option<CanvasObject>, event: ClickEvent, rect: ClientRect,
                       canvasWidth: real, canvasHeight: real) returns (first: ClickOutcome, second: ClickOutcome)
    modifies e
    ensures var picked := Picked(target, event, rect, canvasWidth, canvasHeight, old(e.boxes));
            (picked.None? ==> first == Ignored && second == Ignored
                              && e.edits == old(e.edits) && e.objects == old(e.objects))
            && (picked.Some? && picked.value.id in old(e.edits) ==>
                  first == Reused(picked.value.id) && second == Reused(picked.value.id)
                  && e.edits == old(e.edits) && e.objects == old(e.objects))
            && (picked.Some? && picked.value.id !in old(e.edits) ==>
                  first == Promoted(picked.value.id) && second == Reused(picked.value.id)
                  && e.edits == old(e.edits)[picked.value.id := EditBoxFor(picked.value)]
                  && e.objects == RemoveFirstMarker(old(e.objects), picked.value.id) + [EditBoxFor(picked.value)])
    ensures e.boxes == old(e.boxes)
    ensures old(e.Valid()) ==> e.Valid()
  {
    first := e.MouseDown(target, event, rect, canvasWidth, canvasHeight);
    second := e.MouseDown(target, event, rect, canvasWidth, canvasHeight);
  }
}
