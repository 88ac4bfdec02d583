/** The PDF export: every visible canvas object, in canvas order, becomes
    draw calls on the first page of the source PDF. Canvas pixels map to PDF
    points by the ratio of the page size to the canvas size, with the y axis
    flipped, since PDF measures from the bottom edge. */
module Export {
  import opened Geometry
  import opened JsText
  import opened Color
  import opened Canvas

  /** The canvas size and the size of the PDF page drawn on. */
  datatype Frame = Frame(canvasWidth: real, canvasHeight: real, pageWidth: real, pageHeight: real)

  predicate ValidFrame(f: Frame) {
    f.canvasWidth > 0.0 && f.canvasHeight > 0.0
  }

  function ScaleX(f: Frame): real
    requires ValidFrame(f)
  {
    f.pageWidth / f.canvasWidth
  }

  function ScaleY(f: Frame): real
    requires ValidFrame(f)
  {
    f.pageHeight / f.canvasHeight
  }

  /** A colour as the PDF writer takes it. */
  datatype Rgb = Rgb(r: real, g: real, b: real)

  /** One draw call on the page. `Mask` is the opaque white rectangle that
      hides the glyphs a promoted text box replaces; `fillColor` is the
      rectangle call's `color`. */
  datatype DrawOp =
    | Mask(x: real, y: real, width: real, height: real)
    | DrawText(text: string, x: real, y: real, size: real, maxWidth: Option<real>,
               lineHeight: real, color: Rgb, opacity: real)
    | DrawRect(x: real, y: real, width: real, height: real, fillColor: Option<Rgb>, opacity: real,
               borderColor: Option<Rgb>, borderOpacity: real, borderWidth: real)

  function RgbOf(c: Rgba): Rgb {
    Rgb(c.r, c.g, c.b)
  }

  /** The mask over the rectangle a promoted text box came from: padded by
      12% of its height (at least 1 pixel), with the padded left and top
      kept on the canvas. */
  function MaskOf(rect: Rect, f: Frame): (m: DrawOp)
    requires ValidFrame(f)
    ensures m.Mask?
  {
    var padding := Max(1.0, Scale(rect.height, 0.12));
    var maskLeft := Max(0.0, rect.left - padding);
    var maskTop := Max(0.0, rect.top - padding);
    var maskWidth := rect.width + padding * 2.0;
    var maskHeight := rect.height + padding * 2.0;
    Mask(Scale(maskLeft, ScaleX(f)), f.pageHeight - Scale(maskTop, ScaleY(f)) - Scale(maskHeight, ScaleY(f)),
         Scale(maskWidth, ScaleX(f)), Scale(maskHeight, ScaleY(f)))
  }

  /** A text box: nothing when its text is blank; otherwise its mask, when it
      was promoted from a line, then the text itself at the flipped position,
      black unless its fill parses. */
  function TextOps(obj: CanvasObject, f: Frame, math: JsMath): seq<DrawOp>
    requires obj.TextBox? && ValidFrame(f)
  {
    if IsBlank(obj.text) then []
    else
      var size := Scale(Scale(obj.fontSize, obj.scaleY), ScaleY(f));
      var width := Scale(Scale(obj.width, obj.scaleX), ScaleX(f));
      var color := ParseColor(obj.fill, math);
      var mask := if obj.edit.Some? then [MaskOf(obj.edit.value.originalRect, f)] else [];
      mask + [DrawText(obj.text, Scale(obj.left, ScaleX(f)), f.pageHeight - Scale(obj.top, ScaleY(f)) - size,
                       size, if width == 0.0 then None else Some(width), Scale(obj.lineHeight, size),
                       if color.Some? then RgbOf(color.value) else Rgb(0.0, 0.0, 0.0),
                       if color.Some? then color.value.alpha else 1.0)]
  }

  /** A drawn rectangle: nothing when its scaled width or height is not
      positive; its fill and stroke only where they parse. */
  function ShapeOps(obj: CanvasObject, f: Frame, math: JsMath): seq<DrawOp>
    requires obj.Shape? && ValidFrame(f)
  {
    var width := Scale(obj.width, obj.scaleX);
    var height := Scale(obj.height, obj.scaleY);
    if width <= 0.0 || height <= 0.0 then []
    else
      var fill := ParseColor(obj.fill, math);
      var stroke := ParseColor(obj.stroke, math);
      [DrawRect(Scale(obj.left, ScaleX(f)), f.pageHeight - Scale(obj.top, ScaleY(f)) - Scale(height, ScaleY(f)),
                Scale(width, ScaleX(f)), Scale(height, ScaleY(f)),
                if fill.Some? then Some(RgbOf(fill.value)) else None,
                if fill.Some? then fill.value.alpha else 1.0,
                if stroke.Some? then Some(RgbOf(stroke.value)) else None,
                if stroke.Some? then stroke.value.alpha else 1.0,
                Scale(obj.strokeWidth, ScaleX(f)))]
  }

  /** The draw calls of one canvas object; line markers and hidden objects
      draw nothing. */
  function ObjectOps(obj: CanvasObject, f: Frame, math: JsMath): seq<DrawOp>
    requires ValidFrame(f)
  {
    if !Visible(obj) then []
    else match obj
      case Marker(_) => []
      case Shape(_, _, _, _, _, _, _, _, _, _) => ShapeOps(obj, f, math)
      case TextBox(_, _, _, _, _, _, _, _, _, _, _) => TextOps(obj, f, math)
  }

  /** The draw calls of each object, in canvas order. */
  function PerObject(objects: seq<CanvasObject>, f: Frame, math: JsMath): (r: seq<seq<DrawOp>>)
    requires ValidFrame(f)
    ensures |r| == |objects|
  {
    seq(|objects|, k requires 0 <= k < |objects| => ObjectOps(objects[k], f, math))
  }

  /** The calls of a list of groups, one group after the other. */
  function Flatten(groups: seq<seq<DrawOp>>): seq<DrawOp> {
    if groups == [] then [] else Flatten(groups[..|groups| - 1]) + groups[|groups| - 1]
  }

  /** The draw calls of the whole canvas, object by object. */
  function ExportOps(objects: seq<CanvasObject>, f: Frame, math: JsMath): seq<DrawOp>
    requires ValidFrame(f)
  {
    Flatten(PerObject(objects, f, math))
  }

  /** What `exportPdf` hands back: nothing without a loaded PDF, the source
      bytes unchanged without a canvas, otherwise the source with the canvas
      drawn onto it. */
  datatype ExportOutcome = NoDocument | Original(bytes: seq<bv8>) | Composited(source: seq<bv8>, ops: seq<DrawOp>)

  function ExportOf(pdf: Option<seq<bv8>>, frame: Option<Frame>, objects: seq<CanvasObject>, math: JsMath): ExportOutcome
    requires frame.Some? ==> ValidFrame(frame.value)
  {
    if pdf.None? then NoDocument
    else if frame.None? then Original(pdf.value)
    else Composited(pdf.value, ExportOps(objects, frame.value, math))
  }

  /** The rectangle branch of the export loop. */
  method DrawShape(obj: CanvasObject, f: Frame, math: JsMath) returns (calls: seq<DrawOp>)
    requires obj.Shape? && ValidFrame(f)
    ensures calls == ShapeOps(obj, f, math)
  {
    var w := Scale(obj.width, obj.scaleX);
    var h := Scale(obj.height, obj.scaleY);
    if w <= 0.0 || h <= 0.0 {
      return [];
    }
    var fillColor := ParseColor(obj.fill, math);
    var strokeColor := ParseColor(obj.stroke, math);
    calls := [DrawRect(Scale(obj.left, ScaleX(f)), f.pageHeight - Scale(obj.top, ScaleY(f)) - Scale(h, ScaleY(f)),
                       Scale(w, ScaleX(f)), Scale(h, ScaleY(f)),
                       if fillColor.Some? then Some(RgbOf(fillColor.value)) else None,
                       if fillColor.Some? then fillColor.value.alpha else 1.0,
                       if strokeColor.Some? then Some(RgbOf(strokeColor.value)) else None,
                       if strokeColor.Some? then strokeColor.value.alpha else 1.0,
                       Scale(obj.strokeWidth, ScaleX(f)))];
  }

  /** The text branch of the export loop: the mask first, then the text. */
  method DrawTextBox(obj: CanvasObject, f: Frame, math: JsMath) returns (calls: seq<DrawOp>)
    requires obj.TextBox? && ValidFrame(f)
    ensures calls == TextOps(obj, f, math)
  {
    if IsBlank(obj.text) {
      return [];
    }
    var size := Scale(Scale(obj.fontSize, obj.scaleY), ScaleY(f));
    var maxWidth := Scale(Scale(obj.width, obj.scaleX), ScaleX(f));
    var color := ParseColor(obj.fill, math);
    calls := [];
    if obj.edit.Some? {
      calls := [MaskOf(obj.edit.value.originalRect, f)];
    }
    calls := calls + [DrawText(obj.text, Scale(obj.left, ScaleX(f)), f.pageHeight - Scale(obj.top, ScaleY(f)) - size,
                               size, if maxWidth == 0.0 then None else Some(maxWidth), Scale(obj.lineHeight, size),
                               if color.Some? then RgbOf(color.value) else Rgb(0.0, 0.0, 0.0),
                               if color.Some? then color.value.alpha else 1.0)];
  }

  /** One iteration of the export loop: append the object's draw calls. */
  method Draw(ops: seq<DrawOp>, obj: CanvasObject, f: Frame, math: JsMath) returns (next: seq<DrawOp>)
    requires ValidFrame(f)
    ensures next == ops + ObjectOps(obj, f, math)
  {
    next := ops;
    if !Visible(obj) {
      return;
    }
    match obj {
      case Marker(_) =>
      case Shape(_, _, _, _, _, _, _, _, _, _) =>
        var calls := DrawShape(obj, f, math);
        next := next + calls;
      case TextBox(_, _, _, _, _, _, _, _, _, _, _) =>
        var calls := DrawTextBox(obj, f, math);
        next := next + calls;
    }
  }

  /** The export loop over the canvas objects. */
  method Composite(objects: seq<CanvasObject>, f: Frame, math: JsMath) returns (ops: seq<DrawOp>)
    requires ValidFrame(f)
    ensures ops == ExportOps(objects, f, math)
  {
    ops := [];
    var i := 0;
    while i < |objects|
      invariant 0 <= i <= |objects|
      invariant ops == Flatten(PerObject(objects, f, math)[..i])
    {
      var groups := PerObject(objects, f, math);
      assert groups[..i + 1][..i] == groups[..i];
      ops := Draw(ops, objects[i], f, math);
      i := i + 1;
    }
    assert PerObject(objects, f, math)[..i] == PerObject(objects, f, math);
  }

  // ------------------------------------------------------------ properties

  lemma {:induction false} FlattenAppend(a: seq<seq<DrawOp>>, b: seq<seq<DrawOp>>)
    ensures Flatten(a + b) == Flatten(a) + Flatten(b)
    decreases |b|
  {
    if b != [] {
      assert (a + b)[..|a + b| - 1] == a + b[..|b| - 1];
      FlattenAppend(a, b[..|b| - 1]);
    } else {
      assert a + b == a;
    }
  }

  /** The export of two runs of objects is the export of each, in order. */
  lemma ExportOpsAppend(a: seq<CanvasObject>, b: seq<CanvasObject>, f: Frame, math: JsMath)
    requires ValidFrame(f)
    ensures ExportOps(a + b, f, math) == ExportOps(a, f, math) + ExportOps(b, f, math)
  {
    assert PerObject(a + b, f, math) == PerObject(a, f, math) + PerObject(b, f, math);
    FlattenAppend(PerObject(a, f, math), PerObject(b, f, math));
  }

  /** The export of one more object appends that object's calls. */
  lemma ExportOpsSnoc(objects: seq<CanvasObject>, f: Frame, math: JsMath)
    requires ValidFrame(f) && objects != []
    ensures ExportOps(objects, f, math)
         == ExportOps(objects[..|objects| - 1], f, math) + ObjectOps(objects[|objects| - 1], f, math)
  {
    var groups := PerObject(objects, f, math);
    assert groups[..|groups| - 1] == PerObject(objects[..|objects| - 1], f, math);
  }

  /** A canvas holding only line markers draws nothing onto the page. */
  lemma {:induction false} MarkersDrawNothing(objects: seq<CanvasObject>, f: Frame, math: JsMath)
    requires ValidFrame(f)
    requires forall k :: 0 <= k < |objects| ==> objects[k].Marker?
    ensures ExportOps(objects, f, math) == []
  {
    if objects != [] {
      ExportOpsSnoc(objects, f, math);
      MarkersDrawNothing(objects[..|objects| - 1], f, math);
    }
  }

  /** The objects that draw nothing. */
  predicate Skipped(obj: CanvasObject, f: Frame)
    requires ValidFrame(f)
  {
    !Visible(obj) || obj.Marker?
    || (obj.TextBox? && IsBlank(obj.text))
    || (obj.Shape? && (Scale(obj.width, obj.scaleX) <= 0.0 || Scale(obj.height, obj.scaleY) <= 0.0))
  }

  /** An object draws nothing exactly when it is hidden, a line marker, a
      text box with blank text or a rectangle with no area; a text box draws
      a mask exactly when it was promoted from a line, and then immediately
      before its text. */
  lemma ObjectOpsShape(obj: CanvasObject, f: Frame, math: JsMath)
    requires ValidFrame(f)
    ensures ObjectOps(obj, f, math) == [] <==> Skipped(obj, f)
    ensures obj.Shape? && !Skipped(obj, f) ==>
      |ObjectOps(obj, f, math)| == 1 && ObjectOps(obj, f, math)[0].DrawRect?
    ensures obj.TextBox? && !Skipped(obj, f) && obj.edit.None? ==>
      |ObjectOps(obj, f, math)| == 1 && ObjectOps(obj, f, math)[0].DrawText?
      && ObjectOps(obj, f, math)[0].text == obj.text
    ensures obj.TextBox? && !Skipped(obj, f) && obj.edit.Some? ==>
      |ObjectOps(obj, f, math)| == 2 && ObjectOps(obj, f, math)[0] == MaskOf(obj.edit.value.originalRect, f)
      && ObjectOps(obj, f, math)[1].DrawText? && ObjectOps(obj, f, math)[1].text == obj.text
  {
  }

  /** Every mask is directly followed by the text that replaces what it
      hides. */
  ghost predicate MasksCovered(ops: seq<DrawOp>) {
    forall k :: 0 <= k < |ops| && ops[k].Mask? ==> k + 1 < |ops| && ops[k + 1].DrawText?
  }

  lemma MasksCoveredAppend(a: seq<DrawOp>, b: seq<DrawOp>)
    requires MasksCovered(a) && MasksCovered(b)
    ensures MasksCovered(a + b)
  {
    forall k | 0 <= k < |a + b| && (a + b)[k].Mask? ensures k + 1 < |a + b| && (a + b)[k + 1].DrawText? {
      if k < |a| {
        assert a[k].Mask?;
      } else {
        assert b[k - |a|].Mask?;
      }
    }
  }

  lemma {:induction false} ExportMasksCovered(objects: seq<CanvasObject>, f: Frame, math: JsMath)
    requires ValidFrame(f)
    ensures MasksCovered(ExportOps(objects, f, math))
  {
    if objects != [] {
      var last := objects[|objects| - 1];
      ExportOpsSnoc(objects, f, math);
      ExportMasksCovered(objects[..|objects| - 1], f, math);
      ObjectOpsShape(last, f, math);
      MasksCoveredAppend(ExportOps(objects[..|objects| - 1], f, math), ObjectOps(last, f, math));
    }
  }

  /** The texts an op sequence draws, in order. */
  function DrawnTexts(ops: seq<DrawOp>): seq<string> {
    if ops == [] then []
    else DrawnTexts(ops[..|ops| - 1]) + (if ops[|ops| - 1].DrawText? then [ops[|ops| - 1].text] else [])
  }

  lemma {:induction false} DrawnTextsAppend(a: seq<DrawOp>, b: seq<DrawOp>)
    ensures DrawnTexts(a + b) == DrawnTexts(a) + DrawnTexts(b)
    decreases |b|
  {
    if b != [] {
      assert (a + b)[..|a + b| - 1] == a + b[..|b| - 1];
      DrawnTextsAppend(a, b[..|b| - 1]);
    } else {
      assert a + b == a;
    }
  }

  /** The texts of the visible text boxes that are not blank, in canvas order. */
  function ShownTexts(objects: seq<CanvasObject>): seq<string> {
    if objects == [] then []
    else
      var last := objects[|objects| - 1];
      ShownTexts(objects[..|objects| - 1])
      + (if last.TextBox? && last.visible && !IsBlank(last.text) then [last.text] else [])
  }

  lemma DrawnTextsOfOne(op: DrawOp)
    ensures DrawnTexts([op]) == if op.DrawText? then [op.text] else []
  {
    assert [op][..0] == [];
  }

  lemma DrawnTextsOfMasked(mask: DrawOp, text: DrawOp)
    requires mask.Mask? && text.DrawText?
    ensures DrawnTexts([mask, text]) == [text.text]
  {
    assert [mask, text][..1] == [mask];
    DrawnTextsOfOne(mask);
  }

  /** A text box writes its own text, as typed, unless it is blank. */
  lemma TextDrawnText(obj: CanvasObject, f: Frame, math: JsMath)
    requires obj.TextBox? && ValidFrame(f)
    ensures DrawnTexts(TextOps(obj, f, math)) == if IsBlank(obj.text) then [] else [obj.text]
  {
    var ops := TextOps(obj, f, math);
    if !IsBlank(obj.text) {
      var last := ops[|ops| - 1];
      if obj.edit.Some? {
        assert ops == [ops[0], last];
        DrawnTextsOfMasked(ops[0], last);
      } else {
        assert ops == [last];
        DrawnTextsOfOne(last);
      }
    }
  }

  /** A rectangle writes no text. */
  lemma ShapeDrawnText(obj: CanvasObject, f: Frame, math: JsMath)
    requires obj.Shape? && ValidFrame(f)
    ensures DrawnTexts(ShapeOps(obj, f, math)) == []
  {
    var ops := ShapeOps(obj, f, math);
    if ops != [] {
      assert ops == [ops[0]];
      DrawnTextsOfOne(ops[0]);
    }
  }

  /** The text one object writes: its own, as typed, exactly when it is a
      visible text box that is not blank. */
  lemma ObjectDrawnText(obj: CanvasObject, f: Frame, math: JsMath)
    requires ValidFrame(f)
    ensures DrawnTexts(ObjectOps(obj, f, math))
         == if obj.TextBox? && obj.visible && !IsBlank(obj.text) then [obj.text] else []
  {
    if Visible(obj) && obj.Shape? {
      ShapeDrawnText(obj, f, math);
    } else if Visible(obj) && obj.TextBox? {
      TextDrawnText(obj, f, math);
    }
  }

  /** The export writes the text of every visible, non-blank text box, as
      typed and in canvas order, and no other text. */
  lemma {:induction false} ExportDrawsShownTexts(objects: seq<CanvasObject>, f: Frame, math: JsMath)
    requires ValidFrame(f)
    ensures DrawnTexts(ExportOps(objects, f, math)) == ShownTexts(objects)
  {
    if objects != [] {
      var front := objects[..|objects| - 1];
      var last := objects[|objects| - 1];
      ExportOpsSnoc(objects, f, math);
      ExportDrawsShownTexts(front, f, math);
      DrawnTextsAppend(ExportOps(front, f, math), ObjectOps(last, f, math));
      ObjectDrawnText(last, f, math);
    }
  }

  /** The mask covers the part of the original rectangle on the canvas,
      mapped to the page: it is kept at or right of and below the canvas's
      top-left corner, reaches past the rectangle's right and bottom edges,
      and starts at or before its left and top edges, cut at the canvas
      edge. */
  lemma MaskCoversOriginal(rect: Rect, f: Frame)
    requires ValidFrame(f) && f.pageWidth >= 0.0 && f.pageHeight >= 0.0
    ensures var m := MaskOf(rect, f);
            m.x >= 0.0 && m.y + m.height <= f.pageHeight
            && m.x <= Scale(Max(0.0, rect.left), ScaleX(f))
            && m.x + m.width >= Scale(rect.left + rect.width, ScaleX(f))
            && m.y <= f.pageHeight - Scale(rect.top + rect.height, ScaleY(f))
            && m.y + m.height >= f.pageHeight - Scale(Max(0.0, rect.top), ScaleY(f))
  {
    var sx, sy := ScaleX(f), ScaleY(f);
    assert sx >= 0.0 && sy >= 0.0;
    var padding := Max(1.0, Scale(rect.height, 0.12));
    var maskLeft := Max(0.0, rect.left - padding);
    var maskTop := Max(0.0, rect.top - padding);
    var maskWidth := rect.width + padding * 2.0;
    var maskHeight := rect.height + padding * 2.0;
    ScaleMonotone(0.0, maskLeft, sx);
    ScaleMonotone(0.0, maskTop, sy);
    ScaleMonotone(maskLeft, Max(0.0, rect.left), sx);
    ScaleAdd(maskLeft, maskWidth, sx);
    ScaleMonotone(rect.left + rect.width, maskLeft + maskWidth, sx);
    ScaleAdd(maskTop, maskHeight, sy);
    ScaleMonotone(rect.top + rect.height, maskTop + maskHeight, sy);
    ScaleMonotone(maskTop, Max(0.0, rect.top), sy);
  }

  /** Where each drawn object lands: its left edge at the scaled canvas left,
      and its top edge at the page height minus the scaled canvas top. */
  lemma ObjectPlacement(obj: CanvasObject, f: Frame, math: JsMath)
    requires ValidFrame(f) && !Skipped(obj, f) && !obj.Marker?
    ensures var ops := ObjectOps(obj, f, math);
            var op := ops[|ops| - 1];
            (op.DrawText? ==>
               op.x == Scale(obj.left, ScaleX(f)) && op.y + op.size == f.pageHeight - Scale(obj.top, ScaleY(f)))
            && (op.DrawRect? ==>
               op.x == Scale(obj.left, ScaleX(f)) && op.y + op.height == f.pageHeight - Scale(obj.top, ScaleY(f)))
  {
    ObjectOpsShape(obj, f, math);
  }

  /** Every colour written is in 0..1 and every opacity in 0..1. */
  predicate InRange(op: DrawOp) {
    match op
    case Mask(_, _, _, _) => true
    case DrawText(_, _, _, _, _, _, color, opacity) =>
      InUnit(color.r) && InUnit(color.g) && InUnit(color.b) && InUnit(opacity)
    case DrawRect(_, _, _, _, color, opacity, border, borderOpacity, _) =>
      (color.Some? ==> InUnit(color.value.r) && InUnit(color.value.g) && InUnit(color.value.b))
      && (border.Some? ==> InUnit(border.value.r) && InUnit(border.value.g) && InUnit(border.value.b))
      && InUnit(opacity) && InUnit(borderOpacity)
  }

  lemma {:induction false} ExportInRange(objects: seq<CanvasObject>, f: Frame, math: JsMath)
    requires ValidFrame(f)
    ensures forall k :: 0 <= k < |ExportOps(objects, f, math)| ==> InRange(ExportOps(objects, f, math)[k])
  {
    if objects != [] {
      var front := objects[..|objects| - 1];
      var last := objects[|objects| - 1];
      ExportOpsSnoc(objects, f, math);
      ExportInRange(front, f, math);
      var a := ExportOps(front, f, math);
      var b := ObjectOps(last, f, math);
      ObjectOpsShape(last, f, math);
      forall k | 0 <= k < |a + b| ensures InRange((a + b)[k]) {
        if k < |a| {
          assert (a + b)[k] == a[k];
        }
      }
    }
  }
}
