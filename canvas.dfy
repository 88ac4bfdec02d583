/** The objects on the editor's drawing canvas, as far as the text-box
    promotion and the PDF export look at them. Every property the canvas
    library would default (scale 1, visible) is given explicitly. */
module Canvas {
  import opened Geometry
  import opened Clustering

  /** A rectangle in canvas pixels. */
  datatype Rect = Rect(left: real, top: real, width: real, height: real)

  /** What a promoted text box remembers: the line it replaces and that
      line's hit box at the moment of promotion. */
  datatype EditData = EditData(lineId: BoxId, originalRect: Rect)

  datatype CanvasObject =
    /** The translucent highlight over a detected line (`kind: "pdf-line"`). */
    | Marker(box: Box)
    /** A rectangle drawn with the rectangle tool. */
    | Shape(left: real, top: real, width: real, height: real, scaleX: real, scaleY: real,
            fill: Option<string>, stroke: Option<string>, strokeWidth: real, visible: bool)
    /** An editable text box: one added by hand, or one promoted from a line,
        which then carries `edit`. */
    | TextBox(text: string, left: real, top: real, width: real, fontSize: real,
              scaleX: real, scaleY: real, lineHeight: real, fill: Option<string>,
              edit: Option<EditData>, visible: bool)

  /** The canvas library's default line height for text boxes. */
  const DefaultLineHeight: real := 1.16

  function BoxRect(box: Box): Rect {
    Rect(box.left, box.top, box.width, box.height)
  }

  predicate Visible(obj: CanvasObject) {
    obj.Marker? || obj.visible
  }

  predicate IsMarkerFor(obj: CanvasObject, id: BoxId) {
    obj.Marker? && obj.box.id == id
  }
}
