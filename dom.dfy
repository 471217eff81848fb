/**
 * The parts of the browser the drag/drop core reads. DOM elements are
 * compared by identity (`isSameNode`), so an element is just its id.
 */
module Dom {

  type ElemId = int

  datatype Point = Point(x: int, y: int)

  /** A bounding client rectangle. */
  datatype Rect = Rect(left: int, top: int, right: int, bottom: int)

  /** The fields of a `MouseEvent` the core uses; `target` is the innermost element hit. */
  datatype MouseEvent = MouseEvent(clientX: int, clientY: int, pageX: int, pageY: int, target: ElemId)

  /**
   * The live document at one instant: the result of `querySelectorAll` for a
   * selector (in document order), `getBoundingClientRect` of an element, and an
   * element's `(offsetLeft, offsetTop)`.
   */
  datatype Document = Document(
    select: string -> seq<ElemId>,
    boundingRect: ElemId -> Rect,
    offset: ElemId -> Point)
}
