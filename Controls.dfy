/**
 * The form controls as the animation sees them. A control is an abstract
 * identity; everything the script reads from the document about it at a
 * given moment (its layout box, whether it is an input or a button, whether
 * it currently carries the `valid` class) is an `Element` value supplied by
 * the host. Layout is live, so every operation that reads it takes the
 * document as a function `dom: ControlId -> Element`.
 */
module Controls {

  /** SPACING: the gap kept between a control and the marks drawn to its left. */
  const Spacing: real := 16.0

  /** Identity of a control (the script keys its checkmark table by element identity). */
  type ControlId = nat

  datatype Element = Element(
    offsetLeft: real,
    offsetTop: real,
    offsetHeight: real,
    isInputOrButton: bool,  // element.matches('input, button')
    valid: bool             // element.classList.contains('valid')
  )

}
