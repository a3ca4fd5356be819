/** A single editable cell: it reports whether it is on, and a click asks
    for the opposite value. */
module InteractableCell {

  datatype DrawState = Alive | Dead

  /** The toggle state the cell reports: on exactly when alive. */
  function IsOn(d: DrawState): (on: bool)
    ensures on <==> d == Alive
  {
    match d
    case Alive => true
    case Dead => false
  }

  /** The value a click passes to `onValueChange`. */
  function OnClickValue(d: DrawState): (value: bool)
    ensures value == !IsOn(d)
  {
    d == Dead
  }

  /** The cell drawn for a value. */
  function DrawStateOf(value: bool): (d: DrawState)
    ensures IsOn(d) == value
  {
    if value then Alive else Dead
  }

  /** A click on an alive cell asks for false, on a dead one for true; once
      the request is applied, a second click asks for the original value. */
  lemma ClickToggles(d: DrawState)
    ensures d == Alive ==> !OnClickValue(d)
    ensures d == Dead ==> OnClickValue(d)
    ensures DrawStateOf(OnClickValue(d)) != d
    ensures DrawStateOf(OnClickValue(DrawStateOf(OnClickValue(d)))) == d
  {
  }
}
