/**
 * The value types of the puzzle (src/toggle/core.rs): button functions,
 * coordinates, buttons, the subtype table of the level format, and the
 * decoded level.
 */
module Buttons {
  import opened BitArrays

  /** A byte of the level format, as a number. */
  newtype byte = b: int | 0 <= b < 0x100

  /** The eight single-arrow directions. `Up` is towards larger `y`. */
  datatype OneArrow = Left | Right | Up | Down | LeftUp | LeftDown | RightUp | RightDown

  /** The four axes of a double arrow. */
  datatype TwoArrow = BothHorizontal | BothVertical | LeftUpRightDown | LeftDownRightUp

  /** The closed set of button rules. `Rotate(true)` is clockwise,
      `Symmetry(true)` horizontal and `Shift(true)` rightward. */
  datatype ButtonFunction =
    | Nothing
    | OneArrow(dir: OneArrow)
    | TwoArrow(axis: TwoArrow)
    | FourArrow
    | Rotate(clockwise: bool)
    | Symmetry(horizontal: bool)
    | Shift(right: bool)
    | AroundEight

  datatype Coordinate = Coordinate(x: int, y: int)

  /** A button of the grid; only `isOn` ever changes after the grid is built. */
  datatype Button = Button(coord: Coordinate, isOn: bool, func: ButtonFunction)
  {
    /** Button::toggle. */
    function Toggled(): Button
    {
      this.(isOn := !isOn)
    }
  }

  /** Button::new: off and inert. */
  function NewButton(x: int, y: int): Button
  {
    Button(Coordinate(x, y), false, Nothing)
  }

  /** The subtype table of the level format: 1 to 20 select a rule, every
      other byte selects `Nothing`. */
  function ConvertSubtypeToFunc(subtype: byte): (f: ButtonFunction)
    ensures f.Nothing? <==> !(1 <= subtype <= 20)
  {
    match subtype
    case 1 => OneArrow(Up)
    case 2 => OneArrow(Down)
    case 3 => OneArrow(Left)
    case 4 => OneArrow(Right)
    case 5 => OneArrow(LeftUp)
    case 6 => OneArrow(RightUp)
    case 7 => OneArrow(LeftDown)
    case 8 => OneArrow(RightDown)
    case 9 => TwoArrow(BothHorizontal)
    case 10 => TwoArrow(BothVertical)
    case 11 => FourArrow
    case 12 => TwoArrow(LeftUpRightDown)
    case 13 => TwoArrow(LeftDownRightUp)
    case 14 => Rotate(true)
    case 15 => Rotate(false)
    case 16 => Symmetry(true)
    case 17 => Symmetry(false)
    case 18 => Shift(false)
    case 19 => Shift(true)
    case 20 => AroundEight
    case _ => Nothing
  }

  /** The subtype byte that selects a rule; `Nothing` is written as 0. */
  function SubtypeOf(f: ButtonFunction): byte
  {
    match f
    case Nothing => 0
    case OneArrow(d) =>
      (match d
       case Up => 1 case Down => 2 case Left => 3 case Right => 4
       case LeftUp => 5 case RightUp => 6 case LeftDown => 7 case RightDown => 8)
    case TwoArrow(a) =>
      (match a
       case BothHorizontal => 9 case BothVertical => 10
       case LeftUpRightDown => 12 case LeftDownRightUp => 13)
    case FourArrow => 11
    case Rotate(cw) => if cw then 14 else 15
    case Symmetry(hz) => if hz then 16 else 17
    case Shift(r) => if r then 19 else 18
    case AroundEight => 20
  }

  /** The table is a bijection between the bytes 1 to 20 and the rules other
      than `Nothing`: every rule has exactly one subtype. */
  lemma SubtypeTableBijective(f: ButtonFunction, s: byte)
    ensures ConvertSubtypeToFunc(SubtypeOf(f)) == f
    ensures 1 <= s <= 20 ==> SubtypeOf(ConvertSubtypeToFunc(s)) == s
    ensures !f.Nothing? ==> 1 <= SubtypeOf(f) <= 20
  {
  }

  /** A decoded level. `subtypes` is indexed `y * width + x`, the bits of
      `states` are indexed `x * height + y`. */
  datatype ToggleLevel = ToggleLevel(
    width: nat,
    height: nat,
    subtypes: seq<byte>,
    states: Bits,
    minClicks: nat)

  /** ToggleLevel::new. */
  function EmptyLevel(): ToggleLevel
  {
    ToggleLevel(0, 0, [], Bits([], 0), 0)
  }
}
