/**
 * Selection movement (MoveSelection, formIncrementalOpen_KeyDown and OnMouseWheel): relative moves
 * over a list of `count` rows with at most one selected index, clamped to the list's edges.
 */
module Navigation {
  import opened Wrappers

  /** Rows moved by PageUp and PageDown. */
  const PageSize: int := 10

  /** The keys the form reacts to; every other key is passed on to the text box. */
  datatype Keys = Down | Up | Enter | PageUp | PageDown | Escape | OtherKey(code: int)

  /** The jump a key asks MoveSelection for, if it is a movement key. */
  function KeyJump(k: Keys): (r: Option<int>)
    ensures r.Some? <==> k in {Down, Up, PageDown, PageUp}
  {
    match k
    case Down => Some(1)
    case Up => Some(-1)
    case PageDown => Some(PageSize)
    case PageUp => Some(-PageSize)
    case _ => None
  }

  /** The jump for a mouse-wheel notch: away from the user moves up one row, toward moves down. */
  function WheelJump(delta: int): (r: int)
    ensures r == -1 || r == 1
  {
    if delta > 0 then -1 else 1
  }

  /**
   * The wheel moves like the arrow keys, in the opposite sense to the wheel's delta; the page keys
   * move ten notches' worth, down and up.
   */
  lemma WheelActsAsArrowKeys(delta: int)
    ensures Some(WheelJump(delta)) == if delta > 0 then KeyJump(Up) else KeyJump(Down)
    ensures KeyJump(Down) == Some(1) && KeyJump(Up) == Some(-1)
    ensures KeyJump(PageDown) == Some(PageSize)
    ensures KeyJump(PageUp) == Some(-PageSize)
  {
  }

  /**
   * The selection after MoveSelection(jump) on a list of `count` rows: nothing happens on an empty
   * list; without a selection the first row is selected; otherwise the selection moves by `jump`,
   * stopping at the first and the last row.
   */
  function Moved(count: nat, current: Option<nat>, jump: int): (r: Option<nat>)
    ensures count == 0 ==> r == current
    ensures count > 0 ==> r.Some? && r.value < count
    ensures count > 0 && current.None? ==> r == Some(0)
  {
    if count == 0 then
      current
    else
      var target := if current.Some? then current.value + jump else 0;
      if target >= count then Some(count - 1)
      else if target < 0 then Some(0)
      else Some(target)
  }

  /** Inside the list, a move lands exactly `jump` rows away; past an edge it stops at that edge. */
  lemma MovedLandsOrClamps(count: nat, i: nat, jump: int)
    requires i < count
    ensures 0 <= i + jump < count ==> Moved(count, Some(i), jump) == Some(i + jump)
    ensures i + jump >= count ==> Moved(count, Some(i), jump) == Some(count - 1)
    ensures i + jump < 0 ==> Moved(count, Some(i), jump) == Some(0)
  {
  }

  /** A move that stays inside the list is undone by the opposite move. */
  lemma MoveBackUndoes(count: nat, i: nat, jump: int)
    requires i < count && 0 <= i + jump < count
    ensures Moved(count, Moved(count, Some(i), jump), -jump) == Some(i)
  {
  }

  /** A longer jump never lands on an earlier row. */
  lemma MovedIsMonotone(count: nat, current: Option<nat>, jump1: int, jump2: int)
    requires count > 0 && jump1 <= jump2
    ensures Moved(count, current, jump1).value <= Moved(count, current, jump2).value
  {
  }

  /** Two moves in the same direction are one move by their sum: ten Down presses are one PageDown. */
  lemma MovesInOneDirectionAdd(count: nat, i: nat, a: int, b: int)
    requires i < count
    requires (a >= 0 && b >= 0) || (a <= 0 && b <= 0)
    ensures Moved(count, Moved(count, Some(i), a), b) == Moved(count, Some(i), a + b)
  {
  }

  /** A move never goes further than `jump` rows from the selected row. */
  lemma MovedIsBounded(count: nat, i: nat, jump: int)
    requires i < count
    ensures var j := Moved(count, Some(i), jump).value;
      (jump >= 0 ==> i <= j <= i + jump) && (jump <= 0 ==> i + jump <= j <= i)
  {
  }
}
