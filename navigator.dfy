/** Keyboard focus over the grid of launcher tiles (src/Navigator.ts).
 *
 *  The navigator keeps one focused index over `itemCount` tiles laid out
 *  `columns` to a row. Arrow keys move the focus by a linear offset and the
 *  move is kept only when it lands on an existing tile; Enter activates the
 *  focused tile. The two callbacks the navigator is built with are recorded
 *  as a log of `Event`s.
 */
module Navigation {

  /** The keys the navigator tells apart; every other key is `Other`. */
  datatype Key = ArrowUp | ArrowDown | ArrowLeft | ArrowRight | Enter | Other {
    /** The four keys whose default scrolling the navigator suppresses. */
    predicate IsArrow() {
      !Enter? && !Other?
    }
  }

  /** One call of a callback: `onFocusChange(index)` or `onEnter(index)`. */
  datatype Event = FocusChange(index: int) | Activate(index: int)

  /** The navigator's three numbers as a value. */
  datatype Nav = Nav(index: int, count: int, columns: int)

  /** What one key press does: the state afterwards and the callbacks fired, in order. */
  datatype Step = Step(after: Nav, fired: seq<Event>)

  /** `i` names one of `count` tiles. */
  predicate InRange(i: int, count: int) {
    0 <= i < count
  }

  /** The grid invariant: the focus is on an existing tile. */
  predicate Focused(n: Nav) {
    InRange(n.index, n.count)
  }

  /** The index `setItems` leaves behind: pulled down to `count - 1` when it is
   *  past the end, then pulled up to 0 when that is negative. */
  function Clamp(index: int, count: int): (r: int)
    ensures r >= 0
    ensures count > 0 ==> r < count
    ensures InRange(index, count) ==> r == index
    ensures count > 0 && index >= count ==> r == count - 1
    ensures index < 0 || count <= 0 ==> r == 0
  {
    var pulledDown := if index >= count then count - 1 else index;
    if pulledDown < 0 then 0 else pulledDown
  }

  /** The linear offset a key asks for: one tile sideways or one row up or down. */
  function Offset(k: Key, columns: int): int {
    match k
    case ArrowRight => 1
    case ArrowLeft => -1
    case ArrowDown => columns
    case ArrowUp => -columns
    case _ => 0
  }

  /** The candidate index for a key before the boundary check. */
  function Target(n: Nav, k: Key): int {
    n.index + Offset(k, n.columns)
  }

  /** One key press, as a value: Enter reports the focused tile; any other key
   *  moves to its candidate and reports it when the candidate is a tile, and
   *  otherwise does nothing at all. */
  function Press(n: Nav, k: Key): Step {
    if k == Enter then Step(n, [Activate(n.index)])
    else if InRange(Target(n, k), n.count) then
      Step(n.(index := Target(n, k)), [FocusChange(Target(n, k))])
    else Step(n, [])
  }

  /** A sequence of key presses, one after the other. */
  function Run(n: Nav, keys: seq<Key>): Step
    decreases |keys|
  {
    if keys == [] then Step(n, [])
    else
      var first := Press(n, keys[0]);
      var rest := Run(first.after, keys[1..]);
      Step(rest.after, first.fired + rest.fired)
  }

  /** A key press changes only the index, and the index either stays or moves
   *  by exactly the key's offset onto an existing tile: no wrap-around, no
   *  clamping to the nearest edge. */
  lemma PressMovesByOffsetOrStays(n: Nav, k: Key)
    ensures Press(n, k).after.count == n.count && Press(n, k).after.columns == n.columns
    ensures Press(n, k).after.index == n.index
            || (Press(n, k).after.index == n.index + Offset(k, n.columns)
                && InRange(Press(n, k).after.index, n.count))
    ensures k != Enter && InRange(Target(n, k), n.count) ==> Press(n, k).after.index == Target(n, k)
    ensures !InRange(Target(n, k), n.count) ==> Press(n, k).after == n
  {
  }

  /** Every focus change a key fires names the new focus, which is a tile;
   *  Enter fires exactly one activation of the old focus and nothing else. */
  lemma PressFires(n: Nav, k: Key)
    ensures |Press(n, k).fired| <= 1
    ensures k == Enter ==> Press(n, k) == Step(n, [Activate(n.index)])
    ensures k != Enter ==>
              (Press(n, k).fired == [FocusChange(Press(n, k).after.index)]
               <==> InRange(Target(n, k), n.count))
    ensures k != Enter && !InRange(Target(n, k), n.count) ==> Press(n, k).fired == []
  {
  }

  /** A key that is neither an arrow nor Enter keeps the index and re-reports it
   *  exactly when it is a tile (so on an empty grid it reports nothing). */
  lemma OtherKeyRefocuses(n: Nav)
    ensures Press(n, Other).after == n
    ensures Press(n, Other).fired == (if Focused(n) then [FocusChange(n.index)] else [])
  {
  }

  /** Any run of keys keeps the count and the column width. */
  lemma {:induction false} RunKeepsShape(n: Nav, keys: seq<Key>)
    ensures Run(n, keys).after.count == n.count
    ensures Run(n, keys).after.columns == n.columns
    decreases |keys|
  {
    if keys != [] {
      RunKeepsShape(Press(n, keys[0]).after, keys[1..]);
    }
  }

  /** Any run of keys from a focused state stays focused, and every callback it
   *  fires, focus change or activation, names an existing tile. */
  lemma {:induction false} RunStaysOnTiles(n: Nav, keys: seq<Key>)
    requires Focused(n)
    ensures Focused(Run(n, keys).after)
    ensures forall e :: e in Run(n, keys).fired ==> InRange(e.index, n.count)
    decreases |keys|
  {
    if keys != [] {
      var first := Press(n, keys[0]);
      RunStaysOnTiles(first.after, keys[1..]);
      RunKeepsShape(first.after, keys[1..]);
    }
  }

  /** On a grid with no tiles no key moves the focus and no focus change is
   *  ever fired; only Enter reports anything. */
  lemma {:induction false} EmptyGridNeverMoves(n: Nav, keys: seq<Key>)
    requires n.count <= 0
    ensures Run(n, keys).after == n
    ensures forall e :: e in Run(n, keys).fired ==> e == Activate(n.index)
    decreases |keys|
  {
    if keys != [] {
      EmptyGridNeverMoves(Press(n, keys[0]).after, keys[1..]);
    }
  }

  /** Ten tiles, four to a row, focus on the first: Up is refused, three Rights
   *  reach 3, Down reaches 7, and a second Down (candidate 11) is refused. */
  lemma TenTileWalk()
    ensures Run(Nav(0, 10, 4), [ArrowUp, ArrowRight, ArrowRight, ArrowRight, ArrowDown, ArrowDown])
            == Step(Nav(7, 10, 4), [FocusChange(1), FocusChange(2), FocusChange(3), FocusChange(7)])
  {
    var keys := [ArrowUp, ArrowRight, ArrowRight, ArrowRight, ArrowDown, ArrowDown];
    assert Press(Nav(0, 10, 4), ArrowUp) == Step(Nav(0, 10, 4), []);
    assert keys[1..] == [ArrowRight, ArrowRight, ArrowRight, ArrowDown, ArrowDown];
    RightsThenDowns();
  }

  /** The walk after the refused Up: three Rights, then two Downs. */
  lemma RightsThenDowns()
    ensures Run(Nav(0, 10, 4), [ArrowRight, ArrowRight, ArrowRight, ArrowDown, ArrowDown])
            == Step(Nav(7, 10, 4), [FocusChange(1), FocusChange(2), FocusChange(3), FocusChange(7)])
  {
    var keys := [ArrowRight, ArrowRight, ArrowRight, ArrowDown, ArrowDown];
    assert keys[1..] == [ArrowRight, ArrowRight, ArrowDown, ArrowDown];
    assert keys[1..][1..] == [ArrowRight, ArrowDown, ArrowDown];
    assert keys[1..][1..][1..] == [ArrowDown, ArrowDown];
    TwoDownsFromThree();
    assert Run(Nav(2, 10, 4), [ArrowRight, ArrowDown, ArrowDown])
        == Step(Nav(7, 10, 4), [FocusChange(3)] + [FocusChange(7)]);
    assert Run(Nav(1, 10, 4), [ArrowRight, ArrowRight, ArrowDown, ArrowDown])
        == Step(Nav(7, 10, 4), [FocusChange(2)] + [FocusChange(3), FocusChange(7)]);
  }

  /** From index 3: the first Down reaches 7, the second (candidate 11) is refused. */
  lemma TwoDownsFromThree()
    ensures Run(Nav(3, 10, 4), [ArrowDown, ArrowDown]) == Step(Nav(7, 10, 4), [FocusChange(7)])
  {
    var keys := [ArrowDown, ArrowDown];
    assert keys[1..] == [ArrowDown];
    assert Press(Nav(7, 10, 4), ArrowDown) == Step(Nav(7, 10, 4), []);
    assert Run(Nav(7, 10, 4), [ArrowDown]) == Step(Nav(7, 10, 4), []);
  }

  /** Moves are linear: Right from the last tile of a row lands on the first
   *  tile of the next row rather than being refused. */
  lemma RightCrossesRowEnd()
    ensures Press(Nav(3, 10, 4), ArrowRight) == Step(Nav(4, 10, 4), [FocusChange(4)])
  {
  }

  /** The navigator object of src/Navigator.ts. */
  class Navigator {
    var currentIndex: int
    var itemCount: int
    var columns: int
    /** Every call of `onFocusChange` and `onEnter`, oldest first. */
    ghost var log: seq<Event>

    /** The navigator's invariant: whenever there are items, the focus is on one of them. */
    predicate Invariant()
      reads this
    {
      itemCount > 0 ==> Focused(State())
    }

    /** The three fields as a value. */
    function State(): Nav
      reads this
    {
      Nav(currentIndex, itemCount, columns)
    }

    /** A fresh navigator: index 0, no items, four columns, no callbacks yet. */
    constructor ()
      ensures State() == Nav(0, 0, 4) && log == []
      ensures Invariant()
    {
      currentIndex := 0;
      itemCount := 0;
      columns := 4;
      log := [];
    }

    /** Re-seeds the item count and column width and clamps the index into
     *  range, without firing any callback. */
    method SetItems(count: int, columns: int)
      modifies this
      ensures itemCount == count && this.columns == columns
      ensures currentIndex == Clamp(old(currentIndex), count)
      ensures currentIndex >= 0 && Invariant()
      ensures InRange(old(currentIndex), count) ==> currentIndex == old(currentIndex)
      ensures log == old(log)
    {
      itemCount := count;
      this.columns := columns;
      if currentIndex >= itemCount {
        currentIndex := itemCount - 1;
      }
      if currentIndex < 0 {
        currentIndex := 0;
      }
    }

    /** Handles one key: returns whether the key's default action is
     *  suppressed (the four arrows), and moves or activates as `Press` says. */
    method HandleKey(key: Key) returns (defaultPrevented: bool)
      modifies this
      ensures defaultPrevented == key.IsArrow()
      ensures itemCount == old(itemCount) && columns == old(columns)
      ensures key == Enter ==>
                currentIndex == old(currentIndex) && log == old(log) + [Activate(old(currentIndex))]
      ensures key != Enter && InRange(old(currentIndex) + Offset(key, columns), itemCount) ==>
                currentIndex == old(currentIndex) + Offset(key, columns)
                && log == old(log) + [FocusChange(currentIndex)]
      ensures key != Enter && !InRange(old(currentIndex) + Offset(key, columns), itemCount) ==>
                currentIndex == old(currentIndex) && log == old(log)
      ensures Focused(old(State())) ==> Focused(State())
      ensures old(Invariant()) ==> Invariant()
      ensures State() == Press(old(State()), key).after
      ensures log == old(log) + Press(old(State()), key).fired
    {
      defaultPrevented := key.IsArrow();
      var nextIndex := currentIndex;
      match key {
        case ArrowRight =>
          nextIndex := nextIndex + 1;
        case ArrowLeft =>
          nextIndex := nextIndex - 1;
        case ArrowDown =>
          nextIndex := nextIndex + columns;
        case ArrowUp =>
          nextIndex := nextIndex - columns;
        case Enter =>
          log := log + [Activate(currentIndex)];
          return;
        case Other =>
      }
      if nextIndex >= 0 && nextIndex < itemCount {
        currentIndex := nextIndex;
        log := log + [FocusChange(currentIndex)];
      }
    }

    /** Puts the focus on index 0 and reports it, whatever the item count. */
    method ResetFocus()
      modifies this
      ensures currentIndex == 0 && Invariant()
      ensures itemCount == old(itemCount) && columns == old(columns)
      ensures log == old(log) + [FocusChange(0)]
    {
      currentIndex := 0;
      log := log + [FocusChange(0)];
    }
  }
}
