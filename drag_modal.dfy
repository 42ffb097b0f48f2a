/**
 * The bottom drawer that holds the train panel on small screens
 * (`apps/web/src/components/information/DragModal.tsx`): three heights,
 * changed by vertical drags and by the up/down buttons, and closed by a
 * downward drag from the lowest height or by the close button.
 */
module DragModal {
  import opened Wrappers

  datatype DrawerState = Collapsed | Normal | Expanded

  /** The drawer height of each state. */
  function Height(s: DrawerState): (h: string)
    ensures h in {"40vh", "60vh", "100dvh"}
  {
    match s
    case Collapsed => "40vh"
    case Normal => "60vh"
    case Expanded => "100dvh"
  }

  /** Each state has its own height. */
  lemma HeightInjective(a: DrawerState, b: DrawerState)
    requires Height(a) == Height(b)
    ensures a == b
  {
  }

  /** Position of a state from lowest (0) to highest (2). */
  function Rank(s: DrawerState): nat {
    match s
    case Collapsed => 0
    case Normal => 1
    case Expanded => 2
  }

  /** The "down" step: one height lower, staying at the lowest. */
  function StepDown(s: DrawerState): (r: DrawerState)
    ensures Rank(r) == if Rank(s) == 0 then 0 else Rank(s) - 1
  {
    match s
    case Expanded => Normal
    case Normal => Collapsed
    case Collapsed => Collapsed
  }

  /** The "up" step: one height higher, staying at the highest. */
  function StepUp(s: DrawerState): (r: DrawerState)
    ensures Rank(r) == if Rank(s) == 2 then 2 else Rank(s) + 1
  {
    match s
    case Collapsed => Normal
    case Normal => Expanded
    case Expanded => Expanded
  }

  /** Up then down (or down then up) returns to where it started, away from the ends; in particular from normal. */
  lemma StepsUndo(s: DrawerState)
    ensures s != Expanded ==> StepDown(StepUp(s)) == s
    ensures s != Collapsed ==> StepUp(StepDown(s)) == s
    ensures StepDown(StepUp(Normal)) == Normal && StepUp(StepDown(Normal)) == Normal
  {
  }

  /** What a drag release does. */
  datatype DragEffect = SetState(next: DrawerState) | Close | NoChange

  const DragDistance := 100.0

  /** `onDragEnd` for a release at vertical offset `y` (positive is downwards). */
  function DragEnd(s: DrawerState, y: real): (e: DragEffect)
    ensures -DragDistance < y < DragDistance ==> e == NoChange
    ensures y >= DragDistance ==> (e == Close <==> s == Collapsed)
    ensures y >= DragDistance && s != Collapsed ==> e == SetState(StepDown(s))
    ensures y <= -DragDistance ==> (e == NoChange <==> s == Expanded)
    ensures y <= -DragDistance && s != Expanded ==> e == SetState(StepUp(s))
  {
    if y >= DragDistance then
      match s
      case Expanded => SetState(Normal)
      case Normal => SetState(Collapsed)
      case Collapsed => Close
    else if y <= -DragDistance then
      match s
      case Collapsed => SetState(Normal)
      case Normal => SetState(Expanded)
      case Expanded => NoChange
    else NoChange
  }

  /** A long drag always has an effect, except an upward one at the highest state. */
  lemma LongDragMoves(s: DrawerState, y: real)
    requires y >= DragDistance || y <= -DragDistance
    requires !(y <= -DragDistance && s == Expanded)
    ensures DragEnd(s, y) != NoChange
  {
  }

  /**
   * The drawer: its `state` cell, the parent's `open` flag, the
   * `initialState` prop, and the values handed to `onStateChange` so far.
   */
  class Drawer {
    var state: DrawerState
    var open: bool
    const initialState: DrawerState
    var notified: seq<DrawerState>

    /** Mounting with the `initialState` prop (default "normal"). */
    constructor(open: bool, initialState: DrawerState)
      ensures this.state == initialState && this.open == open
      ensures this.initialState == initialState && this.notified == []
    {
      this.state := initialState;
      this.open := open;
      this.initialState := initialState;
      this.notified := [];
    }

    /** `handleStateChange`: set the state and report it to `onStateChange`. */
    method HandleStateChange(next: DrawerState)
      modifies this
      ensures state == next && notified == old(notified) + [next] && open == old(open)
    {
      state := next;
      notified := notified + [next];
    }

    /**
     * The parent sets `open`. The effect keyed on `open` runs only when it
     * changes, so a closed drawer is reset to its initial height, without
     * reporting it, and an already open one keeps its height.
     */
    method Open()
      modifies this
      ensures open && notified == old(notified)
      ensures !old(open) ==> state == initialState
      ensures old(open) ==> state == old(state)
    {
      if !open {
        open := true;
        state := initialState;
      }
    }

    method OnDragEnd(y: real)
      modifies this
      ensures match DragEnd(old(state), y)
        case SetState(next) => state == next && open == old(open) && notified == old(notified) + [next]
        case Close => state == old(state) && !open && notified == old(notified)
        case NoChange => state == old(state) && open == old(open) && notified == old(notified)
    {
      if y >= DragDistance {
        if state == Expanded {
          HandleStateChange(Normal);
        } else if state == Normal {
          HandleStateChange(Collapsed);
        } else {
          open := false;
        }
      } else if y <= -DragDistance {
        if state == Collapsed {
          HandleStateChange(Normal);
        } else if state == Normal {
          HandleStateChange(Expanded);
        }
      }
    }

    /** The "down" button, disabled when collapsed: it never closes the drawer. */
    method Down()
      modifies this
      ensures state == StepDown(old(state)) && open == old(open)
      ensures notified == if old(state) == Collapsed then old(notified) else old(notified) + [state]
    {
      if state == Expanded {
        HandleStateChange(Normal);
      } else if state == Normal {
        HandleStateChange(Collapsed);
      }
    }

    /** The "up" button, disabled when expanded: it never closes the drawer. */
    method Up()
      modifies this
      ensures state == StepUp(old(state)) && open == old(open)
      ensures notified == if old(state) == Expanded then old(notified) else old(notified) + [state]
    {
      if state == Collapsed {
        HandleStateChange(Normal);
      } else if state == Normal {
        HandleStateChange(Expanded);
      }
    }

    /** The close button: closes without touching the height or reporting anything. */
    method Close()
      modifies this
      ensures !open && state == old(state) && notified == old(notified)
    {
      open := false;
    }
  }

  /** From normal, pressing up then down returns to normal and reports both steps. */
  method UpThenDown(d: Drawer)
    requires d.state == Normal
    modifies d
    ensures d.state == Normal && d.notified == old(d.notified) + [Expanded, Normal]
  {
    d.Up();
    d.Down();
  }
}
