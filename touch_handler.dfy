/**
 * DevMenuTouchEventHandler (Android): recognises a three-finger tap or long press, which
 * opens the developer menu. A pointer going down with three pointers arms the
 * recogniser and records where it went down; a three-pointer lift that moved more than
 * 100 px on either axis disarms it; the final lift of an armed gesture is consumed and
 * reported as a tap when it came within 500 ms of the first touch, and as a long press
 * otherwise.
 */
module TouchHandler {
  import opened Wrappers

  const TargetPointerCount: int := 3
  const TapTimeout: int := 500
  const MoveThreshold: real := 100.0

  /** The masked actions the handler tells apart; every other action is `OtherAction`. */
  datatype Action = PointerDown | PointerUp | Up | OtherAction

  /** The parts of a `MotionEvent` the handler reads (times in milliseconds). */
  datatype MotionEvent = MotionEvent(action: Action, pointerCount: int, x: real, y: real, eventTime: int, downTime: int)

  datatype Gesture = Tap | LongPress

  /** The handler's private fields. */
  datatype State = State(captureNextUpAction: bool, pointerDownX: real, pointerDownY: real)

  const InitialState: State := State(false, 0.0, 0.0)

  function Abs(v: real): real {
    if v < 0.0 then -v else v
  }

  /** The gesture an armed final lift reports, by the time since the first touch. */
  function Classify(e: MotionEvent): Gesture {
    if e.eventTime - e.downTime < TapTimeout then Tap else LongPress
  }

  /** The outcome of handling one event. */
  datatype Outcome = Outcome(state: State, consumed: bool, gesture: Option<Gesture>)

  /**
   * `handle(event)` with the three action handlers: the new state, whether the event
   * was consumed, and the gesture reported to the listener, if any.
   */
  function Step(s: State, event: Option<MotionEvent>): (r: Outcome)
    ensures r.consumed <==> event.Some? && event.value.action == Up && s.captureNextUpAction
    ensures r.gesture.Some? <==> r.consumed
    ensures r.consumed ==> r.gesture == Some(Classify(event.value))
    ensures event.Some? && event.value.action == Up ==> !r.state.captureNextUpAction
    ensures event.None? || event.value.action == OtherAction ==> r.state == s
    ensures event.Some? && event.value.action == PointerDown ==>
      r.state.captureNextUpAction == (event.value.pointerCount == TargetPointerCount)
    ensures event.Some? && event.value.action == PointerUp ==>
      r.state.captureNextUpAction ==
        (s.captureNextUpAction && !(event.value.pointerCount == TargetPointerCount &&
          (Abs(s.pointerDownX - event.value.x) > MoveThreshold || Abs(s.pointerDownY - event.value.y) > MoveThreshold)))
  {
    match event
    case None => Outcome(s, false, None)
    case Some(e) =>
      match e.action
      case PointerDown =>
        var capture := e.pointerCount == TargetPointerCount;
        if capture then Outcome(State(true, e.x, e.y), false, None)
        else Outcome(s.(captureNextUpAction := false), false, None)
      case PointerUp =>
        if e.pointerCount == TargetPointerCount
          && (Abs(s.pointerDownX - e.x) > MoveThreshold || Abs(s.pointerDownY - e.y) > MoveThreshold)
        then Outcome(s.(captureNextUpAction := false), false, None)
        else Outcome(s, false, None)
      case Up =>
        if !s.captureNextUpAction then Outcome(s, false, None)
        else Outcome(s.(captureNextUpAction := false), true, Some(Classify(e)))
      case OtherAction => Outcome(s, false, None)
  }

  /** The gestures reported over a sequence of events, from a state. */
  function Gestures(s: State, events: seq<Option<MotionEvent>>): (r: seq<Gesture>)
    ensures |r| <= |events|
    decreases |events|
  {
    if events == [] then []
    else
      var o := Step(s, events[0]);
      (if o.gesture.Some? then [o.gesture.value] else []) + Gestures(o.state, events[1..])
  }

  /** Three fingers down, then lifted within 500 ms close by, is a tap, whatever came before. */
  lemma ThreeFingerTap(s: State, x: real, y: real, t: int, down: int, lift: MotionEvent)
    requires lift.action == Up && lift.eventTime - lift.downTime < TapTimeout
    ensures Gestures(s, [Some(MotionEvent(PointerDown, 3, x, y, t, down)), Some(lift)]) == [Tap]
  {
    var o := Step(s, Some(MotionEvent(PointerDown, 3, x, y, t, down)));
    assert [Some(MotionEvent(PointerDown, 3, x, y, t, down)), Some(lift)][1..] == [Some(lift)];
    assert Gestures(o.state, [Some(lift)]) == [Tap] by {
      assert [Some(lift)][1..] == [];
    }
  }

  /** Held for 500 ms or more, the same gesture is a long press. */
  lemma ThreeFingerLongPress(s: State, x: real, y: real, t: int, down: int, lift: MotionEvent)
    requires lift.action == Up && lift.eventTime - lift.downTime >= TapTimeout
    ensures Gestures(s, [Some(MotionEvent(PointerDown, 3, x, y, t, down)), Some(lift)]) == [LongPress]
  {
    var o := Step(s, Some(MotionEvent(PointerDown, 3, x, y, t, down)));
    assert [Some(MotionEvent(PointerDown, 3, x, y, t, down)), Some(lift)][1..] == [Some(lift)];
    assert Gestures(o.state, [Some(lift)]) == [LongPress] by {
      assert [Some(lift)][1..] == [];
    }
  }

  /** A three-pointer lift more than 100 px away cancels the gesture: the final lift is not consumed. */
  lemma MovedGestureIsCancelled(s: State, x: real, y: real, lifted: MotionEvent, lift: MotionEvent)
    requires lifted.action == PointerUp && lifted.pointerCount == 3 && Abs(x - lifted.x) > MoveThreshold
    requires lift.action == Up
    ensures Gestures(s, [Some(MotionEvent(PointerDown, 3, x, y, 0, 0)), Some(lifted), Some(lift)]) == []
  {
    var events := [Some(MotionEvent(PointerDown, 3, x, y, 0, 0)), Some(lifted), Some(lift)];
    var o1 := Step(s, events[0]);
    var o2 := Step(o1.state, events[1]);
    assert !o2.state.captureNextUpAction;
    assert events[1..][1..] == [Some(lift)];
    assert Gestures(o2.state, [Some(lift)]) == [] by {
      assert [Some(lift)][1..] == [];
    }
  }

  /** Movement is only checked on a lift that still reports three pointers: a two-pointer lift never cancels. */
  lemma TwoPointerLiftDoesNotCancel(s: State, lifted: MotionEvent)
    requires lifted.action == PointerUp && lifted.pointerCount != 3
    ensures Step(s, Some(lifted)).state == s
  {
  }

  /** An armed gesture is reported once: a second final lift is not consumed. */
  lemma ReportedOnce(s: State, lift: MotionEvent)
    requires lift.action == Up
    ensures !Step(Step(s, Some(lift)).state, Some(lift)).consumed
  {
  }

  /** The handler object; the listener (which may be null) is told of each gesture. */
  class DevMenuTouchEventHandler {
    var state: State
    const hasListener: bool
    /** The listener calls made so far: `onTap` or `onLongPress`, in order. */
    var notified: seq<Gesture>

    constructor (hasListener: bool)
      ensures state == InitialState && this.hasListener == hasListener && notified == []
    {
      state := InitialState;
      this.hasListener := hasListener;
      notified := [];
    }

    /** `handle(event)`: a gesture is reported to the listener when there is one. */
    method Handle(event: Option<MotionEvent>) returns (consumed: bool)
      modifies this
      ensures state == Step(old(state), event).state
      ensures consumed == Step(old(state), event).consumed
      ensures notified == old(notified) +
        (if hasListener && Step(old(state), event).gesture.Some? then [Step(old(state), event).gesture.value] else [])
    {
      consumed := false;
      if event.None? {
        return;
      }
      var e := event.value;
      match e.action {
        case PointerDown =>
          state := state.(captureNextUpAction := e.pointerCount == TargetPointerCount);
          if state.captureNextUpAction {
            state := state.(pointerDownX := e.x, pointerDownY := e.y);
          }
        case PointerUp =>
          if e.pointerCount == TargetPointerCount {
            var deltaX := Abs(state.pointerDownX - e.x);
            var deltaY := Abs(state.pointerDownY - e.y);
            if deltaX > MoveThreshold || deltaY > MoveThreshold {
              state := state.(captureNextUpAction := false);
            }
          }
        case Up =>
          consumed := OnUpAction(e);
        case OtherAction =>
      }
    }

    /** `onUpAction`: an armed lift is classified, reported, and disarms the recogniser. */
    method OnUpAction(e: MotionEvent) returns (consumed: bool)
      requires e.action == Up
      modifies this
      ensures consumed == old(state).captureNextUpAction
      ensures state == Step(old(state), Some(e)).state
      ensures notified == old(notified) + (if hasListener && consumed then [Classify(e)] else [])
    {
      if !state.captureNextUpAction {
        return false;
      }
      var timeSinceDownAction := e.eventTime - e.downTime;
      if hasListener {
        if timeSinceDownAction < TapTimeout {
          notified := notified + [Tap];
        } else {
          notified := notified + [LongPress];
        }
      }
      state := state.(captureNextUpAction := false);
      return true;
    }
  }
}
