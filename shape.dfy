/**
 * The generated EMF implementation of a notation `Shape`: two containment
 * references, `position` (a GPoint) and `size` (a GDimension), with the
 * setters, reflective accessors and inverse-remove that EMF generates.
 *
 * The values are objects and are compared by identity, as the generated code
 * does. What the shape does towards other objects (the inverse add and remove
 * on the contained value, dispatching a notification chain, notifying
 * directly) is recorded, in order, in the ghost `events` log.
 */
module Enotation {
  import opened Wrappers

  /** A graph point; only its identity matters to the shape. */
  class GPoint {
    constructor () {}
  }

  /** A graph dimension; only its identity matters to the shape. */
  class GDimension {
    constructor () {}
  }

  /** The shape's own features, `SHAPE__POSITION` and `SHAPE__SIZE`. */
  datatype Feature = Position | Size

  /** A SET notification from the shape: the feature, its old and its new value. */
  datatype Notification = Notification(feature: Feature, oldValue: object?, newValue: object?)

  /** A notification chain; None stands for `null`. */
  type Chain = Option<seq<Notification>>

  /** The chain after adding `n`: `n` itself for a null chain, otherwise `msgs` with `n` at its end. */
  function Add(msgs: Chain, n: Notification): (r: seq<Notification>)
    ensures |r| > 0 && r[|r| - 1] == n
    ensures msgs.None? ==> |r| == 1
    ensures msgs.Some? ==> r[..|r| - 1] == msgs.value
  {
    match msgs
    case None => [n]
    case Some(notifications) => notifications + [n]
  }

  /** What the shape does towards the outside world. */
  datatype Event =
    | InverseRemove(feature: Feature, value: object)  // the old value's eInverseRemove
    | InverseAdd(feature: Feature, value: object)     // the new value's eInverseAdd
    | Dispatch(notifications: seq<Notification>)      // msgs.dispatch()
    | Notify(notification: Notification)              // eNotify

  /**
   * What a setter does: for a different value, release the old one, adopt the
   * new one and dispatch the chain once (when notifications are required); for
   * the same value, only a touch notification with old == new.
   */
  function SetEvents(f: Feature, oldValue: object?, newValue: object?, required: bool): seq<Event>
  {
    if newValue != oldValue then
      (if oldValue != null then [InverseRemove(f, oldValue)] else [])
      + (if newValue != null then [InverseAdd(f, newValue)] else [])
      + (if required then [Dispatch([Notification(f, oldValue, newValue)])] else [])
    else if required then [Notify(Notification(f, newValue, newValue))]
    else []
  }

  function Dispatches(events: seq<Event>): nat
  {
    if events == [] then 0 else (if events[0].Dispatch? then 1 else 0) + Dispatches(events[1..])
  }

  /** Setting the value a feature already has: one touch notification, and only if required. */
  lemma SetSameValueOnlyTouches(f: Feature, value: object?, required: bool)
    ensures SetEvents(f, value, value, required)
         == if required then [Notify(Notification(f, value, value))] else []
  {
  }

  /**
   * Setting a different value: the inverse remove of the old value comes
   * before the inverse add of the new one, and the chain with the single SET
   * notification (old, new) is dispatched exactly once when required, last.
   */
  lemma {:induction false} SetDifferentValueOrder(f: Feature, oldValue: object?, newValue: object?, required: bool)
    requires newValue != oldValue
    ensures var events := SetEvents(f, oldValue, newValue, required);
            && Dispatches(events) == (if required then 1 else 0)
            && (required ==> events[|events| - 1] == Dispatch([Notification(f, oldValue, newValue)]))
            && (oldValue != null ==> events[0] == InverseRemove(f, oldValue))
            && (newValue != null ==> events[if oldValue != null then 1 else 0] == InverseAdd(f, newValue))
            && (forall i :: 0 <= i < |events| ==> !events[i].Notify?)
  {
    var removes: seq<Event> := if oldValue != null then [InverseRemove(f, oldValue)] else [];
    var adds: seq<Event> := if newValue != null then [InverseAdd(f, newValue)] else [];
    var dispatch: seq<Event> := if required then [Dispatch([Notification(f, oldValue, newValue)])] else [];
    assert SetEvents(f, oldValue, newValue, required) == removes + adds + dispatch;
    DispatchesAppend(removes + adds, dispatch);
    DispatchesAppend(removes, adds);
    assert Dispatches(removes) == 0 && Dispatches(adds) == 0 by {
      assert removes != [] ==> removes[1..] == [];
      assert adds != [] ==> adds[1..] == [];
    }
    assert dispatch != [] ==> dispatch[1..] == [];
  }

  lemma {:induction false} DispatchesAppend(a: seq<Event>, b: seq<Event>)
    ensures Dispatches(a + b) == Dispatches(a) + Dispatches(b)
  {
    if a == [] {
      assert a + b == b;
    } else {
      assert (a + b)[1..] == a[1..] + b;
      DispatchesAppend(a[1..], b);
    }
  }

  class Shape {
    var position: GPoint?
    var size: GDimension?
    /** `eNotificationRequired()`: whether anyone listens to this shape. */
    const notificationRequired: bool
    ghost var events: seq<Event>

    constructor (notificationRequired: bool)
      ensures position == null && size == null && events == []
      ensures this.notificationRequired == notificationRequired
    {
      position := null;
      size := null;
      this.notificationRequired := notificationRequired;
      events := [];
    }

    /** `eGet`: the current value of the feature. */
    function EGet(f: Feature): object?
      reads this
    {
      match f
      case Position => position
      case Size => size
    }

    /** `eIsSet`: a feature is set exactly when it holds a value. */
    function EIsSet(f: Feature): (r: bool)
      reads this
      ensures r <==> EGet(f) != null
    {
      match f
      case Position => position != null
      case Size => size != null
    }

    /**
     * `basicSetPosition`: store the value; when notifications are required,
     * add one SET notification (old, new) to the chain.
     */
    method BasicSetPosition(newPosition: GPoint?, msgs: Chain) returns (r: Chain)
      modifies this
      ensures position == newPosition && size == old(size) && events == old(events)
      ensures r == if notificationRequired
                   then Some(Add(msgs, Notification(Position, old(position), newPosition)))
                   else msgs
    {
      var oldPosition := position;
      position := newPosition;
      r := msgs;
      if notificationRequired {
        var notification := Notification(Position, oldPosition, newPosition);
        r := Some(Add(r, notification));
      }
    }

    /** `basicSetSize`: as `basicSetPosition`, for the size. */
    method BasicSetSize(newSize: GDimension?, msgs: Chain) returns (r: Chain)
      modifies this
      ensures size == newSize && position == old(position) && events == old(events)
      ensures r == if notificationRequired
                   then Some(Add(msgs, Notification(Size, old(size), newSize)))
                   else msgs
    {
      var oldSize := size;
      size := newSize;
      r := msgs;
      if notificationRequired {
        var notification := Notification(Size, oldSize, newSize);
        r := Some(Add(r, notification));
      }
    }

    /** `setPosition`: the new value is stored, the size is untouched. */
    method SetPosition(newPosition: GPoint?)
      modifies this
      ensures position == newPosition && size == old(size)
      ensures events == old(events) + SetEvents(Position, old(position), newPosition, notificationRequired)
    {
      if newPosition != position {
        var msgs: Chain := None;
        if position != null {
          events := events + [InverseRemove(Position, position)];
        }
        if newPosition != null {
          events := events + [InverseAdd(Position, newPosition)];
        }
        msgs := BasicSetPosition(newPosition, msgs);
        if msgs.Some? {
          events := events + [Dispatch(msgs.value)];
        }
      } else if notificationRequired {
        events := events + [Notify(Notification(Position, newPosition, newPosition))];
      }
    }

    /** `setSize`: the new value is stored, the position is untouched. */
    method SetSize(newSize: GDimension?)
      modifies this
      ensures size == newSize && position == old(position)
      ensures events == old(events) + SetEvents(Size, old(size), newSize, notificationRequired)
    {
      if newSize != size {
        var msgs: Chain := None;
        if size != null {
          events := events + [InverseRemove(Size, size)];
        }
        if newSize != null {
          events := events + [InverseAdd(Size, newSize)];
        }
        msgs := BasicSetSize(newSize, msgs);
        if msgs.Some? {
          events := events + [Dispatch(msgs.value)];
        }
      } else if notificationRequired {
        events := events + [Notify(Notification(Size, newSize, newSize))];
      }
    }

    /** `eInverseRemove`: the other end let go of the value; clear exactly that feature. */
    method EInverseRemove(otherEnd: object, f: Feature, msgs: Chain) returns (r: Chain)
      modifies this
      ensures EGet(f) == null && !EIsSet(f)
      ensures f == Position ==> size == old(size)
      ensures f == Size ==> position == old(position)
      ensures events == old(events)
      ensures r == if notificationRequired
                   then Some(Add(msgs, Notification(f, old(EGet(f)), null)))
                   else msgs
    {
      match f {
        case Position => r := BasicSetPosition(null, msgs);
        case Size => r := BasicSetSize(null, msgs);
      }
    }

    /**
     * `eSet`: set the feature to `newValue`. A value of the wrong class is the
     * cast failure of the generated code (`ok` false): nothing changes.
     */
    method ESet(f: Feature, newValue: object?) returns (ok: bool)
      modifies this
      ensures ok <==> newValue == null
                      || (f == Position && newValue is GPoint)
                      || (f == Size && newValue is GDimension)
      ensures ok ==> EGet(f) == newValue
      ensures ok ==> events == old(events) + SetEvents(f, old(EGet(f)), newValue, notificationRequired)
      ensures f == Position ==> size == old(size)
      ensures f == Size ==> position == old(position)
      ensures !ok ==> position == old(position) && size == old(size) && events == old(events)
    {
      ok := true;
      match f {
        case Position =>
          if newValue == null {
            SetPosition(null);
          } else if newValue is GPoint {
            SetPosition(newValue as GPoint);
          } else {
            ok := false;
          }
        case Size =>
          if newValue == null {
            SetSize(null);
          } else if newValue is GDimension {
            SetSize(newValue as GDimension);
          } else {
            ok := false;
          }
      }
    }

    /** `eUnset`: set the feature to null, after which it is no longer set. */
    method EUnset(f: Feature)
      modifies this
      ensures !EIsSet(f)
      ensures f == Position ==> size == old(size)
      ensures f == Size ==> position == old(position)
      ensures events == old(events) + SetEvents(f, old(EGet(f)), null, notificationRequired)
    {
      match f {
        case Position => SetPosition(null);
        case Size => SetSize(null);
      }
    }
  }
}
