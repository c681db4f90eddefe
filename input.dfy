/** The input resolver: the events of one frame are folded into at most one
    clicked button (pyGame/Simulate.py:80, 91-103). */
module Input {
  import opened Layout

  /** The keys the game listens for; every other key is `OtherKey`. */
  datatype Key = KeyQ | KeyW | KeyA | KeyS | OtherKey

  /** The events the frame loop sees. Quit and key-up events are consumed
      before the fold and arrive, if at all, as `OtherEvent`. */
  datatype Event = MouseButtonUp(x: int, y: int) | KeyDown(key: Key) | OtherEvent

  /** The keyboard shortcut of each button: q, w, a, s. */
  function KeyButton(k: Key): (r: Option<Button>)
    ensures r == Some(Yellow) <==> k == KeyQ
    ensures r == Some(Blue) <==> k == KeyW
    ensures r == Some(Red) <==> k == KeyA
    ensures r == Some(Green) <==> k == KeyS
    ensures r == None <==> k.OtherKey?
  {
    match k
    case KeyQ => Some(Yellow)
    case KeyW => Some(Blue)
    case KeyA => Some(Red)
    case KeyS => Some(Green)
    case OtherKey => None
  }

  /** The key that selects a button. */
  function ButtonKey(b: Button): (k: Key)
    ensures KeyButton(k) == Some(b)
  {
    match b
    case Yellow => KeyQ
    case Blue => KeyW
    case Red => KeyA
    case Green => KeyS
  }

  lemma KeyRoundTrip(b: Button, k: Key)
    ensures KeyButton(ButtonKey(b)) == Some(b)
    ensures KeyButton(k) == Some(b) <==> k == ButtonKey(b)
  {
  }

  /** An event that assigns `clickedButton`: every mouse-button release (even
      one outside all buttons) and a key-down of q, w, a or s. */
  predicate Relevant(e: Event) {
    e.MouseButtonUp? || (e.KeyDown? && !e.key.OtherKey?)
  }

  /** The value a relevant event assigns to `clickedButton`. */
  function EventButton(e: Event): Option<Button>
    requires Relevant(e)
  {
    if e.MouseButtonUp? then GetButtonClicked(e.x, e.y) else KeyButton(e.key)
  }

  /** Specification of the fold: the button chosen by the last relevant
      event of the frame, or None when there is none. */
  function LastRelevantClick(events: seq<Event>): Option<Button>
  {
    if events == [] then None
    else
      var e := events[|events| - 1];
      if Relevant(e) then EventButton(e) else LastRelevantClick(events[..|events| - 1])
  }

  /** The event loop of one frame, scanning the events in arrival order. */
  method ResolveFrame(events: seq<Event>) returns (clicked: Option<Button>)
    ensures clicked == LastRelevantClick(events)
  {
    clicked := None;
    var i := 0;
    while i < |events|
      invariant 0 <= i <= |events|
      invariant clicked == LastRelevantClick(events[..i])
    {
      var e := events[i];
      assert events[..i + 1][..i] == events[..i];
      match e {
        case MouseButtonUp(x, y) =>
          clicked := GetButtonClicked(x, y);
        case KeyDown(key) =>
          if key == KeyQ {
            clicked := Some(Yellow);
          } else if key == KeyW {
            clicked := Some(Blue);
          } else if key == KeyA {
            clicked := Some(Red);
          } else if key == KeyS {
            clicked := Some(Green);
          }
        case OtherEvent =>
      }
      i := i + 1;
    }
    assert events[..i] == events;
  }

  /** The last relevant event decides, whatever came before it. */
  lemma {:induction false} LastRelevantWins(events: seq<Event>, k: nat)
    requires k < |events| && Relevant(events[k])
    requires forall j :: k < j < |events| ==> !Relevant(events[j])
    ensures LastRelevantClick(events) == EventButton(events[k])
  {
    if k < |events| - 1 {
      var prefix := events[..|events| - 1];
      assert forall j :: k < j < |prefix| ==> prefix[j] == events[j];
      LastRelevantWins(prefix, k);
    }
  }

  /** A frame without any relevant event clicks nothing. */
  lemma {:induction false} NoRelevantEventNoClick(events: seq<Event>)
    requires forall j :: 0 <= j < |events| ==> !Relevant(events[j])
    ensures LastRelevantClick(events) == None
  {
    if events != [] {
      var prefix := events[..|events| - 1];
      assert forall j :: 0 <= j < |prefix| ==> prefix[j] == events[j];
      NoRelevantEventNoClick(prefix);
    }
  }

  /** Events that are not relevant, such as other keys, leave the click as it was. */
  lemma {:induction false} IrrelevantSuffixKeepsClick(events: seq<Event>, tail: seq<Event>)
    requires forall j :: 0 <= j < |tail| ==> !Relevant(tail[j])
    ensures LastRelevantClick(events + tail) == LastRelevantClick(events)
  {
    if tail != [] {
      var shorter := tail[..|tail| - 1];
      assert (events + tail)[..|events + tail| - 1] == events + shorter;
      assert (events + tail)[|events + tail| - 1] == tail[|tail| - 1];
      assert forall j :: 0 <= j < |shorter| ==> shorter[j] == tail[j];
      IrrelevantSuffixKeepsClick(events, shorter);
    } else {
      assert events + tail == events;
    }
  }

  /** A release outside every button, if it is the last relevant event,
      clears any button chosen earlier in the frame. */
  lemma ClickOutsideClears(events: seq<Event>, x: int, y: int)
    requires forall b: Button :: !ButtonRect(b).CollidePoint(x, y)
    ensures LastRelevantClick(events + [MouseButtonUp(x, y)]) == None
  {
  }
}
