/** The round state machine of the main loop (pyGame/Simulate.py:72-149):
    each frame either plays the pattern back with one more button, or
    judges the player's click against the pattern. Time and randomness are
    inputs of each frame. */
module Game {
  import opened Layout
  import opened Input
  import opened Animation

  /** TIMEOUT (4 seconds) in milliseconds; timestamps are integer milliseconds. */
  const Timeout := 4000

  /** The variables of the main loop, and the background colour. */
  datatype GameState = GameState(
    pattern: seq<Button>,   // the buttons the player must repeat
    currentStep: int,       // index of the button the player must push next
    score: int,
    waitingForInput: bool,  // false while the pattern plays back
    lastClickTime: int,     // timestamp of the last correct push
    bgColor: Rgb)

  /** The state the main loop starts from. */
  const Initial := GameState([], 0, 0, false, 0, Black)

  /** What holds at the top of every frame: while waiting for input the
      pattern has one button more than the score and the next step indexes
      it; during playback the next round's button is still to be added. */
  predicate Inv(s: GameState) {
    s.score >= 0 && ValidRgb(s.bgColor) &&
    (if s.waitingForInput then 0 <= s.currentStep < |s.pattern| && |s.pattern| == s.score + 1
     else s.currentStep == 0 && |s.pattern| == s.score) &&
    (|s.pattern| > 0 ==> s.pattern[0] == Green)
  }

  /** More than TIMEOUT has passed since the last correct push, which only
      counts once the player has pushed at least one button this round. */
  predicate TimedOut(s: GameState, now: int) {
    s.currentStep != 0 && now - Timeout > s.lastClickTime
  }

  /** The flash of each button of `p`, in pattern order. */
  function FlashAll(p: seq<Button>): (r: seq<Effect>)
    ensures |r| == |p|
    ensures forall i :: 0 <= i < |p| ==> r[i] == Flash(p[i])
  {
    seq(|p|, i requires 0 <= i < |p| => Flash(p[i]))
  }

  /** A frame's new state and the effects it played, in order. */
  datatype Outcome = Outcome(next: GameState, played: seq<Effect>)

  /** One pass of the main loop, given the button clicked in this frame (if
      any), the current time, the button the random pick would add, and the
      random colour a background change would take. */
  function Transition(s: GameState, clicked: Option<Button>, now: int, randomPick: Button, newBg: Rgb): (o: Outcome)
    requires Inv(s) && ValidRgb(newBg)
    ensures Inv(o.next)
  {
    if !s.waitingForInput then
      var p := s.pattern + [if s.score == 0 then Green else randomPick];
      Outcome(s.(pattern := p, waitingForInput := true), FlashAll(p))
    else if clicked.Some? && clicked.value == s.pattern[s.currentStep] then
      if s.currentStep + 1 == |s.pattern| then
        Outcome(s.(currentStep := 0, lastClickTime := now, score := s.score + 1,
                   waitingForInput := false, bgColor := newBg),
                [Flash(clicked.value), BackgroundChange(newBg)])
      else
        Outcome(s.(currentStep := s.currentStep + 1, lastClickTime := now), [Flash(clicked.value)])
    else if (clicked.Some? && clicked.value != s.pattern[s.currentStep]) || TimedOut(s, now) then
      Outcome(GameState([], 0, 0, false, s.lastClickTime, newBg), [GameOver, BackgroundChange(newBg)])
    else
      Outcome(s, [])
  }

  /** The inputs of one frame: its events, the clock reading, and the outcomes
      of the random choices it may make. */
  datatype FrameInput = FrameInput(events: seq<Event>, now: int, randomPick: Button, newBg: Rgb)

  predicate ValidFrames(frames: seq<FrameInput>) {
    forall i :: 0 <= i < |frames| ==> ValidRgb(frames[i].newBg)
  }

  /** The state after one frame: its events decide the click, then the
      transition runs. */
  function NextState(s: GameState, f: FrameInput): GameState
    requires Inv(s) && ValidRgb(f.newBg)
  {
    Transition(s, LastRelevantClick(f.events), f.now, f.randomPick, f.newBg).next
  }

  /** The state after a sequence of frames; the invariant holds after any
      number of frames, so `pattern[currentStep]` is always defined when it
      is read. */
  function Run(s: GameState, frames: seq<FrameInput>): (r: GameState)
    requires Inv(s) && ValidFrames(frames)
    ensures Inv(r)
    decreases |frames|
  {
    if frames == [] then s else Run(NextState(s, frames[0]), frames[1..])
  }

  lemma {:induction false} RunSnoc(s: GameState, frames: seq<FrameInput>, f: FrameInput)
    requires Inv(s) && ValidFrames(frames) && ValidRgb(f.newBg)
    ensures ValidFrames(frames + [f])
    ensures Run(s, frames + [f]) == NextState(Run(s, frames), f)
    decreases |frames|
  {
    assert forall i :: 0 <= i < |frames| ==> (frames + [f])[i] == frames[i];
    if frames != [] {
      assert (frames + [f])[1..] == frames[1..] + [f];
      RunSnoc(NextState(s, frames[0]), frames[1..], f);
    } else {
      assert frames + [f] == [f];
    }
  }

  /** The pattern player: flashes the buttons of the pattern one after another. */
  method PlayPattern(pattern: seq<Button>) returns (played: seq<Effect>)
    ensures |played| == |pattern|
    ensures forall i :: 0 <= i < |pattern| ==> played[i] == Flash(pattern[i])
  {
    played := [];
    var i := 0;
    while i < |pattern|
      invariant 0 <= i <= |pattern|
      invariant |played| == i
      invariant forall j :: 0 <= j < i ==> played[j] == Flash(pattern[j])
    {
      played := played + [Flash(pattern[i])];
      i := i + 1;
    }
  }

  /** The game: the variables of the main loop and the background colour. */
  class Simulate {
    var pattern: seq<Button>
    var currentStep: int
    var lastClickTime: int
    var score: int
    var waitingForInput: bool
    var bgColor: Rgb

    function Snapshot(): GameState
      reads this
    {
      GameState(pattern, currentStep, score, waitingForInput, lastClickTime, bgColor)
    }

    predicate Valid()
      reads this
    {
      Inv(Snapshot())
    }

    constructor ()
      ensures Valid() && Snapshot() == Initial
    {
      pattern := [];
      currentStep := 0;
      lastClickTime := 0;
      score := 0;
      waitingForInput := false;
      bgColor := Black;
    }

    /** The end of the background change: the new colour becomes the background. */
    method ChangeBackground(newColor: Rgb)
      modifies this`bgColor
      ensures bgColor == newColor
    {
      bgColor := newColor;
    }

    /** One pass of the main loop after the events have been resolved. */
    method Step(clicked: Option<Button>, now: int, randomPick: Button, newBg: Rgb) returns (played: seq<Effect>)
      requires Valid() && ValidRgb(newBg)
      modifies this
      ensures Valid()
      ensures Outcome(Snapshot(), played) == Transition(old(Snapshot()), clicked, now, randomPick, newBg)
    {
      played := [];
      if !waitingForInput {
        // play the pattern
        if score == 0 {
          pattern := pattern + [Green];
          played := PlayPattern(pattern);
          waitingForInput := true;
        }
        if score != 0 {
          pattern := pattern + [randomPick];
          played := PlayPattern(pattern);
          waitingForInput := true;
        }
      } else {
        // wait for the player to enter buttons
        if clicked.Some? && clicked.value == pattern[currentStep] {
          played := [Flash(clicked.value)];
          currentStep := currentStep + 1;
          lastClickTime := now;
          if currentStep == |pattern| {
            ChangeBackground(newBg);
            played := played + [BackgroundChange(newBg)];
            score := score + 1;
            waitingForInput := false;
            currentStep := 0;
          }
        } else if (clicked.Some? && clicked.value != pattern[currentStep]) ||
                  (currentStep != 0 && now - Timeout > lastClickTime) {
          played := [GameOver];
          pattern := [];
          currentStep := 0;
          waitingForInput := false;
          score := 0;
          ChangeBackground(newBg);
          played := played + [BackgroundChange(newBg)];
        }
      }
    }

    /** The main loop over a finite run of frames: each frame folds its
        events into a click and then takes one step. */
    method RunFrames(frames: seq<FrameInput>)
      requires Valid() && ValidFrames(frames)
      modifies this
      ensures Valid()
      ensures Snapshot() == Run(old(Snapshot()), frames)
    {
      var i := 0;
      while i < |frames|
        invariant 0 <= i <= |frames| && Valid()
        invariant ValidFrames(frames[..i])
        invariant Snapshot() == Run(old(Snapshot()), frames[..i])
      {
        var f := frames[i];
        var clicked := ResolveFrame(f.events);
        var _ := Step(clicked, f.now, f.randomPick, f.newBg);
        RunSnoc(old(Snapshot()), frames[..i], f);
        assert frames[..i + 1] == frames[..i] + [f];
        i := i + 1;
      }
      assert frames[..i] == frames;
    }
  }

  /** A playback frame adds exactly one button, Green in the first round and
      the random pick afterwards, flashes the whole pattern in order, and
      turns to waiting for input; score and step are untouched. */
  lemma PlaybackAppendsOne(s: GameState, clicked: Option<Button>, now: int, randomPick: Button, newBg: Rgb)
    requires Inv(s) && ValidRgb(newBg) && !s.waitingForInput
    ensures var o := Transition(s, clicked, now, randomPick, newBg);
      o.next.pattern == s.pattern + [if s.score == 0 then Green else randomPick] &&
      o.next.waitingForInput && o.next.score == s.score && o.next.currentStep == s.currentStep &&
      o.next.lastClickTime == s.lastClickTime && o.next.bgColor == s.bgColor &&
      |o.played| == |o.next.pattern| &&
      forall i :: 0 <= i < |o.played| ==> o.played[i] == Flash(o.next.pattern[i])
  {
  }

  /** A correct push that is not the last of the pattern advances the step
      and records the time, whatever the time is. */
  lemma CorrectClickAdvances(s: GameState, now: int, randomPick: Button, newBg: Rgb)
    requires Inv(s) && ValidRgb(newBg) && s.waitingForInput
    requires s.currentStep + 1 < |s.pattern|
    ensures var b := s.pattern[s.currentStep];
      Transition(s, Some(b), now, randomPick, newBg) ==
      Outcome(s.(currentStep := s.currentStep + 1, lastClickTime := now), [Flash(b)])
  {
  }

  /** The last correct push of the pattern wins the round: score up by one,
      step back to 0, playback next, pattern kept, new background. */
  lemma CorrectClickCompletesRound(s: GameState, now: int, randomPick: Button, newBg: Rgb)
    requires Inv(s) && ValidRgb(newBg) && s.waitingForInput
    requires s.currentStep + 1 == |s.pattern|
    ensures var b := s.pattern[s.currentStep]; var o := Transition(s, Some(b), now, randomPick, newBg);
      o.next.score == s.score + 1 && o.next.currentStep == 0 && !o.next.waitingForInput &&
      o.next.pattern == s.pattern && o.next.lastClickTime == now && o.next.bgColor == newBg &&
      o.played == [Flash(b), BackgroundChange(newBg)]
  {
  }

  /** While waiting for input, the game ends exactly on a wrong button, or on
      a timeout in a frame without any click. */
  lemma GameOverExactly(s: GameState, clicked: Option<Button>, now: int, randomPick: Button, newBg: Rgb)
    requires Inv(s) && ValidRgb(newBg) && s.waitingForInput
    ensures var o := Transition(s, clicked, now, randomPick, newBg);
      (o.played == [GameOver, BackgroundChange(newBg)]) <==>
      ((clicked.Some? && clicked.value != s.pattern[s.currentStep]) || (clicked.None? && TimedOut(s, now)))
  {
  }

  /** Game over clears pattern, step and score, returns to playback and
      takes the new background; the time of the last push is left as it was. */
  lemma GameOverResets(s: GameState, clicked: Option<Button>, now: int, randomPick: Button, newBg: Rgb)
    requires Inv(s) && ValidRgb(newBg) && s.waitingForInput
    requires (clicked.Some? && clicked.value != s.pattern[s.currentStep]) || (clicked.None? && TimedOut(s, now))
    ensures Transition(s, clicked, now, randomPick, newBg).next ==
      GameState([], 0, 0, false, s.lastClickTime, newBg)
  {
  }

  /** Before the first correct push of a round, doing nothing is never
      punished, however long it lasts. */
  lemma FirstClickGrace(s: GameState, now: int, randomPick: Button, newBg: Rgb)
    requires Inv(s) && ValidRgb(newBg) && s.waitingForInput && s.currentStep == 0
    ensures Transition(s, None, now, randomPick, newBg) == Outcome(s, [])
  {
  }

  /** Doing nothing within TIMEOUT of the last push (exactly TIMEOUT included)
      changes nothing. */
  lemma IdleWithinTimeout(s: GameState, now: int, randomPick: Button, newBg: Rgb)
    requires Inv(s) && ValidRgb(newBg) && s.waitingForInput
    requires now - Timeout <= s.lastClickTime
    ensures Transition(s, None, now, randomPick, newBg) == Outcome(s, [])
  {
  }

  /** After a game over the next frame starts afresh with the one-button
      pattern [Green]. */
  lemma RestartBeginsWithGreen(s: GameState, clicked: Option<Button>, now: int, randomPick: Button, newBg: Rgb,
                               clicked': Option<Button>, now': int, randomPick': Button, newBg': Rgb)
    requires Inv(s) && ValidRgb(newBg) && ValidRgb(newBg') && s.waitingForInput
    requires (clicked.Some? && clicked.value != s.pattern[s.currentStep]) || (clicked.None? && TimedOut(s, now))
    ensures var s' := Transition(s, clicked, now, randomPick, newBg).next;
      Transition(s', clicked', now', randomPick', newBg').next.pattern == [Green]
  {
  }

  /** Pressing the keys of the remaining buttons of the pattern, one per
      frame, wins the round, at whatever pace: a correct push always takes
      precedence over the timeout. */
  lemma {:induction false} ReplayCompletesRound(s: GameState, frames: seq<FrameInput>)
    requires Inv(s) && s.waitingForInput && ValidFrames(frames)
    requires |frames| == |s.pattern| - s.currentStep
    requires forall i :: 0 <= i < |frames| ==>
      frames[i].events == [KeyDown(ButtonKey(s.pattern[s.currentStep + i]))]
    ensures |frames| > 0
    ensures var r := Run(s, frames);
      r.pattern == s.pattern && r.score == s.score + 1 && r.currentStep == 0 && !r.waitingForInput &&
      r.lastClickTime == frames[|frames| - 1].now && r.bgColor == frames[|frames| - 1].newBg
    decreases |frames|
  {
    var f := frames[0];
    var b := s.pattern[s.currentStep];
    KeyRoundTrip(b, ButtonKey(b));
    assert LastRelevantClick(f.events) == Some(b);
    var s' := NextState(s, f);
    var rest := frames[1..];
    if s.currentStep + 1 == |s.pattern| {
      assert rest == [];
    } else {
      assert forall i :: 0 <= i < |rest| ==> rest[i] == frames[i + 1];
      ReplayCompletesRound(s', rest);
    }
  }
}
