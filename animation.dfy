/** The animation engine, reduced to what it computes: the sequence of
    translucent overlays each effect draws, one per rendered frame
    (pyGame/Simulate.py:166-199, 287-305, 308-328). Blitting, sound and
    frame pacing are not modelled. */
module Animation {
  import opened Layout

  /** Python's `range(start, stop, step)`. */
  function Range(start: int, stop: int, step: int): (r: seq<int>)
    requires step != 0
    ensures |r| == 0 <==> (if step > 0 then stop <= start else start <= stop)
    ensures forall i :: 0 <= i < |r| ==> r[i] == start + i * step
    ensures forall i :: 0 <= i < |r| ==>
      if step > 0 then start <= r[i] < stop else stop < r[i] <= start
    ensures |r| > 0 ==>
      if step > 0 then stop <= r[|r| - 1] + step else r[|r| - 1] + step <= stop
    decreases if step > 0 then stop - start else start - stop
  {
    if (step > 0 && start < stop) || (step < 0 && stop < start) then
      [start] + Range(start + step, stop, step)
    else
      []
  }

  /** The default `animationSpeed` of the button flash and of the game-over flash. */
  const FlashSpeed := 50
  /** The default `animationSpeed` of the background change. */
  const BackgroundSpeed := 40
  /** The game-over animation repeats the flash this many times. */
  const GameOverFlashes := 3

  /** One flash: opacity rises from 0 toward 255, then falls from 255 toward 0. */
  function FlashRamp(speed: int): (r: seq<int>)
    requires speed > 0
    ensures forall i :: 0 <= i < |r| ==> 0 <= r[i] <= 255
  {
    Range(0, 255, speed) + Range(255, 0, -speed)
  }

  /** The background fade: opacity of the new colour rises from 0 toward 255. */
  function BackgroundRamp(speed: int): (r: seq<int>)
    requires speed > 0
    ensures forall i :: 0 <= i < |r| ==> 0 <= r[i] < 255
  {
    Range(0, 255, speed)
  }

  /** `s` played `n` times in a row. */
  function Repeat(s: seq<int>, n: nat): (r: seq<int>)
    ensures |r| == n * |s|
    ensures forall i :: 0 <= i < |r| ==> r[i] in s
  {
    if n == 0 then [] else s + Repeat(s, n - 1)
  }

  lemma RepeatThree(s: seq<int>)
    ensures Repeat(s, 3) == s + s + s
  {
    assert Repeat(s, 1) == s + Repeat(s, 0) == s;
    assert Repeat(s, 2) == s + Repeat(s, 1);
  }

  /** The game-over animation: the flash ramp, three times over. */
  function GameOverRamp(speed: int): (r: seq<int>)
    requires speed > 0
    ensures r == FlashRamp(speed) + FlashRamp(speed) + FlashRamp(speed)
    ensures forall i :: 0 <= i < |r| ==> 0 <= r[i] <= 255
  {
    RepeatThree(FlashRamp(speed));
    Repeat(FlashRamp(speed), GameOverFlashes)
  }

  /** Stepping down from `c - lo` to `c - hi` takes as many steps as stepping
      up from `lo` to `hi`. */
  lemma {:induction false} RangeMirrorLength(lo: int, hi: int, speed: int, c: int)
    requires speed > 0
    ensures |Range(c - lo, c - hi, -speed)| == |Range(lo, hi, speed)|
    decreases hi - lo
  {
    if lo < hi {
      RangeMirrorLength(lo + speed, hi, speed, c);
      assert Range(lo, hi, speed) == [lo] + Range(lo + speed, hi, speed);
      assert Range(c - lo, c - hi, -speed) == [c - lo] + Range(c - (lo + speed), c - hi, -speed);
    }
  }

  /** The falling half of a ramp mirrors the rising half: stepping down from
      `c - lo` to `c - hi` visits `c - v` for each `v` met stepping up. */
  lemma RangeMirror(lo: int, hi: int, speed: int, c: int)
    requires speed > 0
    ensures |Range(c - lo, c - hi, -speed)| == |Range(lo, hi, speed)|
    ensures forall i :: 0 <= i < |Range(lo, hi, speed)| ==>
      Range(c - lo, c - hi, -speed)[i] == c - Range(lo, hi, speed)[i]
  {
    RangeMirrorLength(lo, hi, speed, c);
    var up := Range(lo, hi, speed);
    var down := Range(c - lo, c - hi, -speed);
    forall i | 0 <= i < |up|
      ensures down[i] == c - up[i]
    {
      assert i * -speed == -(i * speed);
    }
  }

  /** Every flash has a rising half and a falling half of equal length; the
      rise is strictly increasing from 0 and the fall is its mirror image
      below 255. */
  lemma FlashRampShape(speed: int)
    requires speed > 0
    ensures var r := FlashRamp(speed); var h := |Range(0, 255, speed)|;
      |r| == 2 * h && h > 0 && r[0] == 0 && r[h] == 255 &&
      (forall i :: 0 < i < h ==> r[i - 1] < r[i]) &&
      (forall i :: 0 <= i < h ==> r[h + i] == 255 - r[i])
  {
    RangeMirror(0, 255, speed, 255);
  }

  /** With the source's speed the flash is 0, 50, ..., 250, 255, 205, ..., 5. */
  lemma FlashRampValues()
    ensures FlashRamp(FlashSpeed) == [0, 50, 100, 150, 200, 250, 255, 205, 155, 105, 55, 5]
  {
  }

  /** With the source's speed the background fade is 0, 40, ..., 240. */
  lemma BackgroundRampValues()
    ensures BackgroundRamp(BackgroundSpeed) == [0, 40, 80, 120, 160, 200, 240]
  {
  }

  /** With the source's speed the game-over animation is 36 steps: the 12-step flash three times. */
  lemma GameOverRampValues()
    ensures |GameOverRamp(FlashSpeed)| == 36
  {
    FlashRampValues();
  }

  /** One rendered step of an effect: `area` filled with `color` at opacity `alpha`. */
  datatype Overlay = Overlay(area: Rect, color: Rgb, alpha: int)

  /** The effects the game loop triggers. */
  datatype Effect =
    | Flash(button: Button)             // flashButtonAnimation
    | BackgroundChange(newColor: Rgb)   // changeBackgroundAnimation
    | GameOver                          // gameOverAnimation

  function Overlays(area: Rect, color: Rgb, alphas: seq<int>): (r: seq<Overlay>)
    ensures |r| == |alphas|
    ensures forall i :: 0 <= i < |r| ==> r[i] == Overlay(area, color, alphas[i])
  {
    seq(|alphas|, i requires 0 <= i < |alphas| => Overlay(area, color, alphas[i]))
  }

  /** The overlays an effect draws, in order: a flash covers the button's
      rectangle in its bright colour, the other two effects the whole window
      (the game-over flash in white). */
  function Frames(e: Effect): seq<Overlay>
  {
    match e
    case Flash(b) => Overlays(ButtonRect(b), FlashColor(b), FlashRamp(FlashSpeed))
    case BackgroundChange(c) => Overlays(WindowRect, c, BackgroundRamp(BackgroundSpeed))
    case GameOver => Overlays(WindowRect, White, GameOverRamp(FlashSpeed))
  }

  /** Every overlay an effect draws has a legal colour and opacity and stays
      inside the window. */
  lemma FramesWellFormed(e: Effect)
    requires e.BackgroundChange? ==> ValidRgb(e.newColor)
    ensures forall i :: 0 <= i < |Frames(e)| ==>
      var o := Frames(e)[i];
      ValidRgb(o.color) && 0 <= o.alpha <= 255 &&
      0 <= o.area.left && o.area.left + o.area.width <= WindowWidth &&
      0 <= o.area.top && o.area.top + o.area.height <= WindowHeight
  {
    if e.Flash? {
      ButtonRectInWindow(e.button);
    }
  }

  /** A flash lasts 12 rendered steps, a background change 7 and the
      game-over animation 36. */
  lemma FramesLength(e: Effect)
    ensures |Frames(e)| == match e
      case Flash(_) => 12
      case BackgroundChange(_) => 7
      case GameOver => 36
  {
    match e {
      case Flash(_) => FlashRampValues();
      case BackgroundChange(_) => BackgroundRampValues();
      case GameOver => GameOverRampValues();
    }
  }
}
