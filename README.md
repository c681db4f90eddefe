# Simulate: a verified model of a Simon-style memory game

Simulate is a single-file pygame game. The player sees a pattern of coloured
buttons flash, then repeats it by clicking the buttons or pressing q, w, a
and s. Each round that is repeated correctly adds one button to the pattern.
A wrong button, or more than four seconds of idleness after the first
correct push of a round, ends the game.

This project models the logic of the game in Dafny. Each module matches one
part of the program:

- `Layout` (layout.dfy) holds the button enum. It also holds the two lookup
  tables that map a button to its bright flash colour and to its 200x200
  rectangle on the 640x480 window, and the hit test `GetButtonClicked`.
- `Input` (input.dfy) holds the per-frame event fold. A mouse-button release
  or a q/w/a/s key press sets the clicked button, and the last such event of
  the frame wins. `ResolveFrame` is the loop as written. It is proved against
  `LastRelevantClick`, a definition that scans backwards from the last event.
- `Animation` (animation.dfy) holds Python's `range`. It also holds the alpha
  ramps the three animations step through, and the overlays each effect
  draws: area, colour and opacity, one per rendered step.
- `Game` (game.dfy) holds the round state machine. The class `Simulate`
  keeps the main loop's variables (`pattern`, `currentStep`, `score`,
  `waitingForInput`, `lastClickTime`) and the background colour. `Step` is
  one pass of the main loop. It is proved against the pure `Transition`,
  and it returns the effects it played, in order. `RunFrames` runs the main
  loop over a finite list of frames. The invariant `Inv` holds after any
  number of frames. While input is awaited, `0 <= currentStep < |pattern|`
  and `|pattern| == score + 1`. During playback, `currentStep == 0` and
  `|pattern| == score`. The first button is always Green. So the read
  `pattern[currentStep]` is always defined.

Timestamps are integer milliseconds, and the four-second TIMEOUT is
`Timeout == 4000`. Each frame passes in the current time, the button a
random pick would add and the random background colour.

Two facts about the code shape the model:

- Each of the game-over animation's three cycles is the flash ramp, 0 up to
  250 then 255 down to 5 (pyGame/Simulate.py:316-320).
- While input is awaited, `currentStep < |pattern|` at the top of every
  frame, because it is reset in the frame in which it reaches `|pattern|`
  (pyGame/Simulate.py:129-134).

## Model

| member | source | states |
|---|---|---|
| `Layout.ButtonColor` | pyGame/Simulate.py:19-25 | each button is named by an RGB tuple with components in [0,255] |
| `Layout.ButtonColorInjective` | pyGame/Simulate.py:19-25 | the four button tuples are distinct, so the enum identifies a button as the tuple does |
| `Layout.FlashColor` | pyGame/Simulate.py:166-182 | the flash colour looked up for each button is a legal RGB colour: the button's own tuple with each 155 component raised to 255 and each 0 kept |
| `Layout.ButtonRect` | pyGame/Simulate.py:29-37 | every button rectangle is BUTTONSIZE (200) wide and high |
| `Layout.ButtonRectInWindow` | pyGame/Simulate.py:29-37 | every button rectangle lies wholly inside the 640x480 window |
| `Layout.ButtonRectsDisjoint` | pyGame/Simulate.py:33-37 | no point lies on two different button rectangles |
| `Layout.GetButtonClicked` | pyGame/Simulate.py:331-340 | Yellow exactly on 110<=x<310, 30<=y<230; Blue on 330<=x<530, 30<=y<230; Red on 110<=x<310, 250<=y<450; Green on 330<=x<530, 250<=y<450; None exactly when no rectangle holds the point (gap and margins included) |
| `Layout.HitTestFindsButton` | pyGame/Simulate.py:331-340 | a point in a button's rectangle reports that button, so the order of the tests is immaterial |
| `Input.KeyButton` | pyGame/Simulate.py:95-103 | q gives Yellow, w Blue, a Red and s Green, each in both directions; every other key gives nothing |
| `Input.ButtonKey` | pyGame/Simulate.py:95-103 | every button has a key, and that key selects it |
| `Input.KeyRoundTrip` | pyGame/Simulate.py:95-103 | a key selects a button exactly when it is that button's key |
| `Input.ResolveFrame` | pyGame/Simulate.py:91-103 | the event loop leaves `clickedButton` equal to the button of the frame's last mouse release or q/w/a/s key press, or None if there is none |
| `Input.LastRelevantWins` | pyGame/Simulate.py:91-103 | the last mouse release or recognised key press decides the click, whatever came before it |
| `Input.NoRelevantEventNoClick` | pyGame/Simulate.py:80-103 | a frame without a mouse release or recognised key press clicks nothing |
| `Input.IrrelevantSuffixKeepsClick` | pyGame/Simulate.py:95-103 | other keys and other events after the deciding event leave the click unchanged |
| `Input.ClickOutsideClears` | pyGame/Simulate.py:92-94 | a final release outside every button resets the click to None |
| `Animation.Range` | pyGame/Simulate.py:192 | `range(start, stop, step)` is empty exactly when start is already past stop; its i-th value is start + i*step; every value lies between start and stop; the next step would reach or pass stop |
| `Animation.FlashRamp` | pyGame/Simulate.py:191-192 | every opacity of a flash lies in [0,255] |
| `Animation.BackgroundRamp` | pyGame/Simulate.py:294 | every opacity of the background fade lies in [0,255) |
| `Animation.Repeat` | pyGame/Simulate.py:316 | repeating a ramp n times gives n times its length, drawn only from its values |
| `Animation.GameOverRamp` | pyGame/Simulate.py:316-320 | for any speed, the game-over ramp is the flash ramp three times in a row, with every opacity in [0,255] |
| `Animation.RangeMirrorLength` | pyGame/Simulate.py:191-192 | stepping down from 255 takes as many steps as stepping up from 0 |
| `Animation.RangeMirror` | pyGame/Simulate.py:191-192 | the falling half visits 255 - v for each v of the rising half, in the same order |
| `Animation.FlashRampShape` | pyGame/Simulate.py:191-192 | for any speed, a flash is a strictly rising half from 0 and a falling half of equal length from 255 that mirrors it |
| `Animation.FlashRampValues` | pyGame/Simulate.py:166-192 | at speed 50 the flash is 0,50,...,250,255,205,...,5 (12 values) |
| `Animation.BackgroundRampValues` | pyGame/Simulate.py:287-294 | at speed 40 the background fade is 0,40,...,240 (7 values) |
| `Animation.GameOverRampValues` | pyGame/Simulate.py:308-320 | at speed 50 the game-over animation has 36 values |
| `Animation.FramesWellFormed` | pyGame/Simulate.py:166-328 | every overlay drawn by a flash, a background change or the game-over animation has a legal colour and opacity and lies inside the window |
| `Animation.FramesLength` | pyGame/Simulate.py:166-328 | a flash draws 12 steps, a background change 7 and the game-over animation 36 |
| `Game.PlayPattern` | pyGame/Simulate.py:111-113 | the pattern player flashes exactly the buttons of the pattern, in pattern order |
| `Game.Transition` | pyGame/Simulate.py:105-146 | one frame keeps the invariant: step in range and pattern one longer than the score while input is awaited; step 0 and pattern as long as the score during playback; first button Green |
| `Game.Run` | pyGame/Simulate.py:79-149 | the invariant holds after any sequence of frames |
| `Game.Simulate.constructor` | pyGame/Simulate.py:72-77 | the game starts with an empty pattern, step 0, score 0, playback mode, last push time 0 and a black background, which satisfies the invariant |
| `Game.Simulate.ChangeBackground` | pyGame/Simulate.py:305 | the new colour becomes the background colour |
| `Game.Simulate.Step` | pyGame/Simulate.py:79-146 | one pass of the main loop keeps the invariant; its new state and the effects it plays are those of `Transition` |
| `Game.Simulate.RunFrames` | pyGame/Simulate.py:79-149 | running the loop over frames, each folding its events and then stepping, reaches the state `Run` predicts |
| `Game.PlaybackAppendsOne` | pyGame/Simulate.py:105-120 | a playback frame appends exactly one button (Green when the score is 0, else the random pick), flashes the whole new pattern in order and turns to waiting; score, step, time and background are unchanged |
| `Game.CorrectClickAdvances` | pyGame/Simulate.py:123-127 | a correct push that is not the last advances the step by one, records the time and flashes the button, however late it comes |
| `Game.CorrectClickCompletesRound` | pyGame/Simulate.py:123-134 | the last correct push raises the score by one, resets the step to 0, returns to playback, keeps the pattern, records the time and changes the background |
| `Game.GameOverExactly` | pyGame/Simulate.py:123-139 | while input is awaited, the game ends exactly when the button is wrong, or when no button was pushed and the step is not 0 and more than TIMEOUT (strictly) has passed since the last push |
| `Game.GameOverResets` | pyGame/Simulate.py:136-146 | game over resets pattern to empty, step and score to 0 and returns to playback with a new background; the last push time is kept |
| `Game.FirstClickGrace` | pyGame/Simulate.py:136-137 | with no push and step 0, nothing changes, however much time has passed |
| `Game.IdleWithinTimeout` | pyGame/Simulate.py:136-137 | with no push and at most TIMEOUT since the last push, nothing changes |
| `Game.RestartBeginsWithGreen` | pyGame/Simulate.py:105-144 | the frame after a game over starts the new game with the pattern [Green] |
| `Game.ReplayCompletesRound` | pyGame/Simulate.py:91-134 | pressing the keys of the remaining buttons, one per frame and at any pace, wins the round: score up by one, step 0, playback next, same pattern |

## Left out

- Rendering is left out. This covers `drawButtons`, surface copies and blits, `convert_alpha`, the score and help text, and `pygame.display.update`. They are library calls with no logic of their own. An animation is modelled as the overlays it fills, not as pixels.
- Audio is left out. This covers `song`, `secondchannel`, loading the beep and game-over sounds, and playing them. It is I/O.
- `checkForQuit` and `terminate` are left out. They drain QUIT and KEYUP events and end the process. This is process control. Key-up events they re-post reach the frame loop as `OtherEvent`, which the fold ignores.
- Events that queue up during the blocking animations and waits are handled by the next frame. The model treats each frame's event list as given.
- Real time is left out. `time.sleep`, `pygame.time.wait` and `FPSCLOCK.tick` only pace the game. The float `time.time()` becomes an integer millisecond timestamp, passed in once per frame. The source reads the clock after the flash on a correct push and before the timeout test. Only one of the two readings is used in any frame, so one `now` per frame captures both.
- Randomness is left out. `random.choice` becomes the `randomPick` parameter, any of the four buttons. The three `random.randint(0, 255)` calls become the `newBg` parameter, required to have components in [0,255].
- The source picks the new background colour inside `changeBackgroundAnimation`. The model supplies it per frame, and it is used only in a frame that changes the background.
- Game.Simulate.Step: returns the effects in the order the source plays them. It does not model the one-second pauses between flashes or before a game-over background change.
