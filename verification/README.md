# rpg-rs terminal interface core, in Dafny

This project models the two pieces of logic in the terminal front-end of
rpg-rs.

- **The button widget** (`src/interface/widgets/button.rs`). A `Button` binds
  one `KeyCode` to a producer of game events. `handle_trigger` emits the
  produced event exactly when the pressed key is the button's trigger.
  `KeyCodeFormatter` renders a key for display: a character as its capital,
  a function key as `F` followed by its number. A bare modifier key is
  unreachable there.
- **The application loop** (`src/interface/app.rs`). `App::run` acquires
  the terminal and runs a loop body. Each iteration draws a frame and then
  reads one input event. The event goes to `handle_event`, which says
  whether to quit. After the body returns, the terminal is restored. A draw
  failure restores the terminal inside the body too, so that path restores
  twice.

Files:

- `keys.dfy`, module `Keys`: key codes, ASCII upper-casing, decimal
  rendering with its parser, and the key display.
- `button.dfy`, module `Buttons`: `Button<E>`, generic over the event type
  `E`, with the producer stored as a function value `() -> E`.
- `app.dfy`, module `App`: the error type, the terminal replaced by a script
  of per-iteration outcomes, the loop body `Core` and `Run`. Both return a
  trace of terminal actions (`Init`, `Draw`, `Read`, `Restore`).
- `app_proofs.dfy`, module `AppProofs`: closed forms of every exit path,
  restore and draw/read counts, which error is returned when, and `RunLoop`.
  `RunLoop` is the loop written imperatively with early returns, proved
  equal to `Run`.

The terminal is modelled as a script. Tick `k` holds the outcome of the
`k`-th draw (ok, or an I/O error) and of the `k`-th read (an event, or an
I/O error). The read outcome is ignored when the draw fails. The event
handler is a parameter `handle: Ev -> bool`; the application's own handler
is `App.HandleEvent`, which always returns true. The real loop runs until
it exits. When the script ends before that, the model reports the run as
`Running` with the actions so far.

The button's `label` field is called `text` in the model, because `label`
is a reserved word in Dafny.

## Model

| member | source | states |
|---|---|---|
| Keys.Upper | src/interface/widgets/button.rs:34 | the capital is never a lower-case ASCII letter; a lower-case letter maps to its capital, anything else is unchanged |
| Keys.UpperIdempotent | src/interface/widgets/button.rs:34 | upper-casing a capital changes nothing |
| Keys.UpperSameIff | src/interface/widgets/button.rs:34 | two characters upper-case alike exactly when they are equal or the two cases of one letter |
| Keys.Decimal | src/interface/widgets/button.rs:35 | the number's decimal text is non-empty, all digits, with no leading zero |
| Keys.DecimalRoundTrip | src/interface/widgets/button.rs:35 | parsing the decimal text gives back the number |
| Keys.DecimalInjective | src/interface/widgets/button.rs:35 | different numbers have different decimal texts |
| Keys.CanonicalDecimalUnique | src/interface/widgets/button.rs:35 | any digit string without leading zeros is the decimal text of the number it denotes, so "digits, no leading zero, parses back to n" fixes the text exactly |
| Keys.DecimalLengthU8 | src/interface/widgets/button.rs:35 | an 8-bit function-key number takes at most three digits |
| Keys.Display | src/interface/widgets/button.rs:31-42 | defined for every key except a bare modifier; a character shows as its single capital; `F(n)` shows as `F` followed by the decimal digits of `n`, no leading zero (1 to 3 digits that parse back to `n`) |
| Keys.DisplaySameIff | src/interface/widgets/button.rs:31-42 | two keys display alike exactly when they are the same key or the two cases of one letter |
| Buttons.NewThen | src/interface/widgets/button.rs:84-86 | the button keeps the given label, trigger and producer |
| Buttons.New | src/interface/widgets/button.rs:71 | the button keeps the given label and trigger, and its producer returns the given event |
| Buttons.HandleTrigger | src/interface/widgets/button.rs:109 | an event comes out if and only if the key equals the trigger, and it is the producer's event |
| Buttons.NewIsNewThenConstant | src/interface/widgets/button.rs:71 | on every key, `new` behaves like `new_then` with a producer that returns the constant; it yields that event exactly on the trigger |
| Buttons.NewAlwaysSameEvent | src/interface/widgets/button.rs:71 | over any sequence of presses, a constant button yields the same event on every match and nothing on every other key |
| Buttons.NonMatchIgnoresProducer | src/interface/widgets/button.rs:109 | on a non-matching key, the answer is None whatever the producer is |
| App.HandleEvent | src/interface/app.rs:97 | the application's handler asks to quit on every event |
| App.Core | src/interface/app.rs:56-76 | the body keeps looping exactly when every iteration draws, reads and is told not to quit; every read comes right after a draw; a body still looping has not restored the terminal |
| App.Run | src/interface/app.rs:53-82 | the terminal is acquired first and once; a run that returns ends with a restore; a run still looping has not restored; every read comes right after a draw |
| AppProofs.CoreStopsFirst | src/interface/app.rs:60-72 | an iteration that fails to draw, fails to read or is told to quit ends the body, with the matching result and actions |
| AppProofs.CoreStopsAt | src/interface/app.rs:57-75 | before the first stopping iteration the body performs plain draw-read rounds; that iteration alone decides the result |
| AppProofs.CoreAllContinue | src/interface/app.rs:57-74 | while no iteration stops, the body performs one draw-read round per iteration and no exit |
| AppProofs.RunStopsAt | src/interface/app.rs:53-82 | a run stopping at iteration k returns that iteration's result, after init, k rounds, that iteration's actions and a final restore |
| AppProofs.RunQuits | src/interface/app.rs:66-81 | when the handler asks to quit at iteration k, the run returns Ok after k+1 draw-read rounds and one restore |
| AppProofs.RunRenderFails | src/interface/app.rs:60-81 | a draw failure at iteration k returns Render carrying that error, with no read in that iteration and two restores |
| AppProofs.RunReadFails | src/interface/app.rs:66-81 | a read failure at iteration k returns EventRead carrying that error, with one restore |
| AppProofs.RunKeepsLooping | src/interface/app.rs:57-74 | while the handler declines, the run repeats draw-read rounds and never restores |
| AppProofs.RunRenderIff | src/interface/app.rs:60-62 | the run returns Render(e) if and only if the first stopping iteration failed to draw with e |
| AppProofs.RunEventReadIff | src/interface/app.rs:66-72 | the run returns EventRead(e) if and only if the first stopping iteration drew and then failed to read with e |
| AppProofs.RunOkIff | src/interface/app.rs:66-75 | the run returns Ok if and only if the first stopping iteration drew, read, and was told to quit |
| AppProofs.RestoreCount | src/interface/app.rs:53-82 | init happens once; a returned run restores twice after a render failure and once otherwise; a running one has not restored |
| AppProofs.DrawReadCounts | src/interface/app.rs:57-74 | a run stopping at iteration k draws k+1 times, and reads k times after a render failure or k+1 times otherwise |
| AppProofs.AppRunsOnce | src/interface/app.rs:97 | with the application's handler, any non-empty script returns after one draw and at most one read, with the first iteration's result |
| AppProofs.RunLoop | src/interface/app.rs:53-82 | the loop written with early returns and a break computes exactly what `Run` computes, on every script and handler |

## Left out

- Terminal effects (`ratatui::init`, `ratatui::restore`, `Terminal::draw`, `crossterm::event::read`): these are foreign library calls. They are replaced by the script of outcomes and the action trace.
- The `log::trace!` call in the loop (app.rs:59) writes a log line only and changes no behaviour.
- `Button::draw` (button.rs:96) is syntactically incomplete (`self.trigger.`), so its output cannot be read off the code. No label format is modelled.
- `App::draw` (app.rs:106) has an empty body. The frame it would draw is not modelled, only whether drawing succeeded.
- Keys.Upper: only ASCII `a`–`z` are upper-cased. Rust's `char::to_uppercase` also maps other letters, and can expand one character into several (`ß` becomes `SS`).
- Keys.KeyCode: has only the three variants the formatter's match names (`Char`, `F`, `Modifier`). That match (button.rs:32-41) does not cover all of the backend's `KeyCode` variants (Enter, Esc, arrows, ...), which the Rust compiler rejects as a non-exhaustive match. As a consequence a model button cannot be bound to Enter or Esc, while `new_then` (button.rs:84) accepts any `KeyCode`. The properties of `Buttons.HandleTrigger` hold for any key type with equality and do not depend on this.
- Keys.Display: a bare modifier key is excluded by a precondition. In the code it panics through `unreachable!()`. `new_then` does not reject such a trigger, and neither does the model.
- Buttons.HandleTrigger: that it leaves the button unchanged (it takes `&self`) holds by construction. A `Button` is an immutable value and the function returns only an `Option`.
- Buttons.NewThen: the producer is a pure function value `() -> E`. A Rust closure can read external state that changes between calls; that dependence is not modelled.
- The `label: impl Display` argument is modelled as the string `label.to_string()` produces.
- The contents of `Event` (src/state/events.rs:20, an empty enum) are not modelled. The event type is the type parameter `E`, so the button properties are not vacuous.
- A first-match dispatcher over several buttons, and validating triggers when a button is built: neither exists in the code, so neither is modelled.
- App.Core: `handle_event` takes `&mut self` (app.rs:97), so the source's handler may answer differently for two equal events; the model's handler `handle: Ev -> bool` is pure. Nothing is lost, because `Ev` is a type parameter: taking `Ev` as pairs of an event and a decision, with `handle := p => p.1`, gives any sequence of decisions.
- App.Run: the real loop can run forever. A finite script stands in for it, and a run the script does not finish is reported as `Running`.
- IoError is opaque. It is modelled as a distinguishable identifier, so that each error can be traced back to the operation that failed.

## Observations

The comments at app.rs:54-55 and app.rs:78 say the body is wrapped in a
closure so that every way of quitting restores the terminal after it. The
draw-failure branch still calls `ratatui::restore` itself (app.rs:61), so
that path restores twice, once there and once at app.rs:80. The model
follows the code: AppProofs.RestoreCount and AppProofs.RunRenderFails
state the count of two.
