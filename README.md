# Simon game, modelled in Dafny

This project models a browser Simon game written in Rust for WebAssembly. The
game binds five page elements by id: four coloured panels and a score display.
It writes "High Score: 0" into the score element and plays a fixed intro
animation. Then it loops: it draws a random button, appends it to the colour
sequence, and replays the whole sequence. Each button is lit by appending
`" active"` to its panel's class name, held for 500 ms, and unlit by
`replace(" active", "")`. The loop's `running` flag is cleared whenever the
Blue button is played, so the game ends after the round in which the first
Blue is drawn. There is also an earlier build, `src/lib.rs`, whose
`run_simon` only binds the page and plays the intro.

Modules:

- `Active` (`active.dfy`): the marker `" active"`, the removal that
  `str::replace` performs (`RemoveMarker`, a left-to-right scan deleting
  non-overlapping occurrences), and an `Element` class with the two methods
  of the `Active` trait. `set_active` and `set_inactive` update
  `className` in place.
- `Page` (`page.dfy`):
  - the page as a map from id to element; what `GameElements::new` needs of
    it; the `GameElements` class;
  - what a run can be seen doing, as a trace of `Event`s: `Activate(panel)`,
    `Sleep` (one 500 ms pause), `Deactivate(panel)`, `SetScore(text)`;
  - what a trace does to the four class names (`Apply`, `Run`).
- `Intro` (`intro.dfy`): `run_game_intro` and `set_all_active_then_reset`,
  as methods that change the four elements and return the events they
  produce. The first phase of `run_game_intro` (its five paragraphs before
  the three calls) is a method of its own, `FlashEachInTurn`. The fixed
  traces they follow are defined beside them.
- `SimonGame` (`simon_game.dfy`):
  - `ChosenButton` and `sample`;
  - the score text;
  - `run_simon` as methods with its `while` loop, its `for` loop and the
    loop's `match`;
  - the reference definitions `Game` (the draws up to and including the
    first Blue) and `Rounds` / `Replay` (the events of every round), against
    which the loops are proved.
- `EarlySimon` (`early_simon.dfy`): the intro-only `run_simon` of
  `src/lib.rs`. That file's `GameElements`, `Active` and `run_game_intro` /
  `set_all_active_then_reset` are textually the same as those of
  `simon_game/src/lib.rs`, so they share one model. The rows below that cite
  `src/lib.rs` state facts about that build.

Modelling decisions:

- The random source is an input. `draws` is the sequence of values
  `gen_range(0..=3)` returns. The game loop also stops when the draws run out,
  which the program never does. When the draws hold a Blue (a 3), the model's
  game is the program's whole game.
- The page is a parameter. `GameElements::new` calls `unwrap` on each look-up,
  so a missing id panics before anything else happens. The methods therefore
  require `Bindable(doc)`: all five ids present, bound to five different
  objects as unique DOM ids are. `FirstMissing` models the failing path: it
  finds the look-up that would panic.
- The marker is not de-duplicated. One might expect `set_active` to be
  idempotent, but the code appends the marker on every call. The model follows
  the code (`ActivateTwiceThenDeactivate`).
- The intro methods return, besides their events, a ghost list of the four
  class names before the first event and after each one. Each recorded state
  is the previous one with the next event applied (`Stepwise`), and the last
  is the state the method leaves. Each body reads the names from the elements
  right after every mutation and records them, so a body as written that
  mutated in another order than the events it reports would not verify. A
  contract cannot see the intermediate heaps by itself: the record is only as
  good as the reads that fill it.
- `run_simon` likewise returns a ghost record of the score text
  (`ScoreStepwise`). It reads the text before the score update, right after
  it, after the intro and after the game. The frames of the intro and the
  game keep them off `textContent`, so the text read after each of them
  stands for every point inside it.

## Model

| member | source | states |
|---|---|---|
| Active.Element.SetActive | simon_game/src/lib.rs:55-57 | the class name becomes the old one followed by `" active"`, 7 characters longer |
| Active.Element.SetInactive | simon_game/src/lib.rs:58-60 | the class name becomes the old one with every occurrence found by one left-to-right pass removed; a name with no marker is left unchanged |
| Active.RemoveMarker | simon_game/src/lib.rs:59 | the removal never makes a name longer |
| Active.RemoveMarkerIdentity | simon_game/src/lib.rs:58-60 | `set_inactive` leaves a name unchanged if and only if the name holds no marker, and makes a name that holds one strictly shorter |
| Active.RemoveAppendedMarker | simon_game/src/lib.rs:55-60 | unlighting a name just lit gives the same result as unlighting it before it was lit, whatever the name held: the marker cannot overlap itself |
| Active.ActivateThenDeactivate | src/lib.rs:31-37 | `set_active` then `set_inactive` restores any name without the marker |
| Active.ActivateTwiceThenDeactivate | simon_game/src/lib.rs:56-59 | two `set_active` calls append the marker twice (the name differs from one lit once), and one `set_inactive` still restores a marker-free name |
| Active.OnePassCanLeaveMarker | simon_game/src/lib.rs:59 | one `replace` pass over `"  activeactive"` leaves `" active"`: the removal can join two halves into a new marker |
| Active.MarkerTailHasNoSpace | simon_game/src/lib.rs:56 | only the first character of the marker is a space |
| Active.ContainsMarkerUncons | simon_game/src/lib.rs:59 | a non-empty name holds the marker exactly when it starts with it or its tail holds it |
| Page.FirstMissing | simon_game/src/lib.rs:38-46 | the first id in look-up order that the page lacks (the `unwrap` that panics), with every earlier id present; none exactly when all ids are present |
| Page.BindingFailsOnlyOnMissingId | src/lib.rs:15-23 | binding the five ids fails exactly when one of `green_button`, `red_button`, `yellow_button`, `blue_button`, `user_score` is missing |
| Page.GameElements.constructor | simon_game/src/lib.rs:38-46 | each field is the element with its id, and the five are different objects |
| Page.ApplyTouchesOnlyItsPanel | simon_game/src/lib.rs:55-60 | an activation appends the marker to its own panel, a deactivation removes markers from its own panel, and no event changes another panel's name |
| Page.RunAppend | simon_game/src/lib.rs:128-150 | running two traces one after the other is running their concatenation |
| Page.RunSnoc | simon_game/src/lib.rs:128-150 | running one more event applies it to the state reached |
| Page.StepwiseStart | simon_game/src/lib.rs:128 | before any event, the start is the only recorded state |
| Page.StepwiseSnoc | simon_game/src/lib.rs:129-130 | recording an event and the state it leads to keeps every state the previous one with the next event applied |
| Page.StepwiseAppend | simon_game/src/lib.rs:147-149 | a call's recorded states, continuing from the caller's last one, extend the caller's record |
| Page.StepwiseTraced | simon_game/src/lib.rs:128-164 | states recorded one event at a time are, at every point, the names that running the trace so far gives |
| Page.TracedLast | simon_game/src/lib.rs:128-164 | the last recorded state is the one the whole trace reaches |
| Page.ScoreStepwiseSnoc | simon_game/src/lib.rs:91-93 | recording the score update and the text read after it keeps each recorded text the one before after the next event |
| Page.ScoreStepwiseUntouched | simon_game/src/lib.rs:95-125 | events that never set the score (the intro, the rounds) keep the text read before them at every point they reach |
| Page.ScoreKept | simon_game/src/lib.rs:88-125 | a score set by the first event and by no later one reads that text at every point after the first event |
| Page.StepFlashesItsPanel | simon_game/src/lib.rs:101-104 | one lit–pause–unlit cycle sets only its own panel's name, to the old name with a marker appended and then removed |
| Page.StepTouchesOnlyItsPanel | simon_game/src/lib.rs:99-123 | at no point of a panel's cycle does another panel's class name change |
| Page.FlashedRestores | simon_game/src/lib.rs:152-163 | lighting and unlighting all four panels restores marker-free names |
| Page.StepRestores | simon_game/src/lib.rs:101-104 | one cycle on a panel restores marker-free names |
| Page.Flashes | simon_game/src/lib.rs:99-124 | a series of cycles has three events per panel |
| Page.FlashesAt | simon_game/src/lib.rs:99-124 | the `i`-th panel's cycle sits at positions `3i` to `3i+2`, so cycles follow the panels' order |
| Page.FlashesRestore | simon_game/src/lib.rs:99-124 | a series of cycles from marker-free names leaves every name as it was |
| Page.FlashesLeaveScore | simon_game/src/lib.rs:99-124 | a series of cycles never sets the score |
| Page.FlashesLightOneAtATime | simon_game/src/lib.rs:99-124 | from marker-free names, at every point of a series of cycles at most one panel holds the marker |
| Intro.SetAllActiveThenReset | simon_game/src/lib.rs:152-164 | the method produces all four activations, a pause, all four deactivations and a pause; each recorded state is the one before with that event applied, the last is the names it leaves, each panel is flashed once, and at the first pause every name carries the marker |
| Intro.AllOnOffStates | simon_game/src/lib.rs:152-164 | states recorded along `set_all_active_then_reset` end with every panel flashed once, and at the first pause every name is its start plus the marker |
| Intro.AllOnOffOneByOne | simon_game/src/lib.rs:153-163 | the events of `set_all_active_then_reset`, in the order its statements run, are its fixed trace |
| Intro.AllOnOffFlashesEach | src/lib.rs:74-86 | `set_all_active_then_reset` lights and unlights each panel once, with no other effect on the names |
| Intro.AllOnOffLightsAll | src/lib.rs:74-79 | during the first pause of `set_all_active_then_reset` every panel's name is its old one plus the marker, so all four are lit |
| Intro.FlashEachInTurn | simon_game/src/lib.rs:129-145 | the first phase produces the four flashes in intro order and a last pause; each recorded state is the one before with that event applied, the names end flashed once, and from marker-free names at most one panel is lit at every point |
| Intro.IndividualPhaseStates | simon_game/src/lib.rs:129-145 | states recorded along the first phase end with every panel flashed once, and from marker-free names at most one panel is lit at each point |
| Intro.RunGameIntro | simon_game/src/lib.rs:128-150 | the method produces the individual phase followed by three `set_all_active_then_reset` traces; each recorded state is the one before with that event applied, the names end as the events make them, and from marker-free names at most one panel is lit at every point of the first phase |
| Intro.IntroSplice | simon_game/src/lib.rs:128-150 | the first phase's record followed by those of the three `set_all_active_then_reset` calls, each continuing from the last state before it, is a record of the whole intro and agrees with the first phase's record through that phase |
| Intro.IndividualPhaseOneByOne | simon_game/src/lib.rs:129-145 | the events of the first phase, in the order its statements run, are the four flashes in intro order and a last pause |
| Intro.IndividualPhaseOrder | src/lib.rs:51-67 | the first phase flashes Green, Red, Yellow, Blue in that order, each unlit before the next is lit, then pauses once more |
| Intro.IndividualPhaseFlashesEach | simon_game/src/lib.rs:129-145 | the first phase lights and unlights each panel once, with no other effect on the names |
| Intro.IndividualPhaseLightsOneAtATime | src/lib.rs:51-67 | from marker-free names, at most one panel holds the marker at any point of the first phase |
| Intro.IntroRestores | src/lib.rs:50-86 | the intro acts on the names as four flashes of every panel, and restores every marker-free name |
| Intro.Occurrences | simon_game/src/lib.rs:128-164 | an event occurs in a trace no more often than the trace is long, and zero times exactly when it is absent |
| Intro.OccurrencesAppend | simon_game/src/lib.rs:128-164 | occurrences in a concatenation add up |
| Intro.OccurrencesSnoc | simon_game/src/lib.rs:128-164 | one more event adds one occurrence of itself and none of anything else |
| Intro.FourOccurrences | simon_game/src/lib.rs:153-157 | occurrences in a four-panel step followed by a pause |
| Intro.StepOccurrences | simon_game/src/lib.rs:129-145 | a cycle holds its activation, one pause and its deactivation once each, and nothing else |
| Intro.AllOnOffOccurrences | src/lib.rs:74-86 | `set_all_active_then_reset` activates and deactivates each panel once and pauses twice |
| Intro.IntroOccurrences | simon_game/src/lib.rs:128-164 | the intro holds each activation and each deactivation 4 times, 11 pauses and no score update |
| Intro.IntroCounts | src/lib.rs:50-86 | the intro pauses 11 times, activates and deactivates each panel 4 times, and never sets the score |
| SimonGame.Sample | simon_game/src/lib.rs:73-79 | a draw gives Blue exactly when it is not 0, 1 or 2 |
| SimonGame.DrawOf | simon_game/src/lib.rs:73-79 | each button comes from a draw in `0..=3` |
| SimonGame.SampleIsBijective | simon_game/src/lib.rs:73-79 | 0, 1, 2 and 3 give Green, Red, Yellow and Blue; on `0..=3`, `sample` is one to one and onto the four buttons |
| SimonGame.DrawnAppend | simon_game/src/lib.rs:98 | each button depends only on its own draw: the buttons of two runs of draws, one after the other, are each run's buttons |
| SimonGame.DrawnPrefix | simon_game/src/lib.rs:98 | the buttons of the first `k` draws are the first `k` buttons |
| SimonGame.Game | simon_game/src/lib.rs:97-125 | the colours played are a prefix of the drawn ones, with no Blue before the last; the prefix ends in a Blue when one is drawn, and holds every draw otherwise |
| SimonGame.GameIsFirstBlue | simon_game/src/lib.rs:97-125 | a prefix of the drawn buttons with no Blue before its end, that either ends in a Blue or takes every draw, is the game's colour sequence |
| SimonGame.GameHasOneBlue | simon_game/src/lib.rs:116-121 | a game that ends holds exactly one Blue |
| SimonGame.OnlyLastBlue | simon_game/src/lib.rs:116-121 | a sequence whose only Blue is its last colour holds one Blue |
| SimonGame.GameStopsAtFirstThree | simon_game/src/lib.rs:87-121 | for draws in `0..=3`, the colours are the draws up to and including the first 3, one per draw and in order |
| SimonGame.PanelsAppend | simon_game/src/lib.rs:99-123 | each colour's match arm picks its panel independently of the others: the panels of two sequences one after the other are each sequence's panels |
| SimonGame.ReplayOrder | simon_game/src/lib.rs:99-123 | in a round, the `i`-th colour's cycle sits at positions `3i` to `3i+2`: the whole sequence is replayed in insertion order |
| SimonGame.ReplaySnoc | simon_game/src/lib.rs:99-124 | a round over one more colour is the shorter round followed by that colour's cycle, and the longer sequence holds a Blue exactly when the shorter does or the new colour is Blue |
| SimonGame.RoundsSnoc | simon_game/src/lib.rs:97-125 | pushing a colour adds one round, which replays the longer sequence |
| SimonGame.RoundsLength | simon_game/src/lib.rs:97-125 | a game over `n` colours plays `n(n+1)/2` cycles, three events each |
| SimonGame.RoundsPrefix | simon_game/src/lib.rs:97-124 | round `i+1` replays the first `i+1` colours, and the earlier rounds are a prefix of all rounds |
| SimonGame.RoundsLeaveScore | simon_game/src/lib.rs:97-125 | no round sets the score |
| SimonGame.RoundsRestore | simon_game/src/lib.rs:97-125 | from marker-free names, the rounds leave every name as it was |
| SimonGame.RoundsLightOneAtATime | simon_game/src/lib.rs:97-125 | from marker-free names, at most one panel holds the marker at any point of the rounds |
| SimonGame.DecimalString | simon_game/src/lib.rs:93 | `{}` of a length is a non-empty string of decimal digits with no leading zero |
| SimonGame.DecimalRoundTrip | simon_game/src/lib.rs:93 | reading those digits back gives the length |
| SimonGame.ScoreText | simon_game/src/lib.rs:93 | the score text is `"High Score: "` followed by digits that read back as the length |
| SimonGame.ScoreAtStart | simon_game/src/lib.rs:88-93 | the text shown for the empty sequence is `"High Score: 0"` |
| SimonGame.FlashButton | simon_game/src/lib.rs:100-123 | one arm of the match produces its panel's cycle and leaves the names as that cycle makes them |
| SimonGame.PlayRound | simon_game/src/lib.rs:99-124 | the `for` loop produces the replay of the whole sequence and updates the names accordingly; `running` stays set exactly when it was set and the sequence holds no Blue |
| SimonGame.PushDrawn | simon_game/src/lib.rs:98 | each push appends the next draw's button, so after `k` rounds the sequence is the first `k` draws |
| SimonGame.PlayGame | simon_game/src/lib.rs:97-125 | started from `run_simon`'s `running`, still set, and its empty `color_sequence`, the `while` loop ends with the game's colour sequence, with `running` still set exactly when no Blue was drawn, having produced all the rounds and updated the names accordingly |
| SimonGame.RunSimon | simon_game/src/lib.rs:84-126 | `run_simon` sets the score to the text for the empty sequence's length 0, plays the intro and then the rounds of the game's colour sequence; the names end as those events make them, and the score record read from the element shows each text as the one before after the next event, starts at the old text and reads the text for 0 from the first event to the end |
| SimonGame.GameScoreRecord | simon_game/src/lib.rs:88-126 | a score text of 0 read after the update, and unchanged after the intro and after the game, makes a record of the whole log that reads the text for 0 at every point after the first event |
| SimonGame.GameRestores | simon_game/src/lib.rs:84-126 | from marker-free names, a whole game leaves every panel's class name as it was |
| SimonGame.ScoreSetOnce | simon_game/src/lib.rs:88-95 | the score is set once, as the first event, and never again |
| SimonGame.BlueFirstEndsAfterOneRound | simon_game/src/lib.rs:97-125 | a first draw of 3 gives one round with a single cycle on Blue |
| SimonGame.GreenRedBlueScenario | simon_game/src/lib.rs:97-125 | draws 0, 1, 3 give three rounds, replaying Green, then Green and Red, then Green, Red and Blue, and the game ends |
| EarlySimon.RunSimon | src/lib.rs:41-48 | the earlier `run_simon` produces exactly the intro and no score update or draw; its recorded states follow the events one by one, the names end as the intro makes them, marker-free names are restored, and at most one panel is lit at every point of the first phase |

## Left out

- `greet`, the `alert` import and the `wee_alloc` allocator are WebAssembly glue with no logic.
- `web_sys::window()` and `document()` are left out: the page is the parameter `doc`. A missing window or document, which makes `expect` panic, is not modelled.
- Real time is left out. `sleep(Duration::from_millis(500)).await` is one `Sleep` event, and `await` scheduling is not modelled. The methods do not emit `Sleep`; the traces they return do.
- The distribution of `rand::random()` / `gen_range(0..=3)` is left out. The draws are an input sequence, so uniformity is not modelled.
- SimonGame.PlayGame: stops when the draws run out without a Blue. The program would keep drawing, and its non-termination is not modelled. Every statement about the end of a game assumes a 3 among the draws.
- Page.GameElements.constructor: requires every id to be present. A missing id makes the program panic before any element is touched; `FirstMissing` names that case, but no method models the panic.
- Player input, scoring beyond the initial text, and restarting a game do not exist in the code, so they are not modelled.
- Class names and text are DOM strings (UTF-16), which wasm-bindgen converts to and from Rust `String`s; the model uses `seq<char>`. The marker is ASCII, so appending it and `replace` act the same in either encoding. Only the lossy conversion of unpaired surrogates is not modelled.
- SimonGame.RunSimon: the score record is read at four points (before the update, after it, after the intro and after the game). A write that is overwritten before the next read, with no event in between, is not seen by it.
- The model does not claim that no marker is left after `set_inactive`. One `replace` pass can create a new occurrence (`OnePassCanLeaveMarker`).
- The model does not claim the marker is idempotent. Repeated `set_active` calls duplicate it (`ActivateTwiceThenDeactivate`).
