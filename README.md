# RustyJam buttons: a verified model of the per-frame button state machine

RustyJam is a small Bevy/egui toy that draws clickable buttons on screen.
Some buttons reveal the letters of a secret word one click at a time. Some
blink on a timer, and some move along a closed path of waypoints. A press
that hits no button flashes an "ILLUSION" message. This project models the
game logic under the engine callbacks in `src/main.rs`, and proves what each
system does to the world in one frame.

The model has five modules:

- `Wrappers` (`wrappers.dfy`): `Option`, for components an entity has or lacks.
- `Egui` (`egui.dfy`): the egui types the game uses (`Pos2`, `Vec2`, `Rect`,
  `Color32`), on reals.
- `Flash` (`flash.dfy`): `FlashMessage` and the expiry filter of `flash_message`.
- `GameButton` (`game_button.dfy`): the components of the source's `GameButton`
  module. An entity is one record with an optional slot per component, and a
  system's query matches an entity when all the components it names are
  present. For each system there is a pure function giving the update it makes
  to one entity, `move_towards` among them. Lemmas state what these updates
  promise.
- `Game` (`world.dfy`): the class `World`, whose fields are the entities, the
  `GeneralInput` resource and the live flash messages. Each Bevy system is a
  method that loops over the entities and updates them in place. `Frame` runs
  the systems in the order `main` registers them.

Inputs the engine provides become parameters:

- the time since start-up, `now`;
- the frame duration, `delta`;
- whether any pointer button was pressed this frame, `anyPressed`;
- egui's hit test, as the set `downOn` of entity indices whose widget has the pointer down on it;
- the Euclidean vector length, as a function `len` of which only `len(0) == 0` is assumed.

Three behaviours of the code that a reader might not expect, all modelled as written:

- The reveal cursor is not kept below the length of the secret string.
  `current_index += 1` is unbounded, and only the text shown becomes "" past the end.
- One "ILLUSION" message is spawned per letter button on a missed press.
  The code does not require the button to be the only target.
- A blink phase that has ended is replaced by a phase ending at `now + hidden`,
  not at the old deadline plus `hidden`. Both phases use `hidden`, as the code does.

## Model

| member | source | states |
|---|---|---|
| `GameButton.ResetEntity` | src/main.rs:171-173 | the click flag of an entity with a `UserInput` becomes false; no other component or field changes |
| `Game.World.ResetInput` | src/main.rs:167-176 | every entity is reset as `ResetEntity` says, no flag is left set, `catched == 0` and `clicks == 0`, and the messages are untouched |
| `GameButton.DisplayEntity` | src/main.rs:156-159 | the flag afterwards is the old flag or "caught"; nothing else changes |
| `GameButton.CountCatches` | src/main.rs:149-159 | the number `display_buttons` adds to `catched`; its own contract is only a bound (at most the number of entities, 0 when no press happened), and what it counts is stated by `CountCatchesZero` and `CountClickedIsCountCatches` |
| `GameButton.CountCatchesZero` | src/main.rs:156-159 | `catched` gains nothing exactly when no entity is visible, in the query, under the pointer and pressed; this is the miss test of src/main.rs:120 |
| `GameButton.CountCatchesSameButtons` | src/main.rs:171-174 | the catch count depends only on the button info and on having a `UserInput`, so clearing the flags first does not change it |
| `GameButton.CountClicked` | src/main.rs:157 | the number of flagged entities; its own contract is only the bound by the number of entities, and its meaning is stated by `CountClickedIsCountCatches` |
| `GameButton.CountClickedIsCountCatches` | src/main.rs:156-159 | when exactly the entities that caught the press are flagged, `catched` equals the number of flagged entities |
| `Game.World.DisplayButtons` | src/main.rs:141-166 | each entity is updated with "caught" = in the query, visible, under the pointer and pressed; `catched` rises by `CountCatches`; `clicks` is 1 if a press happened and unchanged otherwise |
| `GameButton.Take` | src/main.rs:122 | `chars().take(n)` is the prefix of length min(n, length) |
| `GameButton.Skip` | src/main.rs:135 | `chars().skip(n)` holds the characters from position n on, and is empty past the end |
| `GameButton.CharAt` | src/main.rs:132-137 | the shown text is the one character at the cursor, or "" when the cursor is at or past the end; it is never longer than one character |
| `GameButton.Illusion` | src/main.rs:124-128 | the spawned message reads "ILLUSION", is yellow, and its expiry time is exactly `now + 0.5`: live now, expired half a second later |
| `GameButton.LettersEntity` | src/main.rs:119-139 | `button_letters` changes only a letter button's cursor and text (the secret string, rectangle and visibility are kept), leaves it alone when there is neither a miss nor a click, and writes a text of at most one character |
| `GameButton.LettersEntityEffect` | src/main.rs:120-138 | a click (no miss) moves the cursor from k to k+1 and shows the character at k+1; a miss rewinds to 0 and shows the first character; both together give cursor 1; neither changes nothing; string, rectangle and visibility are kept |
| `GameButton.LetterCount` | src/main.rs:119 | the number of letter buttons; its own contract is only the bound by the number of entities, and `LetterCountSameQuery` states what it depends on |
| `GameButton.LetterCountSameQuery` | src/main.rs:119-129 | the number of "ILLUSION" messages spawned depends only on which entities match the letters query |
| `Game.World.ButtonLetters` | src/main.rs:113-140 | each entity is updated as `LettersEntity` says with the frame's counters; on a miss the messages gain one `Illusion(now)` per letter button, otherwise none; the old messages are kept in front |
| `GameButton.BlinkEntity` | src/main.rs:96-111 | an ended `Visible` phase becomes `Hidden(now + hidden)` with the flag false; an ended `Hidden` phase becomes `Visible(now + hidden)` with the flag true; a phase not yet ended, or an entity outside the query, is unchanged; only the phase and the visibility flag change |
| `GameButton.BlinkMatchesPhase` | src/main.rs:98-109 | after any flip the visibility flag agrees with the phase, and once it agrees it keeps agreeing |
| `GameButton.BlinkNewPhaseInFuture` | src/main.rs:100-106 | with a positive duration the new phase ends after `now`, so a step flips at most once |
| `GameButton.BlinkIgnoresDisplayed` | src/main.rs:50-53 | the `displayed` duration is never read: changing it changes nothing else |
| `GameButton.BlinkCycle` | src/main.rs:97-110 | a button starting `Visible(t + 2)` hides at any time `t1 >= t + 2`, until `t1 + hidden`, and shows again at any later time `t2 >= t1 + hidden` |
| `Game.World.ButtonBlink` | src/main.rs:91-112 | each entity steps as `BlinkEntity` says; the resource and the messages are untouched |
| `GameButton.MoveTowards` | src/main.rs:68-75 | the result is exactly the target iff the distance is at most `max_distance` or is 0 |
| `GameButton.StepMissesTarget` | src/main.rs:74 | a straight-line step shorter than a non-zero distance does not land on the target |
| `GameButton.MoveEntity` | src/main.rs:81-87 | an in-range waypoint index stays in range; the corner goes where `move_towards` puts it; the size is kept; the corner equals the waypoint iff it was within `speed * delta` or already there; the index advances by one modulo the path length exactly then; nothing else changes |
| `GameButton.MoveEntityFrame` | src/main.rs:82-87 | what `button_move` writes depends only on the mover components and the rectangle |
| `Game.World.ButtonMove` | src/main.rs:76-89 | each entity steps as `MoveEntity` says, and every waypoint index stays in range |
| `GameButton.BlinkEntityFrame` | src/main.rs:96-110 | what `button_blink` writes depends only on the blink components and the visibility flag |
| `GameButton.LettersBlinkCommute` | src/main.rs:194-195 | `button_letters` and `button_blink` commute on every entity |
| `GameButton.LettersMoveCommute` | src/main.rs:194-196 | `button_letters` and `button_move` commute on every entity |
| `GameButton.BlinkMoveCommute` | src/main.rs:195-196 | `button_blink` and `button_move` commute on every entity, so the order the scheduler picks within PostUpdate does not matter |
| `Flash.Unexpired` | src/main.rs:20-24 | the expiry filter; its own contract is only that no messages are added, and which messages survive is stated by `UnexpiredMembers`, `UnexpiredMultiplicity` and `UnexpiredAppend` |
| `Flash.UnexpiredAppend` | src/main.rs:20-24 | filtering distributes over concatenation (the order of the model's list; see "## Left out") |
| `Flash.UnexpiredMultiplicity` | src/main.rs:20-24 | each expired message loses all its copies, and each live one keeps all its copies (there is no deduplication) |
| `Flash.UnexpiredMembers` | src/main.rs:22-23 | a message survives iff it was there and `time_expire > now` |
| `Flash.UnexpiredAllLive` | src/main.rs:22 | when nothing has expired, nothing is despawned |
| `Flash.UnexpiredIdempotent` | src/main.rs:20-24 | a second pass at the same time removes nothing more |
| `Game.World.FlashMessages` | src/main.rs:10-27 | the messages become `Unexpired(old messages, now)`; entities and resource are untouched |
| `Egui.FromMinSize` | src/main.rs:84 | the rectangle has the given corner and the given size |
| `Game.World.constructor` | src/main.rs:183-186 | the world starts with the given entities, zero clicks and catches, and no messages |
| `Game.EntityFrame` | src/main.rs:191-196 | after a whole frame an entity's waypoint index is still in range, and its click flag is exactly "caught the press this frame" |
| `Game.EntityFrameLetters` | src/main.rs:120-138 | over a frame, a letter button that caught the press moves its cursor on by one and shows that character; on a miss it shows the first character with cursor 0; otherwise cursor and text are kept |
| `Game.World.Frame` | src/main.rs:191-196 | one frame in the registered order: `clicks` is 1 iff a press happened; `catched` is both the catch count and the number of clicked buttons; a button is clicked iff it caught the press; a miss happens iff there was a press and no button caught it, so a miss and a click never coincide; each entity ends as `EntityFrame` says; the messages are the unexpired old ones followed by one "ILLUSION" per letter button on a miss |

## Left out

- Bevy's `App`, the plugins and the stage registration are not modelled. `Frame` fixes the order: reset, then display and flash expiry, then letters, blink and move. Within a stage the scheduler's order is open. The commute lemmas, and the disjoint fields of the Update systems, show that this order does not change the result.
- Drawing is not modelled: the egui `Area`s, `allocate_ui_at_rect`, buttons, labels, colours and the flash labels. A hidden button is drawn as a plain label. The model takes that such a label never reports the pointer down on it, so a hidden button cannot be caught.
- egui's `is_pointer_button_down_on` and `any_pressed` are foreign calls. The model takes their results as the inputs `downOn` and `anyPressed`.
- The order of the flash messages is the model's, not the program's. Bevy's query order and its swap-removing despawn can reorder the live messages, so only the multiset of messages, stated by `UnexpiredMultiplicity`, is the program's. Nothing in the game reads this order; it only decides the order labels are drawn in.
- `Commands` are not modelled. A despawn is a removal from the message list. The messages `button_letters` spawns are appended once the system has run, as Bevy applies the command buffer at the end of the stage.
- f32 arithmetic is replaced by reals. There is no rounding, so the size kept by `Rect::from_min_size` and the exact-equality test `new_pos == target` are exact here.
- The Euclidean length needs a square root, so it is a parameter, and only its value at 0 is fixed.
- GameButton.MoveTowards: does not state that a step covers exactly `max_distance` or never overshoots, because that needs the Euclidean length, which is a parameter here. For the same reason, the model does not prove the "reaches P1 after enough frames" behaviour of the mover.
- `usize` counters are unbounded naturals. An overflow of `catched` or `current_index` is not modelled.
- Indexing `def.path` panics when `target_index` is out of range, and an empty path panics too. `ButtonMove` and `Frame` require every mover's index to be in range, and prove that this is preserved.
- `setup_level`'s constants are not modelled. `BlinkCycle` covers the blink schedule `setup_level` creates, `Visible(t + 2)`.
- The "win tracker" prototype is not part of this model. It is not in `src/main.rs`.
- Strings are sequences of Unicode scalar values, as `chars()` yields them. There is no grapheme handling.
