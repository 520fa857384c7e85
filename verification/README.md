# Greed: the director's frame step

A Dafny model of the game logic of "Greed", a small arcade game in which a
robot steered by the arrow keys collects falling `*` glyphs (+1 point) and
avoids falling `O` glyphs (−1 point). The model covers the director (its score,
its playing flag, `__init__`, `_get_inputs` and `_do_updates`) and the scoring
rule of a falling object (`calculate_points`), as pure functions over immutable
values:

- `decimal.dfy` — `Options.Option`; module `Decimal`: Python's `str(int)` as the
  banner's f-strings use it, with a parser proved to be its inverse.
- `casting.dfy` — module `Casting`: `Point`, `Color`, `Actor`, `move_next` over an
  abstract position rule, `CalculatePoints`, and the cast as three fixed groups
  (one banner, one robot, an ordered sequence of falling objects). Since the
  banner and the robot are fields rather than list entries, only the falling
  objects can ever be removed.
- `directing.dfy` — module `Directing`: the director, `GetInputs`, `DoUpdates`,
  the banner texts and their decoder, `Run` (one frame per keyboard direction),
  and the lemmas.

The bodies of `Actor.move_next` and of `Cast` are not part of this model, so
both are abstracted. The rule by which an
actor moves (position, velocity, canvas width and height to new position) is a
parameter `move` of every operation, and every property holds for every such
rule. Whether `get_actors` returns a copy of the group or the live list it
removes from is not fixed by the director's code, and the two behave
differently, so each frame takes a `Reading`:

- `Snapshot` (a copy): every object is compared with the robot's position; the end
  condition `all(text == 'O')` ranges over the objects present at the start
  of the frame, removed ones included.
- `LiveList`: Python's list iterator skips the object right after each removed
  one (it is neither compared nor moved that frame), and the end condition
  ranges over the objects that remain. `LiveLoop` is that index-based loop
  written out step by step; it is proved equal to the per-object description
  `LiveFates`.

The properties that hold under both readings are stated for both; the two
that differ are stated per reading. Under `Snapshot`, a robot that catches the
only object, a `*`, leaves the banner reading "Score: 1" and play goes on,
because the copy still holds the `*`. Under `LiveList` the emptied group ends
the game. `RewardCaughtOnFirstFrame` proves both.

## Model

| member | source | states |
|---|---|---|
| `Casting.CalculatePoints` | 04/greed/game/casting/falling_object.py:18-26 | the points are always +1 or −1, never the initial 0, and +1 exactly when the glyph is `*`; so `O`, the empty text and every other glyph give −1 |
| `Casting.PointsDependOnlyOnGlyph` | 04/greed/game/casting/falling_object.py:18-26 | two objects with the same text score alike whatever their position, colour or velocity |
| `Casting.PointsOfCountsGlyphs` | 04/greed/game/casting/falling_object.py:21-24 | the points of a group are its `*` objects counted positively and all its other objects negatively |
| `Decimal.IntToString` | 04/greed/game/directing/director.py:68 | the score is rendered as Python renders an int: non-empty, a leading `-` exactly for negative scores, digits only otherwise, and no leading zero (zero itself is exactly `0`) |
| `Decimal.IntRoundTrip` | 04/greed/game/directing/director.py:68 | parsing the rendered score gives the score back |
| `Decimal.IntToStringInjective` | 04/greed/game/directing/director.py:68 | distinct scores are rendered as distinct texts |
| `Directing.NewDirector` | 04/greed/game/directing/director.py:22-23 | a new director has score 0 and is playing |
| `Directing.GetInputs` | 04/greed/game/directing/director.py:44-46 | the robot's velocity becomes the keyboard direction; the robot's position, text and the rest of the robot, the banner and the falling objects are unchanged (score and flag are not even inputs) |
| `Directing.GetInputsLastWins` | 04/greed/game/directing/director.py:44-46 | only the last direction read matters, and reading the robot's current velocity changes nothing |
| `Directing.BannerTextsDecode` | 04/greed/game/directing/director.py:68-74 | both banner texts, "Score: n" and "GAME OVER. Final Score: n", decode back to the score and the playing flag |
| `Directing.SnapshotFates` | 04/greed/game/directing/director.py:62-66 | iterating over a copy, every object is compared with the robot's position: it is removed exactly when it stands on the robot's position, and otherwise kept and moved |
| `Directing.LiveFatesVisit` | 04/greed/game/directing/director.py:62-66 | iterating over the live list, the object right after a removed one is kept, unmoved and never compared; every other object is removed exactly when it stands on the robot's position, and otherwise kept and moved |
| `Directing.FatesSound` | 04/greed/game/directing/director.py:62-66 | under either reading every kept object is its original, moved or not, and only objects at the robot's position are removed |
| `Directing.PartitionConserves` | 04/greed/game/directing/director.py:62-66 | removed and kept objects together account for every object and every point of the group |
| `Directing.ConsumedAtHit` | 04/greed/game/directing/director.py:63-65 | every removed object stood at the robot's position |
| `Directing.SurvivorsOfPenalty` | 04/greed/game/directing/director.py:62-70 | when every object was an `O`, every object left is an `O`, since moving never changes a glyph |
| `Directing.LiveLoopMatchesFates` | 04/greed/game/directing/director.py:56-66 | Python's index-based loop over the live list, which removes under its own iterator, leaves exactly the kept objects and collects exactly the removed objects' points |
| `Directing.DoUpdates` | 04/greed/game/directing/director.py:48-75 | the robot has moved once; the score plus the points still falling is unchanged by a frame; the group never grows and the score moves by at most the number of objects removed; the banner reads "Score: n" while playing and otherwise "GAME OVER. Final Score: n" at font size 32, everything else about the banner unchanged, and it decodes to the score and flag; a stopped game stays stopped; a game that stops leaves only `O` objects; a group of only `O` objects (or none) stops the game |
| `Directing.StepScoresRemovedObjects` | 04/greed/game/directing/director.py:60-65 | under either reading, the group keeps exactly the objects not removed, every removed object stood on the robot's post-move position, an object anywhere else is never removed, and the score grows by exactly the points of the removed objects |
| `Directing.SnapshotStep` | 04/greed/game/directing/director.py:62-71 | with a copy, an object is removed if and only if it stands on the robot's position, and the game stops if and only if it was on and every object present at the start of the frame is an `O` |
| `Directing.LiveStep` | 04/greed/game/directing/director.py:56-71 | with the live list, the frame's objects and score gain are those of Python's index-based loop, and the game stops if and only if it was on and no remaining object, if any, has another glyph |
| `Directing.Tick` | 04/greed/game/directing/director.py:33-34 | one pass of the game loop (read the direction, then update) never restarts a stopped game, keeps the score plus the points still falling, never grows the group, and moves the score by at most the number of objects removed |
| `Directing.Run` | 04/greed/game/directing/director.py:32-34 | across any number of frames (whatever the directions) a stopped game stays stopped, the score plus the points still falling is constant, the group only shrinks, and the score moves by at most the number of objects consumed |
| `Directing.FreshScoreBounded` | 04/greed/game/directing/director.py:22-34 | from a new director the score stays between minus and plus the number of starting objects (±40 for the game's setup) |
| `Directing.RewardCaughtOnFirstFrame` | 04/greed/game/directing/director.py:60-75 | a robot moving onto the only object, a `*`, scores 1 and empties the group; with a copy the banner reads "Score: 1" and play goes on, with the live list the game ends with "GAME OVER. Final Score: 1" at size 32 |
| `Directing.FinalScoreStillChanges` | 04/greed/game/directing/director.py:62-75 | frames after game over still score collisions: stepping on an `O` lowers the score shown as final by one |

## Left out

- `Director.start_game` (04/greed/game/directing/director.py:25-36) and `_do_outputs` (77-86): window lifecycle, clearing, drawing and flushing are video I/O. `Run` models only the sequence of `_get_inputs` and `_do_updates` per frame, with the canvas size fixed.
- Keyboard polling: the direction read in `_get_inputs` is a parameter.
- `Actor.move_next` (wrap-around) is a parameter `move`; no property depends on how it wraps.
- `Cast`: the groups are fields of a record, so `get_first_actor` on a missing banner or robot cannot happen here; removal is by position in the sequence, which is what removal by identity amounts to.
- The random scenario of `__main__.py` (40 objects, glyphs `*` or `O`, velocity (0, 5), canvas 900×600) is used only as an example size in `FreshScoreBounded`.
- Colours and font rendering: stored, never interpreted.
