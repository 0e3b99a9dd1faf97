# Tower of Hanoi: puzzle state and scene sync

This project models the core of a browser Tower of Hanoi toy in Dafny and proves properties of
the model. The model has three modules:

- `Hanoi` (hanoi.dfy) models the puzzle state.
  - `hanoi(n)` builds three pegs with the tower n, n-1, …, 1 on peg 0.
  - `move(game, from, to)` moves the top disk of one peg onto an empty peg or a larger disk, and
    silently ignores every other move.
  - The pegs are a value type `Pegs` (exactly three sequences of sizes, bottom first), and the
    effect of a move is the function `Step`.
  - The `game` array that `move` changes in place is the class `Game`. Its constructor runs the
    filling loop of `hanoi` and its method `Move` pops and pushes like the original; both are
    proved against `Initial` and `Step`.
- `Scene` (scene.dfy) models the object list the sketch draws.
  - `Layout` is the stick/disk list that `setupGame` emits.
  - `Update` is the resync `update(game, objects)`: it keeps the sticks, keeps the disks already at
    their peg's x, moves every other disk to its peg and depth, and recomputes `selectable`.
  - The lemmas show what that promises: nothing is lost or duplicated, the sticks come first, the
    flags mean "top of a peg", a fresh layout comes out of `update` unchanged apart from order,
    and a move followed by `update` keeps the scene in step with the game.
- `Sketch` (sketch.dfy) models the session.
  - The globals `game` and `objects` become the class `Session`. Its constructor is `setupGame`,
    and the methods `DoInstruction` and `Instructions` are the scripted replay, specified by the
    fold `Replay`.
  - The main result is that a synced session stays synced across any list of in-range moves
    (`ReplayKeepsSync`).

Out-of-range peg indices throw. `move` reads `game[from].length`, and when peg `from` is
non-empty also `game[to].length`, so an index outside 0..2 raises a TypeError in JavaScript
instead of being ignored. The model therefore makes `move` demand exactly what the code
dereferences (`MoveDefined`): `from` must name a peg, and `to` must name one only when peg `from`
has a disk. In the same way, `update` throws when a disk's size is on no peg, or on a peg without
a stick: `sticks[-1]`, or an index past the sticks, is `undefined`, and reading `.x` from it raises a
TypeError. That condition is `UpdateDefined`.

Inputs that come from the canvas or from floating-point colour maths are parameters:
- the canvas width, from which the sticks' x and width follow by integer arithmetic;
- the sticks' y and height, which come from floating-point products of the canvas height;
- the disk width as a function of its size;
- the list of colours, which is consumed in emission order.

## Model

| member | source | states |
|---|---|---|
| Hanoi.Initial | hanoi.js:1-7 | `hanoi(n)`: the tower of `n` on peg 0 and two empty pegs; what that holds is stated by `Tower` and `InitialShape` |
| Hanoi.Tower | hanoi.js:3-5 | the tower of `n` holds `n` disks (none when `n <= 0`), the one at depth `k` being `n - k`, so largest at the bottom |
| Hanoi.InitialShape | hanoi.js:1-7 | `hanoi(n)` leaves pegs 1 and 2 empty, holds exactly the sizes 1..n (n disks), and is well formed: every peg strictly decreasing, no size on two pegs, all sizes positive |
| Hanoi.Game.constructor | hanoi.js:1-7 | the decrementing push loop builds exactly `Initial(disks)` |
| Hanoi.MoveDefined | hanoi.js:10-14 | `move` does not throw exactly when `from` names a peg and, if that peg has a disk, `to` names one too: the indices the code dereferences |
| Hanoi.Legal | hanoi.js:10-14 | the guards of the push: peg `from` has a disk, and peg `to` is empty or has a larger top |
| Hanoi.Step | hanoi.js:9-25 | a move changes the game if and only if it is legal: peg `from` is non-empty and its top goes onto an empty peg or a larger top |
| Hanoi.MoveFromEmptyIsNoop | hanoi.js:10-22 | moving from an empty peg is defined for any `to` and changes no peg |
| Hanoi.MoveOntoSmallerIsNoop | hanoi.js:14-19 | a disk not smaller than the destination's top stays put; no peg changes |
| Hanoi.MoveToSelfIsNoop | hanoi.js:11-14 | `move(g, i, i)` never changes the game |
| Hanoi.LegalMove | hanoi.js:11-16 | a legal move has distinct pegs, pops the top of `from`, pushes it on `to`, and leaves the third peg as it was |
| Hanoi.MoveConservesDisks | hanoi.js:14-16 | a move keeps the multiset of sizes, the disk count and the set of sizes on the pegs |
| Hanoi.MovePreservesWellFormed | hanoi.js:14-16 | a move keeps every peg strictly decreasing, the pegs disjoint and the sizes positive |
| Hanoi.ThreeMoveExample | hanoi.js:1-25 | from `hanoi(3)`, moves 0→2, 0→1, 2→1 leave `[3]`, `[2, 1]` and an empty peg |
| Hanoi.Game.Move | hanoi.js:9-25 | `move` changes the pegs in place to `Step` of the old pegs, returns the very same game, and keeps a well-formed game well formed |
| Scene.DiskY | sketch.js:86 | the y of a disk at depth `k` is the stick's y plus `floor(h / 2 - k * w * 2.5)`, stated as the bounds that define that floor; `update` uses the same formula at sketch.js:123 |
| Scene.DiskH | sketch.js:88 | a disk's height is `floor(w * 2.5)`, stated as the bounds that define that floor |
| Scene.Column | sketch.js:80-92 | the disk objects of one peg, bottom up, at the stick's x and their depth's y, with only the last selectable; their properties are stated by `ColumnInSync` |
| Scene.CanvasSticks | sketch.js:72-79 | the three sticks of a canvas, one per peg in order, stick `pos` at x `floor(width * (pos + 1) / 4)` |
| Scene.CanvasSticksResyncable | sketch.js:72-79 | on any canvas the sticks are at distinct x exactly when it is at least 3 pixels wide, and otherwise all have width 0 and share y and height, so they are `Resyncable` |
| Scene.Layout | sketch.js:71-94 | the `flatMap` over the pegs: each stick followed by its column, colours taken in that order; its properties are stated by `LayoutInSync` and `LayoutShows` |
| Scene.Tops | sketch.js:100 | `tops`: the top of each peg, 0 for an empty one; what membership means is stated by `TopsMeaning` |
| Scene.FindPeg | sketch.js:108 | `findIndex(stack => stack.includes(size))`: -1 exactly when the size is on no peg, otherwise the first peg holding it |
| Scene.IndexOf | sketch.js:123 | `indexOf(size)`: -1 exactly when absent, otherwise a position holding the size with no earlier occurrence |
| Scene.TopsMeaning | sketch.js:100 | for a non-zero size, being in `tops` means being the top of a non-empty peg; 0 is in `tops` also whenever a peg is empty |
| Scene.Sticks | sketch.js:101 | the filtered list holds exactly the stick objects of the input |
| Scene.Settled | sketch.js:105-109 | the filtered list holds exactly the disks whose x is that of the stick of the peg holding their size |
| Scene.Unsettled | sketch.js:111 | `changed` holds exactly the disks not carried over |
| Scene.Reposition | sketch.js:115-124 | a changed disk gets its peg's x and the y of its `indexOf` depth by the layout formula, and keeps everything else |
| Scene.Resync | sketch.js:126-129 | the final `map` of `update`: an object keeps its identity, a stick is unchanged, and a disk keeps its x and y and gets `selectable` exactly when its size is in `tops` |
| Scene.UpdateDefined | sketch.js:108-117 | `update` does not throw exactly when every disk's size is on a peg that has a stick, so that `sticks[findIndex(...)]` exists |
| Scene.Update | sketch.js:99-130 | `update(game, objects)`: the sticks, then the disks already at their peg's x, then the others repositioned, all with `selectable` recomputed; its properties are stated by the `Update…` lemmas below |
| Scene.UpdateOrigin | sketch.js:103-129 | every disk of the output is an input disk, carried as it was if it sat at its peg's x and repositioned otherwise, with only its flag recomputed |
| Scene.UpdateCarries | sketch.js:103-124 | every input object reaches the output: sticks as they are, disks at their peg's x with x and y kept, every other disk repositioned |
| Scene.UpdatePermutes | sketch.js:103-129 | the output has as many objects as the input and the same objects up to position and flag: none lost, none duplicated |
| Scene.UpdateSticksFirst | sketch.js:101-114 | the output starts with the input's sticks, unchanged and in order, and has no other stick |
| Scene.UpdateSelects | sketch.js:126-129 | after `update` every disk is at its peg's x and is selectable exactly when its size is in `tops` |
| Scene.UpdateResyncs | sketch.js:99-130 | when every disk already at its peg's x also has its depth's y, `update` puts every disk at its peg and depth with the right flag |
| Scene.InSyncUpdateReorders | sketch.js:103-129 | on a list already in sync, `update` is defined and changes no object: it returns the sticks followed by the disks in their order |
| Scene.ColumnInSync | sketch.js:82-92 | the disks `setupGame` emits for a peg sit at its stick's x and their depth's y, and only the top one is selectable |
| Scene.LayoutInSync | sketch.js:71-94 | the layout has one object per stick and disk, its sticks are the three given in peg order, and every disk is placed and flagged as `update` would |
| Scene.LayoutShows | sketch.js:71-94 | the disk objects of the layout name exactly the sizes on the pegs |
| Scene.UpdateAfterLayout | sketch.js:61-130 | `update` right after `setupGame` is defined and keeps every x, y and flag; only the order changes, with all sticks first |
| Scene.UpdateShows | sketch.js:99-130 | `update` keeps the set of disk sizes shown |
| Scene.IndexOfAppend | hanoi.js:16 | pushing a different disk on a peg moves no other disk's depth |
| Scene.MovedDiskChangesPeg | hanoi.js:16 | after a legal move the moved disk is found on `to`, having been on `from` |
| Scene.StepKeepsPlace | hanoi.js:16 | every disk but the moved one keeps its peg and its depth |
| Scene.MoveKeepsRested | sketch.js:296-298 | on `Resyncable` sticks, after a move every disk still at its old stick's x also has the y of its depth, so only the moved disk needs repositioning |
| Scene.MoveThenUpdateKeepsSync | sketch.js:296-299 | on `Resyncable` sticks, a move followed by `update` is defined on a synced scene and leaves it synced with the new game, with the same sticks and the same disks shown |
| Scene.SharedStickXKeepsStaleY | sketch.js:103-124 | why the sync results need `Resyncable` sticks: when the sticks for `from` and `to` coincide and have positive width, which `setupGame` never builds, a legal move that gives the moved disk a new depth is followed by an `update` that is defined but leaves the scene out of sync, the disk keeping the y of its old depth |
| Sketch.ReplayDefined | sketch.js:289-300 | no instruction of the list throws: each move is defined on the pegs it meets, and so is the `update` after it |
| Sketch.Replay | sketch.js:289-300 | replaying instructions keeps the multiset of disk sizes and the objects up to position and flag |
| Sketch.SyncedSelectableIsTop | sketch.js:126-129 | in a synced session a disk object is selectable exactly when it is the top of its peg |
| Sketch.ReplayKeepsSync | sketch.js:289-300 | from a synced session, any list of in-range pairs replays without throwing and leaves the session synced with the same sticks |
| Sketch.Moves | sketch.js:289-297 | the game side of the replay: the moves applied in list order, which keeps the multiset of disk sizes |
| Sketch.ReplayFollowsMoves | sketch.js:289-300 | the game after a replay is the moves applied in list order, whatever the objects |
| Sketch.ThreeMovesPegs | hanoi.js:9-25 | the moves 0→2, 0→1, 2→1 from `hanoi(3)`, taken in list order, leave `[3]`, `[2, 1]` and an empty peg |
| Sketch.ReplayThreeMoves | sketch.js:289-300 | replaying those three pairs on a synced `hanoi(3)` session is defined and applies them in list order, whatever the objects |
| Sketch.Session.constructor | sketch.js:61-97 | `setupGame` makes a fresh game `hanoi(disks)` and the objects `Layout` of it over the canvas sticks, and the session starts `Valid`, an invariant that includes `Resyncable` sticks |
| Sketch.Session.DoInstruction | sketch.js:296-300 | `doInstruction` moves the same game in place and sets the objects to `update` of the moved game, keeping the session synced |
| Sketch.Session.Instructions | sketch.js:289-294 | `instructions` applies the pairs front to back, ending exactly in `Replay` of the list, and keeps the session synced |

## Left out

- Rendering is not modelled: `setup`, `draw`, the canvas and the `drawX` cross animation are drawing and frame-loop control.
- The slider, button and textarea widgets, and the `JSON.parse` of the instruction text, are UI plumbing and a foreign parser. An instruction is taken to be a pair of integers.
- The mouse handlers and the `mouse`/`mousePrevious` vectors are event glue. A drop on another stick also runs `move` then `update`. After a drag the dragged disk may sit anywhere, so `UpdateResyncs` states the condition under which that `update` resyncs.
- `intersect` is screen hit testing and is not modelled.
- The transient `hovered`, `selected`, `xPrevious` and `yPrevious` fields of objects are not modelled.
- The `type` tag and the stick `colour` are not modelled either: the datatype constructor plays the role of `type`.
- Colour generation through HSB `map`, and the disk width through `map(disk, 0.999999999, …)`, are floating-point interpolation. They are the parameters `colours` and `widthOf`.
- The stick y `floor(height * 0.7)` and height `floor(height * 0.4)` are parameters of `Scene.CanvasSticks`: in floating point `floor(height * 0.7)` differs from the integer `7 * height / 10` for some heights (90 gives 62, not 63). The stick x and width are exact in the model, since `width * (pos + 1) / 4` is exact and `floor(width * 0.01)` equals `width / 100` for the canvas widths a browser gives.
- `Sketch.Session.Valid` requires `Resyncable` sticks: at distinct x, or all of width 0 with a common y and height. The model needs this assumption because the sync lemmas take the sticks as free parameters. The sticks `setupGame` builds always meet it (`Scene.CanvasSticksResyncable`): they share an x only on a canvas less than 3 pixels wide, where `floor(width * 0.01)` is 0, so every disk gets the same y at every depth and the source stays in sync. `Scene.SharedStickXKeepsStaleY` describes `update` on coinciding sticks of positive width, which `setupGame` never builds.
- The `setTimeout` delay between instructions lets the mouse handlers run between two instructions, and a drag can leave a disk anywhere. `Instructions` is a plain sequential loop, so it assumes that no drag happens during a replay.
- `Sketch.Session.Instructions` requires the whole list to be `ReplayDefined`. In the source, an instruction that throws stops the replay after the instructions before it have taken effect, and the remaining pairs are never run; when it is `update` that throws, the game has already been moved while `objects` keeps its old value. The model does not describe that partial replay.
- `Sketch.Session.Instructions` consumes a local copy of the list, whereas the source `splice`s the caller's array empty.
- `Scene.Resync` leaves sticks as they are, while the source also gives each stick `selectable: false`. `mouseMoved` reads `selectable` on every object (sketch.js:171), but a false flag and a missing one both keep a stick out of its selection, so the two behave the same.
- `Scene.UpdatePermutes` states that no object is lost or duplicated, but not the relative order inside each group. That order holds by the definition of `Update`, which uses the order-preserving filters `Settled` and `Unsettled`, and is not stated as a lemma of its own.
- `Scene.Update` returns fresh copies of the objects in the source. The model works on values, so object identity and aliasing are not represented. The reference test `unchanged.includes(obj)` is the filter `Unsettled`, which is exact because `unchanged` is built from the list's own objects.
- `Scene.LayoutShows` and `Scene.UpdateShows` relate sets of sizes. They do not state that each size has exactly one disk object, although the layout emits one per disk and `UpdatePermutes` keeps the count.
- JavaScript numbers are doubles. Disk sizes and indices are small integers, so they are modelled as unbounded `int`.
