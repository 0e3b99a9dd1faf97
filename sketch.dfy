/** The game session of sketch.js: `setupGame`, and the scripted replay `instructions` that runs
    `doInstruction` (a move, then `update`) on each `[from, to]` pair in turn. */
module Sketch {
  import opened Hanoi
  import opened Scene

  /** One `[from, to]` pair of an instruction list. */
  datatype Instruction = Instruction(from: int, to: int)

  /** Every instruction can be carried out on the state it meets: its move does not throw, and
      neither does the `update` after it. */
  predicate ReplayDefined(g: Pegs, objs: seq<Obj>, ins: seq<Instruction>)
    decreases |ins|
  {
    ins == [] ||
    (&& MoveDefined(g, ins[0].from, ins[0].to)
     && UpdateDefined(Step(g, ins[0].from, ins[0].to), objs)
     && ReplayDefined(Step(g, ins[0].from, ins[0].to), Update(Step(g, ins[0].from, ins[0].to), objs), ins[1..]))
  }

  /** The game and object list after the instructions, applied first to last. */
  function Replay(g: Pegs, objs: seq<Obj>, ins: seq<Instruction>): (r: (Pegs, seq<Obj>))
    requires ReplayDefined(g, objs, ins)
    ensures Disks(r.0) == Disks(g)
    ensures Ids(r.1) == Ids(objs)
    decreases |ins|
  {
    if ins == [] then (g, objs)
    else
      var next := Step(g, ins[0].from, ins[0].to);
      MoveConservesDisks(g, ins[0].from, ins[0].to);
      UpdatePermutes(next, objs);
      Replay(next, Update(next, objs), ins[1..])
  }

  /** Every index of the list names a peg. */
  predicate InRange(ins: seq<Instruction>) {
    forall i :: 0 <= i < |ins| ==> 0 <= ins[i].from < 3 && 0 <= ins[i].to < 3
  }

  /** What holds of the session between instructions: the game is well formed, and the three
      sticks and the disk objects show it. The sticks are `Resyncable`, as the sticks of every
      canvas are (`CanvasSticksResyncable`); `SharedStickXKeepsStaleY` shows what `update` would
      do on other sticks. */
  ghost predicate Synced(g: Pegs, objs: seq<Obj>) {
    && WellFormed(g) && InSync(g, objs) && Shows(g, objs)
    && |Sticks(objs)| == 3 && Resyncable(Sticks(objs))
  }

  /** In a synced session a disk object is selectable exactly when its disk is the top of its peg. */
  lemma SyncedSelectableIsTop(g: Pegs, objs: seq<Obj>, o: Obj)
    requires Synced(g, objs) && o in objs && o.Disk?
    ensures o.selectable <==> IsTop(g, o.size)
    ensures o.selectable <==> Top(g[FindPeg(g, o.size)]) == o.size
  {
    var p := FindPeg(g, o.size);
    assert OnPeg(g, o.size);
    TopsMeaning(g, o.size);
    if IsTop(g, o.size) {
      var q :| 0 <= q < 3 && g[q] != [] && Top(g[q]) == o.size;
      assert o.size in g[q];
      assert q == p;
    }
  }

  /** From a synced state, a list of in-range pairs replays without throwing, and leaves the
      session synced, with the same sticks. */
  lemma {:induction false} ReplayKeepsSync(g: Pegs, objs: seq<Obj>, ins: seq<Instruction>)
    requires Synced(g, objs) && InRange(ins)
    ensures ReplayDefined(g, objs, ins)
    ensures Synced(Replay(g, objs, ins).0, Replay(g, objs, ins).1)
    ensures Sticks(Replay(g, objs, ins).1) == Sticks(objs)
    decreases |ins|
  {
    if ins != [] {
      var from, to := ins[0].from, ins[0].to;
      var next := Step(g, from, to);
      MovePreservesWellFormed(g, from, to);
      MoveThenUpdateKeepsSync(g, objs, from, to);
      ReplayKeepsSync(next, Update(next, objs), ins[1..]);
    }
  }

  /** The pegs alone after the instructions: the game side of `Replay`. */
  function Moves(g: Pegs, ins: seq<Instruction>): (r: Pegs)
    requires InRange(ins)
    ensures Disks(r) == Disks(g)
    decreases |ins|
  {
    if ins == [] then g
    else
      MoveConservesDisks(g, ins[0].from, ins[0].to);
      Moves(Step(g, ins[0].from, ins[0].to), ins[1..])
  }

  /** The game a replay leaves does not depend on the objects: `update` never feeds back into
      `move`. */
  lemma {:induction false} ReplayFollowsMoves(g: Pegs, objs: seq<Obj>, ins: seq<Instruction>)
    requires ReplayDefined(g, objs, ins) && InRange(ins)
    ensures Replay(g, objs, ins).0 == Moves(g, ins)
    decreases |ins|
  {
    if ins != [] {
      var next := Step(g, ins[0].from, ins[0].to);
      ReplayFollowsMoves(next, Update(next, objs), ins[1..]);
    }
  }

  /** The three moves of the worked example: 0 -> 2, 0 -> 1, 2 -> 1. */
  function ThreeMoves(): seq<Instruction> {
    [Instruction(0, 2), Instruction(0, 1), Instruction(2, 1)]
  }

  /** Replaying the three moves on a synced `hanoi(3)` session is defined and applies them in list
      order, leaving `[3]`, `[2, 1]` and an empty peg. */
  lemma ReplayThreeMoves(objs: seq<Obj>)
    requires Synced(Initial(3), objs)
    ensures ReplayDefined(Initial(3), objs, ThreeMoves())
    ensures Replay(Initial(3), objs, ThreeMoves()).0 == [[3], [2, 1], []]
  {
    ThreeMovesPegs();
    ReplayKeepsSync(Initial(3), objs, ThreeMoves());
    ReplayFollowsMoves(Initial(3), objs, ThreeMoves());
  }

  lemma ThreeMovesPegs()
    ensures InRange(ThreeMoves())
    ensures Moves(Initial(3), ThreeMoves()) == [[3], [2, 1], []]
  {
    ThreeMoveExample();
    MovesOfThree(Initial(3), Instruction(0, 2), Instruction(0, 1), Instruction(2, 1));
  }

  /** Replaying three in-range pairs is taking the three moves in list order. */
  lemma MovesOfThree(g: Pegs, a: Instruction, b: Instruction, c: Instruction)
    requires 0 <= a.from < 3 && 0 <= a.to < 3 && 0 <= b.from < 3 && 0 <= b.to < 3
    requires 0 <= c.from < 3 && 0 <= c.to < 3
    ensures InRange([a, b, c])
    ensures Moves(g, [a, b, c]) == Step(Step(Step(g, a.from, a.to), b.from, b.to), c.from, c.to)
  {
    var g1 := Step(g, a.from, a.to);
    var g2 := Step(g1, b.from, b.to);
    var g3 := Step(g2, c.from, c.to);
    assert Moves(g3, []) == g3;
    MovesCons(g2, c, []);
    assert [c] == [c] + [];
    MovesCons(g1, b, [c]);
    MovesCons(g, a, [b, c]);
    assert [a, b, c] == [a] + [b, c];
  }

  /** Replaying a list is taking its first move, then replaying the rest. */
  lemma MovesCons(g: Pegs, i: Instruction, rest: seq<Instruction>)
    requires 0 <= i.from < 3 && 0 <= i.to < 3 && InRange(rest)
    ensures InRange([i] + rest)
    ensures Moves(g, [i] + rest) == Moves(Step(g, i.from, i.to), rest)
  {
    assert ([i] + rest)[1..] == rest;
  }

  /** The globals `game` and `objects` of sketch.js. */
  class Session {
    var game: Game
    var objects: seq<Obj>

    ghost predicate Valid()
      reads this, game
    {
      Synced(game.pegs, objects)
    }

    /** `setupGame(disks)` on a canvas `width` pixels wide whose sticks stand at `y` and are `h`
        high; `widthOf` gives each size its width and `colours` holds the colours in the order
        they are handed out. */
    constructor (disks: int, width: int, y: int, h: int, widthOf: int -> int, colours: seq<int>)
      requires width >= 0
      requires |colours| == if disks > 0 then disks else 0
      ensures fresh(game)
      ensures game.pegs == Initial(disks)
      ensures objects == Layout(Initial(disks), CanvasSticks(width, y, h), widthOf, colours)
      ensures Valid()
    {
      var g := new Game(disks);
      var sticks := CanvasSticks(width, y, h);
      InitialShape(disks);
      CanvasSticksResyncable(width, y, h);
      LayoutInSync(g.pegs, sticks, widthOf, colours);
      LayoutShows(g.pegs, sticks, widthOf, colours);
      game := g;
      objects := Layout(g.pegs, sticks, widthOf, colours);
    }

    /** `doInstruction(from, to)`: the move, then `update` on the moved game. */
    method DoInstruction(from: int, to: int)
      requires MoveDefined(game.pegs, from, to)
      requires UpdateDefined(Step(game.pegs, from, to), objects)
      modifies this, game
      ensures game == old(game)
      ensures game.pegs == Step(old(game.pegs), from, to)
      ensures objects == Update(game.pegs, old(objects))
      ensures old(Valid()) ==> Valid()
    {
      var moved := game.Move(from, to);
      game := moved;
      objects := Update(game.pegs, objects);
      if old(Valid()) {
        MovePreservesWellFormed(old(game.pegs), from, to);
        MoveThenUpdateKeepsSync(old(game.pegs), old(objects), from, to);
      }
    }

    /** `instructions(ins)`: takes the pairs off the front of the list one at a time and carries
        each out. */
    method Instructions(ins: seq<Instruction>)
      requires ReplayDefined(game.pegs, objects, ins)
      modifies this, game
      ensures game == old(game)
      ensures (game.pegs, objects) == Replay(old(game.pegs), old(objects), ins)
      ensures old(Valid()) ==> Valid()
    {
      var rest := ins;
      while rest != []
        invariant game == old(game)
        invariant ReplayDefined(game.pegs, objects, rest)
        invariant Replay(game.pegs, objects, rest) == Replay(old(game.pegs), old(objects), ins)
        invariant old(Valid()) ==> Valid()
        decreases |rest|
      {
        var next := rest[0];
        rest := rest[1..];
        DoInstruction(next.from, next.to);
      }
    }
  }
}
