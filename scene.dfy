/** The object list of sketch.js: the stick and disk objects `setupGame` lays out and `update`
    brings back in line with the pegs after every move. */
module Scene {
  import opened Hanoi

  /** A renderable object. Sticks never move; a disk carries its size, which names it. */
  datatype Obj =
    | Stick(x: int, y: int, w: int, h: int)
    | Disk(size: int, x: int, y: int, w: int, h: int, colour: int, selectable: bool)

  /** The y of the disk at `depth` (0 at the bottom) on `stick`:
      `stick.y + floor(stick.h / 2 - depth * stick.w * 2.5)` with integer h and w. */
  function DiskY(stick: Obj, depth: int): (r: int)
    ensures 2 * (r - stick.y) <= stick.h - 5 * depth * stick.w < 2 * (r - stick.y) + 2
  {
    stick.y + (stick.h - 5 * depth * stick.w) / 2
  }

  /** The height of a disk on `stick`: `floor(stick.w * 2.5)`. */
  function DiskH(stick: Obj): (r: int)
    ensures 2 * r <= 5 * stick.w < 2 * r + 2
  {
    (5 * stick.w) / 2
  }

  /** The three stick objects, one per peg, in peg order. */
  predicate StickRow(sticks: seq<Obj>) {
    |sticks| == 3 && forall i :: 0 <= i < 3 ==> sticks[i].Stick?
  }

  /** No two sticks share an x, so an x names a peg. */
  predicate DistinctX(sticks: seq<Obj>) {
    forall i, j :: 0 <= i < |sticks| && 0 <= j < |sticks| && i != j ==> sticks[i].x != sticks[j].x
  }

  /** Every stick has width 0 and the y and height of the first, so every disk on any of them gets
      the same y whatever its depth. */
  predicate Flat(sticks: seq<Obj>) {
    forall i :: 0 <= i < |sticks| ==> sticks[i].w == 0 && sticks[i].y == sticks[0].y && sticks[i].h == sticks[0].h
  }

  /** What `update` needs of the sticks to keep a scene in sync after a move: either an x names a
      peg, or a disk's y depends neither on its peg nor on its depth. */
  predicate Resyncable(sticks: seq<Obj>) {
    DistinctX(sticks) || Flat(sticks)
  }

  /** The sticks `setupGame` builds on a canvas `width` pixels wide: stick `pos` at
      `floor(width * (pos + 1) / 4)`, `floor(width * 0.01)` wide, all at the same `y` and of the
      same height `h`, which come from the canvas height. */
  function CanvasSticks(width: int, y: int, h: int): (r: seq<Obj>)
    ensures StickRow(r)
    ensures forall pos :: 0 <= pos < 3 ==> r[pos].x == (width * (pos + 1)) / 4
  {
    seq(3, pos requires 0 <= pos < 3 => Stick((width * (pos + 1)) / 4, y, width / 100, h))
  }

  /** On any canvas the sticks keep `update` in sync: they are at distinct x exactly when the
      canvas is at least 3 pixels wide, and narrower canvases give sticks of width 0. */
  lemma CanvasSticksResyncable(width: int, y: int, h: int)
    requires width >= 0
    ensures DistinctX(CanvasSticks(width, y, h)) <==> width >= 3
    ensures width < 3 ==> Flat(CanvasSticks(width, y, h))
    ensures Resyncable(CanvasSticks(width, y, h))
  {
    var r := CanvasSticks(width, y, h);
    if width >= 3 {
      assert r[0].x < r[1].x < r[2].x;
    } else {
      assert r[1].x == r[2].x;
    }
  }

  // ----- setupGame: the layout -----

  /** The disk objects of one peg, bottom to top; only the last one is selectable.
      `colours` holds the colours this peg takes from the front of the colour list. */
  function Column(peg: Peg, stick: Obj, widthOf: int -> int, colours: seq<int>): seq<Obj>
    requires |colours| == |peg|
  {
    seq(|peg|, k requires 0 <= k < |peg| =>
      Disk(peg[k], stick.x, DiskY(stick, k), widthOf(peg[k]), DiskH(stick), colours[k], k == |peg| - 1))
  }

  /** The object list `setupGame` builds: for each peg in order, its stick, then its disks from the
      bottom up. Colours are handed out in that order. */
  function Layout(g: Pegs, sticks: seq<Obj>, widthOf: int -> int, colours: seq<int>): seq<Obj>
    requires StickRow(sticks)
    requires |colours| == Count(g)
  {
    var n0, n1 := |g[0]|, |g[0]| + |g[1]|;
    [sticks[0]] + Column(g[0], sticks[0], widthOf, colours[..n0])
    + [sticks[1]] + Column(g[1], sticks[1], widthOf, colours[n0..n1])
    + [sticks[2]] + Column(g[2], sticks[2], widthOf, colours[n1..])
  }

  // ----- lookups on the pegs -----

  /** `game.findIndex(stack => stack.includes(size))`. */
  function FindPeg(g: Pegs, size: int): (p: int)
    ensures -1 <= p < 3
    ensures p == -1 <==> !OnPeg(g, size)
    ensures 0 <= p ==> size in g[p] && forall q :: 0 <= q < p ==> size !in g[q]
  {
    if size in g[0] then 0 else if size in g[1] then 1 else if size in g[2] then 2 else -1
  }

  /** `peg.indexOf(size)`: the first position of `size`, or -1. */
  function IndexOf(p: Peg, size: int): (i: int)
    ensures -1 <= i < |p|
    ensures i == -1 <==> size !in p
    ensures 0 <= i ==> p[i] == size && size !in p[..i]
  {
    if p == [] then -1
    else if p[0] == size then 0
    else
      var i := IndexOf(p[1..], size);
      assert 0 <= i ==> p[..i + 1] == [p[0]] + p[1..][..i];
      if i < 0 then -1 else i + 1
  }

  /** `tops`: the top of each peg, 0 for an empty one. */
  function Tops(g: Pegs): seq<int> {
    seq(3, q requires 0 <= q < 3 => if g[q] == [] then 0 else Top(g[q]))
  }

  /** The size is the top disk of some non-empty peg. */
  predicate IsTop(g: Pegs, size: int) {
    exists q :: 0 <= q < 3 && g[q] != [] && Top(g[q]) == size
  }

  /** The `selectable` flag `update` computes means "top of a non-empty peg" for every real disk
      size; the 0 that stands for an empty peg would only ever match a disk of size 0. */
  lemma TopsMeaning(g: Pegs, size: int)
    ensures size != 0 ==> (size in Tops(g) <==> IsTop(g, size))
    ensures size == 0 ==> (size in Tops(g) <==> IsTop(g, 0) || [] in g)
  {
    if size in Tops(g) {
      var q :| 0 <= q < 3 && Tops(g)[q] == size;
      assert g[q] == [] || Top(g[q]) == size;
    }
    if IsTop(g, size) {
      var q :| 0 <= q < 3 && g[q] != [] && Top(g[q]) == size;
      assert Tops(g)[q] == size;
    }
    if size == 0 && [] in g {
      var q :| 0 <= q < 3 && g[q] == [];
      assert Tops(g)[q] == 0;
    }
  }

  /** A decreasing peg holds each size at one depth only. */
  lemma SameSizeSameDepth(p: Peg, i: int, k: int)
    requires Decreasing(p) && 0 <= i < |p| && 0 <= k < |p| && p[i] == p[k]
    ensures i == k
  {
  }

  /** On a well-formed game a disk's peg, its depth and whether it is on top follow from
      where it is. */
  lemma Whereabouts(g: Pegs, p: int, k: int)
    requires WellFormed(g) && 0 <= p < 3 && 0 <= k < |g[p]|
    ensures FindPeg(g, g[p][k]) == p
    ensures IndexOf(g[p], g[p][k]) == k
    ensures g[p][k] in Tops(g) <==> k == |g[p]| - 1
  {
    var d := g[p][k];
    assert OnPeg(g, d) && d > 0;
    SameSizeSameDepth(g[p], IndexOf(g[p], d), k);
    if Top(g[p]) == d {
      SameSizeSameDepth(g[p], |g[p]| - 1, k);
    }
    TopsMeaning(g, d);
    if IsTop(g, d) {
      var q :| 0 <= q < 3 && g[q] != [] && Top(g[q]) == d;
      assert d in g[q];
      assert q == p;
    }
  }

  // ----- update -----

  /** A disk whose x is already that of the stick of the peg holding its size: `update` keeps it. */
  predicate AtPeg(g: Pegs, sticks: seq<Obj>, o: Obj) {
    o.Disk? && 0 <= FindPeg(g, o.size) < |sticks| && o.x == sticks[FindPeg(g, o.size)].x
  }

  /** A disk drawn where `setupGame` would draw it: its peg's x, and the y of its depth there. */
  predicate Placed(g: Pegs, sticks: seq<Obj>, o: Obj) {
    o.Disk? && 0 <= FindPeg(g, o.size) < |sticks|
    && o.x == sticks[FindPeg(g, o.size)].x
    && o.y == DiskY(sticks[FindPeg(g, o.size)], IndexOf(g[FindPeg(g, o.size)], o.size))
  }

  /** `objects.filter(obj => obj.type == "stick")`. */
  function Sticks(objs: seq<Obj>): (r: seq<Obj>)
    ensures forall o :: o in r <==> o in objs && o.Stick?
  {
    if objs == [] then []
    else (if objs[0].Stick? then [objs[0]] else []) + Sticks(objs[1..])
  }

  /** The disks of an object list, in order. */
  function DisksOf(objs: seq<Obj>): (r: seq<Obj>)
    ensures forall o :: o in r <==> o in objs && o.Disk?
  {
    if objs == [] then []
    else (if objs[0].Disk? then [objs[0]] else []) + DisksOf(objs[1..])
  }

  /** The disks `update` carries over as they are. */
  function Settled(g: Pegs, sticks: seq<Obj>, objs: seq<Obj>): (r: seq<Obj>)
    ensures forall o :: o in r <==> o in objs && AtPeg(g, sticks, o)
  {
    if objs == [] then []
    else (if AtPeg(g, sticks, objs[0]) then [objs[0]] else []) + Settled(g, sticks, objs[1..])
  }

  /** `changed`: the objects that are neither sticks nor carried over. */
  function Unsettled(g: Pegs, sticks: seq<Obj>, objs: seq<Obj>): (r: seq<Obj>)
    ensures forall o :: o in r <==> o in objs && o.Disk? && !AtPeg(g, sticks, o)
  {
    if objs == [] then []
    else (if objs[0].Disk? && !AtPeg(g, sticks, objs[0]) then [objs[0]] else []) + Unsettled(g, sticks, objs[1..])
  }

  /** A changed disk moved to its peg's x and to the y of its depth on that peg. */
  function Reposition(g: Pegs, sticks: seq<Obj>, o: Obj): (r: Obj)
    requires o.Disk? && 0 <= FindPeg(g, o.size) < |sticks|
    ensures Placed(g, sticks, r)
    ensures Ident(r) == Ident(o) && r.selectable == o.selectable
  {
    var p := FindPeg(g, o.size);
    o.(x := sticks[p].x, y := DiskY(sticks[p], IndexOf(g[p], o.size)))
  }

  function RepositionAll(g: Pegs, sticks: seq<Obj>, objs: seq<Obj>): seq<Obj>
    requires forall o :: o in objs ==> o.Disk? && 0 <= FindPeg(g, o.size) < |sticks|
  {
    seq(|objs|, i requires 0 <= i < |objs| => Reposition(g, sticks, objs[i]))
  }

  /** The final `selectable: tops.includes(obj.size)`; a stick has no size and is never selectable. */
  function Resync(g: Pegs, o: Obj): (r: Obj)
    ensures Ident(r) == Ident(o)
    ensures o.Stick? ==> r == o
    ensures o.Disk? ==> r.x == o.x && r.y == o.y && r.selectable == (o.size in Tops(g))
  {
    match o
    case Stick(_, _, _, _) => o
    case Disk(_, _, _, _, _, _, _) => o.(selectable := o.size in Tops(g))
  }

  function ResyncAll(g: Pegs, objs: seq<Obj>): seq<Obj> {
    seq(|objs|, i requires 0 <= i < |objs| => Resync(g, objs[i]))
  }

  /** `update` throws unless the peg of every disk has a stick: `sticks[-1]` and any index past the
      sticks are undefined. */
  predicate UpdateDefined(g: Pegs, objs: seq<Obj>) {
    forall o :: o in objs && o.Disk? ==> 0 <= FindPeg(g, o.size) < |Sticks(objs)|
  }

  /** `update(game, objects)`. `changed` keeps the objects that `unchanged` does not include; as
      `unchanged` is made of the very objects of the list, those are the disks not carried over. */
  function Update(g: Pegs, objs: seq<Obj>): seq<Obj>
    requires UpdateDefined(g, objs)
  {
    var sticks := Sticks(objs);
    var carried := sticks + Settled(g, sticks, objs);
    var changed := Unsettled(g, sticks, objs);
    ResyncAll(g, carried + RepositionAll(g, sticks, changed))
  }

  // ----- object identity -----

  /** What `update` never changes in an object: all but its position and its flag. */
  function Ident(o: Obj): Obj {
    match o
    case Stick(_, _, _, _) => o
    case Disk(size, _, _, w, h, colour, _) => Disk(size, 0, 0, w, h, colour, false)
  }

  /** The objects of a list, each up to position and flag, with multiplicity. */
  function Ids(objs: seq<Obj>): (m: multiset<Obj>)
    ensures |m| == |objs|
  {
    if objs == [] then multiset{} else multiset{Ident(objs[0])} + Ids(objs[1..])
  }

  lemma IdsCons(o: Obj, rest: seq<Obj>)
    ensures Ids([o] + rest) == multiset{Ident(o)} + Ids(rest)
  {
    assert ([o] + rest)[1..] == rest;
  }

  lemma {:induction false} IdsAppend(a: seq<Obj>, b: seq<Obj>)
    ensures Ids(a + b) == Ids(a) + Ids(b)
  {
    if a == [] {
      assert a + b == b;
    } else {
      assert (a + b)[1..] == a[1..] + b;
      IdsAppend(a[1..], b);
    }
  }

  lemma {:induction false} IdsResyncAll(g: Pegs, objs: seq<Obj>)
    ensures Ids(ResyncAll(g, objs)) == Ids(objs)
  {
    if objs != [] {
      assert ResyncAll(g, objs)[1..] == ResyncAll(g, objs[1..]);
      IdsResyncAll(g, objs[1..]);
    }
  }

  lemma {:induction false} IdsRepositionAll(g: Pegs, sticks: seq<Obj>, objs: seq<Obj>)
    requires forall o :: o in objs ==> o.Disk? && 0 <= FindPeg(g, o.size) < |sticks|
    ensures Ids(RepositionAll(g, sticks, objs)) == Ids(objs)
  {
    if objs != [] {
      assert RepositionAll(g, sticks, objs)[1..] == RepositionAll(g, sticks, objs[1..]);
      IdsRepositionAll(g, sticks, objs[1..]);
    }
  }

  /** Sticks, carried-over disks and changed disks split the list: nothing is lost or counted twice. */
  lemma {:induction false} IdsPartition(g: Pegs, sticks: seq<Obj>, objs: seq<Obj>)
    ensures Ids(Sticks(objs)) + Ids(Settled(g, sticks, objs)) + Ids(Unsettled(g, sticks, objs)) == Ids(objs)
  {
    if objs != [] {
      IdsPartition(g, sticks, objs[1..]);
      assert objs == [objs[0]] + objs[1..];
      IdsPartitionStep(g, sticks, objs[0], objs[1..]);
    }
  }

  /** One step of the partition: the head object lands in exactly one of the three parts. */
  lemma IdsPartitionStep(g: Pegs, sticks: seq<Obj>, o: Obj, rest: seq<Obj>)
    requires Ids(Sticks(rest)) + Ids(Settled(g, sticks, rest)) + Ids(Unsettled(g, sticks, rest)) == Ids(rest)
    ensures Ids(Sticks([o] + rest)) + Ids(Settled(g, sticks, [o] + rest)) + Ids(Unsettled(g, sticks, [o] + rest))
      == Ids([o] + rest)
  {
    IdsCons(o, rest);
    var s, t, u := Ids(Sticks(rest)), Ids(Settled(g, sticks, rest)), Ids(Unsettled(g, sticks, rest));
    AddToPart(multiset{Ident(o)}, s, t, u);
    if o.Stick? {
      HeadIsStick(g, sticks, o, rest);
    } else if AtPeg(g, sticks, o) {
      HeadIsSettled(g, sticks, o, rest);
    } else {
      HeadIsUnsettled(g, sticks, o, rest);
    }
  }

  lemma AddToPart(x: multiset<Obj>, s: multiset<Obj>, t: multiset<Obj>, u: multiset<Obj>)
    ensures (x + s) + t + u == x + (s + t + u)
    ensures s + (x + t) + u == x + (s + t + u)
    ensures s + t + (x + u) == x + (s + t + u)
  {
  }

  lemma HeadIsStick(g: Pegs, sticks: seq<Obj>, o: Obj, rest: seq<Obj>)
    requires o.Stick?
    ensures Ids(Sticks([o] + rest)) == multiset{Ident(o)} + Ids(Sticks(rest))
    ensures Settled(g, sticks, [o] + rest) == Settled(g, sticks, rest)
    ensures Unsettled(g, sticks, [o] + rest) == Unsettled(g, sticks, rest)
  {
    assert ([o] + rest)[1..] == rest;
    IdsCons(o, Sticks(rest));
  }

  lemma HeadIsSettled(g: Pegs, sticks: seq<Obj>, o: Obj, rest: seq<Obj>)
    requires AtPeg(g, sticks, o)
    ensures Sticks([o] + rest) == Sticks(rest)
    ensures Ids(Settled(g, sticks, [o] + rest)) == multiset{Ident(o)} + Ids(Settled(g, sticks, rest))
    ensures Unsettled(g, sticks, [o] + rest) == Unsettled(g, sticks, rest)
  {
    assert ([o] + rest)[1..] == rest;
    IdsCons(o, Settled(g, sticks, rest));
  }

  lemma HeadIsUnsettled(g: Pegs, sticks: seq<Obj>, o: Obj, rest: seq<Obj>)
    requires o.Disk? && !AtPeg(g, sticks, o)
    ensures Sticks([o] + rest) == Sticks(rest)
    ensures Settled(g, sticks, [o] + rest) == Settled(g, sticks, rest)
    ensures Ids(Unsettled(g, sticks, [o] + rest)) == multiset{Ident(o)} + Ids(Unsettled(g, sticks, rest))
  {
    assert ([o] + rest)[1..] == rest;
    IdsCons(o, Unsettled(g, sticks, rest));
  }

  // ----- order of the list -----

  lemma {:induction false} SticksAppend(a: seq<Obj>, b: seq<Obj>)
    ensures Sticks(a + b) == Sticks(a) + Sticks(b)
  {
    if a == [] {
      assert a + b == b;
    } else {
      assert (a + b)[1..] == a[1..] + b;
      SticksAppend(a[1..], b);
    }
  }

  lemma {:induction false} SticksOfSticks(objs: seq<Obj>)
    requires forall o :: o in objs ==> o.Stick?
    ensures Sticks(objs) == objs
  {
    if objs != [] {
      SticksOfSticks(objs[1..]);
    }
  }

  lemma {:induction false} SticksOfDisks(objs: seq<Obj>)
    requires forall o :: o in objs ==> o.Disk?
    ensures Sticks(objs) == []
  {
    if objs != [] {
      SticksOfDisks(objs[1..]);
    }
  }

  /** When every disk is already at its peg, every disk is carried over and nothing changes. */
  lemma {:induction false} AllSettled(g: Pegs, sticks: seq<Obj>, objs: seq<Obj>)
    requires forall o :: o in objs && o.Disk? ==> AtPeg(g, sticks, o)
    ensures Settled(g, sticks, objs) == DisksOf(objs)
    ensures Unsettled(g, sticks, objs) == []
  {
    if objs != [] {
      AllSettled(g, sticks, objs[1..]);
    }
  }

  lemma ResyncAllAppend(g: Pegs, a: seq<Obj>, b: seq<Obj>)
    ensures ResyncAll(g, a + b) == ResyncAll(g, a) + ResyncAll(g, b)
  {
  }

  lemma ResyncAllFixed(g: Pegs, objs: seq<Obj>)
    requires forall o :: o in objs ==> Resync(g, o) == o
    ensures ResyncAll(g, objs) == objs
  {
  }

  // ----- what update promises -----

  /** Every disk sits at its peg's x and at the y of its depth there, and is selectable exactly
      when its size is one of `tops`. */
  ghost predicate InSync(g: Pegs, objs: seq<Obj>) {
    forall o :: o in objs && o.Disk? ==> Placed(g, Sticks(objs), o) && o.selectable == (o.size in Tops(g))
  }

  /** Every disk already at its peg's x also has the y of its depth there. */
  ghost predicate Rested(g: Pegs, objs: seq<Obj>) {
    forall o :: o in objs && AtPeg(g, Sticks(objs), o) ==> Placed(g, Sticks(objs), o)
  }

  /** `update` lists the sticks, then the carried-over disks, then the repositioned ones. */
  lemma UpdateShape(g: Pegs, objs: seq<Obj>)
    requires UpdateDefined(g, objs)
    ensures var sticks := Sticks(objs);
      Update(g, objs) == sticks + ResyncAll(g, Settled(g, sticks, objs))
        + ResyncAll(g, RepositionAll(g, sticks, Unsettled(g, sticks, objs)))
  {
    var sticks := Sticks(objs);
    var a := Settled(g, sticks, objs);
    var rep := RepositionAll(g, sticks, Unsettled(g, sticks, objs));
    ResyncAllAppend(g, sticks + a, rep);
    ResyncAllAppend(g, sticks, a);
    ResyncAllFixed(g, sticks);
  }

  /** `update` loses and duplicates no object: the output is the input reordered, up to the
      positions and flags it recomputes. */
  lemma UpdatePermutes(g: Pegs, objs: seq<Obj>)
    requires UpdateDefined(g, objs)
    ensures |Update(g, objs)| == |objs|
    ensures Ids(Update(g, objs)) == Ids(objs)
  {
    var sticks := Sticks(objs);
    var a := Settled(g, sticks, objs);
    var u := Unsettled(g, sticks, objs);
    var rep := RepositionAll(g, sticks, u);
    IdsResyncAll(g, sticks + a + rep);
    IdsAppend(sticks + a, rep);
    IdsAppend(sticks, a);
    IdsRepositionAll(g, sticks, u);
    IdsPartition(g, sticks, objs);
  }

  /** The sticks come first, unchanged and in their order, and no other stick follows. */
  lemma UpdateSticksFirst(g: Pegs, objs: seq<Obj>)
    requires UpdateDefined(g, objs)
    ensures |Sticks(objs)| <= |Update(g, objs)|
    ensures Update(g, objs)[..|Sticks(objs)|] == Sticks(objs)
    ensures Sticks(Update(g, objs)) == Sticks(objs)
  {
    var a, rep := UpdateParts(g, objs);
    SticksThenDisks(Sticks(objs), a, rep);
  }

  /** The carried-over part and the repositioned part of the output hold disks only. */
  lemma UpdateParts(g: Pegs, objs: seq<Obj>) returns (a: seq<Obj>, rep: seq<Obj>)
    requires UpdateDefined(g, objs)
    ensures a == ResyncAll(g, Settled(g, Sticks(objs), objs))
    ensures rep == ResyncAll(g, RepositionAll(g, Sticks(objs), Unsettled(g, Sticks(objs), objs)))
    ensures Update(g, objs) == Sticks(objs) + a + rep
    ensures Sticks(a) == [] && Sticks(rep) == []
  {
    var sticks := Sticks(objs);
    var u := Unsettled(g, sticks, objs);
    a := ResyncAll(g, Settled(g, sticks, objs));
    rep := ResyncAll(g, RepositionAll(g, sticks, u));
    UpdateShape(g, objs);
    ResyncedDisks(g, Settled(g, sticks, objs));
    assert forall o :: o in RepositionAll(g, sticks, u) ==> o.Disk?;
    ResyncedDisks(g, RepositionAll(g, sticks, u));
  }

  lemma SticksThenDisks(sticks: seq<Obj>, a: seq<Obj>, b: seq<Obj>)
    requires forall o :: o in sticks ==> o.Stick?
    requires Sticks(a) == [] && Sticks(b) == []
    ensures (sticks + a + b)[..|sticks|] == sticks
    ensures Sticks(sticks + a + b) == sticks
  {
    assert (sticks + a + b)[..|sticks|] == sticks;
    SticksAppend(sticks + a, b);
    SticksAppend(sticks, a);
    SticksOfSticks(sticks);
  }

  lemma ResyncedDisks(g: Pegs, objs: seq<Obj>)
    requires forall o :: o in objs ==> o.Disk?
    ensures Sticks(ResyncAll(g, objs)) == []
  {
    var r := ResyncAll(g, objs);
    forall o | o in r
      ensures o.Disk?
    {
      var i :| 0 <= i < |r| && r[i] == o;
      assert objs[i] in objs;
    }
    SticksOfDisks(r);
  }

  /** Where a disk of the output comes from: an input disk, carried over if it was at its peg and
      repositioned otherwise; either way only its flag is then recomputed. */
  lemma UpdateOrigin(g: Pegs, objs: seq<Obj>, o: Obj) returns (src: Obj)
    requires UpdateDefined(g, objs) && o in Update(g, objs) && o.Disk?
    ensures src in objs && src.Disk?
    ensures AtPeg(g, Sticks(objs), src) ==> o == Resync(g, src)
    ensures !AtPeg(g, Sticks(objs), src) ==> o == Resync(g, Reposition(g, Sticks(objs), src))
  {
    var a, rep := UpdateParts(g, objs);
    if o in a {
      src := CarriedOrigin(g, Sticks(objs), objs, o);
    } else {
      assert o in rep;
      src := MovedOrigin(g, Sticks(objs), objs, o);
    }
  }

  lemma CarriedOrigin(g: Pegs, sticks: seq<Obj>, objs: seq<Obj>, o: Obj) returns (src: Obj)
    requires o in ResyncAll(g, Settled(g, sticks, objs))
    ensures src in objs && AtPeg(g, sticks, src) && o == Resync(g, src)
  {
    var a := Settled(g, sticks, objs);
    var i :| 0 <= i < |a| && ResyncAll(g, a)[i] == o;
    src := a[i];
  }

  lemma MovedOrigin(g: Pegs, sticks: seq<Obj>, objs: seq<Obj>, o: Obj) returns (src: Obj)
    requires forall o :: o in objs && o.Disk? ==> 0 <= FindPeg(g, o.size) < |sticks|
    requires o in ResyncAll(g, RepositionAll(g, sticks, Unsettled(g, sticks, objs)))
    ensures src in objs && src.Disk? && !AtPeg(g, sticks, src)
    ensures o == Resync(g, Reposition(g, sticks, src))
  {
    var u := Unsettled(g, sticks, objs);
    var rep := RepositionAll(g, sticks, u);
    var i :| 0 <= i < |rep| && ResyncAll(g, rep)[i] == o;
    src := u[i];
  }

  /** Every input object reaches the output: sticks as they are, disks at their peg's x carried
      over, the others moved to their peg; each disk with its flag recomputed. */
  lemma UpdateCarries(g: Pegs, objs: seq<Obj>, o: Obj)
    requires UpdateDefined(g, objs) && o in objs
    ensures o.Stick? ==> o in Update(g, objs)
    ensures AtPeg(g, Sticks(objs), o) ==> Resync(g, o) in Update(g, objs)
    ensures o.Disk? && !AtPeg(g, Sticks(objs), o) ==>
      0 <= FindPeg(g, o.size) < |Sticks(objs)| && Resync(g, Reposition(g, Sticks(objs), o)) in Update(g, objs)
  {
    var sticks := Sticks(objs);
    var a := Settled(g, sticks, objs);
    var u := Unsettled(g, sticks, objs);
    var rep := RepositionAll(g, sticks, u);
    UpdateShape(g, objs);
    if AtPeg(g, sticks, o) {
      var i :| 0 <= i < |a| && a[i] == o;
      assert ResyncAll(g, a)[i] == Resync(g, o);
    }
    if o.Disk? && !AtPeg(g, sticks, o) {
      var i :| 0 <= i < |u| && u[i] == o;
      assert ResyncAll(g, rep)[i] == Resync(g, Reposition(g, sticks, o));
    }
  }

  /** After `update` every disk is at its peg's x, and `selectable` holds exactly for the sizes in
      `tops`; sticks are never selectable. */
  lemma UpdateSelects(g: Pegs, objs: seq<Obj>)
    requires UpdateDefined(g, objs)
    ensures forall o :: o in Update(g, objs) && o.Disk? ==>
      AtPeg(g, Sticks(objs), o) && o.selectable == (o.size in Tops(g))
  {
    forall o | o in Update(g, objs) && o.Disk?
      ensures AtPeg(g, Sticks(objs), o) && o.selectable == (o.size in Tops(g))
    {
      var src := UpdateOrigin(g, objs, o);
    }
  }

  /** If every disk at its peg's x also has the right depth, `update` brings the whole list in sync
      with the pegs. */
  lemma UpdateResyncs(g: Pegs, objs: seq<Obj>)
    requires UpdateDefined(g, objs) && Rested(g, objs)
    ensures InSync(g, Update(g, objs))
  {
    UpdateSticksFirst(g, objs);
    forall o | o in Update(g, objs) && o.Disk?
      ensures Placed(g, Sticks(objs), o) && o.selectable == (o.size in Tops(g))
    {
      var src := UpdateOrigin(g, objs, o);
    }
  }

  /** On a list already in sync, `update` moves and flags nothing: it only puts the sticks first. */
  lemma InSyncUpdateReorders(g: Pegs, objs: seq<Obj>)
    requires InSync(g, objs)
    ensures UpdateDefined(g, objs)
    ensures Update(g, objs) == Sticks(objs) + DisksOf(objs)
  {
    var sticks := Sticks(objs);
    AllSettled(g, sticks, objs);
    assert RepositionAll(g, sticks, Unsettled(g, sticks, objs)) == [];
    ResyncAllFixed(g, sticks + DisksOf(objs));
  }

  // ----- what setupGame promises -----

  /** `setupGame` lays out one stick per peg, then its disks bottom to top, each at its stick's x
      and the y of its depth, and only the top disk of each peg selectable. */
  lemma LayoutInSync(g: Pegs, sticks: seq<Obj>, widthOf: int -> int, colours: seq<int>)
    requires WellFormed(g) && StickRow(sticks) && |colours| == Count(g)
    ensures |Layout(g, sticks, widthOf, colours)| == 3 + Count(g)
    ensures Sticks(Layout(g, sticks, widthOf, colours)) == sticks
    ensures InSync(g, Layout(g, sticks, widthOf, colours))
  {
    var n0, n1 := |g[0]|, |g[0]| + |g[1]|;
    var c0 := Column(g[0], sticks[0], widthOf, colours[..n0]);
    var c1 := Column(g[1], sticks[1], widthOf, colours[n0..n1]);
    var c2 := Column(g[2], sticks[2], widthOf, colours[n1..]);
    ColumnInSync(g, sticks, 0, widthOf, colours[..n0]);
    ColumnInSync(g, sticks, 1, widthOf, colours[n0..n1]);
    ColumnInSync(g, sticks, 2, widthOf, colours[n1..]);
    LayoutSticks(sticks[0], sticks[1], sticks[2], c0, c1, c2);
    assert sticks == [sticks[0], sticks[1], sticks[2]];
    var l := Layout(g, sticks, widthOf, colours);
    assert l == [sticks[0]] + c0 + [sticks[1]] + c1 + [sticks[2]] + c2;
    ColumnsInSync(g, sticks, c0, c1, c2, l);
  }

  lemma ColumnsInSync(g: Pegs, sticks: seq<Obj>, c0: seq<Obj>, c1: seq<Obj>, c2: seq<Obj>, l: seq<Obj>)
    requires StickRow(sticks)
    requires l == [sticks[0]] + c0 + [sticks[1]] + c1 + [sticks[2]] + c2 && Sticks(l) == sticks
    requires forall o :: o in c0 ==> Placed(g, sticks, o) && o.selectable == (o.size in Tops(g))
    requires forall o :: o in c1 ==> Placed(g, sticks, o) && o.selectable == (o.size in Tops(g))
    requires forall o :: o in c2 ==> Placed(g, sticks, o) && o.selectable == (o.size in Tops(g))
    ensures InSync(g, l)
  {
    forall o | o in l && o.Disk?
      ensures Placed(g, sticks, o) && o.selectable == (o.size in Tops(g))
    {
      assert o in c0 || o in c1 || o in c2;
    }
  }

  /** The disks of one peg's column are where `update` expects them, with the right flag. */
  lemma ColumnInSync(g: Pegs, sticks: seq<Obj>, p: int, widthOf: int -> int, cs: seq<int>)
    requires WellFormed(g) && StickRow(sticks) && 0 <= p < 3 && |cs| == |g[p]|
    ensures forall o :: o in Column(g[p], sticks[p], widthOf, cs) ==>
      o.Disk? && Placed(g, sticks, o) && o.selectable == (o.size in Tops(g))
  {
    var col := Column(g[p], sticks[p], widthOf, cs);
    forall o | o in col
      ensures o.Disk? && Placed(g, sticks, o) && o.selectable == (o.size in Tops(g))
    {
      var k :| 0 <= k < |col| && col[k] == o;
      Whereabouts(g, p, k);
    }
  }

  /** Three sticks interleaved with columns of disks: the sticks come out in order. */
  lemma LayoutSticks(s0: Obj, s1: Obj, s2: Obj, c0: seq<Obj>, c1: seq<Obj>, c2: seq<Obj>)
    requires s0.Stick? && s1.Stick? && s2.Stick?
    requires forall o :: o in c0 ==> o.Disk?
    requires forall o :: o in c1 ==> o.Disk?
    requires forall o :: o in c2 ==> o.Disk?
    ensures Sticks([s0] + c0 + [s1] + c1 + [s2] + c2) == [s0, s1, s2]
  {
    var a, b, c := [s0] + c0, [s1] + c1, [s2] + c2;
    StickOverColumn(s0, c0);
    StickOverColumn(s1, c1);
    StickOverColumn(s2, c2);
    assert [s0] + c0 + [s1] + c1 + [s2] + c2 == a + b + c;
    SticksAppend(a + b, c);
    SticksAppend(a, b);
  }

  lemma StickOverColumn(stick: Obj, col: seq<Obj>)
    requires stick.Stick?
    requires forall o :: o in col ==> o.Disk?
    ensures Sticks([stick] + col) == [stick]
  {
    SticksOfDisks(col);
    assert ([stick] + col)[1..] == col;
  }

  /** `update` right after `setupGame` keeps every position and flag: only the order changes, with
      all sticks first. */
  lemma UpdateAfterLayout(g: Pegs, sticks: seq<Obj>, widthOf: int -> int, colours: seq<int>)
    requires WellFormed(g) && StickRow(sticks) && |colours| == Count(g)
    ensures UpdateDefined(g, Layout(g, sticks, widthOf, colours))
    ensures Update(g, Layout(g, sticks, widthOf, colours))
      == sticks + DisksOf(Layout(g, sticks, widthOf, colours))
  {
    LayoutInSync(g, sticks, widthOf, colours);
    InSyncUpdateReorders(g, Layout(g, sticks, widthOf, colours));
  }

  // ----- the scene follows the game across a move -----

  /** The disk objects name exactly the disks of the game. */
  ghost predicate Shows(g: Pegs, objs: seq<Obj>) {
    forall s :: OnPeg(g, s) <==> exists o :: o in objs && o.Disk? && o.size == s
  }

  lemma LayoutShows(g: Pegs, sticks: seq<Obj>, widthOf: int -> int, colours: seq<int>)
    requires StickRow(sticks) && |colours| == Count(g)
    ensures Shows(g, Layout(g, sticks, widthOf, colours))
  {
    var n0, n1 := |g[0]|, |g[0]| + |g[1]|;
    var cs := [colours[..n0], colours[n0..n1], colours[n1..]];
    var cols := seq(3, p requires 0 <= p < 3 => Column(g[p], sticks[p], widthOf, cs[p]));
    var l := Layout(g, sticks, widthOf, colours);
    assert l == [sticks[0]] + cols[0] + [sticks[1]] + cols[1] + [sticks[2]] + cols[2];
    forall s | OnPeg(g, s)
      ensures exists o :: o in l && o.Disk? && o.size == s
    {
      var p := FindPeg(g, s);
      var k := IndexOf(g[p], s);
      assert cols[p][k] in l;
    }
    forall o | o in l && o.Disk?
      ensures OnPeg(g, o.size)
    {
      var p :| 0 <= p < 3 && o in cols[p];
      var k :| 0 <= k < |g[p]| && cols[p][k] == o;
      assert g[p][k] in g[p];
    }
  }

  /** `update` keeps every disk object and invents none, so the disks shown stay the game's. */
  lemma UpdateShows(g: Pegs, objs: seq<Obj>)
    requires UpdateDefined(g, objs) && Shows(g, objs)
    ensures Shows(g, Update(g, objs))
  {
    var sticks := Sticks(objs);
    forall o | o in objs && o.Disk?
      ensures exists o' :: o' in Update(g, objs) && o'.Disk? && o'.size == o.size
    {
      UpdateCarries(g, objs, o);
      if AtPeg(g, sticks, o) {
        assert Resync(g, o) in Update(g, objs);
      } else {
        assert Resync(g, Reposition(g, sticks, o)) in Update(g, objs);
      }
    }
    forall o | o in Update(g, objs) && o.Disk?
      ensures OnPeg(g, o.size)
    {
      var src := UpdateOrigin(g, objs, o);
    }
  }

  /** Adding a disk on top of a peg moves nothing below it. */
  lemma IndexOfAppend(p: Peg, x: int, s: int)
    requires s != x
    ensures IndexOf(p + [x], s) == IndexOf(p, s)
  {
    if p != [] && p[0] != s {
      assert (p + [x])[1..] == p[1..] + [x];
      IndexOfAppend(p[1..], x, s);
    }
  }

  lemma FindPegOf(g: Pegs, p: int, s: int)
    requires WellFormed(g) && 0 <= p < 3 && s in g[p]
    ensures FindPeg(g, s) == p
  {
  }

  /** A legal move takes the top disk of `from` to `to`: its peg changes. */
  lemma MovedDiskChangesPeg(g: Pegs, from: int, to: int)
    requires WellFormed(g) && MoveDefined(g, from, to) && Legal(g, from, to)
    ensures FindPeg(g, Top(g[from])) == from
    ensures FindPeg(Step(g, from, to), Top(g[from])) == to
    ensures from != to
  {
    LegalMove(g, from, to);
    MovePreservesWellFormed(g, from, to);
    FindPegOf(g, from, Top(g[from]));
    FindPegOf(Step(g, from, to), to, Top(g[from]));
  }

  /** Every disk but the moved one keeps its peg and its depth. */
  lemma StepKeepsPlace(g: Pegs, from: int, to: int, s: int)
    requires WellFormed(g) && MoveDefined(g, from, to) && Legal(g, from, to)
    requires OnPeg(g, s) && s != Top(g[from])
    ensures FindPeg(Step(g, from, to), s) == FindPeg(g, s)
    ensures IndexOf(Step(g, from, to)[FindPeg(g, s)], s) == IndexOf(g[FindPeg(g, s)], s)
  {
    var r := Step(g, from, to);
    var p := FindPeg(g, s);
    var t := Top(g[from]);
    LegalMove(g, from, to);
    MovePreservesWellFormed(g, from, to);
    assert g[from] == Pop(g[from]) + [t];
    if p == from {
      IndexOfAppend(r[p], t, s);
    } else if p == to {
      IndexOfAppend(g[p], t, s);
    }
    assert s in r[p];
    FindPegOf(r, p, s);
  }

  /** After a move, every disk still at its old peg's x also has the y of its depth there: only the
      moved disk needs repositioning. */
  lemma MoveKeepsRested(g: Pegs, objs: seq<Obj>, from: int, to: int)
    requires WellFormed(g) && MoveDefined(g, from, to) && InSync(g, objs)
    requires |Sticks(objs)| == 3 && Resyncable(Sticks(objs))
    ensures Rested(Step(g, from, to), objs)
  {
    var sticks := Sticks(objs);
    var r := Step(g, from, to);
    if Legal(g, from, to) && !DistinctX(sticks) {
      MoveConservesDisks(g, from, to);
      forall o | o in objs && AtPeg(r, sticks, o)
        ensures Placed(r, sticks, o)
      {
        assert OnPeg(g, o.size);
        FlatDiskY(sticks, FindPeg(g, o.size), IndexOf(g[FindPeg(g, o.size)], o.size));
        FlatDiskY(sticks, FindPeg(r, o.size), IndexOf(r[FindPeg(r, o.size)], o.size));
      }
    } else if Legal(g, from, to) {
      MoveConservesDisks(g, from, to);
      MovedDiskChangesPeg(g, from, to);
      forall o | o in objs && AtPeg(r, sticks, o)
        ensures Placed(r, sticks, o)
      {
        var p := FindPeg(g, o.size);
        assert sticks[FindPeg(r, o.size)].x == sticks[p].x;
        assert FindPeg(r, o.size) == p;
        StepKeepsPlace(g, from, to, o.size);
      }
    }
  }

  /** A move followed by `update` brings a synced scene back in sync with the new game, keeps the
      same sticks and shows the same disks. */
  lemma MoveThenUpdateKeepsSync(g: Pegs, objs: seq<Obj>, from: int, to: int)
    requires WellFormed(g) && MoveDefined(g, from, to) && InSync(g, objs) && Shows(g, objs)
    requires |Sticks(objs)| == 3 && Resyncable(Sticks(objs))
    ensures UpdateDefined(Step(g, from, to), objs)
    ensures InSync(Step(g, from, to), Update(Step(g, from, to), objs))
    ensures Shows(Step(g, from, to), Update(Step(g, from, to), objs))
    ensures Sticks(Update(Step(g, from, to), objs)) == Sticks(objs)
  {
    var r := Step(g, from, to);
    MoveConservesDisks(g, from, to);
    forall o | o in objs && o.Disk?
      ensures 0 <= FindPeg(r, o.size) < |Sticks(objs)|
    {
      assert OnPeg(g, o.size);
    }
    MoveKeepsRested(g, objs, from, to);
    UpdateResyncs(r, objs);
    UpdateShows(r, objs);
    UpdateSticksFirst(r, objs);
  }

  // ----- sticks that share an x -----

  /** Why the sync results need `Resyncable` sticks. When two sticks of positive width coincide,
      `update` cannot tell their pegs apart: a disk moved legally from one to the other still sits
      at "its" stick's x, so it is carried over with the y of its old depth, and the scene is out
      of sync whenever that depth changes. `setupGame` never builds such sticks
      (`CanvasSticksResyncable`): its sticks share an x only on a canvas too narrow for them to have
      any width. */
  lemma SharedStickXKeepsStaleY(g: Pegs, objs: seq<Obj>, from: int, to: int)
    requires WellFormed(g) && InSync(g, objs) && Shows(g, objs) && |Sticks(objs)| == 3
    requires MoveDefined(g, from, to) && Legal(g, from, to)
    requires Sticks(objs)[from] == Sticks(objs)[to] && Sticks(objs)[to].w > 0
    requires |g[to]| != |g[from]| - 1
    ensures !Resyncable(Sticks(objs))
    ensures UpdateDefined(Step(g, from, to), objs)
    ensures !InSync(Step(g, from, to), Update(Step(g, from, to), objs))
  {
    var sticks := Sticks(objs);
    var r := Step(g, from, to);
    MoveConservesDisks(g, from, to);
    forall o | o in objs && o.Disk?
      ensures 0 <= FindPeg(r, o.size) < |sticks|
    {
      assert OnPeg(g, o.size);
    }
    var o := MovedDiskObject(g, objs, from, to);
    MovedDiskChangesPeg(g, from, to);
    assert !Flat(sticks) by {
      assert sticks[to].w != 0;
    }
    assert AtPeg(r, sticks, o);
    UpdateCarries(r, objs, o);
    MovedDiskDepth(g, from, to);
    UpdateSticksFirst(r, objs);
    DiskYByDepth(sticks[to], |g[to]|, |g[from]| - 1);
    assert !Placed(r, Sticks(Update(r, objs)), Resync(r, o));
  }

  /** On a synced scene, the object of the disk a legal move takes sits at the x of its stick and
      the y of the top of its peg. */
  lemma MovedDiskObject(g: Pegs, objs: seq<Obj>, from: int, to: int) returns (o: Obj)
    requires WellFormed(g) && InSync(g, objs) && Shows(g, objs) && |Sticks(objs)| == 3
    requires MoveDefined(g, from, to) && Legal(g, from, to)
    ensures o in objs && o.Disk? && o.size == Top(g[from])
    ensures o.x == Sticks(objs)[from].x && o.y == DiskY(Sticks(objs)[from], |g[from]| - 1)
  {
    var d := Top(g[from]);
    assert OnPeg(g, d);
    o :| o in objs && o.Disk? && o.size == d;
    Whereabouts(g, from, |g[from]| - 1);
  }

  /** The moved disk lands on top of peg `to`. */
  lemma MovedDiskDepth(g: Pegs, from: int, to: int)
    requires WellFormed(g) && MoveDefined(g, from, to) && Legal(g, from, to)
    ensures 0 <= to < 3 && IndexOf(Step(g, from, to)[to], Top(g[from])) == |g[to]|
  {
    LegalMove(g, from, to);
    MovePreservesWellFormed(g, from, to);
    var r := Step(g, from, to);
    assert r[to][|g[to]|] == Top(g[from]);
    Whereabouts(r, to, |g[to]|);
  }

  /** On a stick of positive width, different depths have different y. */
  lemma DiskYByDepth(stick: Obj, j: int, k: int)
    requires stick.w > 0 && j != k
    ensures DiskY(stick, j) != DiskY(stick, k)
  {
    if j < k {
      assert 5 * k * stick.w >= 5 * j * stick.w + 5;
    } else {
      assert 5 * j * stick.w >= 5 * k * stick.w + 5;
    }
  }

  /** On flat sticks every depth of every stick has the same y. */
  lemma FlatDiskY(sticks: seq<Obj>, i: int, k: int)
    requires Flat(sticks) && 0 <= i < |sticks|
    ensures DiskY(sticks[i], k) == sticks[0].y + sticks[0].h / 2
  {
  }
}
