/** `calculateTotals`: one pass over every wall of every room that adds
    area, cost and litres into a bucket per paint and the cost into a grand
    total. A wall counts only when its paint is found and the wall's length
    and height and the paint's coverage and price are all set, with a
    coverage other than zero; any other wall is left out of every total. */
module TotalsEngine {
  import opened PaintModel
  import opened Keyed
  import opened Handlers

  /** Square metres, cost and litres gathered for one paint. */
  datatype Bucket = Bucket(area: real, cost: real, liters: real)

  const Zero := Bucket(0.0, 0.0, 0.0)

  function Plus(a: Bucket, b: Bucket): Bucket {
    Bucket(a.area + b.area, a.cost + b.cost, a.liters + b.liters)
  }

  /** The buckets by paint id, and the grand total cost. */
  datatype Totals = Totals(paintTotals: map<string, Bucket>, grandTotalCost: real)

  const NoTotals := Totals(map[], 0.0)

  /** `paints.find(p => p.id === id)`. */
  function FindPaint(paints: seq<Paint>, id: string): (r: Option<Paint>)
    ensures r.Some? <==> HasPaint(paints, id)
    ensures r.Some? ==> r.value in paints && r.value.id == id
    decreases |paints|
  {
    if paints == [] then None
    else
      HasKeyCons(paints, PaintId, id);
      if paints[0].id == id then Some(paints[0])
      else FindPaint(paints[1..], id)
  }

  /** The paint found is the first one with that id. */
  lemma {:induction false} FindPaintFirst(paints: seq<Paint>, k: nat)
    requires k < |paints| && !HasPaint(paints[..k], paints[k].id)
    ensures FindPaint(paints, paints[k].id) == Some(paints[k])
    decreases k
  {
    if k > 0 {
      assert paints[..k][0] == paints[0];
      var rest := paints[1..];
      assert rest[k - 1] == paints[k];
      var before := rest[..k - 1];
      assert !HasPaint(before, paints[k].id) by {
        forall i | 0 <= i < |before| ensures before[i].id != paints[k].id {
          assert before[i] == paints[..k][i + 1];
        }
      }
      FindPaintFirst(rest, k - 1);
    }
  }

  /** What one wall adds to the bucket of its paint, or None when the wall
      is left out. */
  function Contribution(paints: seq<Paint>, w: Wall): (r: Option<Bucket>)
    ensures !HasPaint(paints, w.paintId) ==> r.None?
    ensures w.length.None? || w.height.None? ==> r.None?
    ensures r.Some? ==> r.value.area == w.length.value * w.height.value
  {
    match FindPaint(paints, w.paintId)
    case None => None
    case Some(p) =>
      if w.length.Some? && w.height.Some? && p.coverage.Some? && p.price.Some? && p.coverage.value != 0.0 then
        var area := w.length.value * w.height.value;
        Some(Bucket(area, area * p.price.value, area / p.coverage.value))
      else None
  }

  /** With unique paint ids, a wall painted with the paint at `k` counts
      exactly when the wall's length and height and the paint's coverage and
      price are all set and the coverage is not zero; it then adds
      area = length * height, cost = area * price, litres = area / coverage. */
  lemma ContributionOfPaint(paints: seq<Paint>, w: Wall, k: nat)
    requires UniquePaintIds(paints) && k < |paints| && paints[k].id == w.paintId
    ensures Contribution(paints, w).Some? <==>
              w.length.Some? && w.height.Some? && paints[k].coverage.Some? && paints[k].price.Some? &&
              paints[k].coverage.value != 0.0
    ensures Contribution(paints, w).Some? ==>
              var b := Contribution(paints, w).value;
              && b.area == w.length.value * w.height.value
              && b.cost == b.area * paints[k].price.value
              && b.liters == b.area / paints[k].coverage.value
  {
    UniqueKeyOnlyAt(paints, PaintId, k);
    FindPaintFirst(paints, k);
  }

  lemma ContributionFound(paints: seq<Paint>, w: Wall, p: Paint)
    requires FindPaint(paints, w.paintId) == Some(p)
    ensures p.id == w.paintId
    ensures Contribution(paints, w).Some? <==>
              w.length.Some? && w.height.Some? && p.coverage.Some? && p.price.Some? && p.coverage.value != 0.0
    ensures Contribution(paints, w).Some? ==>
              var area := w.length.value * w.height.value;
              Contribution(paints, w).value == Bucket(area, area * p.price.value, area / p.coverage.value)
  {
    if Contribution(paints, w).Some? {
      var area := w.length.value * w.height.value;
      assert Contribution(paints, w).value.area == area;
      assert Contribution(paints, w).value.cost == area * p.price.value;
      assert Contribution(paints, w).value.liters == area / p.coverage.value;
    }
  }

  /** Adds `b` into the bucket of `id`, which starts at zero if it is new. */
  function AddTo(m: map<string, Bucket>, id: string, b: Bucket): (r: map<string, Bucket>)
    ensures r.Keys == m.Keys + {id}
    ensures forall k :: k in m && k != id ==> r[k] == m[k]
    ensures r[id] == Plus(if id in m then m[id] else Zero, b)
  {
    var current := if id in m then m[id] else Zero;
    m[id := Plus(current, b)]
  }

  /** The body of the inner loop of `calculateTotals`, for one wall. */
  function Step(paints: seq<Paint>, t: Totals, w: Wall): (r: Totals)
    ensures r.grandTotalCost == t.grandTotalCost + WallCost(paints, w)
    ensures Contribution(paints, w).None? ==> r == t
  {
    match Contribution(paints, w)
    case None => t
    case Some(b) => Totals(AddTo(t.paintTotals, w.paintId, b), t.grandTotalCost + b.cost)
  }

  /** The totals reached from `t` after the walls, taken in order. */
  function Accumulate(paints: seq<Paint>, t: Totals, walls: seq<Wall>): (r: Totals)
    ensures t.paintTotals.Keys <= r.paintTotals.Keys
    ensures r.grandTotalCost == t.grandTotalCost + WallCosts(paints, walls)
    decreases |walls|
  {
    if walls == [] then t
    else Step(paints, Accumulate(paints, t, walls[..|walls| - 1]), walls[|walls| - 1])
  }

  /** The totals of the walls, starting from no buckets and a zero total. */
  function TotalsOf(paints: seq<Paint>, walls: seq<Wall>): (r: Totals)
    ensures r.grandTotalCost == WallCosts(paints, walls)
  {
    Accumulate(paints, NoTotals, walls)
  }

  /** What `calculateTotals` returns for these paints and rooms. */
  function ComputeTotals(paints: seq<Paint>, rooms: seq<Room>): (r: Totals)
    ensures r.grandTotalCost == WallCosts(paints, AllWalls(rooms))
  {
    TotalsOf(paints, AllWalls(rooms))
  }

  /** `calculateTotals`: nested loops over the rooms and their walls that
      update the buckets and the grand total in place. */
  method CalculateTotals(paints: seq<Paint>, rooms: seq<Room>) returns (paintTotals: map<string, Bucket>, grandTotalCost: real)
    ensures Totals(paintTotals, grandTotalCost) == ComputeTotals(paints, rooms)
    ensures grandTotalCost == SumCost(paintTotals)
  {
    paintTotals := map[];
    grandTotalCost := 0.0;
    for i := 0 to |rooms|
      invariant Totals(paintTotals, grandTotalCost) == TotalsOf(paints, AllWalls(rooms[..i]))
    {
      var room := rooms[i];
      ghost var walls := AllWalls(rooms[..i]);
      assert walls + room.walls[..0] == walls;
      AllWallsSnoc(rooms, i);
      for j := 0 to |room.walls|
        invariant Totals(paintTotals, grandTotalCost) == TotalsOf(paints, walls + room.walls[..j])
      {
        var wall := room.walls[j];
        ghost var done := walls + room.walls[..j];
        SnocSlice(walls, room.walls, j);
        AccumulateSnoc(paints, NoTotals, done, wall);
        paintTotals, grandTotalCost := VisitWall(paints, paintTotals, grandTotalCost, wall);
      }
      assert room.walls[..|room.walls|] == room.walls;
    }
    assert rooms[..|rooms|] == rooms;
    GrandTotalIsSumOfBuckets(paints, AllWalls(rooms));
  }

  /** The callback the inner loop runs for each wall: find the wall's paint
      and, when the wall counts, add it to the paint's bucket, creating the
      bucket at zero first, and to the grand total. */
  method VisitWall(paints: seq<Paint>, paintTotals: map<string, Bucket>, grandTotalCost: real, wall: Wall)
    returns (paintTotals': map<string, Bucket>, grandTotalCost': real)
    ensures Totals(paintTotals', grandTotalCost') == Step(paints, Totals(paintTotals, grandTotalCost), wall)
  {
    paintTotals', grandTotalCost' := paintTotals, grandTotalCost;
    var paint := FindPaint(paints, wall.paintId);
    if paint.Some? {
      var p := paint.value;
      ContributionFound(paints, wall, p);
      if wall.length.Some? && wall.height.Some? && p.coverage.Some? && p.price.Some? && p.coverage.value != 0.0 {
        if p.id !in paintTotals' {
          paintTotals' := paintTotals'[p.id := Zero];
        }
        var area := wall.length.value * wall.height.value;
        var cost := area * p.price.value;
        var liters := area / p.coverage.value;
        var b := paintTotals'[p.id];
        paintTotals' := paintTotals'[p.id := Bucket(b.area + area, b.cost + cost, b.liters + liters)];
        grandTotalCost' := grandTotalCost' + cost;
        assert Contribution(paints, wall).Some?;
        assert Contribution(paints, wall).value.area == area;
        assert Contribution(paints, wall).value.cost == cost;
        assert Contribution(paints, wall).value.liters == liters;
        assert Contribution(paints, wall) == Some(Bucket(area, cost, liters));
        assert paintTotals' == AddTo(paintTotals, wall.paintId, Bucket(area, cost, liters));
      } else {
        assert Contribution(paints, wall) == None;
      }
    } else {
      assert Contribution(paints, wall) == None;
    }
  }

  // ------------------------------------------------------------ what the totals mean

  /** One more element of `b` taken after `a`. */
  lemma SnocSlice<T>(a: seq<T>, b: seq<T>, j: nat)
    requires j < |b|
    ensures a + b[..j + 1] == (a + b[..j]) + [b[j]]
  {
    assert b[..j + 1] == b[..j] + [b[j]];
  }

  lemma AllWallsSnoc(rooms: seq<Room>, i: nat)
    requires i < |rooms|
    ensures AllWalls(rooms[..i + 1]) == AllWalls(rooms[..i]) + rooms[i].walls
  {
    assert rooms[..i + 1][..i] == rooms[..i];
  }

  /** The cost of a wall that counts, zero for any other wall. */
  function WallCost(paints: seq<Paint>, w: Wall): real {
    match Contribution(paints, w)
    case None => 0.0
    case Some(b) => b.cost
  }

  /** The sum of the walls' own costs. */
  function WallCosts(paints: seq<Paint>, walls: seq<Wall>): real
    decreases |walls|
  {
    if walls == [] then 0.0
    else WallCosts(paints, walls[..|walls| - 1]) + WallCost(paints, walls[|walls| - 1])
  }

  /** Some wall painted with paint `id` counts. */
  predicate Contributes(paints: seq<Paint>, walls: seq<Wall>, id: string) {
    exists i :: 0 <= i < |walls| && walls[i].paintId == id && Contribution(paints, walls[i]).Some?
  }

  /** What the walls painted with paint `id` that count add up to. */
  function BucketFor(paints: seq<Paint>, walls: seq<Wall>, id: string): Bucket
    decreases |walls|
  {
    if walls == [] then Zero
    else
      var w := walls[|walls| - 1];
      var c := Contribution(paints, w);
      Plus(BucketFor(paints, walls[..|walls| - 1], id), if c.Some? && w.paintId == id then c.value else Zero)
  }

  /** The sum of the costs in the buckets of `m`. */
  ghost function SumCost(m: map<string, Bucket>): real
    decreases |m|
  {
    if m == map[] then 0.0
    else
      var k :| k in m;
      m[k].cost + SumCost(m - {k})
  }

  lemma {:induction false} SumCostRemove(m: map<string, Bucket>, k: string)
    requires k in m
    ensures SumCost(m) == m[k].cost + SumCost(m - {k})
    decreases |m|
  {
    var j :| j in m && SumCost(m) == m[j].cost + SumCost(m - {j});
    if j != k {
      assert m - {j} - {k} == m - {k} - {j};
      SumCostRemove(m - {j}, k);
      SumCostRemove(m - {k}, j);
    }
  }

  lemma SumCostAddTo(m: map<string, Bucket>, id: string, b: Bucket)
    ensures SumCost(AddTo(m, id, b)) == SumCost(m) + b.cost
  {
    var r := AddTo(m, id, b);
    SumCostRemove(r, id);
    if id in m {
      assert r - {id} == m - {id};
      SumCostRemove(m, id);
    } else {
      assert r - {id} == m;
    }
  }

  /** The grand total is the sum of the bucket costs. */
  lemma {:induction false} GrandTotalIsSumOfBuckets(paints: seq<Paint>, walls: seq<Wall>)
    ensures TotalsOf(paints, walls).grandTotalCost == SumCost(TotalsOf(paints, walls).paintTotals)
    decreases |walls|
  {
    if walls != [] {
      var w := walls[|walls| - 1];
      var prev := TotalsOf(paints, walls[..|walls| - 1]);
      GrandTotalIsSumOfBuckets(paints, walls[..|walls| - 1]);
      match Contribution(paints, w)
      case None =>
      case Some(b) => SumCostAddTo(prev.paintTotals, w.paintId, b);
    }
  }

  lemma ContributesSnoc(paints: seq<Paint>, walls: seq<Wall>, w: Wall, id: string)
    ensures Contributes(paints, walls + [w], id) <==>
            Contributes(paints, walls, id) || (w.paintId == id && Contribution(paints, w).Some?)
  {
    var all := walls + [w];
    if Contributes(paints, all, id) && !(w.paintId == id && Contribution(paints, w).Some?) {
      var i :| 0 <= i < |all| && all[i].paintId == id && Contribution(paints, all[i]).Some?;
      assert walls[i] == all[i];
    }
    if w.paintId == id && Contribution(paints, w).Some? {
      assert all[|walls|] == w;
    }
    if Contributes(paints, walls, id) {
      var i :| 0 <= i < |walls| && walls[i].paintId == id && Contribution(paints, walls[i]).Some?;
      assert all[i] == walls[i];
    }
  }

  /** A bucket exists for paint `id` exactly when some wall painted with it
      counts, and it holds what those walls add up to. */
  lemma {:induction false} PerPaintBucket(paints: seq<Paint>, walls: seq<Wall>, id: string)
    ensures id in TotalsOf(paints, walls).paintTotals <==> Contributes(paints, walls, id)
    ensures (if id in TotalsOf(paints, walls).paintTotals then TotalsOf(paints, walls).paintTotals[id] else Zero)
            == BucketFor(paints, walls, id)
    decreases |walls|
  {
    if walls != [] {
      var n := |walls| - 1;
      var init, w := walls[..n], walls[n];
      assert walls == init + [w];
      PerPaintBucket(paints, init, id);
      ContributesSnoc(paints, init, w, id);
    }
  }

  // --------------------------------------------------------------- order does not matter

  /** Two walls can be taken in either order. */
  lemma StepsCommute(paints: seq<Paint>, t: Totals, a: Wall, b: Wall)
    ensures Step(paints, Step(paints, t, a), b) == Step(paints, Step(paints, t, b), a)
  {
    match (Contribution(paints, a), Contribution(paints, b))
    case (Some(x), Some(y)) =>
      AddToCommute(t.paintTotals, a.paintId, x, b.paintId, y);
    case _ =>
  }

  /** Adding two buckets into the totals in either order gives the same map. */
  lemma AddToCommute(m: map<string, Bucket>, i: string, x: Bucket, j: string, y: Bucket)
    ensures AddTo(AddTo(m, i, x), j, y) == AddTo(AddTo(m, j, y), i, x)
  {
    if i == j {
      var cur := if i in m then m[i] else Zero;
      assert Plus(Plus(cur, x), y) == Plus(Plus(cur, y), x);
    }
  }

  lemma AccumulateSnoc(paints: seq<Paint>, t: Totals, s: seq<Wall>, w: Wall)
    ensures Accumulate(paints, t, s + [w]) == Step(paints, Accumulate(paints, t, s), w)
  {
    assert (s + [w])[..|s|] == s;
  }

  /** Moving one wall to the end changes nothing. */
  lemma {:induction false} MoveToEnd(paints: seq<Paint>, t: Totals, s: seq<Wall>, x: Wall, u: seq<Wall>)
    ensures Accumulate(paints, t, s + [x] + u) == Accumulate(paints, t, s + u + [x])
    decreases |u|
  {
    if u == [] {
      assert s + [x] + u == s + u + [x];
    } else {
      var u', y := u[..|u| - 1], u[|u| - 1];
      assert s + [x] + u == (s + [x] + u') + [y];
      assert s + u == (s + u') + [y];
      calc {
        Accumulate(paints, t, s + [x] + u);
        { AccumulateSnoc(paints, t, s + [x] + u', y); }
        Step(paints, Accumulate(paints, t, s + [x] + u'), y);
        { MoveToEnd(paints, t, s, x, u'); }
        Step(paints, Accumulate(paints, t, s + u' + [x]), y);
        { AccumulateSnoc(paints, t, s + u', x); }
        Step(paints, Step(paints, Accumulate(paints, t, s + u'), x), y);
        { StepsCommute(paints, Accumulate(paints, t, s + u'), x, y); }
        Step(paints, Step(paints, Accumulate(paints, t, s + u'), y), x);
        { AccumulateSnoc(paints, t, s + u', y); }
        Step(paints, Accumulate(paints, t, s + u), x);
        { AccumulateSnoc(paints, t, s + u, x); }
        Accumulate(paints, t, s + u + [x]);
      }
    }
  }

  /** In two arrangements of the same items, the last item of the first sits
      at some place `k` of the second, and what remains of each is again an
      arrangement of the same items. */
  lemma PickOut<T>(a: seq<T>, b: seq<T>) returns (k: nat)
    requires a != [] && multiset(a) == multiset(b)
    ensures k < |b| && b[k] == a[|a| - 1]
    ensures b == b[..k] + [b[k]] + b[k + 1..]
    ensures multiset(a[..|a| - 1]) == multiset(b[..k] + b[k + 1..])
  {
    var n := |a| - 1;
    var x := a[n];
    assert a == a[..n] + [x];
    assert x in multiset(b);
    k :| 0 <= k < |b| && b[k] == x;
    var s, u := b[..k], b[k + 1..];
    assert b == s + [x] + u;
    assert multiset(a[..n]) == multiset(a) - multiset{x};
    assert multiset(s + u) == multiset(b) - multiset{x};
  }

  /** The totals depend only on which walls there are, not on their order. */
  lemma {:induction false} TotalsIgnoreOrder(paints: seq<Paint>, t: Totals, w1: seq<Wall>, w2: seq<Wall>)
    requires multiset(w1) == multiset(w2)
    ensures Accumulate(paints, t, w1) == Accumulate(paints, t, w2)
    decreases |w1|
  {
    if w1 != [] {
      var n := |w1| - 1;
      var x := w1[n];
      var k := PickOut(w1, w2);
      var s, u := w2[..k], w2[k + 1..];
      assert w1 == w1[..n] + [x];
      TotalsIgnoreOrder(paints, t, w1[..n], s + u);
      AccumulateSnoc(paints, t, w1[..n], x);
      AccumulateSnoc(paints, t, s + u, x);
      MoveToEnd(paints, t, s, x, u);
    } else {
      assert w2 == [];
    }
  }

  /** Flattening two arrangements of the same rooms gives two arrangements of
      the same walls. */
  lemma {:induction false} AllWallsMultiset(r1: seq<Room>, r2: seq<Room>)
    requires multiset(r1) == multiset(r2)
    ensures multiset(AllWalls(r1)) == multiset(AllWalls(r2))
    decreases |r1|
  {
    if r1 != [] {
      var n := |r1| - 1;
      var x := r1[n];
      var k := PickOut(r1, r2);
      var s, u := r2[..k], r2[k + 1..];
      AllWallsMultiset(r1[..n], s + u);
      assert AllWalls(r1) == AllWalls(r1[..n]) + x.walls;
      AllWallsOne(x);
      AllWallsAppend(s + [x], u);
      AllWallsAppend(s, [x]);
      AllWallsAppend(s, u);
      assert AllWalls(r2) == AllWalls(s) + x.walls + AllWalls(u);
    } else {
      assert r2 == [];
    }
  }

  /** Reordering the rooms does not change the totals. */
  lemma RoomOrderIrrelevant(paints: seq<Paint>, r1: seq<Room>, r2: seq<Room>)
    requires multiset(r1) == multiset(r2)
    ensures ComputeTotals(paints, r1) == ComputeTotals(paints, r2)
  {
    AllWallsMultiset(r1, r2);
    TotalsIgnoreOrder(paints, NoTotals, AllWalls(r1), AllWalls(r2));
  }

  /** Reordering the walls of one room does not change the totals. */
  lemma WallOrderIrrelevant(paints: seq<Paint>, rooms: seq<Room>, i: nat, walls: seq<Wall>)
    requires i < |rooms| && multiset(walls) == multiset(rooms[i].walls)
    ensures ComputeTotals(paints, rooms[i := rooms[i].(walls := walls)]) == ComputeTotals(paints, rooms)
  {
    var r2 := rooms[i := rooms[i].(walls := walls)];
    var before, after := rooms[..i], rooms[i + 1..];
    assert rooms == before + [rooms[i]] + after;
    assert r2 == before + [r2[i]] + after;
    AllWallsAppend(before + [rooms[i]], after);
    AllWallsAppend(before, [rooms[i]]);
    AllWallsAppend(before + [r2[i]], after);
    AllWallsAppend(before, [r2[i]]);
    AllWallsOne(rooms[i]);
    AllWallsOne(r2[i]);
    TotalsIgnoreOrder(paints, NoTotals, AllWalls(r2), AllWalls(rooms));
  }

  // ------------------------------------------------------------- walls left out

  /** A wall that does not count, wherever it stands, changes no total. */
  lemma SkippedWall(paints: seq<Paint>, s: seq<Wall>, w: Wall, u: seq<Wall>)
    requires Contribution(paints, w).None?
    ensures TotalsOf(paints, s + [w] + u) == TotalsOf(paints, s + u)
  {
    MoveToEnd(paints, NoTotals, s, w, u);
    AccumulateSnoc(paints, NoTotals, s + u, w);
  }

  /** A wall whose paint id matches no paint, the empty id of a fresh wall
      included, changes no total and creates no bucket. */
  lemma UnresolvedWallSkipped(paints: seq<Paint>, s: seq<Wall>, w: Wall, u: seq<Wall>)
    requires !HasPaint(paints, w.paintId)
    ensures TotalsOf(paints, s + [w] + u) == TotalsOf(paints, s + u)
    ensures w.paintId !in TotalsOf(paints, s + [w] + u).paintTotals
  {
    SkippedWall(paints, s, w, u);
    PerPaintBucket(paints, s + u, w.paintId);
  }

  /** A wall whose length or height is not set, wherever it stands, changes
      no total and adds no bucket, even when its paint is found. */
  lemma IncompleteWallSkipped(paints: seq<Paint>, s: seq<Wall>, w: Wall, u: seq<Wall>)
    requires w.length.None? || w.height.None?
    ensures TotalsOf(paints, s + [w] + u) == TotalsOf(paints, s + u)
    ensures w.paintId in TotalsOf(paints, s + [w] + u).paintTotals <==> Contributes(paints, s + u, w.paintId)
  {
    SkippedWall(paints, s, w, u);
    PerPaintBucket(paints, s + u, w.paintId);
  }

  /** Adding a wall never changes the totals: a new wall has no size yet. */
  lemma {:induction false} AddWallKeepsTotals(paints: seq<Paint>, rooms: seq<Room>, roomId: string, freshId: string)
    requires !WallIdInUse(rooms, freshId)
    ensures ComputeTotals(paints, AddWall(rooms, roomId, freshId)) == ComputeTotals(paints, rooms)
    decreases |rooms|
  {
    if rooms != [] {
      var n := |rooms| - 1;
      var init := rooms[..n];
      AddWallKeepsTotals(paints, init, roomId, freshId);
      var r := AddWall(rooms, roomId, freshId);
      var rInit := AddWall(init, roomId, freshId);
      assert r[..n] == rInit;
      assert AllWalls(r) == AllWalls(rInit) + r[n].walls;
      var prefix := AllWalls(rInit);
      AccumulateAppend(paints, NoTotals, prefix, r[n].walls);
      AccumulateAppend(paints, NoTotals, AllWalls(init), rooms[n].walls);
      if rooms[n].id == roomId {
        assert r[n].walls == rooms[n].walls + [NewWall(freshId)];
        AccumulateSnoc(paints, Accumulate(paints, NoTotals, prefix), rooms[n].walls, NewWall(freshId));
      }
    }
  }

  lemma {:induction false} AccumulateAppend(paints: seq<Paint>, t: Totals, a: seq<Wall>, b: seq<Wall>)
    ensures Accumulate(paints, t, a + b) == Accumulate(paints, Accumulate(paints, t, a), b)
    decreases |b|
  {
    if b == [] {
      assert a + b == a;
    } else {
      var b' := b[..|b| - 1];
      assert a + b == (a + b') + [b[|b| - 1]];
      AccumulateAppend(paints, t, a, b');
      AccumulateSnoc(paints, t, a + b', b[|b| - 1]);
    }
  }

  // --------------------------------------------------------------- examples

  /** One paint with coverage 10 and price 5, one room with walls 2 x 3 and
      4 x 2: area 14, cost 70, litres 1.4. */
  lemma WorkedExample()
    ensures
      var paints := [Paint("p1", "", "", Some(10.0), Some(5.0))];
      var rooms := [Room("r1", "", [Wall("w1", "", Some(2.0), Some(3.0), "p1"),
                                    Wall("w2", "", Some(4.0), Some(2.0), "p1")])];
      ComputeTotals(paints, rooms) == Totals(map["p1" := Bucket(14.0, 70.0, 1.4)], 70.0)
  {
    var paints := [Paint("p1", "", "", Some(10.0), Some(5.0))];
    var w1, w2 := Wall("w1", "", Some(2.0), Some(3.0), "p1"), Wall("w2", "", Some(4.0), Some(2.0), "p1");
    var rooms := [Room("r1", "", [w1, w2])];
    assert AllWalls(rooms) == [w1, w2] by {
      assert rooms[..0] == [];
    }
    assert FindPaint(paints, "p1") == Some(paints[0]);
    assert Contribution(paints, w1) == Some(Bucket(6.0, 30.0, 0.6));
    assert Contribution(paints, w2) == Some(Bucket(8.0, 40.0, 0.8));
    var t1 := Totals(map["p1" := Bucket(6.0, 30.0, 0.6)], 30.0);
    assert TotalsOf(paints, [w1]) == Step(paints, NoTotals, w1) by {
      AccumulateSnoc(paints, NoTotals, [], w1);
      assert [] + [w1] == [w1];
    }
    assert Plus(Zero, Bucket(6.0, 30.0, 0.6)) == Bucket(6.0, 30.0, 0.6);
    assert Step(paints, NoTotals, w1) == t1;
    AccumulateSnoc(paints, NoTotals, [w1], w2);
    assert Plus(Bucket(6.0, 30.0, 0.6), Bucket(8.0, 40.0, 0.8)) == Bucket(14.0, 70.0, 1.4);
    assert Step(paints, t1, w2) == Totals(map["p1" := Bucket(14.0, 70.0, 1.4)], 70.0);
  }

  /** A wall whose paint has a price but no coverage counts for nothing. */
  lemma MissingCoverageExample()
    ensures
      var paints := [Paint("p1", "", "", None, Some(10.0))];
      var rooms := [Room("r1", "", [Wall("w1", "", Some(3.0), Some(2.0), "p1")])];
      ComputeTotals(paints, rooms) == NoTotals
  {
    var paints := [Paint("p1", "", "", None, Some(10.0))];
    var w := Wall("w1", "", Some(3.0), Some(2.0), "p1");
    var rooms := [Room("r1", "", [w])];
    assert AllWalls(rooms) == [w] by {
      assert rooms[..0] == [];
    }
    assert [w][..0] == [];
  }
}
