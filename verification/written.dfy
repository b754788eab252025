/** The loop body of `calculateTotals` as written, over JavaScript numbers:
    the bucket is created as soon as the wall's paint is found, and the
    wall's length and height and the paint's price and coverage are used
    whether they are set or not. An unset field reads as `undefined`, which
    arithmetic turns into NaN. Finite values are exact reals here; rounding
    and negative zero are not modelled. */
module WrittenTotals {
  import opened PaintModel
  import opened TotalsEngine

  /** A JavaScript number: finite, NaN, or an infinity with its sign. */
  datatype JsNum = Fin(r: real) | NaN | Inf(positive: bool)

  /** An optional field read as a number: `undefined` behaves as NaN. */
  function Read(o: Option<real>): (n: JsNum)
    ensures o.None? <==> n.NaN?
    ensures o.Some? ==> n == Fin(o.value)
  {
    match o
    case None => NaN
    case Some(v) => Fin(v)
  }

  function Sign(x: real): bool { x >= 0.0 }

  function JsAdd(a: JsNum, b: JsNum): (n: JsNum)
    ensures a.NaN? || b.NaN? ==> n.NaN?
    ensures a.Fin? && b.Fin? ==> n == Fin(a.r + b.r)
  {
    match (a, b)
    case (Fin(x), Fin(y)) => Fin(x + y)
    case (Inf(p), Inf(q)) => if p == q then Inf(p) else NaN
    case (Inf(p), Fin(_)) => Inf(p)
    case (Fin(_), Inf(q)) => Inf(q)
    case _ => NaN
  }

  function JsMul(a: JsNum, b: JsNum): (n: JsNum)
    ensures a.NaN? || b.NaN? ==> n.NaN?
    ensures a.Fin? && b.Fin? ==> n == Fin(a.r * b.r)
  {
    if a.Fin? && b.Fin? then Fin(a.r * b.r)
    else
      match (a, b)
      case (Inf(p), Inf(q)) => Inf(p == q)
      case (Inf(p), Fin(y)) => if y == 0.0 then NaN else Inf(p == Sign(y))
      case (Fin(x), Inf(q)) => if x == 0.0 then NaN else Inf(Sign(x) == q)
      case _ => NaN
  }

  function JsDiv(a: JsNum, b: JsNum): (n: JsNum)
    ensures a.NaN? || b.NaN? ==> n.NaN?
    ensures a.Fin? && b.Fin? && b.r != 0.0 ==> n == Fin(a.r / b.r)
    ensures a.Fin? && b == Fin(0.0) ==> (n.NaN? <==> a.r == 0.0)
  {
    match (a, b)
    case (Fin(x), Fin(y)) =>
      if y != 0.0 then Fin(x / y)
      else if x == 0.0 then NaN
      else Inf(Sign(x))
    case (Fin(_), Inf(_)) => Fin(0.0)
    case (Inf(p), Fin(y)) => Inf(p == Sign(y))
    case _ => NaN
  }

  datatype JsBucket = JsBucket(area: JsNum, cost: JsNum, liters: JsNum)

  datatype JsTotals = JsTotals(paintTotals: map<string, JsBucket>, grandTotalCost: JsNum)

  const JsNoTotals := JsTotals(map[], Fin(0.0))

  /** One wall as the source handles it: an unresolved paint id is skipped;
      a resolved one gets its bucket, at zero if new, and the wall's area,
      cost and litres are added whatever they come to. */
  function WrittenVisit(paints: seq<Paint>, t: JsTotals, w: Wall): (r: JsTotals)
    ensures FindPaint(paints, w.paintId).None? ==> r == t
    ensures FindPaint(paints, w.paintId).Some? ==>
              r.paintTotals.Keys == t.paintTotals.Keys + {w.paintId}
    ensures FindPaint(paints, w.paintId).Some? && (w.length.None? || w.height.None?) ==> r.grandTotalCost.NaN?
  {
    match FindPaint(paints, w.paintId)
    case None => t
    case Some(p) =>
      var m := if p.id in t.paintTotals then t.paintTotals
               else t.paintTotals[p.id := JsBucket(Fin(0.0), Fin(0.0), Fin(0.0))];
      var area := JsMul(Read(w.length), Read(w.height));
      var cost := JsMul(area, Read(p.price));
      var liters := JsDiv(area, Read(p.coverage));
      var b := m[p.id];
      JsTotals(m[p.id := JsBucket(JsAdd(b.area, area), JsAdd(b.cost, cost), JsAdd(b.liters, liters))],
               JsAdd(t.grandTotalCost, cost))
  }

  /** The walls taken in order, as the nested loops take them; no bucket is
      ever dropped. */
  function WrittenAccumulate(paints: seq<Paint>, t: JsTotals, walls: seq<Wall>): (r: JsTotals)
    ensures t.paintTotals.Keys <= r.paintTotals.Keys
    decreases |walls|
  {
    if walls == [] then t
    else WrittenVisit(paints, WrittenAccumulate(paints, t, walls[..|walls| - 1]), walls[|walls| - 1])
  }

  /** As written, every wall whose paint is found leaves a bucket for that
      paint, whether the wall has a size or not. */
  lemma {:induction false} FoundPaintHasBucket(paints: seq<Paint>, t: JsTotals, walls: seq<Wall>, i: nat)
    requires i < |walls| && FindPaint(paints, walls[i].paintId).Some?
    ensures walls[i].paintId in WrittenAccumulate(paints, t, walls).paintTotals
    decreases |walls|
  {
    var n := |walls| - 1;
    if i < n {
      assert walls[..n][i] == walls[i];
      FoundPaintHasBucket(paints, t, walls[..n], i);
    }
  }

  /** Once the grand total is NaN, no later wall of the same pass brings it
      back. */
  lemma {:induction false} NaNSticks(paints: seq<Paint>, t: JsTotals, walls: seq<Wall>)
    requires t.grandTotalCost.NaN?
    ensures WrittenAccumulate(paints, t, walls).grandTotalCost.NaN?
    decreases |walls|
  {
    if walls != [] {
      NaNSticks(paints, t, walls[..|walls| - 1]);
    }
  }

  /** A paint picked for a new wall before its size is entered: as written,
      the paint gets a bucket and the grand total becomes NaN for the rest of
      that pass over the walls; the model leaves that wall out of every
      total. */
  lemma PaintBeforeSize(later: seq<Wall>)
    ensures
      var paints := [Paint("p1", "Wall white", "", Some(10.0), Some(5.0))];
      var w := Wall("w1", "New Wall", None, None, "p1");
      && WrittenAccumulate(paints, JsNoTotals, [w] + later).grandTotalCost.NaN?
      && "p1" in WrittenVisit(paints, JsNoTotals, w).paintTotals
      && Step(paints, NoTotals, w) == NoTotals
  {
    var paints := [Paint("p1", "Wall white", "", Some(10.0), Some(5.0))];
    var w := Wall("w1", "New Wall", None, None, "p1");
    assert FindPaint(paints, "p1") == Some(paints[0]);
    var first := WrittenAccumulate(paints, JsNoTotals, [w]);
    assert [w][..0] == [];
    assert first.grandTotalCost.NaN?;
    WrittenAppend(paints, JsNoTotals, [w], later);
    NaNSticks(paints, first, later);
  }

  function EmbedBucket(b: Bucket): JsBucket {
    JsBucket(Fin(b.area), Fin(b.cost), Fin(b.liters))
  }

  function EmbedMap(m: map<string, Bucket>): map<string, JsBucket> {
    map k | k in m :: EmbedBucket(m[k])
  }

  /** The model's totals as JavaScript numbers. */
  function Embed(t: Totals): JsTotals {
    JsTotals(EmbedMap(t.paintTotals), Fin(t.grandTotalCost))
  }

  lemma EmbedAddTo(m: map<string, Bucket>, id: string, b: Bucket)
    ensures EmbedMap(AddTo(m, id, b)) == EmbedMap(m)[id := EmbedBucket(Plus(if id in m then m[id] else Zero, b))]
  {
  }

  /** On a wall that counts, the code as written and the model's step agree:
      the two differ only on the walls the model leaves out. */
  lemma CountedWallAgrees(paints: seq<Paint>, t: Totals, w: Wall)
    requires Contribution(paints, w).Some?
    ensures WrittenVisit(paints, Embed(t), w) == Embed(Step(paints, t, w))
  {
    var p := FindPaint(paints, w.paintId).value;
    ContributionFound(paints, w, p);
    var c := Contribution(paints, w).value;
    var area := w.length.value * w.height.value;
    assert JsMul(Read(w.length), Read(w.height)) == Fin(c.area);
    assert JsMul(Fin(area), Read(p.price)) == Fin(c.cost);
    assert JsDiv(Fin(area), Read(p.coverage)) == Fin(c.liters);
    var m := t.paintTotals;
    var cur := if w.paintId in m then m[w.paintId] else Zero;
    var em := EmbedMap(m);
    var m0 := if w.paintId in em then em else em[w.paintId := JsBucket(Fin(0.0), Fin(0.0), Fin(0.0))];
    assert m0[w.paintId] == EmbedBucket(cur);
    EmbedAddTo(m, w.paintId, c);
    assert m0[w.paintId := EmbedBucket(Plus(cur, c))] == em[w.paintId := EmbedBucket(Plus(cur, c))];
  }

  lemma {:induction false} WrittenAppend(paints: seq<Paint>, t: JsTotals, a: seq<Wall>, b: seq<Wall>)
    ensures WrittenAccumulate(paints, t, a + b) == WrittenAccumulate(paints, WrittenAccumulate(paints, t, a), b)
    decreases |b|
  {
    if b == [] {
      assert a + b == a;
    } else {
      var b' := b[..|b| - 1];
      assert a + b == (a + b') + [b[|b| - 1]];
      assert (a + b)[..|a + b| - 1] == a + b';
      WrittenAppend(paints, t, a, b');
    }
  }
}
