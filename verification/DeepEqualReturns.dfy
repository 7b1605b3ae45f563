/** When DeepEqual returns: the recursion with a bound on its depth, and the heaps on which some bound is enough. */
module DeepReturns {
  import opened Common
  import opened DeepEquality
  import opened DeepLaws

  type Outcome = Option<(bool, Order)>

  /** What deepEqual returns without a further call of itself, if it does. */
  ghost function Shallow(v: Value, w: Value, o: Order, nilEmpty: bool): Outcome {
    if v.Invalid? || w.Invalid? then Some((v.Invalid? == w.Invalid?, o))
    else if v.ty != w.ty then Some((false, o))
    else match (v, w)
      case (Pointer(_, x), Pointer(_, y)) =>
        if x == None || y == None then Some(((x == None) == (y == None), o))
        else
          var (equal, seen, o') := Share(o, x.value, y.value);
          if equal && !seen then None else Some((equal, o'))
      case (Array(_, vs), Array(_, ws)) => if |vs| != |ws| then Some((false, o)) else None
      case (Slice(_, n, cs), Slice(_, m, ds)) =>
        if !nilEmpty && (n || m) then Some((n == m, o)) else if |cs| != |ds| then Some((false, o)) else None
      case (Struct(_, vs), Struct(_, ws)) => if |vs| != |ws| then Some((false, o)) else None
      case (Interface(_, x), Interface(_, y)) =>
        if x == None || y == None then Some(((x == None) == (y == None), o)) else None
      case (Primitive(_, p), Primitive(_, q)) => Some((PrimEqual(p, q), o))
      case _ => Some((false, o))
  }

  /** deepEqual with at most `f` calls inside one another; nothing if that is not enough. */
  ghost function Eval(h: Heap, v: Value, w: Value, o: Order, nilEmpty: bool, f: nat): (r: Outcome)
    requires ClosedHeap(h) && Rooted(h, v) && Rooted(h, w) && Wf(h, o)
    ensures r.Some? ==> Wf(h, r.value.1)
    decreases f, 0, 0
  {
    if f == 0 then None
    else if Shallow(v, w, o, nilEmpty).Some? then Shallow(v, w, o, nilEmpty)
    else EvalInside(h, v, w, o, nilEmpty, f - 1)
  }

  ghost function EvalInside(h: Heap, v: Value, w: Value, o: Order, nilEmpty: bool, f: nat): (r: Outcome)
    requires ClosedHeap(h) && Rooted(h, v) && Rooted(h, w) && Wf(h, o) && Shallow(v, w, o, nilEmpty).None?
    ensures r.Some? ==> Wf(h, r.value.1)
    decreases f, 2, 0
  {
    match v
    case Pointer(_, x) =>
      Eval(h, h[x.value], h[w.target.value], Share(o, x.value, w.target.value).2, nilEmpty, f)
    case Array(_, vs) => EvalAll(h, vs, w.elems, o, nilEmpty, f)
    case Slice(_, _, _) => EvalCells(h, v, w, 0, o, nilEmpty, f)
    case Struct(_, vs) => EvalAll(h, vs, w.fields, o, nilEmpty, f)
    case Interface(_, x) => Eval(h, x.value, w.content.value, o, nilEmpty, f)
  }

  ghost function EvalAll(h: Heap, vs: seq<Value>, ws: seq<Value>, o: Order, nilEmpty: bool, f: nat): (r: Outcome)
    requires ClosedHeap(h) && AllRooted(h, vs) && AllRooted(h, ws) && Wf(h, o) && |vs| == |ws|
    ensures r.Some? ==> Wf(h, r.value.1)
    decreases f, 1, |vs|
  {
    if vs == [] then Some((true, o))
    else
      match Eval(h, vs[0], ws[0], o, nilEmpty, f)
      case None => None
      case Some((equal, o')) => if !equal then Some((false, o')) else EvalAll(h, vs[1..], ws[1..], o', nilEmpty, f)
  }

  ghost function EvalCells(h: Heap, v: Value, w: Value, i: nat, o: Order, nilEmpty: bool, f: nat): (r: Outcome)
    requires ClosedHeap(h) && Rooted(h, v) && Rooted(h, w) && Wf(h, o)
    requires v.Slice? && w.Slice? && i <= |v.cells| == |w.cells|
    ensures r.Some? ==> Wf(h, r.value.1)
    decreases f, 1, |v.cells| - i
  {
    if i == |v.cells| then Some((true, o))
    else
      match Eval(h, h[v.cells[i]], h[w.cells[i]], o, nilEmpty, f)
      case None => None
      case Some((equal, o')) => if !equal then Some((false, o')) else EvalCells(h, v, w, i + 1, o', nilEmpty, f)
  }

  // ---------------------------------------------------------------- a greater bound gives the same

  lemma {:induction false} EvalMore(h: Heap, v: Value, w: Value, o: Order, nilEmpty: bool, f: nat, g: nat)
    requires ClosedHeap(h) && Rooted(h, v) && Rooted(h, w) && Wf(h, o) && f <= g
    requires Eval(h, v, w, o, nilEmpty, f).Some?
    ensures Eval(h, v, w, o, nilEmpty, g) == Eval(h, v, w, o, nilEmpty, f)
    decreases f, 0, 0
  {
    if Shallow(v, w, o, nilEmpty).None? {
      EvalInsideMore(h, v, w, o, nilEmpty, f - 1, g - 1);
    }
  }

  lemma {:induction false} EvalInsideMore(h: Heap, v: Value, w: Value, o: Order, nilEmpty: bool, f: nat, g: nat)
    requires ClosedHeap(h) && Rooted(h, v) && Rooted(h, w) && Wf(h, o) && f <= g
    requires Shallow(v, w, o, nilEmpty).None? && EvalInside(h, v, w, o, nilEmpty, f).Some?
    ensures EvalInside(h, v, w, o, nilEmpty, g) == EvalInside(h, v, w, o, nilEmpty, f)
    decreases f, 2, 0
  {
    match v
    case Pointer(_, x) =>
      EvalMore(h, h[x.value], h[w.target.value], Share(o, x.value, w.target.value).2, nilEmpty, f, g);
    case Array(_, vs) => EvalAllMore(h, vs, w.elems, o, nilEmpty, f, g);
    case Slice(_, _, _) => EvalCellsMore(h, v, w, 0, o, nilEmpty, f, g);
    case Struct(_, vs) => EvalAllMore(h, vs, w.fields, o, nilEmpty, f, g);
    case Interface(_, x) => EvalMore(h, x.value, w.content.value, o, nilEmpty, f, g);
  }

  lemma {:induction false} EvalAllMore(
      h: Heap, vs: seq<Value>, ws: seq<Value>, o: Order, nilEmpty: bool, f: nat, g: nat)
    requires ClosedHeap(h) && AllRooted(h, vs) && AllRooted(h, ws) && Wf(h, o) && |vs| == |ws| && f <= g
    requires EvalAll(h, vs, ws, o, nilEmpty, f).Some?
    ensures EvalAll(h, vs, ws, o, nilEmpty, g) == EvalAll(h, vs, ws, o, nilEmpty, f)
    decreases f, 1, |vs|
  {
    if vs != [] {
      EvalMore(h, vs[0], ws[0], o, nilEmpty, f, g);
      var (equal, o') := Eval(h, vs[0], ws[0], o, nilEmpty, f).value;
      if equal { EvalAllMore(h, vs[1..], ws[1..], o', nilEmpty, f, g); }
    }
  }

  lemma {:induction false} EvalCellsMore(
      h: Heap, v: Value, w: Value, i: nat, o: Order, nilEmpty: bool, f: nat, g: nat)
    requires ClosedHeap(h) && Rooted(h, v) && Rooted(h, w) && Wf(h, o) && f <= g
    requires v.Slice? && w.Slice? && i <= |v.cells| == |w.cells|
    requires EvalCells(h, v, w, i, o, nilEmpty, f).Some?
    ensures EvalCells(h, v, w, i, o, nilEmpty, g) == EvalCells(h, v, w, i, o, nilEmpty, f)
    decreases f, 1, |v.cells| - i
  {
    if i < |v.cells| {
      EvalMore(h, h[v.cells[i]], h[w.cells[i]], o, nilEmpty, f, g);
      var (equal, o') := Eval(h, h[v.cells[i]], h[w.cells[i]], o, nilEmpty, f).value;
      if equal { EvalCellsMore(h, v, w, i + 1, o', nilEmpty, f, g); }
    }
  }

  // ---------------------------------------------------------------- grounded heaps

  /** On a grounded heap some bound is enough for any two values, and the outcome is that of the algorithm. */
  lemma {:induction false} Returns(h: Heap, v: Value, w: Value, o: Order, nilEmpty: bool) returns (f: nat)
    requires Good(h) && Rooted(h, v) && Rooted(h, w) && Wf(h, o)
    ensures Eval(h, v, w, o, nilEmpty, f) == Some(Equal(h, v, w, o, nilEmpty))
    decreases Room(h, o), Height(h, v), v
  {
    if Shallow(v, w, o, nilEmpty).Some? {
      ShallowEqual(h, v, w, o, nilEmpty);
      f := 1;
    } else {
      f := InsideReturns(h, v, w, o, nilEmpty);
      f := f + 1;
    }
  }

  lemma ShallowEqual(h: Heap, v: Value, w: Value, o: Order, nilEmpty: bool)
    requires Good(h) && Rooted(h, v) && Rooted(h, w) && Wf(h, o) && Shallow(v, w, o, nilEmpty).Some?
    ensures Shallow(v, w, o, nilEmpty) == Some(Equal(h, v, w, o, nilEmpty))
  {
  }

  lemma {:induction false} InsideReturns(h: Heap, v: Value, w: Value, o: Order, nilEmpty: bool) returns (f: nat)
    requires Good(h) && Rooted(h, v) && Rooted(h, w) && Wf(h, o) && Shallow(v, w, o, nilEmpty).None?
    ensures EvalInside(h, v, w, o, nilEmpty, f) == Some(Equal(h, v, w, o, nilEmpty))
    decreases Room(h, o), Height(h, v), v, |InnerCells(v)| + 1
  {
    match v
    case Pointer(_, x) =>
      f := Returns(h, h[x.value], h[w.target.value], Share(o, x.value, w.target.value).2, nilEmpty);
    case Array(_, vs) => f := AllReturn(h, vs, w.elems, o, nilEmpty);
    case Slice(_, _, _) => f := CellsReturn(h, v, w, 0, o, nilEmpty);
    case Struct(_, vs) => f := AllReturn(h, vs, w.fields, o, nilEmpty);
    case Interface(_, x) => f := Returns(h, x.value, w.content.value, o, nilEmpty);
  }

  function InnerCells(v: Value): seq<Addr> {
    if v.Slice? then v.cells else []
  }

  lemma {:induction false} AllReturn(h: Heap, vs: seq<Value>, ws: seq<Value>, o: Order, nilEmpty: bool) returns (f: nat)
    requires Good(h) && AllRooted(h, vs) && AllRooted(h, ws) && Wf(h, o) && |vs| == |ws|
    ensures EvalAll(h, vs, ws, o, nilEmpty, f) == Some(EqualAll(h, vs, ws, o, nilEmpty))
    decreases Room(h, o), HeightAll(h, vs), vs
  {
    f := 1;
    if vs != [] {
      var f1 := Returns(h, vs[0], ws[0], o, nilEmpty);
      var (equal, o') := Equal(h, vs[0], ws[0], o, nilEmpty);
      f := f1;
      if equal {
        var f2 := AllReturn(h, vs[1..], ws[1..], o', nilEmpty);
        f := Max(f1, f2);
        EvalMore(h, vs[0], ws[0], o, nilEmpty, f1, f);
        EvalAllMore(h, vs[1..], ws[1..], o', nilEmpty, f2, f);
      }
    }
  }

  lemma {:induction false} CellsReturn(h: Heap, v: Value, w: Value, i: nat, o: Order, nilEmpty: bool) returns (f: nat)
    requires Good(h) && Rooted(h, v) && Rooted(h, w) && Wf(h, o)
    requires v.Slice? && w.Slice? && i <= |v.cells| == |w.cells|
    ensures EvalCells(h, v, w, i, o, nilEmpty, f) == Some(EqualCells(h, v, w, i, o, nilEmpty))
    decreases Room(h, o), Height(h, v), v, |v.cells| - i
  {
    f := 1;
    if i < |v.cells| {
      CellBelow(h, v, i);
      var a, b := h[v.cells[i]], h[w.cells[i]];
      var f1 := Returns(h, a, b, o, nilEmpty);
      var (equal, o') := Equal(h, a, b, o, nilEmpty);
      f := f1;
      if equal {
        var f2 := CellsReturn(h, v, w, i + 1, o', nilEmpty);
        f := Max(f1, f2);
        EvalMore(h, a, b, o, nilEmpty, f1, f);
        EvalCellsMore(h, v, w, i + 1, o', nilEmpty, f2, f);
      }
    }
  }

  // ---------------------------------------------------------------- other heaps

  /** At most `f` steps lead into arrays, structs, interfaces and slices without following a pointer. */
  ghost predicate Unrolls(h: Heap, v: Value, f: nat)
    requires ClosedHeap(h) && Rooted(h, v)
    decreases f, 0
  {
    f > 0 &&
    match v
    case Array(_, vs) => AllUnroll(h, vs, f - 1)
    case Struct(_, vs) => AllUnroll(h, vs, f - 1)
    case Slice(_, _, cells) => CellsUnroll(h, cells, f - 1)
    case Interface(_, Some(x)) => Unrolls(h, x, f - 1)
    case _ => true
  }

  ghost predicate AllUnroll(h: Heap, vs: seq<Value>, f: nat)
    requires ClosedHeap(h) && AllRooted(h, vs)
    decreases f, |vs| + 1
  {
    vs != [] ==> Unrolls(h, vs[0], f) && AllUnroll(h, vs[1..], f)
  }

  ghost predicate CellsUnroll(h: Heap, cells: seq<Addr>, f: nat)
    requires ClosedHeap(h) && forall c :: c in cells ==> c in h
    decreases f, |cells| + 1
  {
    cells != [] ==> Unrolls(h, h[cells[0]], f) && CellsUnroll(h, cells[1..], f)
  }

  ghost predicate NaNFreeHeap(h: Heap) {
    forall x :: x in h ==> NaNFree(h[x])
  }

  /** Comparing a value without NaN with itself, if it returns, says true and has gone through all of it. */
  lemma {:induction false} SelfUnrolls(h: Heap, v: Value, o: Order, nilEmpty: bool, f: nat)
    requires ClosedHeap(h) && NaNFreeHeap(h) && Rooted(h, v) && NaNFree(v) && Wf(h, o) && o.a == o.b
    requires Eval(h, v, v, o, nilEmpty, f).Some?
    ensures var (equal, o') := Eval(h, v, v, o, nilEmpty, f).value; equal && o'.a == o'.b
    ensures Unrolls(h, v, f)
    decreases f, 0
  {
    match v
    case Pointer(_, x) =>
      if x != None {
        var (equal, seen, o') := Share(o, x.value, x.value);
        if !seen { SelfUnrolls(h, h[x.value], o', nilEmpty, f - 1); }
      }
    case Array(_, vs) => AllSelfUnroll(h, vs, o, nilEmpty, f - 1);
    case Slice(_, n, cells) => if nilEmpty || !n { CellsSelfUnroll(h, v, 0, o, nilEmpty, f - 1); }
    case Struct(_, vs) => AllSelfUnroll(h, vs, o, nilEmpty, f - 1);
    case Interface(_, x) => if x != None { SelfUnrolls(h, x.value, o, nilEmpty, f - 1); }
    case _ =>
  }

  lemma {:induction false} AllSelfUnroll(h: Heap, vs: seq<Value>, o: Order, nilEmpty: bool, f: nat)
    requires ClosedHeap(h) && NaNFreeHeap(h) && AllRooted(h, vs) && AllNaNFree(vs) && Wf(h, o) && o.a == o.b
    requires EvalAll(h, vs, vs, o, nilEmpty, f).Some?
    ensures var (equal, o') := EvalAll(h, vs, vs, o, nilEmpty, f).value; equal && o'.a == o'.b
    ensures AllUnroll(h, vs, f)
    decreases f, |vs| + 1
  {
    if vs != [] {
      SelfUnrolls(h, vs[0], o, nilEmpty, f);
      AllSelfUnroll(h, vs[1..], Eval(h, vs[0], vs[0], o, nilEmpty, f).value.1, nilEmpty, f);
    }
  }

  lemma {:induction false} CellsSelfUnroll(h: Heap, v: Value, i: nat, o: Order, nilEmpty: bool, f: nat)
    requires ClosedHeap(h) && NaNFreeHeap(h) && Rooted(h, v) && v.Slice? && i <= |v.cells| && Wf(h, o) && o.a == o.b
    requires EvalCells(h, v, v, i, o, nilEmpty, f).Some?
    ensures var (equal, o') := EvalCells(h, v, v, i, o, nilEmpty, f).value; equal && o'.a == o'.b
    ensures CellsUnroll(h, v.cells[i..], f)
    decreases f, |v.cells| - i + 1
  {
    if i < |v.cells| {
      var e := h[v.cells[i]];
      SelfUnrolls(h, e, o, nilEmpty, f);
      CellsSelfUnroll(h, v, i + 1, Eval(h, e, e, o, nilEmpty, f).value.1, nilEmpty, f);
      assert v.cells[i..][1..] == v.cells[i + 1..];
    }
  }

  /** The least number of steps that is enough, from `i` on. */
  ghost function Least(h: Heap, v: Value, i: nat, f: nat): (r: nat)
    requires ClosedHeap(h) && Rooted(h, v) && i <= f && Unrolls(h, v, f)
    ensures Unrolls(h, v, r) && i <= r <= f && forall g: nat :: i <= g < r ==> !Unrolls(h, v, g)
    decreases f - i
  {
    if Unrolls(h, v, i) then i else Least(h, v, i + 1, f)
  }

  /** `rank` gives each object the least number of steps that unrolls it. */
  ghost predicate Depths(h: Heap, rank: Rank)
    requires ClosedHeap(h)
  {
    forall x :: x in rank ==> x in h && forall f: nat :: Unrolls(h, h[x], f) ==> rank[x] <= f
  }

  lemma {:induction false} TopBelow(h: Heap, rank: Rank, v: Value, f: nat)
    requires ClosedHeap(h) && Rooted(h, v) && Depths(h, rank) && Unrolls(h, v, f)
    ensures Top(rank, v) <= f
    decreases f, 0
  {
    match v
    case Array(_, vs) => TopAllBelow(h, rank, vs, f - 1);
    case Struct(_, vs) => TopAllBelow(h, rank, vs, f - 1);
    case Slice(_, _, cells) => TopCellsBelow(h, rank, cells, f - 1);
    case Interface(_, x) => if x != None { TopBelow(h, rank, x.value, f - 1); }
    case _ =>
  }

  lemma {:induction false} TopAllBelow(h: Heap, rank: Rank, vs: seq<Value>, f: nat)
    requires ClosedHeap(h) && AllRooted(h, vs) && Depths(h, rank) && AllUnroll(h, vs, f)
    ensures TopAll(rank, vs) <= f
    decreases f, |vs| + 1
  {
    if vs != [] {
      TopBelow(h, rank, vs[0], f);
      TopAllBelow(h, rank, vs[1..], f);
    }
  }

  lemma {:induction false} TopCellsBelow(h: Heap, rank: Rank, cells: seq<Addr>, f: nat)
    requires ClosedHeap(h) && (forall c :: c in cells ==> c in h) && Depths(h, rank) && CellsUnroll(h, cells, f)
    ensures TopCells(rank, cells) <= f + 1
    decreases f, |cells| + 1
  {
    if cells != [] {
      TopCellsBelow(h, rank, cells[1..], f);
    }
  }

  ghost predicate Bounded(h: Heap, x: Addr)
    requires ClosedHeap(h)
  {
    x in h && exists f: nat :: Unrolls(h, h[x], f)
  }

  lemma {:induction false} RankAll(h: Heap, keys: set<Addr>) returns (rank: Rank)
    requires ClosedHeap(h) && keys <= h.Keys && forall x :: x in keys ==> Bounded(h, x)
    ensures rank.Keys == keys && Depths(h, rank) && forall x :: x in rank ==> Unrolls(h, h[x], rank[x])
    decreases keys
  {
    if keys == {} {
      rank := map[];
    } else {
      var x :| x in keys;
      assert Bounded(h, x);
      var f: nat :| Unrolls(h, h[x], f);
      var rest := RankAll(h, keys - {x});
      rank := rest[x := Least(h, h[x], 0, f)];
    }
  }

  lemma GroundedIfUnrolls(h: Heap)
    requires ClosedHeap(h) && forall x :: x in h ==> Bounded(h, x)
    ensures Grounded(h)
  {
    var rank := RankAll(h, h.Keys);
    forall x | x in h ensures x in rank && Top(rank, h[x]) <= rank[x] {
      TopBelow(h, rank, h[x], rank[x]);
    }
    assert Ranked(h, rank);
  }

  ghost predicate SelfReturns(h: Heap, x: Addr, nilEmpty: bool)
    requires ClosedHeap(h) && x in h
  {
    exists f: nat :: Eval(h, h[x], h[x], NOTHING, nilEmpty, f).Some?
  }

  /** On a heap without NaN, DeepEqual returns on every object and itself exactly when every cycle passes through a
      pointer. */
  lemma ReturnsIffGrounded(h: Heap, nilEmpty: bool)
    requires ClosedHeap(h) && NaNFreeHeap(h)
    ensures (forall x :: x in h ==> SelfReturns(h, x, nilEmpty)) <==> Grounded(h)
  {
    if Grounded(h) {
      forall x | x in h ensures SelfReturns(h, x, nilEmpty) {
        var f := Returns(h, h[x], h[x], NOTHING, nilEmpty);
      }
    } else if forall x :: x in h ==> SelfReturns(h, x, nilEmpty) {
      forall x | x in h ensures Bounded(h, x) {
        assert SelfReturns(h, x, nilEmpty);
        var f: nat :| Eval(h, h[x], h[x], NOTHING, nilEmpty, f).Some?;
        SelfUnrolls(h, h[x], NOTHING, nilEmpty, f);
      }
      GroundedIfUnrolls(h);
    }
  }

  /** A slice that is its own first element: however deep it goes, comparing it with itself does not return. */
  lemma {:induction false} SelfSliceNeverReturns(h: Heap, x: Addr, o: Order, nilEmpty: bool, f: nat)
    requires ClosedHeap(h) && Wf(h, o) && x in h && h[x].Slice? && !h[x].isNil && |h[x].cells| > 0 && h[x].cells[0] == x
    ensures Eval(h, h[x], h[x], o, nilEmpty, f) == None
    decreases f
  {
    if f > 0 {
      SelfSliceNeverReturns(h, x, o, nilEmpty, f - 1);
      assert EvalCells(h, h[x], h[x], 0, o, nilEmpty, f - 1) == None;
    }
  }
}
