/** deepEqual as it runs: a recursion that appends to two shared lists of pointers. */
module DeepObject {
  import opened Common
  import opened DeepEquality

  /** A pair is accepted exactly when the pairing stays one to one with it. */
  lemma ShareIffOneToOne(h: Heap, o: Order, x: Addr, y: Addr)
    requires Wf(h, o)
    ensures Share(o, x, y).0 <==> OneToOne(Pairs(o) + {(x, y)})
    ensures Share(o, x, y).0 ==> |Share(o, x, y).2.a| == |Share(o, x, y).2.b|
                                 && Pairs(Share(o, x, y).2) == Pairs(o) + {(x, y)}
  {
    var r := Pairs(o) + {(x, y)};
    var i, j := Position(o.a, x), Position(o.b, y);
    var o' := Share(o, x, y).2;
    if i < |o.a| {
      assert (o.a[i], o.b[i]) in r;
    }
    if j < |o.b| {
      assert (o.a[j], o.b[j]) in r;
    }
    if i == |o.a| && j == |o.b| {
      forall p | p in r ensures p in Pairs(o') {
        if p != (x, y) {
          var k :| 0 <= k < |o.a| && p == (o.a[k], o.b[k]);
          assert p == (o'.a[k], o'.b[k]);
        } else {
          assert p == (o'.a[|o.a|], o'.b[|o.a|]);
        }
      }
    }
  }

  method LookupPtr(items: seq<Addr>, target: Addr) returns (index: int, seen: bool)
    ensures seen <==> target in items
    ensures index == if seen then Position(items, target) else -1
  {
    index := 0;
    while index < |items|
      invariant 0 <= index <= |items|
      invariant target !in items[..index]
    {
      if items[index] == target {
        return index, true;
      }
      index := index + 1;
    }
    return -1, false;
  }

  lemma {:induction false} ElemBelow(h: Heap, vs: seq<Value>, i: nat)
    requires Grounded(h) && i < |vs|
    ensures Height(h, vs[i]) <= HeightAll(h, vs)
    decreases i
  {
    if i > 0 {
      ElemBelow(h, vs[1..], i - 1);
    }
  }

  class OrderInfo {
    var orderA: seq<Addr>
    var orderB: seq<Addr>

    ghost function View(): Order
      reads this
    {
      Order(orderA, orderB)
    }

    constructor ()
      ensures View() == NOTHING
    {
      orderA, orderB := [], [];
    }

    method SharingEqual(ghost h: Heap, a: Addr, b: Addr) returns (equal: bool, seen: bool)
      requires Wf(h, View())
      modifies this
      ensures (equal, seen, View()) == Share(old(View()), a, b)
      ensures equal <==> OneToOne(old(Pairs(View())) + {(a, b)})
    {
      ShareIffOneToOne(h, View(), a, b);
      var indexA, seenA := LookupPtr(orderA, a);
      var indexB, seenB := LookupPtr(orderB, b);
      if seenA || seenB {
        return seenA == seenB && indexA == indexB, seenA || seenB;
      }
      orderA := orderA + [a];
      orderB := orderB + [b];
      return true, false;
    }

    method Compare(h: Heap, a: Value, b: Value, nilEmpty: bool) returns (equal: bool)
      requires Good(h) && Rooted(h, a) && Rooted(h, b) && Wf(h, View())
      modifies this
      ensures (equal, View()) == Equal(h, a, b, old(View()), nilEmpty)
      decreases Room(h, View()), Height(h, a), a
    {
      if a.Invalid? || b.Invalid? {
        return a.Invalid? == b.Invalid?;
      }
      if a.ty != b.ty {
        return false;
      }
      match (a, b)
      case (Pointer(_, x), Pointer(_, y)) =>
        if x == None || y == None {
          return (x == None) == (y == None);
        }
        equal := ComparePointers(h, a, b, nilEmpty);
      case (Array(_, vs), Array(_, ws)) =>
        equal := CompareAll(h, vs, ws, nilEmpty);
      case (Slice(_, n, _), Slice(_, m, _)) =>
        if !nilEmpty {
          if n || m {
            return n == m;
          }
        }
        equal := CompareCells(h, a, b, nilEmpty);
      case (Struct(_, vs), Struct(_, ws)) =>
        equal := CompareAll(h, vs, ws, nilEmpty);
      case (Interface(_, x), Interface(_, y)) =>
        if x == None || y == None {
          return (x == None) == (y == None);
        }
        equal := Compare(h, x.value, y.value, nilEmpty);
      case (Primitive(_, p), Primitive(_, q)) =>
        equal := PrimEqual(p, q);
      case _ =>
        equal := false;
    }

    /** Two pointers that are not nil. */
    method ComparePointers(h: Heap, a: Value, b: Value, nilEmpty: bool) returns (equal: bool)
      requires Good(h) && Rooted(h, a) && Rooted(h, b) && Wf(h, View()) && a.Pointer? && b.Pointer?
      requires a.ty == b.ty && a.target != None && b.target != None
      modifies this
      ensures (equal, View()) == Equal(h, a, b, old(View()), nilEmpty)
      decreases Room(h, View()), Height(h, a), a, 0
    {
      var x, y := a.target.value, b.target.value;
      var same, seen := SharingEqual(h, x, y);
      if !same {
        return false;
      }
      if seen {
        return true;
      }
      equal := Compare(h, h[x], h[y], nilEmpty);
    }

    /** The length check and the element loop of arrays and structs. */
    method CompareAll(h: Heap, vs: seq<Value>, ws: seq<Value>, nilEmpty: bool) returns (equal: bool)
      requires Good(h) && AllRooted(h, vs) && AllRooted(h, ws) && Wf(h, View())
      modifies this
      ensures (equal, View()) ==
              if |vs| != |ws| then (false, old(View())) else EqualAll(h, vs, ws, old(View()), nilEmpty)
      decreases Room(h, View()), HeightAll(h, vs), vs
    {
      if |vs| != |ws| {
        return false;
      }
      var ix := 0;
      while ix < |vs|
        invariant 0 <= ix <= |vs|
        invariant Wf(h, View()) && Extends(old(View()), View())
        invariant AllRooted(h, vs[ix..]) && AllRooted(h, ws[ix..])
        invariant EqualAll(h, vs[ix..], ws[ix..], View(), nilEmpty) == EqualAll(h, vs, ws, old(View()), nilEmpty)
      {
        assert Room(h, View()) <= Room(h, old(View()));
        ElemBelow(h, vs, ix);
        assert vs[ix..][1..] == vs[ix + 1..] && ws[ix..][1..] == ws[ix + 1..];
        equal := Compare(h, vs[ix], ws[ix], nilEmpty);
        if !equal {
          return;
        }
        ix := ix + 1;
      }
      return true;
    }

    /** The length check and the element loop of slices. */
    method CompareCells(h: Heap, a: Value, b: Value, nilEmpty: bool) returns (equal: bool)
      requires Good(h) && Rooted(h, a) && Rooted(h, b) && Wf(h, View()) && a.Slice? && b.Slice?
      modifies this
      ensures (equal, View()) ==
              if |a.cells| != |b.cells| then (false, old(View()))
              else EqualCells(h, a, b, 0, old(View()), nilEmpty)
      decreases Room(h, View()), Height(h, a), a, 0
    {
      if |a.cells| != |b.cells| {
        return false;
      }
      var ix := 0;
      while ix < |a.cells|
        invariant 0 <= ix <= |a.cells|
        invariant Wf(h, View()) && Extends(old(View()), View())
        invariant EqualCells(h, a, b, ix, View(), nilEmpty) == EqualCells(h, a, b, 0, old(View()), nilEmpty)
      {
        assert Room(h, View()) <= Room(h, old(View()));
        CellBelow(h, a, ix);
        equal := Compare(h, h[a.cells[ix]], h[b.cells[ix]], nilEmpty);
        if !equal {
          return;
        }
        ix := ix + 1;
      }
      return true;
    }
  }

  /** DeepEqual itself, on a fresh orderInfo, for values whose cycles all pass through pointers. */
  method DeepEqual(h: Heap, a: Value, b: Value, nilEmpty: bool) returns (equal: bool)
    requires Good(h) && Rooted(h, a) && Rooted(h, b)
    ensures equal <==> Isomorphic(h, a, b, nilEmpty)
  {
    var info := new OrderInfo();
    equal := info.Compare(h, a, b, nilEmpty);
    EqualIffIsomorphic(h, a, b, nilEmpty);
  }
}
