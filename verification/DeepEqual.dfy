/** reflectutil.DeepEqual over a finite heap: values may be cyclic and may share, and sharing counts.

    Values carry their Go type; two values of one type have the same kind. Pointers lead to whole objects, and the
    elements of a slice are objects of the heap too. Maps are not part of this model. */
module DeepEquality {
  import opened Common

  type Addr = nat
  type TypeId = nat

  datatype Prim =
    | Bool(b: bool)
    | Int(i: int)
    | Uint(u: nat)
    | Floating(f: Float)
    | Complex(re: Float, im: Float)
    | Text(s: string)
    | UnsafePointer(p: nat)

  datatype Value =
    | Invalid
    | Pointer(ty: TypeId, target: Option<Addr>)
    | Array(ty: TypeId, elems: seq<Value>)
    | Slice(ty: TypeId, isNil: bool, cells: seq<Addr>)
    | Struct(ty: TypeId, fields: seq<Value>)
    | Interface(ty: TypeId, content: Option<Value>)
    | Primitive(ty: TypeId, prim: Prim)

  type Heap = map<Addr, Value>

  /** The pointers seen so far on either side, paired by position. */
  datatype Order = Order(a: seq<Addr>, b: seq<Addr>)

  // ---------------------------------------------------------------- well-formedness

  ghost predicate Rooted(h: Heap, v: Value) {
    match v
    case Pointer(_, target) => target.Some? ==> target.value in h
    case Array(_, elems) => forall e :: e in elems ==> Rooted(h, e)
    case Slice(_, isNil, cells) => (isNil ==> cells == []) && forall c :: c in cells ==> c in h
    case Struct(_, fields) => forall e :: e in fields ==> Rooted(h, e)
    case Interface(_, content) => content.Some? ==> Rooted(h, content.value)
    case _ => true
  }

  /** No dangling pointers. */
  ghost predicate ClosedHeap(h: Heap) {
    forall x :: x in h ==> Rooted(h, h[x])
  }

  ghost predicate AllRooted(h: Heap, vs: seq<Value>) {
    forall e :: e in vs ==> Rooted(h, e)
  }

  ghost predicate Distinct(s: seq<Addr>) {
    forall i, j :: 0 <= i < j < |s| ==> s[i] != s[j]
  }

  ghost predicate Wf(h: Heap, o: Order) {
    && |o.a| == |o.b| && Distinct(o.a) && Distinct(o.b)
    && forall i :: 0 <= i < |o.a| ==> o.a[i] in h && o.b[i] in h
  }

  lemma {:induction false} DistinctSize(s: seq<Addr>, keys: set<Addr>)
    requires Distinct(s) && forall i :: 0 <= i < |s| ==> s[i] in keys
    ensures |s| <= |keys|
  {
    if s != [] {
      var l := |s| - 1;
      DistinctSize(s[..l], keys - {s[l]});
    }
  }

  // ---------------------------------------------------------------- slices within slices

  type Rank = map<Addr, nat>

  function Max(a: nat, b: nat): nat {
    if a < b then b else a
  }

  /** A number above the ranks of all slice elements that can be got at without following a pointer. */
  ghost function Top(rank: Rank, v: Value): nat
    decreases v, 1
  {
    match v
    case Array(_, vs) => TopAll(rank, vs)
    case Struct(_, vs) => TopAll(rank, vs)
    case Interface(_, Some(x)) => Top(rank, x)
    case Slice(_, _, cells) => TopCells(rank, cells)
    case _ => 0
  }

  ghost function TopAll(rank: Rank, vs: seq<Value>): nat
    decreases vs, 0
  {
    if vs == [] then 0 else Max(Top(rank, vs[0]), TopAll(rank, vs[1..]))
  }

  ghost function TopCells(rank: Rank, cells: seq<Addr>): (r: nat)
    ensures forall c :: c in cells && c in rank ==> rank[c] < r
  {
    if cells == [] then 0
    else Max(if cells[0] in rank then rank[cells[0]] + 1 else 0, TopCells(rank, cells[1..]))
  }

  /** An object outranks the slice elements in it. */
  ghost predicate Ranked(h: Heap, rank: Rank) {
    forall x :: x in h ==> x in rank && Top(rank, h[x]) <= rank[x]
  }

  /** Every cycle passes through a pointer: slices alone do not lead back to themselves. */
  ghost predicate Grounded(h: Heap) {
    exists rank :: Ranked(h, rank)
  }

  ghost function RankOf(h: Heap): (rank: Rank)
    requires Grounded(h)
    ensures Ranked(h, rank)
  {
    var rank :| Ranked(h, rank); rank
  }

  ghost function Height(h: Heap, v: Value): nat
    requires Grounded(h)
  {
    Top(RankOf(h), v)
  }

  ghost function HeightAll(h: Heap, vs: seq<Value>): nat
    requires Grounded(h)
  {
    TopAll(RankOf(h), vs)
  }

  lemma CellBelow(h: Heap, v: Value, i: nat)
    requires Grounded(h) && v.Slice? && i < |v.cells| && v.cells[i] in h
    ensures Height(h, h[v.cells[i]]) < Height(h, v)
  {
    assert v.cells[i] in v.cells;
  }

  ghost predicate Good(h: Heap) {
    ClosedHeap(h) && Grounded(h)
  }

  // ---------------------------------------------------------------- the algorithm

  predicate PrimEqual(p: Prim, q: Prim) {
    match (p, q)
    case (Floating(x), Floating(y)) => FloatEqual(x, y)
    case (Complex(a, b), Complex(c, d)) => FloatEqual(a, c) && FloatEqual(b, d)
    case _ => p == q
  }

  predicate HoldsNaN(p: Prim) {
    p == Floating(NaN) || (p.Complex? && (p.re == NaN || p.im == NaN))
  }

  /** Primitive values are equal when they are the same, but a NaN is equal to nothing. */
  lemma PrimEqualIff(p: Prim, q: Prim)
    ensures PrimEqual(p, q) <==> p == q && !HoldsNaN(p)
  {
  }

  /** lookupPtr: the first position of `x`, or `|s|` when it is not there. */
  function Position(s: seq<Addr>, x: Addr): (k: nat)
    ensures k <= |s|
    ensures forall i :: 0 <= i < k ==> s[i] != x
    ensures k < |s| ==> s[k] == x
  {
    if s == [] || s[0] == x then 0 else 1 + Position(s[1..], x)
  }

  /** sharingEqual: whether the pair is consistent with what was seen, whether either side was seen, and
      the order afterwards. */
  function Share(o: Order, x: Addr, y: Addr): (bool, bool, Order) {
    var i, j := Position(o.a, x), Position(o.b, y);
    var seenA, seenB := i < |o.a|, j < |o.b|;
    if seenA || seenB then (seenA == seenB && i == j, true, o)
    else (true, false, Order(o.a + [x], o.b + [y]))
  }

  ghost function Room(h: Heap, o: Order): (r: nat)
    requires Wf(h, o)
  {
    DistinctSize(o.a, h.Keys);
    |h.Keys| - |o.a|
  }

  ghost predicate Extends(o: Order, o': Order) {
    o.a <= o'.a && o.b <= o'.b
  }

  /** deepEqual. The heap bounds the number of pointer pairs, and the nesting of slices is bounded between pointers,
      so it terminates on values that are cyclic through pointers. */
  ghost function Equal(h: Heap, v: Value, w: Value, o: Order, nilEmpty: bool): (r: (bool, Order))
    requires Good(h) && Rooted(h, v) && Rooted(h, w) && Wf(h, o)
    ensures Wf(h, r.1) && Extends(o, r.1)
    decreases Room(h, o), Height(h, v), v
  {
    if v.Invalid? || w.Invalid? then (v.Invalid? == w.Invalid?, o)
    else if v.ty != w.ty then (false, o)
    else match (v, w)
      case (Pointer(_, x), Pointer(_, y)) =>
        if x == None || y == None then ((x == None) == (y == None), o)
        else
          var (equal, seen, o') := Share(o, x.value, y.value);
          if !equal then (false, o')
          else if seen then (true, o')
          else Equal(h, h[x.value], h[y.value], o', nilEmpty)
      case (Array(_, vs), Array(_, ws)) =>
        if |vs| != |ws| then (false, o) else EqualAll(h, vs, ws, o, nilEmpty)
      case (Slice(_, n, _), Slice(_, m, _)) =>
        if !nilEmpty && (n || m) then (n == m, o)
        else if |v.cells| != |w.cells| then (false, o) else EqualCells(h, v, w, 0, o, nilEmpty)
      case (Struct(_, vs), Struct(_, ws)) =>
        if |vs| != |ws| then (false, o) else EqualAll(h, vs, ws, o, nilEmpty)
      case (Interface(_, x), Interface(_, y)) =>
        if x == None || y == None then ((x == None) == (y == None), o)
        else Equal(h, x.value, y.value, o, nilEmpty)
      case (Primitive(_, p), Primitive(_, q)) => (PrimEqual(p, q), o)
      case _ => (false, o)
  }

  /** The element loops of arrays and structs: left to right, stopping at the first difference. */
  ghost function EqualAll(h: Heap, vs: seq<Value>, ws: seq<Value>, o: Order, nilEmpty: bool): (r: (bool, Order))
    requires Good(h) && AllRooted(h, vs) && AllRooted(h, ws) && Wf(h, o) && |vs| == |ws|
    ensures Wf(h, r.1) && Extends(o, r.1)
    decreases Room(h, o), HeightAll(h, vs), vs
  {
    if vs == [] then (true, o)
    else
      var (equal, o') := Equal(h, vs[0], ws[0], o, nilEmpty);
      if !equal then (false, o') else EqualAll(h, vs[1..], ws[1..], o', nilEmpty)
  }

  /** The element loop of slices, from index `i` on. */
  ghost function EqualCells(h: Heap, v: Value, w: Value, i: nat, o: Order, nilEmpty: bool): (r: (bool, Order))
    requires Good(h) && Rooted(h, v) && Rooted(h, w) && Wf(h, o)
    requires v.Slice? && w.Slice? && i <= |v.cells| == |w.cells|
    ensures Wf(h, r.1) && Extends(o, r.1)
    decreases Room(h, o), Height(h, v), v, |v.cells| - i
  {
    if i == |v.cells| then (true, o)
    else
      CellBelow(h, v, i);
      var (equal, o') := Equal(h, h[v.cells[i]], h[w.cells[i]], o, nilEmpty);
      if !equal then (false, o') else EqualCells(h, v, w, i + 1, o', nilEmpty)
  }

  // ---------------------------------------------------------------- isomorphism

  type Pairing = set<(Addr, Addr)>

  ghost predicate OneToOne(r: Pairing) {
    forall p, q :: p in r && q in r ==> (p.0 == q.0 <==> p.1 == q.1)
  }

  /** The two values look the same when slices are looked into and pointers are compared by the pairing. */
  ghost predicate Matches(h: Heap, v: Value, w: Value, r: Pairing, nilEmpty: bool)
    requires Good(h) && Rooted(h, v) && Rooted(h, w)
    decreases Height(h, v), v
  {
    if v.Invalid? || w.Invalid? then v.Invalid? && w.Invalid?
    else v.ty == w.ty && match (v, w)
      case (Pointer(_, x), Pointer(_, y)) => if x == None || y == None then x == y else (x.value, y.value) in r
      case (Array(_, vs), Array(_, ws)) => AllMatch(h, vs, ws, r, nilEmpty)
      case (Slice(_, n, _), Slice(_, m, _)) =>
        if !nilEmpty && (n || m) then n == m
        else |v.cells| == |w.cells| && forall i: nat :: i < |v.cells| ==> CellMatches(h, v, w, i, r, nilEmpty)
      case (Struct(_, vs), Struct(_, ws)) => AllMatch(h, vs, ws, r, nilEmpty)
      case (Interface(_, x), Interface(_, y)) =>
        if x == None || y == None then x == None && y == None else Matches(h, x.value, y.value, r, nilEmpty)
      case (Primitive(_, p), Primitive(_, q)) => p == q && !HoldsNaN(p)
      case _ => false
  }

  ghost predicate AllMatch(h: Heap, vs: seq<Value>, ws: seq<Value>, r: Pairing, nilEmpty: bool)
    requires Good(h) && AllRooted(h, vs) && AllRooted(h, ws)
    decreases HeightAll(h, vs), vs
  {
    |vs| == |ws| && (vs != [] ==> Matches(h, vs[0], ws[0], r, nilEmpty) && AllMatch(h, vs[1..], ws[1..], r, nilEmpty))
  }

  ghost predicate CellMatches(h: Heap, v: Value, w: Value, i: nat, r: Pairing, nilEmpty: bool)
    requires Good(h) && Rooted(h, v) && Rooted(h, w) && v.Slice? && w.Slice? && i < |v.cells| == |w.cells|
    decreases Height(h, v), v, 0
  {
    CellBelow(h, v, i);
    Matches(h, h[v.cells[i]], h[w.cells[i]], r, nilEmpty)
  }

  /** Paired objects match under the pairing, so it covers every pointer reachable from a paired one. */
  ghost predicate Consistent(h: Heap, r: Pairing, nilEmpty: bool)
    requires Good(h)
  {
    forall p :: p in r ==> p.0 in h && p.1 in h && Matches(h, h[p.0], h[p.1], r, nilEmpty)
  }

  /** The pointers reachable from `v` and from `w` pair off one to one so that everything else agrees. */
  ghost predicate Isomorphic(h: Heap, v: Value, w: Value, nilEmpty: bool)
    requires Good(h) && Rooted(h, v) && Rooted(h, w)
  {
    exists r: Pairing :: OneToOne(r) && Consistent(h, r, nilEmpty) && Matches(h, v, w, r, nilEmpty)
  }

  ghost function Pairs(o: Order): Pairing
    requires |o.a| == |o.b|
  {
    set i | 0 <= i < |o.a| :: (o.a[i], o.b[i])
  }

  // ---------------------------------------------------------------- true means isomorphic

  lemma {:induction false} MatchesMore(h: Heap, v: Value, w: Value, r: Pairing, r': Pairing, nilEmpty: bool)
    requires Good(h) && Rooted(h, v) && Rooted(h, w) && r <= r' && Matches(h, v, w, r, nilEmpty)
    ensures Matches(h, v, w, r', nilEmpty)
    decreases Height(h, v), v
  {
    match v
    case Array(_, vs) => AllMatchMore(h, vs, w.elems, r, r', nilEmpty);
    case Slice(_, n, cells) =>
      if nilEmpty || !(n || w.isNil) {
        forall i: nat | i < |cells| ensures CellMatches(h, v, w, i, r', nilEmpty) {
          assert CellMatches(h, v, w, i, r, nilEmpty);
          CellBelow(h, v, i);
          MatchesMore(h, h[cells[i]], h[w.cells[i]], r, r', nilEmpty);
        }
      }
    case Struct(_, vs) => AllMatchMore(h, vs, w.fields, r, r', nilEmpty);
    case Interface(_, x) =>
      if x != None && w.content != None { MatchesMore(h, x.value, w.content.value, r, r', nilEmpty); }
    case _ =>
  }

  lemma {:induction false} AllMatchMore(
      h: Heap, vs: seq<Value>, ws: seq<Value>, r: Pairing, r': Pairing, nilEmpty: bool)
    requires Good(h) && AllRooted(h, vs) && AllRooted(h, ws) && r <= r' && AllMatch(h, vs, ws, r, nilEmpty)
    ensures AllMatch(h, vs, ws, r', nilEmpty)
    decreases HeightAll(h, vs), vs
  {
    if vs != [] {
      MatchesMore(h, vs[0], ws[0], r, r', nilEmpty);
      AllMatchMore(h, vs[1..], ws[1..], r, r', nilEmpty);
    }
  }

  lemma PairsMore(o: Order, o': Order)
    requires |o.a| == |o.b| && |o'.a| == |o'.b| && Extends(o, o')
    ensures Pairs(o) <= Pairs(o')
  {
    forall p | p in Pairs(o) ensures p in Pairs(o') {
      var i :| 0 <= i < |o.a| && p == (o.a[i], o.b[i]);
      assert p == (o'.a[i], o'.b[i]);
    }
  }

  /** The pairs recorded from position `from` on are paired objects that match. */
  ghost predicate NewPairsMatch(h: Heap, o: Order, from: nat, nilEmpty: bool)
    requires Good(h) && Wf(h, o)
  {
    forall i {:trigger o.a[i]} :: from <= i < |o.a| ==> Matches(h, h[o.a[i]], h[o.b[i]], Pairs(o), nilEmpty)
  }

  /** Later pairs do not disturb earlier ones. */
  lemma NewPairsJoin(h: Heap, o: Order, o': Order, from: nat, nilEmpty: bool)
    requires Good(h) && Wf(h, o) && Wf(h, o') && Extends(o, o')
    requires NewPairsMatch(h, o, from, nilEmpty) && NewPairsMatch(h, o', |o.a|, nilEmpty)
    ensures NewPairsMatch(h, o', from, nilEmpty)
  {
    PairsMore(o, o');
    forall i | from <= i < |o'.a| ensures Matches(h, h[o'.a[i]], h[o'.b[i]], Pairs(o'), nilEmpty) {
      if i < |o.a| {
        assert o.a[i] == o'.a[i] && o.b[i] == o'.b[i];
        MatchesMore(h, h[o.a[i]], h[o.b[i]], Pairs(o), Pairs(o'), nilEmpty);
      }
    }
  }

  /** Soundness, up to the pairs assumed at the start: they are not looked into again, all others are. */
  lemma {:induction false} Sound(h: Heap, v: Value, w: Value, o: Order, nilEmpty: bool)
    requires Good(h) && Rooted(h, v) && Rooted(h, w) && Wf(h, o)
    requires Equal(h, v, w, o, nilEmpty).0
    ensures var o' := Equal(h, v, w, o, nilEmpty).1;
            Matches(h, v, w, Pairs(o'), nilEmpty) && NewPairsMatch(h, o', |o.a|, nilEmpty)
    decreases Room(h, o), Height(h, v), v
  {
    match v
    case Pointer(_, x) =>
      if x != None && w.target != None { SoundPointer(h, v, w, o, nilEmpty); }
    case Array(_, vs) => SoundAll(h, vs, w.elems, o, nilEmpty);
    case Slice(_, n, cells) =>
      if nilEmpty || !(n || w.isNil) { SoundCells(h, v, w, 0, o, nilEmpty); }
    case Struct(_, vs) => SoundAll(h, vs, w.fields, o, nilEmpty);
    case Interface(_, x) =>
      if x != None && w.content != None { Sound(h, x.value, w.content.value, o, nilEmpty); }
    case _ =>
  }

  lemma {:induction false} SoundPointer(h: Heap, v: Value, w: Value, o: Order, nilEmpty: bool)
    requires Good(h) && Rooted(h, v) && Rooted(h, w) && Wf(h, o)
    requires v.Pointer? && w.Pointer? && v.target.Some? && w.target.Some?
    requires Equal(h, v, w, o, nilEmpty).0
    ensures var o' := Equal(h, v, w, o, nilEmpty).1;
            Matches(h, v, w, Pairs(o'), nilEmpty) && NewPairsMatch(h, o', |o.a|, nilEmpty)
    decreases Room(h, o), Height(h, v), v, 0
  {
    var x, y := v.target.value, w.target.value;
    var (equal, seen, o1) := Share(o, x, y);
    if seen {
      var i := Position(o.a, x);
      assert (x, y) == (o.a[i], o.b[i]);
    } else {
      Sound(h, h[x], h[y], o1, nilEmpty);
      var o' := Equal(h, h[x], h[y], o1, nilEmpty).1;
      var k := |o.a|;
      assert o1.a[k] == o'.a[k] == x && o1.b[k] == o'.b[k] == y;
      assert (x, y) == (o'.a[k], o'.b[k]);
    }
  }

  lemma {:induction false} SoundAll(h: Heap, vs: seq<Value>, ws: seq<Value>, o: Order, nilEmpty: bool)
    requires Good(h) && AllRooted(h, vs) && AllRooted(h, ws) && Wf(h, o) && |vs| == |ws|
    requires EqualAll(h, vs, ws, o, nilEmpty).0
    ensures var o' := EqualAll(h, vs, ws, o, nilEmpty).1;
            AllMatch(h, vs, ws, Pairs(o'), nilEmpty) && NewPairsMatch(h, o', |o.a|, nilEmpty)
    decreases Room(h, o), HeightAll(h, vs), vs
  {
    if vs != [] {
      Sound(h, vs[0], ws[0], o, nilEmpty);
      var o1 := Equal(h, vs[0], ws[0], o, nilEmpty).1;
      SoundAll(h, vs[1..], ws[1..], o1, nilEmpty);
      var o2 := EqualAll(h, vs[1..], ws[1..], o1, nilEmpty).1;
      PairsMore(o1, o2);
      MatchesMore(h, vs[0], ws[0], Pairs(o1), Pairs(o2), nilEmpty);
      NewPairsJoin(h, o1, o2, |o.a|, nilEmpty);
    }
  }

  /** The elements from `i` on match under the pairs of `o`. */
  ghost predicate CellsMatch(h: Heap, v: Value, w: Value, i: nat, o: Order, nilEmpty: bool)
    requires Good(h) && Rooted(h, v) && Rooted(h, w) && v.Slice? && w.Slice? && |v.cells| == |w.cells|
    requires |o.a| == |o.b|
  {
    forall j: nat :: i <= j < |v.cells| ==> CellMatches(h, v, w, j, Pairs(o), nilEmpty)
  }

  lemma CellsMatchMore(h: Heap, v: Value, w: Value, i: nat, o: Order, o': Order, nilEmpty: bool)
    requires Good(h) && Rooted(h, v) && Rooted(h, w) && v.Slice? && w.Slice? && i < |v.cells| == |w.cells|
    requires |o.a| == |o.b| && |o'.a| == |o'.b| && Extends(o, o')
    requires Matches(h, h[v.cells[i]], h[w.cells[i]], Pairs(o), nilEmpty) && CellsMatch(h, v, w, i + 1, o', nilEmpty)
    ensures CellsMatch(h, v, w, i, o', nilEmpty)
  {
    PairsMore(o, o');
    MatchesMore(h, h[v.cells[i]], h[w.cells[i]], Pairs(o), Pairs(o'), nilEmpty);
  }

  lemma {:induction false} SoundCells(h: Heap, v: Value, w: Value, i: nat, o: Order, nilEmpty: bool)
    requires Good(h) && Rooted(h, v) && Rooted(h, w) && Wf(h, o)
    requires v.Slice? && w.Slice? && i <= |v.cells| == |w.cells| && EqualCells(h, v, w, i, o, nilEmpty).0
    ensures var o' := EqualCells(h, v, w, i, o, nilEmpty).1;
            CellsMatch(h, v, w, i, o', nilEmpty) && NewPairsMatch(h, o', |o.a|, nilEmpty)
    decreases Room(h, o), Height(h, v), v, |v.cells| - i
  {
    if i < |v.cells| {
      CellBelow(h, v, i);
      var a, b := h[v.cells[i]], h[w.cells[i]];
      Sound(h, a, b, o, nilEmpty);
      var o1 := Equal(h, a, b, o, nilEmpty).1;
      SoundCells(h, v, w, i + 1, o1, nilEmpty);
      var o2 := EqualCells(h, v, w, i + 1, o1, nilEmpty).1;
      CellsMatchMore(h, v, w, i, o1, o2, nilEmpty);
      NewPairsJoin(h, o1, o2, |o.a|, nilEmpty);
    }
  }

  // ---------------------------------------------------------------- isomorphic means true

  /** A pointer pair of a one-to-one pairing is consistent with any part of it seen so far. */
  lemma ShareAgrees(h: Heap, o: Order, x: Addr, y: Addr, r: Pairing)
    requires Wf(h, o) && OneToOne(r) && Pairs(o) <= r && (x, y) in r
    ensures Share(o, x, y).0
    ensures var o' := Share(o, x, y).2; |o'.a| == |o'.b| && Pairs(o') <= r
  {
    var i, j := Position(o.a, x), Position(o.b, y);
    if i < |o.a| {
      assert (x, o.b[i]) in Pairs(o);
    }
    if j < |o.b| {
      assert (o.a[j], y) in Pairs(o);
    }
  }

  lemma {:induction false} Complete(h: Heap, v: Value, w: Value, o: Order, r: Pairing, nilEmpty: bool)
    requires Good(h) && Rooted(h, v) && Rooted(h, w) && Wf(h, o)
    requires OneToOne(r) && Consistent(h, r, nilEmpty) && Matches(h, v, w, r, nilEmpty) && Pairs(o) <= r
    ensures var (equal, o') := Equal(h, v, w, o, nilEmpty);
            equal && Pairs(o') <= r
    decreases Room(h, o), Height(h, v), v
  {
    match v
    case Pointer(_, x) =>
      if x != None && w.target != None {
        ShareAgrees(h, o, x.value, w.target.value, r);
        var (_, seen, o1) := Share(o, x.value, w.target.value);
        if !seen {
          assert (x.value, w.target.value) in r;
          Complete(h, h[x.value], h[w.target.value], o1, r, nilEmpty);
        }
      }
    case Array(_, vs) => CompleteAll(h, vs, w.elems, o, r, nilEmpty);
    case Slice(_, n, cells) =>
      if nilEmpty || !(n || w.isNil) { CompleteCells(h, v, w, 0, o, r, nilEmpty); }
    case Struct(_, vs) => CompleteAll(h, vs, w.fields, o, r, nilEmpty);
    case Interface(_, x) =>
      if x != None && w.content != None { Complete(h, x.value, w.content.value, o, r, nilEmpty); }
    case _ =>
  }

  lemma {:induction false} CompleteAll(h: Heap, vs: seq<Value>, ws: seq<Value>, o: Order, r: Pairing, nilEmpty: bool)
    requires Good(h) && AllRooted(h, vs) && AllRooted(h, ws) && Wf(h, o) && |vs| == |ws|
    requires OneToOne(r) && Consistent(h, r, nilEmpty) && AllMatch(h, vs, ws, r, nilEmpty) && Pairs(o) <= r
    ensures var (equal, o') := EqualAll(h, vs, ws, o, nilEmpty);
            equal && Pairs(o') <= r
    decreases Room(h, o), HeightAll(h, vs), vs
  {
    if vs != [] {
      Complete(h, vs[0], ws[0], o, r, nilEmpty);
      CompleteAll(h, vs[1..], ws[1..], Equal(h, vs[0], ws[0], o, nilEmpty).1, r, nilEmpty);
    }
  }

  lemma {:induction false} CompleteCells(h: Heap, v: Value, w: Value, i: nat, o: Order, r: Pairing, nilEmpty: bool)
    requires Good(h) && Rooted(h, v) && Rooted(h, w) && Wf(h, o)
    requires v.Slice? && w.Slice? && i <= |v.cells| == |w.cells|
    requires OneToOne(r) && Consistent(h, r, nilEmpty) && Pairs(o) <= r
    requires forall j: nat :: i <= j < |v.cells| ==> CellMatches(h, v, w, j, r, nilEmpty)
    ensures var (equal, o') := EqualCells(h, v, w, i, o, nilEmpty);
            equal && Pairs(o') <= r
    decreases Room(h, o), Height(h, v), v, |v.cells| - i
  {
    if i < |v.cells| {
      CellBelow(h, v, i);
      assert CellMatches(h, v, w, i, r, nilEmpty);
      Complete(h, h[v.cells[i]], h[w.cells[i]], o, r, nilEmpty);
      CompleteCells(h, v, w, i + 1, Equal(h, h[v.cells[i]], h[w.cells[i]], o, nilEmpty).1, r, nilEmpty);
    }
  }

  const NOTHING := Order([], [])

  ghost predicate DeeplyEqual(h: Heap, v: Value, w: Value, nilEmpty: bool)
    requires Good(h) && Rooted(h, v) && Rooted(h, w)
  {
    Equal(h, v, w, NOTHING, nilEmpty).0
  }

  lemma EqualGivesPairing(h: Heap, v: Value, w: Value, nilEmpty: bool)
    requires Good(h) && Rooted(h, v) && Rooted(h, w)
    requires DeeplyEqual(h, v, w, nilEmpty)
    ensures Isomorphic(h, v, w, nilEmpty)
  {
    var o := Equal(h, v, w, NOTHING, nilEmpty).1;
    Sound(h, v, w, NOTHING, nilEmpty);
    var r := Pairs(o);
    assert OneToOne(r);
    forall p | p in r ensures p.0 in h && p.1 in h && Matches(h, h[p.0], h[p.1], r, nilEmpty) {
      var i :| 0 <= i < |o.a| && p == (o.a[i], o.b[i]);
      assert o.a[i] == p.0;
    }
    assert Consistent(h, r, nilEmpty);
  }

  lemma PairingGivesEqual(h: Heap, v: Value, w: Value, nilEmpty: bool)
    requires Good(h) && Rooted(h, v) && Rooted(h, w)
    requires Isomorphic(h, v, w, nilEmpty)
    ensures DeeplyEqual(h, v, w, nilEmpty)
  {
    var r: Pairing :| OneToOne(r) && Consistent(h, r, nilEmpty) && Matches(h, v, w, r, nilEmpty);
    Complete(h, v, w, NOTHING, r, nilEmpty);
  }

  /** DeepEqual decides isomorphism of the two pointer graphs, sharing included. */
  lemma EqualIffIsomorphic(h: Heap, v: Value, w: Value, nilEmpty: bool)
    requires Good(h) && Rooted(h, v) && Rooted(h, w)
    ensures DeeplyEqual(h, v, w, nilEmpty) <==> Isomorphic(h, v, w, nilEmpty)
  {
    if DeeplyEqual(h, v, w, nilEmpty) {
      EqualGivesPairing(h, v, w, nilEmpty);
    } else if Isomorphic(h, v, w, nilEmpty) {
      PairingGivesEqual(h, v, w, nilEmpty);
    }
  }

}
