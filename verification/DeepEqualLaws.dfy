/** DeepEqual is an equivalence, but for NaN. */
module DeepLaws {
  import opened Common
  import opened DeepEquality

  function Swapped(r: Pairing): Pairing {
    set p | p in r :: (p.1, p.0)
  }

  /** The slices on either side are nested alike, so the bound may be either's. */
  lemma {:induction false} MatchesSwapped(h: Heap, v: Value, w: Value, r: Pairing, nilEmpty: bool)
    requires Good(h) && Rooted(h, v) && Rooted(h, w) && Matches(h, v, w, r, nilEmpty)
    ensures Matches(h, w, v, Swapped(r), nilEmpty)
    decreases Height(h, v), v
  {
    match v
    case Pointer(_, x) => if x != None && w.target != None { assert (x.value, w.target.value) in r; }
    case Array(_, vs) => AllMatchSwapped(h, vs, w.elems, r, nilEmpty);
    case Slice(_, n, cells) =>
      if nilEmpty || !(n || w.isNil) {
        forall i: nat | i < |cells| ensures CellMatches(h, w, v, i, Swapped(r), nilEmpty) {
          assert CellMatches(h, v, w, i, r, nilEmpty);
          CellBelow(h, v, i);
          MatchesSwapped(h, h[cells[i]], h[w.cells[i]], r, nilEmpty);
        }
      }
    case Struct(_, vs) => AllMatchSwapped(h, vs, w.fields, r, nilEmpty);
    case Interface(_, x) =>
      if x != None && w.content != None { MatchesSwapped(h, x.value, w.content.value, r, nilEmpty); }
    case _ =>
  }

  lemma {:induction false} AllMatchSwapped(h: Heap, vs: seq<Value>, ws: seq<Value>, r: Pairing, nilEmpty: bool)
    requires Good(h) && AllRooted(h, vs) && AllRooted(h, ws) && AllMatch(h, vs, ws, r, nilEmpty)
    ensures AllMatch(h, ws, vs, Swapped(r), nilEmpty)
    decreases HeightAll(h, vs), vs
  {
    if vs != [] {
      MatchesSwapped(h, vs[0], ws[0], r, nilEmpty);
      AllMatchSwapped(h, vs[1..], ws[1..], r, nilEmpty);
    }
  }

  lemma SwappedConsistent(h: Heap, r: Pairing, nilEmpty: bool)
    requires Good(h) && Consistent(h, r, nilEmpty)
    ensures Consistent(h, Swapped(r), nilEmpty)
  {
    forall p | p in Swapped(r) ensures p.0 in h && p.1 in h && Matches(h, h[p.0], h[p.1], Swapped(r), nilEmpty) {
      MatchesSwapped(h, h[p.1], h[p.0], r, nilEmpty);
    }
  }

  lemma Symmetric(h: Heap, v: Value, w: Value, nilEmpty: bool)
    requires Good(h) && Rooted(h, v) && Rooted(h, w)
    requires DeeplyEqual(h, v, w, nilEmpty)
    ensures DeeplyEqual(h, w, v, nilEmpty)
  {
    EqualIffIsomorphic(h, v, w, nilEmpty);
    var r: Pairing :| OneToOne(r) && Consistent(h, r, nilEmpty) && Matches(h, v, w, r, nilEmpty);
    MatchesSwapped(h, v, w, r, nilEmpty);
    SwappedConsistent(h, r, nilEmpty);
    EqualIffIsomorphic(h, w, v, nilEmpty);
  }

  function Composed(r: Pairing, q: Pairing): Pairing {
    set a, b | a in r && b in q && a.1 == b.0 :: (a.0, b.1)
  }

  lemma {:induction false} MatchesComposed(
      h: Heap, u: Value, v: Value, w: Value, r: Pairing, q: Pairing, nilEmpty: bool)
    requires Good(h) && Rooted(h, u) && Rooted(h, v) && Rooted(h, w)
    requires Matches(h, u, v, r, nilEmpty) && Matches(h, v, w, q, nilEmpty)
    ensures Matches(h, u, w, Composed(r, q), nilEmpty)
    decreases Height(h, u), u
  {
    match u
    case Pointer(_, x) =>
      if x != None && w.target != None {
        assert (x.value, v.target.value) in r && (v.target.value, w.target.value) in q;
      }
    case Array(_, us) => AllMatchComposed(h, us, v.elems, w.elems, r, q, nilEmpty);
    case Slice(_, n, cells) =>
      if nilEmpty || !(n || w.isNil) {
        forall i: nat | i < |cells| ensures CellMatches(h, u, w, i, Composed(r, q), nilEmpty) {
          assert CellMatches(h, u, v, i, r, nilEmpty) && CellMatches(h, v, w, i, q, nilEmpty);
          CellBelow(h, u, i);
          MatchesComposed(h, h[cells[i]], h[v.cells[i]], h[w.cells[i]], r, q, nilEmpty);
        }
      }
    case Struct(_, us) => AllMatchComposed(h, us, v.fields, w.fields, r, q, nilEmpty);
    case Interface(_, x) =>
      if x != None && w.content != None {
        MatchesComposed(h, x.value, v.content.value, w.content.value, r, q, nilEmpty);
      }
    case _ =>
  }

  lemma {:induction false} AllMatchComposed(
      h: Heap, us: seq<Value>, vs: seq<Value>, ws: seq<Value>, r: Pairing, q: Pairing, nilEmpty: bool)
    requires Good(h) && AllRooted(h, us) && AllRooted(h, vs) && AllRooted(h, ws)
    requires AllMatch(h, us, vs, r, nilEmpty) && AllMatch(h, vs, ws, q, nilEmpty)
    ensures AllMatch(h, us, ws, Composed(r, q), nilEmpty)
    decreases HeightAll(h, us), us
  {
    if us != [] {
      MatchesComposed(h, us[0], vs[0], ws[0], r, q, nilEmpty);
      AllMatchComposed(h, us[1..], vs[1..], ws[1..], r, q, nilEmpty);
    }
  }

  lemma ComposedOneToOne(r: Pairing, q: Pairing)
    requires OneToOne(r) && OneToOne(q)
    ensures OneToOne(Composed(r, q))
  {
    forall p, p' | p in Composed(r, q) && p' in Composed(r, q) ensures p.0 == p'.0 <==> p.1 == p'.1 {
      var a, b :| a in r && b in q && a.1 == b.0 && p == (a.0, b.1);
      var a', b' :| a' in r && b' in q && a'.1 == b'.0 && p' == (a'.0, b'.1);
    }
  }

  lemma ComposedConsistent(h: Heap, r: Pairing, q: Pairing, nilEmpty: bool)
    requires Good(h) && Consistent(h, r, nilEmpty) && Consistent(h, q, nilEmpty)
    ensures Consistent(h, Composed(r, q), nilEmpty)
  {
    forall p | p in Composed(r, q)
      ensures p.0 in h && p.1 in h && Matches(h, h[p.0], h[p.1], Composed(r, q), nilEmpty)
    {
      var a, b :| a in r && b in q && a.1 == b.0 && p == (a.0, b.1);
      MatchesComposed(h, h[a.0], h[a.1], h[b.1], r, q, nilEmpty);
    }
  }

  lemma Transitive(h: Heap, u: Value, v: Value, w: Value, nilEmpty: bool)
    requires Good(h) && Rooted(h, u) && Rooted(h, v) && Rooted(h, w)
    requires DeeplyEqual(h, u, v, nilEmpty) && DeeplyEqual(h, v, w, nilEmpty)
    ensures DeeplyEqual(h, u, w, nilEmpty)
  {
    EqualIffIsomorphic(h, u, v, nilEmpty);
    EqualIffIsomorphic(h, v, w, nilEmpty);
    var r: Pairing :| OneToOne(r) && Consistent(h, r, nilEmpty) && Matches(h, u, v, r, nilEmpty);
    var q: Pairing :| OneToOne(q) && Consistent(h, q, nilEmpty) && Matches(h, v, w, q, nilEmpty);
    ComposedOneToOne(r, q);
    ComposedConsistent(h, r, q, nilEmpty);
    MatchesComposed(h, u, v, w, r, q, nilEmpty);
    EqualIffIsomorphic(h, u, w, nilEmpty);
  }

  // ---------------------------------------------------------------- reflexivity

  /** No NaN in the value or in its slices, and its pointers lead into `s`. */
  ghost predicate Plain(h: Heap, v: Value, s: set<Addr>)
    requires Good(h) && Rooted(h, v)
    decreases Height(h, v), v
  {
    match v
    case Invalid => true
    case Pointer(_, x) => x != None ==> x.value in s
    case Array(_, vs) => AllPlain(h, vs, s)
    case Slice(_, n, cells) => forall i: nat :: i < |cells| ==> CellPlain(h, v, i, s)
    case Struct(_, vs) => AllPlain(h, vs, s)
    case Interface(_, x) => x != None ==> Plain(h, x.value, s)
    case Primitive(_, p) => !HoldsNaN(p)
  }

  ghost predicate AllPlain(h: Heap, vs: seq<Value>, s: set<Addr>)
    requires Good(h) && AllRooted(h, vs)
    decreases HeightAll(h, vs), vs
  {
    vs != [] ==> Plain(h, vs[0], s) && AllPlain(h, vs[1..], s)
  }

  ghost predicate CellPlain(h: Heap, v: Value, i: nat, s: set<Addr>)
    requires Good(h) && Rooted(h, v) && v.Slice? && i < |v.cells|
    decreases Height(h, v), v, 0
  {
    CellBelow(h, v, i);
    Plain(h, h[v.cells[i]], s)
  }

  /** `s` holds every pointer reachable from it and nothing in it holds a NaN. */
  ghost predicate PlainRegion(h: Heap, s: set<Addr>)
    requires Good(h)
  {
    forall x :: x in s ==> x in h && Plain(h, h[x], s)
  }

  function Fixed(r: Pairing): set<Addr> {
    set p | p in r && p.0 == p.1 :: p.0
  }

  lemma {:induction false} SelfMatch(h: Heap, v: Value, r: Pairing, nilEmpty: bool)
    requires Good(h) && Rooted(h, v)
    ensures Matches(h, v, v, r, nilEmpty) <==> Plain(h, v, Fixed(r))
    decreases Height(h, v), v
  {
    match v
    case Pointer(_, x) => if x != None { assert x.value in Fixed(r) <==> (x.value, x.value) in r; }
    case Array(_, vs) => SelfMatchAll(h, vs, r, nilEmpty);
    case Slice(_, _, cells) =>
      forall i: nat | i < |cells| ensures CellMatches(h, v, v, i, r, nilEmpty) <==> CellPlain(h, v, i, Fixed(r)) {
        CellBelow(h, v, i);
        SelfMatch(h, h[cells[i]], r, nilEmpty);
      }
    case Struct(_, vs) => SelfMatchAll(h, vs, r, nilEmpty);
    case Interface(_, x) => if x != None { SelfMatch(h, x.value, r, nilEmpty); }
    case _ =>
  }

  lemma {:induction false} SelfMatchAll(h: Heap, vs: seq<Value>, r: Pairing, nilEmpty: bool)
    requires Good(h) && AllRooted(h, vs)
    ensures AllMatch(h, vs, vs, r, nilEmpty) <==> AllPlain(h, vs, Fixed(r))
    decreases HeightAll(h, vs), vs
  {
    if vs != [] {
      SelfMatch(h, vs[0], r, nilEmpty);
      SelfMatchAll(h, vs[1..], r, nilEmpty);
    }
  }

  lemma PlainIfEqual(h: Heap, v: Value, nilEmpty: bool)
    requires Good(h) && Rooted(h, v) && DeeplyEqual(h, v, v, nilEmpty)
    ensures exists s :: PlainRegion(h, s) && Plain(h, v, s)
  {
    EqualIffIsomorphic(h, v, v, nilEmpty);
    var r: Pairing :| OneToOne(r) && Consistent(h, r, nilEmpty) && Matches(h, v, v, r, nilEmpty);
    SelfMatch(h, v, r, nilEmpty);
    forall x | x in Fixed(r) ensures x in h && Plain(h, h[x], Fixed(r)) {
      assert (x, x) in r;
      SelfMatch(h, h[x], r, nilEmpty);
    }
    assert PlainRegion(h, Fixed(r));
  }

  lemma EqualIfPlain(h: Heap, v: Value, s: set<Addr>, nilEmpty: bool)
    requires Good(h) && Rooted(h, v) && PlainRegion(h, s) && Plain(h, v, s)
    ensures DeeplyEqual(h, v, v, nilEmpty)
  {
    var r := set x | x in s :: (x, x);
    assert Fixed(r) == s by {
      forall x | x in s ensures x in Fixed(r) { assert (x, x) in r; }
    }
    SelfMatch(h, v, r, nilEmpty);
    forall p | p in r ensures p.0 in h && p.1 in h && Matches(h, h[p.0], h[p.1], r, nilEmpty) {
      SelfMatch(h, h[p.0], r, nilEmpty);
    }
    assert OneToOne(r) && Consistent(h, r, nilEmpty);
    EqualIffIsomorphic(h, v, v, nilEmpty);
  }

  /** A value equals itself exactly when no NaN is reachable from it. */
  lemma ReflexiveIff(h: Heap, v: Value, nilEmpty: bool)
    requires Good(h) && Rooted(h, v)
    ensures DeeplyEqual(h, v, v, nilEmpty) <==> exists s :: PlainRegion(h, s) && Plain(h, v, s)
  {
    if DeeplyEqual(h, v, v, nilEmpty) {
      PlainIfEqual(h, v, nilEmpty);
    }
    if s :| PlainRegion(h, s) && Plain(h, v, s) {
      EqualIfPlain(h, v, s, nilEmpty);
    }
  }

  // ---------------------------------------------------------------- values without pointers and slices

  ghost predicate NaNFree(v: Value)
    decreases v, 1
  {
    match v
    case Array(_, vs) => AllNaNFree(vs)
    case Struct(_, vs) => AllNaNFree(vs)
    case Interface(_, Some(x)) => NaNFree(x)
    case Primitive(_, p) => !HoldsNaN(p)
    case _ => true
  }

  ghost predicate AllNaNFree(vs: seq<Value>)
    decreases vs, 0
  {
    vs != [] ==> NaNFree(vs[0]) && AllNaNFree(vs[1..])
  }

  /** Neither the value nor a part of it is a pointer or a slice. */
  ghost predicate Flat(v: Value)
    decreases v, 1
  {
    match v
    case Pointer(_, _) => false
    case Slice(_, _, _) => false
    case Array(_, vs) => AllFlat(vs)
    case Struct(_, vs) => AllFlat(vs)
    case Interface(_, Some(x)) => Flat(x)
    case _ => true
  }

  ghost predicate AllFlat(vs: seq<Value>)
    decreases vs, 0
  {
    vs != [] ==> Flat(vs[0]) && AllFlat(vs[1..])
  }

  lemma {:induction false} FlatMatch(h: Heap, v: Value, w: Value, r: Pairing, nilEmpty: bool)
    requires Good(h) && Rooted(h, v) && Rooted(h, w) && Flat(v)
    ensures Matches(h, v, w, r, nilEmpty) <==> v == w && NaNFree(v)
    decreases Height(h, v), v
  {
    match v
    case Array(_, vs) => if w.Array? { AllFlatMatch(h, vs, w.elems, r, nilEmpty); }
    case Struct(_, vs) => if w.Struct? { AllFlatMatch(h, vs, w.fields, r, nilEmpty); }
    case Interface(_, x) =>
      if w.Interface? && x != None && w.content != None { FlatMatch(h, x.value, w.content.value, r, nilEmpty); }
    case _ =>
  }

  lemma {:induction false} AllFlatMatch(h: Heap, vs: seq<Value>, ws: seq<Value>, r: Pairing, nilEmpty: bool)
    requires Good(h) && AllRooted(h, vs) && AllRooted(h, ws) && AllFlat(vs)
    ensures AllMatch(h, vs, ws, r, nilEmpty) <==> vs == ws && AllNaNFree(vs)
    decreases HeightAll(h, vs), vs
  {
    if vs != [] && |vs| == |ws| {
      FlatMatch(h, vs[0], ws[0], r, nilEmpty);
      AllFlatMatch(h, vs[1..], ws[1..], r, nilEmpty);
      assert vs == [vs[0]] + vs[1..] && ws == [ws[0]] + ws[1..];
    }
  }

  /** A value without pointers and slices is equal to the very same value, if it holds no NaN, and to nothing else. */
  lemma FlatEqualIff(h: Heap, v: Value, w: Value, nilEmpty: bool)
    requires Good(h) && Rooted(h, v) && Rooted(h, w) && Flat(v)
    ensures DeeplyEqual(h, v, w, nilEmpty) <==> v == w && NaNFree(v)
  {
    EqualIffIsomorphic(h, v, w, nilEmpty);
    FlatMatch(h, v, w, {}, nilEmpty);
    if DeeplyEqual(h, v, w, nilEmpty) {
      var r: Pairing :| OneToOne(r) && Consistent(h, r, nilEmpty) && Matches(h, v, w, r, nilEmpty);
      FlatMatch(h, v, w, r, nilEmpty);
    } else {
      assert OneToOne({}) && Consistent(h, {}, nilEmpty);
    }
  }
}
