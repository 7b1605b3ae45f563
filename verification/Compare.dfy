/** reflectutil.CompareValues and LessValues on acyclic values, pointers followed.

    Types may be recursive: they are numbered, and an environment defines each number. */
module Comparing {
  import opened Common

  type TypeId = nat

  /** Numbers carry the width of their kind. `Other`: a value of a kind that has no order, as an interface, a map or
      a channel; `id` tells it from others of that kind. */
  datatype Value =
    | Bool(b: bool)
    | Text(s: seq<nat>)
    | Uint(width: nat, u: nat)
    | Int(width: nat, i: int)
    | Floating(width: nat, f: Float)
    | Complex(width: nat, re: Float, im: Float)
    | Array(elems: seq<Value>)
    | Slice(elems: seq<Value>)
    | Struct(fields: seq<Value>)
    | Pointer(target: Option<Value>)
    | Other(kind: nat, id: nat)

  datatype Type =
    | BoolType
    | TextType
    | UintType(width: nat)
    | IntType(width: nat)
    | FloatType(width: nat)
    | ComplexType(width: nat)
    | ArrayType(length: nat, elem: TypeId)
    | SliceType(elem: TypeId)
    | StructType(fields: seq<TypeId>)
    | PointerType(elem: TypeId)
    | OtherType(kind: nat)

  type Env = TypeId -> Type

  // ---------------------------------------------------------------- the code

  predicate SameKind(a: Value, b: Value) {
    match (a, b)
    case (Bool(_), Bool(_)) => true
    case (Text(_), Text(_)) => true
    case (Uint(v, _), Uint(w, _)) => v == w
    case (Int(v, _), Int(w, _)) => v == w
    case (Floating(v, _), Floating(w, _)) => v == w
    case (Complex(v, _, _), Complex(w, _, _)) => v == w
    case (Array(_), Array(_)) => true
    case (Slice(_), Slice(_)) => true
    case (Struct(_), Struct(_)) => true
    case (Pointer(_), Pointer(_)) => true
    case (Other(j, _), Other(k, _)) => j == k
    case _ => false
  }

  /** Strings compare byte by byte. */
  predicate TextLess(s: seq<nat>, t: seq<nat>) {
    if s == [] || t == [] then s == [] && t != []
    else s[0] < t[0] || (s[0] == t[0] && TextLess(s[1..], t[1..]))
  }

  predicate FloatLess(x: Float, y: Float) {
    x.Number? && y.Number? && x.r < y.r
  }

  /** LessValues on the kinds that hold no other values. */
  predicate LeafLess(a: Value, b: Value)
    requires SameKind(a, b)
  {
    match a
    case Bool(x) => !x && b.b
    case Text(s) => TextLess(s, b.s)
    case Uint(_, u) => u < b.u
    case Int(_, i) => i < b.i
    case Floating(_, f) => FloatLess(f, b.f)
    case Complex(_, re, im) => if FloatEqual(re, b.re) then FloatLess(im, b.im) else FloatLess(re, b.re)
    case _ => false
  }

  /** LessValues. */
  predicate Less(a: Value, b: Value)
    decreases a, 0
  {
    if !SameKind(a, b) then false
    else match a
      case Array(xs) => CompareElems(xs, b.elems) == -1
      case Slice(xs) => CompareSlices(xs, b.elems) == -1
      case Struct(xs) => CompareElems(xs, b.fields) == -1
      case Pointer(x) =>
        if x == None || b.target == None then x == None && b.target != None
        else Less(x.value, b.target.value)
      case _ => LeafLess(a, b)
  }

  /** CompareValues. */
  function Compare(a: Value, b: Value): int
    decreases a, 1
  {
    if !SameKind(a, b) then 0
    else match a
      case Array(xs) => CompareElems(xs, b.elems)
      case Slice(xs) => CompareSlices(xs, b.elems)
      case Struct(xs) => CompareElems(xs, b.fields)
      case Pointer(x) =>
        if x == None || b.target == None then
          (if x == None && b.target != None then -1 else if x != None && b.target == None then 1 else 0)
        else Compare(x.value, b.target.value)
      case _ => if LeafLess(a, b) then -1 else if LeafLess(b, a) then 1 else 0
  }

  /** The loop over elements: the first difference decides, up to the shorter length. */
  function CompareElems(xs: seq<Value>, ys: seq<Value>): int
    decreases xs, 0
  {
    if xs == [] || ys == [] then 0
    else
      var c := Compare(xs[0], ys[0]);
      if c != 0 then c else CompareElems(xs[1..], ys[1..])
  }

  function CompareSlices(xs: seq<Value>, ys: seq<Value>): int
    decreases xs, 1
  {
    var c := CompareElems(xs, ys);
    if c != 0 then c else if |xs| < |ys| then -1 else if |xs| > |ys| then 1 else 0
  }

  // ---------------------------------------------------------------- types

  ghost predicate HasType(env: Env, t: TypeId, v: Value)
    decreases v, 1
  {
    match (env(t), v)
    case (BoolType, Bool(_)) => true
    case (TextType, Text(_)) => true
    case (UintType(w), Uint(w', _)) => w == w'
    case (IntType(w), Int(w', _)) => w == w'
    case (FloatType(w), Floating(w', _)) => w == w'
    case (ComplexType(w), Complex(w', _, _)) => w == w'
    case (ArrayType(n, t'), Array(xs)) => |xs| == n && AllHaveType(env, t', xs)
    case (SliceType(t'), Slice(xs)) => AllHaveType(env, t', xs)
    case (StructType(ts), Struct(xs)) => FieldsHaveTypes(env, ts, xs)
    case (PointerType(t'), Pointer(x)) => x.Some? ==> HasType(env, t', x.value)
    case (OtherType(k), Other(k', _)) => k == k'
    case _ => false
  }

  ghost predicate AllHaveType(env: Env, t: TypeId, xs: seq<Value>)
    decreases xs, 0
  {
    xs != [] ==> HasType(env, t, xs[0]) && AllHaveType(env, t, xs[1..])
  }

  ghost predicate FieldsHaveTypes(env: Env, ts: seq<TypeId>, xs: seq<Value>)
    decreases xs, 0
  {
    |ts| == |xs| && (xs != [] ==> HasType(env, ts[0], xs[0]) && FieldsHaveTypes(env, ts[1..], xs[1..]))
  }

  ghost predicate NoNaN(v: Value)
    decreases v, 1
  {
    match v
    case Floating(_, f) => f != NaN
    case Complex(_, re, im) => re != NaN && im != NaN
    case Array(xs) => AllNoNaN(xs)
    case Slice(xs) => AllNoNaN(xs)
    case Struct(xs) => AllNoNaN(xs)
    case Pointer(x) => x.Some? ==> NoNaN(x.value)
    case _ => true
  }

  ghost predicate AllNoNaN(xs: seq<Value>)
    decreases xs, 0
  {
    xs != [] ==> NoNaN(xs[0]) && AllNoNaN(xs[1..])
  }

  // ---------------------------------------------------------------- signs, opposites, LessValues

  lemma {:induction false} TextAsymmetric(s: seq<nat>, t: seq<nat>)
    ensures !(TextLess(s, t) && TextLess(t, s))
    ensures !TextLess(s, t) && !TextLess(t, s) ==> s == t
    ensures !TextLess(s, s)
    decreases |s|
  {
    if s != [] {
      TextAsymmetric(s[1..], s[1..]);
      if t != [] {
        TextAsymmetric(s[1..], t[1..]);
        if s[0] == t[0] && s[1..] == t[1..] {
          assert s == [s[0]] + s[1..] && t == [t[0]] + t[1..];
        }
      }
    }
  }

  /** The result is -1, 0 or 1, swapping the arguments negates it, and LessValues is true just when it is -1: all of
      it on any two values, typed alike or not. */
  lemma {:induction false} CompareSigns(a: Value, b: Value)
    ensures Compare(a, b) in {-1, 0, 1}
    ensures Compare(b, a) == -Compare(a, b)
    ensures Less(a, b) <==> Compare(a, b) == -1
    decreases a, 1
  {
    if SameKind(a, b) {
      match a
      case Text(s) => TextAsymmetric(s, b.s);
      case Array(xs) => ElemsSigns(xs, b.elems);
      case Slice(xs) => ElemsSigns(xs, b.elems);
      case Struct(xs) => ElemsSigns(xs, b.fields);
      case Pointer(x) => if x != None && b.target != None { CompareSigns(x.value, b.target.value); }
      case _ =>
    }
  }

  lemma {:induction false} ElemsSigns(xs: seq<Value>, ys: seq<Value>)
    ensures CompareElems(xs, ys) in {-1, 0, 1}
    ensures CompareElems(ys, xs) == -CompareElems(xs, ys)
    decreases xs, 0
  {
    if xs != [] && ys != [] {
      CompareSigns(xs[0], ys[0]);
      ElemsSigns(xs[1..], ys[1..]);
    }
  }

  // ---------------------------------------------------------------- order

  /** What comparing the ends gives, from comparing either with the middle, neither being greater. */
  function Chained(x: int, y: int): int {
    if x == 0 && y == 0 then 0 else -1
  }

  lemma {:induction false} TextTransitive(s: seq<nat>, t: seq<nat>, u: seq<nat>)
    requires TextLess(s, t) && TextLess(t, u)
    ensures TextLess(s, u)
    decreases |s|
  {
    if s != [] && s[0] == t[0] == u[0] {
      TextTransitive(s[1..], t[1..], u[1..]);
    }
  }

  lemma LeafChain(a: Value, b: Value, c: Value)
    requires SameKind(a, b) && SameKind(b, c) && NoNaN(a) && NoNaN(b) && NoNaN(c)
    requires !a.Array? && !a.Slice? && !a.Struct? && !a.Pointer?
    requires Compare(a, b) <= 0 && Compare(b, c) <= 0
    ensures Compare(a, c) == Chained(Compare(a, b), Compare(b, c))
  {
    if a.Text? {
      TextAsymmetric(a.s, b.s);
      TextAsymmetric(b.s, c.s);
      TextAsymmetric(a.s, c.s);
      if TextLess(a.s, b.s) && TextLess(b.s, c.s) { TextTransitive(a.s, b.s, c.s); }
    }
  }

  /** On values of one type without NaN the order is transitive, and equality and strictness carry over. */
  lemma {:induction false} CompareChain(env: Env, t: TypeId, a: Value, b: Value, c: Value)
    requires HasType(env, t, a) && HasType(env, t, b) && HasType(env, t, c)
    requires NoNaN(a) && NoNaN(b) && NoNaN(c)
    requires Compare(a, b) <= 0 && Compare(b, c) <= 0
    ensures Compare(a, c) == Chained(Compare(a, b), Compare(b, c))
    decreases a, 1
  {
    match a
    case Array(xs) =>
      SliceOfEqualLength(xs, b.elems);
      SliceOfEqualLength(b.elems, c.elems);
      SliceOfEqualLength(xs, c.elems);
      SlicesChain(env, env(t).elem, xs, b.elems, c.elems);
    case Slice(xs) => SlicesChain(env, env(t).elem, xs, b.elems, c.elems);
    case Struct(xs) => FieldsChain(env, env(t).fields, xs, b.fields, c.fields);
    case Pointer(x) =>
      if x != None && b.target != None && c.target != None {
        CompareChain(env, env(t).elem, x.value, b.target.value, c.target.value);
      }
    case _ => LeafChain(a, b, c);
  }

  lemma SliceOfEqualLength(xs: seq<Value>, ys: seq<Value>)
    requires |xs| == |ys|
    ensures CompareSlices(xs, ys) == CompareElems(xs, ys)
  {
  }

  lemma SlicesUnfold(xs: seq<Value>, ys: seq<Value>)
    requires xs != [] && ys != []
    ensures CompareSlices(xs, ys) ==
            if Compare(xs[0], ys[0]) != 0 then Compare(xs[0], ys[0]) else CompareSlices(xs[1..], ys[1..])
  {
  }

  lemma {:induction false} SlicesChain(env: Env, t: TypeId, xs: seq<Value>, ys: seq<Value>, zs: seq<Value>)
    requires AllHaveType(env, t, xs) && AllHaveType(env, t, ys) && AllHaveType(env, t, zs)
    requires AllNoNaN(xs) && AllNoNaN(ys) && AllNoNaN(zs)
    requires CompareSlices(xs, ys) <= 0 && CompareSlices(ys, zs) <= 0
    ensures CompareSlices(xs, zs) == Chained(CompareSlices(xs, ys), CompareSlices(ys, zs))
    decreases xs, 0
  {
    if xs != [] && ys != [] && zs != [] {
      SlicesUnfold(xs, ys);
      SlicesUnfold(ys, zs);
      SlicesUnfold(xs, zs);
      CompareSigns(xs[0], ys[0]);
      CompareSigns(ys[0], zs[0]);
      CompareChain(env, t, xs[0], ys[0], zs[0]);
      if Compare(xs[0], ys[0]) == 0 == Compare(ys[0], zs[0]) {
        SlicesChain(env, t, xs[1..], ys[1..], zs[1..]);
      }
    }
  }

  lemma {:induction false} FieldsChain(env: Env, ts: seq<TypeId>, xs: seq<Value>, ys: seq<Value>, zs: seq<Value>)
    requires FieldsHaveTypes(env, ts, xs) && FieldsHaveTypes(env, ts, ys) && FieldsHaveTypes(env, ts, zs)
    requires AllNoNaN(xs) && AllNoNaN(ys) && AllNoNaN(zs)
    requires CompareElems(xs, ys) <= 0 && CompareElems(ys, zs) <= 0
    ensures CompareElems(xs, zs) == Chained(CompareElems(xs, ys), CompareElems(ys, zs))
    decreases xs, 0
  {
    if xs != [] {
      CompareSigns(xs[0], ys[0]);
      CompareSigns(ys[0], zs[0]);
      CompareChain(env, ts[0], xs[0], ys[0], zs[0]);
      if Compare(xs[0], ys[0]) == 0 == Compare(ys[0], zs[0]) {
        FieldsChain(env, ts[1..], xs[1..], ys[1..], zs[1..]);
      }
    }
  }

  /** CompareValues is a total preorder on the values of a type without NaN: any two compare, and `not greater` is
      transitive. */
  lemma TotalPreorder(env: Env, t: TypeId, a: Value, b: Value, c: Value)
    requires HasType(env, t, a) && HasType(env, t, b) && HasType(env, t, c)
    requires NoNaN(a) && NoNaN(b) && NoNaN(c)
    ensures Compare(a, b) <= 0 || Compare(b, a) <= 0
    ensures Compare(a, b) <= 0 && Compare(b, c) <= 0 ==> Compare(a, c) <= 0
    ensures Less(a, b) <==> !(Compare(b, a) <= 0)
  {
    CompareSigns(a, b);
    if Compare(a, b) <= 0 && Compare(b, c) <= 0 {
      CompareChain(env, t, a, b, c);
    }
  }

  // ---------------------------------------------------------------- what compares equal

  /** What comparing can see of a value: nothing of an unordered kind but the kind. */
  function Erased(v: Value): Value
    decreases v, 1
  {
    match v
    case Array(xs) => Array(AllErased(xs))
    case Slice(xs) => Slice(AllErased(xs))
    case Struct(xs) => Struct(AllErased(xs))
    case Pointer(Some(x)) => Pointer(Some(Erased(x)))
    case Other(k, _) => Other(k, 0)
    case _ => v
  }

  function AllErased(xs: seq<Value>): (r: seq<Value>)
    ensures |r| == |xs|
    decreases xs, 0
  {
    if xs == [] then [] else [Erased(xs[0])] + AllErased(xs[1..])
  }

  /** Values of a type without NaN compare equal exactly when they agree but for what unordered kinds hold. */
  lemma {:induction false} ZeroIffErased(env: Env, t: TypeId, a: Value, b: Value)
    requires HasType(env, t, a) && HasType(env, t, b) && NoNaN(a) && NoNaN(b)
    ensures Compare(a, b) == 0 <==> Erased(a) == Erased(b)
    decreases a, 1
  {
    match a
    case Text(s) => TextAsymmetric(s, b.s);
    case Array(xs) => SlicesZero(env, env(t).elem, xs, b.elems);
    case Slice(xs) => SlicesZero(env, env(t).elem, xs, b.elems);
    case Struct(xs) => FieldsZero(env, env(t).fields, xs, b.fields);
    case Pointer(x) => if x != None && b.target != None { ZeroIffErased(env, env(t).elem, x.value, b.target.value); }
    case _ =>
  }

  lemma ErasedUnfold(xs: seq<Value>, ys: seq<Value>)
    requires xs != [] && ys != []
    ensures AllErased(xs) == AllErased(ys)
            <==> Erased(xs[0]) == Erased(ys[0]) && AllErased(xs[1..]) == AllErased(ys[1..])
  {
    var p, q := AllErased(xs), AllErased(ys);
    assert p[0] == Erased(xs[0]) && p[1..] == AllErased(xs[1..]);
    assert q[0] == Erased(ys[0]) && q[1..] == AllErased(ys[1..]);
  }

  lemma {:induction false} SlicesZero(env: Env, t: TypeId, xs: seq<Value>, ys: seq<Value>)
    requires AllHaveType(env, t, xs) && AllHaveType(env, t, ys) && AllNoNaN(xs) && AllNoNaN(ys)
    ensures CompareElems(xs, ys) == 0 && |xs| == |ys| <==> AllErased(xs) == AllErased(ys)
    decreases xs, 0
  {
    if xs != [] && ys != [] {
      ZeroIffErased(env, t, xs[0], ys[0]);
      SlicesZero(env, t, xs[1..], ys[1..]);
      ErasedUnfold(xs, ys);
    }
  }

  lemma {:induction false} FieldsZero(env: Env, ts: seq<TypeId>, xs: seq<Value>, ys: seq<Value>)
    requires FieldsHaveTypes(env, ts, xs) && FieldsHaveTypes(env, ts, ys) && AllNoNaN(xs) && AllNoNaN(ys)
    ensures CompareElems(xs, ys) == 0 <==> AllErased(xs) == AllErased(ys)
    decreases xs, 0
  {
    if xs != [] {
      ZeroIffErased(env, ts[0], xs[0], ys[0]);
      FieldsZero(env, ts[1..], xs[1..], ys[1..]);
      ErasedUnfold(xs, ys);
    }
  }

  /** The value holds nothing of an unordered kind. */
  predicate AllOrdered(v: Value)
    decreases v, 1
  {
    match v
    case Array(xs) => EachOrdered(xs)
    case Slice(xs) => EachOrdered(xs)
    case Struct(xs) => EachOrdered(xs)
    case Pointer(Some(x)) => AllOrdered(x)
    case Other(_, _) => false
    case _ => true
  }

  predicate EachOrdered(xs: seq<Value>)
    decreases xs, 0
  {
    xs != [] ==> AllOrdered(xs[0]) && EachOrdered(xs[1..])
  }

  /** The value with everything of an unordered kind replaced by something else of that kind. */
  function Shifted(v: Value): Value
    decreases v, 1
  {
    match v
    case Array(xs) => Array(AllShifted(xs))
    case Slice(xs) => Slice(AllShifted(xs))
    case Struct(xs) => Struct(AllShifted(xs))
    case Pointer(Some(x)) => Pointer(Some(Shifted(x)))
    case Other(k, id) => Other(k, id + 1)
    case _ => v
  }

  function AllShifted(xs: seq<Value>): (r: seq<Value>)
    ensures |r| == |xs|
    decreases xs, 0
  {
    if xs == [] then [] else [Shifted(xs[0])] + AllShifted(xs[1..])
  }

  /** It has the same type, holds as little NaN, looks the same to comparing, and is another value exactly when there
      was something to replace. */
  lemma {:induction false} ShiftedLooksSame(env: Env, t: TypeId, v: Value)
    requires HasType(env, t, v) && NoNaN(v)
    ensures HasType(env, t, Shifted(v)) && NoNaN(Shifted(v)) && Erased(Shifted(v)) == Erased(v)
    ensures Shifted(v) == v <==> AllOrdered(v)
    decreases v, 1
  {
    match v
    case Array(xs) => AllShiftedLookSame(env, env(t).elem, xs);
    case Slice(xs) => AllShiftedLookSame(env, env(t).elem, xs);
    case Struct(xs) => FieldsShiftedLookSame(env, env(t).fields, xs);
    case Pointer(x) => if x != None { ShiftedLooksSame(env, env(t).elem, x.value); }
    case _ =>
  }

  lemma ShiftedUnfold(xs: seq<Value>)
    requires xs != []
    ensures AllShifted(xs)[0] == Shifted(xs[0]) && AllShifted(xs)[1..] == AllShifted(xs[1..])
    ensures AllShifted(xs) == xs <==> Shifted(xs[0]) == xs[0] && AllShifted(xs[1..]) == xs[1..]
  {
    var ys := AllShifted(xs);
    assert ys[0] == Shifted(xs[0]) && ys[1..] == AllShifted(xs[1..]);
    assert xs == [xs[0]] + xs[1..];
  }

  lemma {:induction false} AllShiftedLookSame(env: Env, t: TypeId, xs: seq<Value>)
    requires AllHaveType(env, t, xs) && AllNoNaN(xs)
    ensures AllHaveType(env, t, AllShifted(xs)) && AllNoNaN(AllShifted(xs))
    ensures AllErased(AllShifted(xs)) == AllErased(xs)
    ensures AllShifted(xs) == xs <==> EachOrdered(xs)
    decreases xs, 0
  {
    if xs != [] {
      ShiftedLooksSame(env, t, xs[0]);
      AllShiftedLookSame(env, t, xs[1..]);
      ShiftedUnfold(xs);
      ErasedUnfold(AllShifted(xs), xs);
    }
  }

  lemma {:induction false} FieldsShiftedLookSame(env: Env, ts: seq<TypeId>, xs: seq<Value>)
    requires FieldsHaveTypes(env, ts, xs) && AllNoNaN(xs)
    ensures FieldsHaveTypes(env, ts, AllShifted(xs)) && AllNoNaN(AllShifted(xs))
    ensures AllErased(AllShifted(xs)) == AllErased(xs)
    ensures AllShifted(xs) == xs <==> EachOrdered(xs)
    decreases xs, 0
  {
    if xs != [] {
      ShiftedLooksSame(env, ts[0], xs[0]);
      FieldsShiftedLookSame(env, ts[1..], xs[1..]);
      ShiftedUnfold(xs);
      ErasedUnfold(AllShifted(xs), xs);
    }
  }

  lemma {:induction false} OrderedErased(v: Value, w: Value)
    requires AllOrdered(v) && Erased(v) == Erased(w)
    ensures v == w
    decreases v, 1
  {
    match v
    case Array(xs) => EachOrderedErased(xs, w.elems);
    case Slice(xs) => EachOrderedErased(xs, w.elems);
    case Struct(xs) => EachOrderedErased(xs, w.fields);
    case Pointer(x) => if x != None { OrderedErased(x.value, w.target.value); }
    case _ =>
  }

  lemma {:induction false} EachOrderedErased(xs: seq<Value>, ys: seq<Value>)
    requires EachOrdered(xs) && AllErased(xs) == AllErased(ys)
    ensures xs == ys
    decreases xs, 0
  {
    assert |xs| == |ys|;
    if xs != [] {
      ErasedUnfold(xs, ys);
      OrderedErased(xs[0], ys[0]);
      EachOrderedErased(xs[1..], ys[1..]);
      assert xs == [xs[0]] + xs[1..] && ys == [ys[0]] + ys[1..];
    }
  }

  /** Comparing equal to a value means being equal to it exactly when it holds nothing of an unordered kind. */
  lemma ZeroMeansEqualIff(env: Env, t: TypeId, a: Value)
    requires HasType(env, t, a) && NoNaN(a)
    ensures (forall b :: HasType(env, t, b) && NoNaN(b) ==> (Compare(a, b) == 0 <==> a == b)) <==> AllOrdered(a)
  {
    if AllOrdered(a) {
      forall b | HasType(env, t, b) && NoNaN(b) ensures Compare(a, b) == 0 <==> a == b {
        ZeroIffErased(env, t, a, b);
        if Compare(a, b) == 0 { OrderedErased(a, b); }
      }
    } else {
      var b := Shifted(a);
      ShiftedLooksSame(env, t, a);
      ZeroIffErased(env, t, a, b);
      assert HasType(env, t, b) && NoNaN(b) && Compare(a, b) == 0 && a != b;
    }
  }

  /** Two structs with different contents in a field of an unordered kind compare equal. */
  lemma UnorderedCompareEqual(k: nat, id: nat, id': nat)
    requires id != id'
    ensures Compare(Struct([Other(k, id)]), Struct([Other(k, id')])) == 0
    ensures Struct([Other(k, id)]) != Struct([Other(k, id')])
  {
    var xs, ys := [Other(k, id)], [Other(k, id')];
    assert xs[1..] == [] && xs[0] != ys[0];
    assert Compare(xs[0], ys[0]) == 0 && CompareElems(xs, ys) == CompareElems(xs[1..], ys[1..]);
  }

  // ---------------------------------------------------------------- areComparable on one type

  function Parts(t: Type): seq<TypeId> {
    match t
    case ArrayType(_, e) => [e]
    case SliceType(e) => [e]
    case PointerType(e) => [e]
    case StructType(fields) => fields
    case _ => []
  }

  /** Finitely many types, with the parts of each. */
  ghost predicate Closed(env: Env, types: set<TypeId>) {
    forall t :: t in types ==> forall e :: e in Parts(env(t)) ==> e in types
  }

  /** areComparable of a type with itself: whether it is, and the types seen by then. */
  ghost function Comparable(env: Env, types: set<TypeId>, t: TypeId, seen: set<TypeId>): (r: (bool, set<TypeId>))
    requires Closed(env, types) && t in types && seen <= types
    ensures seen <= r.1 <= types
    decreases types - seen, 1, 0
  {
    if t in seen then (true, seen)
    else if env(t).OtherType? then (false, seen + {t})
    else AllComparable(env, types, Parts(env(t)), seen + {t})
  }

  ghost function AllComparable(
      env: Env, types: set<TypeId>, ts: seq<TypeId>, seen: set<TypeId>): (r: (bool, set<TypeId>))
    requires Closed(env, types) && (forall e :: e in ts ==> e in types) && seen <= types
    ensures seen <= r.1 <= types
    decreases types - seen, 2, |ts|
  {
    if ts == [] then (true, seen)
    else
      var (ok, seen') := Comparable(env, types, ts[0], seen);
      if !ok then (false, seen') else AllComparable(env, types, ts[1..], seen')
  }

  /** Types of ordered kinds only, whose parts are among them or in `more`. */
  ghost predicate OrderedAmong(env: Env, s: set<TypeId>, more: set<TypeId>) {
    forall t :: t in s ==> !env(t).OtherType? && forall e :: e in Parts(env(t)) ==> e in more
  }

  /** No type of an unordered kind is reachable from `t`. */
  ghost predicate Ordered(env: Env, t: TypeId) {
    exists s: set<TypeId> :: t in s && OrderedAmong(env, s, s)
  }

  lemma {:induction false} ComparableSound(env: Env, types: set<TypeId>, t: TypeId, seen: set<TypeId>)
    requires Closed(env, types) && t in types && seen <= types && Comparable(env, types, t, seen).0
    ensures var s := Comparable(env, types, t, seen).1; t in s && OrderedAmong(env, s - seen, s)
    decreases types - seen, 1, 0
  {
    if t !in seen {
      AllComparableSound(env, types, Parts(env(t)), seen + {t});
    }
  }

  lemma {:induction false} AllComparableSound(env: Env, types: set<TypeId>, ts: seq<TypeId>, seen: set<TypeId>)
    requires Closed(env, types) && (forall e :: e in ts ==> e in types) && seen <= types
    requires AllComparable(env, types, ts, seen).0
    ensures var s := AllComparable(env, types, ts, seen).1;
            (forall e :: e in ts ==> e in s) && OrderedAmong(env, s - seen, s)
    decreases types - seen, 2, |ts|
  {
    if ts != [] {
      ComparableSound(env, types, ts[0], seen);
      var seen' := Comparable(env, types, ts[0], seen).1;
      AllComparableSound(env, types, ts[1..], seen');
      var s := AllComparable(env, types, ts[1..], seen').1;
      forall e | e in ts ensures e in s {
        assert e == ts[0] || e in ts[1..];
      }
    }
  }

  lemma {:induction false} ComparableComplete(
      env: Env, types: set<TypeId>, t: TypeId, seen: set<TypeId>, s: set<TypeId>)
    requires Closed(env, types) && t in types && seen <= types && t in s && OrderedAmong(env, s, s)
    ensures Comparable(env, types, t, seen).0
    decreases types - seen, 1, 0
  {
    if t !in seen {
      AllComparableComplete(env, types, Parts(env(t)), seen + {t}, s);
    }
  }

  lemma {:induction false} AllComparableComplete(
      env: Env, types: set<TypeId>, ts: seq<TypeId>, seen: set<TypeId>, s: set<TypeId>)
    requires Closed(env, types) && (forall e :: e in ts ==> e in types) && seen <= types
    requires (forall e :: e in ts ==> e in s) && OrderedAmong(env, s, s)
    ensures AllComparable(env, types, ts, seen).0
    decreases types - seen, 2, |ts|
  {
    if ts != [] {
      ComparableComplete(env, types, ts[0], seen, s);
      AllComparableComplete(env, types, ts[1..], Comparable(env, types, ts[0], seen).1, s);
    }
  }

  /** areComparable accepts a type with itself exactly when no unordered kind is reachable from it. */
  lemma ComparableIffOrdered(env: Env, types: set<TypeId>, t: TypeId)
    requires Closed(env, types) && t in types
    ensures Comparable(env, types, t, {}).0 <==> Ordered(env, t)
  {
    if Comparable(env, types, t, {}).0 {
      ComparableSound(env, types, t, {});
      var s := Comparable(env, types, t, {}).1;
      assert s - {} == s;
    }
    if s: set<TypeId> :| t in s && OrderedAmong(env, s, s) {
      ComparableComplete(env, types, t, {}, s);
    }
  }

  lemma {:induction false} OrderedValues(env: Env, s: set<TypeId>, t: TypeId, v: Value)
    requires OrderedAmong(env, s, s) && t in s && HasType(env, t, v)
    ensures AllOrdered(v)
    decreases v, 1
  {
    match v
    case Array(xs) => EachOrderedValues(env, s, env(t).elem, xs);
    case Slice(xs) => EachOrderedValues(env, s, env(t).elem, xs);
    case Struct(xs) => FieldsOrderedValues(env, s, env(t).fields, xs);
    case Pointer(x) => if x != None { OrderedValues(env, s, env(t).elem, x.value); }
    case _ =>
  }

  lemma {:induction false} EachOrderedValues(env: Env, s: set<TypeId>, t: TypeId, xs: seq<Value>)
    requires OrderedAmong(env, s, s) && t in s && AllHaveType(env, t, xs)
    ensures EachOrdered(xs)
    decreases xs, 0
  {
    if xs != [] {
      OrderedValues(env, s, t, xs[0]);
      EachOrderedValues(env, s, t, xs[1..]);
    }
  }

  lemma {:induction false} FieldsOrderedValues(env: Env, s: set<TypeId>, ts: seq<TypeId>, xs: seq<Value>)
    requires OrderedAmong(env, s, s) && (forall e :: e in ts ==> e in s) && FieldsHaveTypes(env, ts, xs)
    ensures EachOrdered(xs)
    decreases xs, 0
  {
    if xs != [] {
      OrderedValues(env, s, ts[0], xs[0]);
      FieldsOrderedValues(env, s, ts[1..], xs[1..]);
    }
  }

  /** On the types that areComparable accepts, NaN-free values compare equal exactly when they are equal. */
  lemma ZeroIffEqual(env: Env, types: set<TypeId>, t: TypeId, a: Value, b: Value)
    requires Closed(env, types) && t in types && Comparable(env, types, t, {}).0
    requires HasType(env, t, a) && HasType(env, t, b) && NoNaN(a) && NoNaN(b)
    ensures Compare(a, b) == 0 <==> a == b
  {
    ComparableIffOrdered(env, types, t);
    var s: set<TypeId> :| t in s && OrderedAmong(env, s, s);
    OrderedValues(env, s, t, a);
    ZeroMeansEqualIff(env, t, a);
  }

  /** Floats of one width are ordered exactly when NaN is not among them or there is at most one number. */
  lemma FloatsOrderedIff(w: nat, fs: set<Float>)
    ensures (forall x, y, z :: x in fs && y in fs && z in fs
               && Compare(Floating(w, x), Floating(w, y)) <= 0 && Compare(Floating(w, y), Floating(w, z)) <= 0
               ==> Compare(Floating(w, x), Floating(w, z)) <= 0)
            <==> (NaN !in fs || forall x, y :: x in fs && y in fs && x.Number? && y.Number? ==> x == y)
  {
    if NaN in fs && exists x, y :: x in fs && y in fs && x.Number? && y.Number? && x != y {
      var x, y :| x in fs && y in fs && x.Number? && y.Number? && x != y;
      var lo, hi := if x.r < y.r then x else y, if x.r < y.r then y else x;
      assert Compare(Floating(w, hi), Floating(w, NaN)) == 0 == Compare(Floating(w, NaN), Floating(w, lo));
      assert Compare(Floating(w, hi), Floating(w, lo)) == 1;
    }
  }

  // ---------------------------------------------------------------- which comes first

  /** Values of different kinds, widths included, all compare equal. */
  lemma OnlyWithinKind(a: Value, b: Value)
    requires Compare(a, b) != 0
    ensures && a.Bool? == b.Bool? && a.Text? == b.Text? && a.Uint? == b.Uint? && a.Int? == b.Int?
            && a.Floating? == b.Floating? && a.Complex? == b.Complex? && a.Array? == b.Array?
            && a.Slice? == b.Slice? && a.Struct? == b.Struct? && a.Pointer? == b.Pointer?
    ensures a.Uint? || a.Int? || a.Floating? || a.Complex? ==> a.width == b.width
    ensures !a.Other? && !b.Other?
  {
  }

  /** Numbers come in their order, and false before true; what is not a number compares equal to every float. */
  lemma LeavesInOrder(w: nat, i: int, j: int, u: nat, v: nat, x: bool, y: bool, p: real, q: real, f: Float)
    ensures Compare(Int(w, i), Int(w, j)) == -1 <==> i < j
    ensures Compare(Uint(w, u), Uint(w, v)) == -1 <==> u < v
    ensures Compare(Bool(x), Bool(y)) == -1 <==> !x && y
    ensures Compare(Floating(w, Number(p)), Floating(w, Number(q))) == -1 <==> p < q
    ensures Compare(Floating(w, NaN), Floating(w, f)) == 0
  {
  }

  /** Complex numbers come by their real parts, and by their imaginary parts if those are the same numbers. */
  lemma ComplexInOrder(w: nat, p: real, p': real, q: real, q': real, f: Float, g: Float, h: Float)
    ensures Compare(Complex(w, Number(p), Number(p')), Complex(w, Number(q), Number(q'))) == -1
            <==> p < q || (p == q && p' < q')
    ensures Compare(Complex(w, NaN, f), Complex(w, g, h)) == 0
    ensures Compare(Complex(w, Number(p), NaN), Complex(w, Number(p), f)) == 0
  {
  }

  /** The first `k` bytes are the same, and then `s` ends or has the smaller one. */
  ghost predicate ComesFirst(s: seq<nat>, t: seq<nat>, k: nat) {
    k <= |s| && k < |t| && s[..k] == t[..k] && (k == |s| || s[k] < t[k])
  }

  lemma {:induction false} TextFirst(s: seq<nat>, t: seq<nat>)
    ensures TextLess(s, t) <==> exists k: nat :: ComesFirst(s, t, k)
    decreases |s|
  {
    if s == [] || t == [] {
      if t != [] { assert ComesFirst(s, t, 0); }
    } else {
      TextFirst(s[1..], t[1..]);
      if s[0] < t[0] { assert ComesFirst(s, t, 0); }
      if s[0] == t[0] { TextShift(s, t); }
      forall k: nat | ComesFirst(s, t, k) ensures TextLess(s, t) {
        if k > 0 {
          assert s[..k][0] == s[0] && t[..k][0] == t[0];
          assert s[..k][1..] == s[1..][..k - 1] && t[..k][1..] == t[1..][..k - 1];
          assert ComesFirst(s[1..], t[1..], k - 1);
        }
      }
    }
  }

  lemma TextShift(s: seq<nat>, t: seq<nat>)
    requires s != [] && t != [] && s[0] == t[0]
    ensures (exists k: nat :: ComesFirst(s[1..], t[1..], k)) ==> exists k: nat :: ComesFirst(s, t, k)
  {
    if k: nat :| ComesFirst(s[1..], t[1..], k) {
      assert s[..k + 1] == [s[0]] + s[1..][..k] && t[..k + 1] == [t[0]] + t[1..][..k];
      assert ComesFirst(s, t, k + 1);
    }
  }

  /** A string comes first exactly when it is the start of a longer one, or has the smaller byte where they first
      differ. */
  lemma TextInOrder(s: seq<nat>, t: seq<nat>)
    ensures Compare(Text(s), Text(t)) == -1 <==> exists k: nat :: ComesFirst(s, t, k)
  {
    TextFirst(s, t);
  }

  /** The elements before `k` compare equal, and those at `k` give `c`, which is not 0. */
  ghost predicate DifferAt(xs: seq<Value>, ys: seq<Value>, k: nat, c: int) {
    && k < |xs| && k < |ys| && Compare(xs[k], ys[k]) == c != 0
    && forall i: nat :: i < k ==> Compare(xs[i], ys[i]) == 0
  }

  /** All common elements compare equal. */
  ghost predicate NeverDiffer(xs: seq<Value>, ys: seq<Value>) {
    forall i: nat :: i < |xs| && i < |ys| ==> Compare(xs[i], ys[i]) == 0
  }

  lemma {:induction false} ElemsDiffer(xs: seq<Value>, ys: seq<Value>, c: int)
    requires c != 0
    ensures CompareElems(xs, ys) == c <==> exists k: nat :: DifferAt(xs, ys, k, c)
    ensures CompareElems(xs, ys) == 0 <==> NeverDiffer(xs, ys)
    decreases |xs|
  {
    if xs != [] && ys != [] {
      ElemsDiffer(xs[1..], ys[1..], c);
      var first := Compare(xs[0], ys[0]);
      if first == 0 {
        DifferShift(xs, ys, c);
      } else if first == c {
        assert DifferAt(xs, ys, 0, c);
      }
    }
  }

  lemma DifferShift(xs: seq<Value>, ys: seq<Value>, c: int)
    requires xs != [] && ys != [] && Compare(xs[0], ys[0]) == 0 && c != 0
    ensures (exists k: nat :: DifferAt(xs, ys, k, c)) <==> exists k: nat :: DifferAt(xs[1..], ys[1..], k, c)
    ensures NeverDiffer(xs, ys) <==> NeverDiffer(xs[1..], ys[1..])
  {
    var us, vs := xs[1..], ys[1..];
    forall i: nat | i < |us| && i < |vs| ensures us[i] == xs[i + 1] && vs[i] == ys[i + 1] {}
    if k: nat :| DifferAt(us, vs, k, c) {
      forall i: nat | i < k + 1 ensures Compare(xs[i], ys[i]) == 0 {
        if i > 0 { assert us[i - 1] == xs[i] && vs[i - 1] == ys[i]; }
      }
      assert DifferAt(xs, ys, k + 1, c);
    }
    if k: nat :| DifferAt(xs, ys, k, c) {
      assert DifferAt(us, vs, k - 1, c);
    }
    if NeverDiffer(us, vs) {
      forall i: nat | i < |xs| && i < |ys| ensures Compare(xs[i], ys[i]) == 0 {
        if i > 0 { assert us[i - 1] == xs[i] && vs[i - 1] == ys[i]; }
      }
    }
  }

  /** Slices come by the first place where they differ; if there is none, the shorter first. */
  lemma SlicesInOrder(xs: seq<Value>, ys: seq<Value>)
    ensures Compare(Slice(xs), Slice(ys)) == -1
            <==> (exists k: nat :: DifferAt(xs, ys, k, -1)) || (NeverDiffer(xs, ys) && |xs| < |ys|)
  {
    ElemsDiffer(xs, ys, -1);
  }

  /** Arrays and structs come by the first place where they differ; nil comes before every other pointer, and pointers
      by what they lead to. */
  lemma CompositesInOrder(xs: seq<Value>, ys: seq<Value>, x: Value, y: Value)
    ensures Compare(Array(xs), Array(ys)) == -1 <==> exists k: nat :: DifferAt(xs, ys, k, -1)
    ensures Compare(Struct(xs), Struct(ys)) == -1 <==> exists k: nat :: DifferAt(xs, ys, k, -1)
    ensures Compare(Pointer(None), Pointer(Some(x))) == -1 && Compare(Pointer(None), Pointer(None)) == 0
    ensures Compare(Pointer(Some(x)), Pointer(Some(y))) == -1 <==> Compare(x, y) == -1
  {
    ElemsDiffer(xs, ys, -1);
  }

  // ---------------------------------------------------------------- panics

  /** Whether the code indexes past the end of the second value: an array or a struct that is longer than the one it
      is compared with and agrees with it so far. */
  predicate Panics(a: Value, b: Value)
    decreases a, 1
  {
    SameKind(a, b) &&
    match a
    case Array(xs) => ElemsPanic(xs, b.elems)
    case Slice(xs) => SlicesPanic(xs, b.elems)
    case Struct(xs) => ElemsPanic(xs, b.fields)
    case Pointer(x) => x != None && b.target != None && Panics(x.value, b.target.value)
    case _ => false
  }

  predicate ElemsPanic(xs: seq<Value>, ys: seq<Value>)
    decreases xs, 0
  {
    xs != [] && (ys == [] || Panics(xs[0], ys[0]) || (Compare(xs[0], ys[0]) == 0 && ElemsPanic(xs[1..], ys[1..])))
  }

  predicate SlicesPanic(xs: seq<Value>, ys: seq<Value>)
    decreases xs, 0
  {
    xs != [] && ys != []
    && (Panics(xs[0], ys[0]) || (Compare(xs[0], ys[0]) == 0 && SlicesPanic(xs[1..], ys[1..])))
  }

  /** Values of one type never make it panic. */
  lemma {:induction false} TypedNeverPanics(env: Env, t: TypeId, a: Value, b: Value)
    requires HasType(env, t, a) && HasType(env, t, b)
    ensures !Panics(a, b)
    decreases a, 1
  {
    match a
    case Array(xs) => ArraysNeverPanic(env, env(t).elem, xs, b.elems);
    case Slice(xs) => SlicesNeverPanic(env, env(t).elem, xs, b.elems);
    case Struct(xs) => FieldsNeverPanic(env, env(t).fields, xs, b.fields);
    case Pointer(x) => if x != None && b.target != None { TypedNeverPanics(env, env(t).elem, x.value, b.target.value); }
    case _ =>
  }

  lemma {:induction false} ArraysNeverPanic(env: Env, t: TypeId, xs: seq<Value>, ys: seq<Value>)
    requires AllHaveType(env, t, xs) && AllHaveType(env, t, ys) && |xs| == |ys|
    ensures !ElemsPanic(xs, ys)
    decreases xs, 0
  {
    if xs != [] {
      TypedNeverPanics(env, t, xs[0], ys[0]);
      ArraysNeverPanic(env, t, xs[1..], ys[1..]);
    }
  }

  lemma {:induction false} SlicesNeverPanic(env: Env, t: TypeId, xs: seq<Value>, ys: seq<Value>)
    requires AllHaveType(env, t, xs) && AllHaveType(env, t, ys)
    ensures !SlicesPanic(xs, ys)
    decreases xs, 0
  {
    if xs != [] && ys != [] {
      TypedNeverPanics(env, t, xs[0], ys[0]);
      SlicesNeverPanic(env, t, xs[1..], ys[1..]);
    }
  }

  lemma {:induction false} FieldsNeverPanic(env: Env, ts: seq<TypeId>, xs: seq<Value>, ys: seq<Value>)
    requires FieldsHaveTypes(env, ts, xs) && FieldsHaveTypes(env, ts, ys)
    ensures !ElemsPanic(xs, ys)
    decreases xs, 0
  {
    if xs != [] {
      TypedNeverPanics(env, ts[0], xs[0], ys[0]);
      FieldsNeverPanic(env, ts[1..], xs[1..], ys[1..]);
    }
  }

  // ---------------------------------------------------------------- the imperative form

  /** LessValues, on any two values. */
  method LessValues(a: Value, b: Value) returns (less: bool, panicked: bool)
    ensures panicked <==> Panics(a, b)
    ensures !panicked ==> (less <==> Less(a, b)) && (less <==> Compare(a, b) == -1)
    decreases a, 1
  {
    CompareSigns(a, b);
    if !SameKind(a, b) {
      return false, false;
    }
    var c;
    match a
    case Array(xs) =>
      c, panicked := CompareElements(xs, b.elems);
      less := c == -1;
    case Slice(xs) =>
      c, panicked := CompareSlice(xs, b.elems);
      less := c == -1;
    case Struct(xs) =>
      c, panicked := CompareElements(xs, b.fields);
      less := c == -1;
    case Pointer(x) =>
      if x == None || b.target == None {
        return x == None && b.target != None, false;
      }
      less, panicked := LessValues(x.value, b.target.value);
    case _ =>
      return LeafLess(a, b), false;
  }

  /** CompareValues, on any two values. */
  method CompareValues(a: Value, b: Value) returns (c: int, panicked: bool)
    ensures panicked <==> Panics(a, b)
    ensures !panicked ==> c == Compare(a, b)
    decreases a, 1
  {
    if !SameKind(a, b) {
      return 0, false;
    }
    match a
    case Array(xs) => c, panicked := CompareElements(xs, b.elems);
    case Slice(xs) => c, panicked := CompareSlice(xs, b.elems);
    case Struct(xs) => c, panicked := CompareElements(xs, b.fields);
    case Pointer(x) =>
      if x == None || b.target == None {
        if x == None && b.target != None {
          return -1, false;
        }
        if x != None && b.target == None {
          return 1, false;
        }
        return 0, false;
      }
      c, panicked := CompareValues(x.value, b.target.value);
    case _ =>
      if LeafLess(a, b) {
        return -1, false;
      }
      if LeafLess(b, a) {
        return 1, false;
      }
      return 0, false;
  }

  /** compareArray and compareStruct: the loops over elements and over fields are the same. */
  method CompareElements(xs: seq<Value>, ys: seq<Value>) returns (c: int, panicked: bool)
    ensures panicked <==> ElemsPanic(xs, ys)
    ensures !panicked ==> c == CompareElems(xs, ys)
    decreases xs, 0
  {
    var ix := 0;
    while ix < |xs|
      invariant 0 <= ix <= |xs| && ix <= |ys|
      invariant ElemsPanic(xs[ix..], ys[ix..]) == ElemsPanic(xs, ys)
      invariant CompareElems(xs[ix..], ys[ix..]) == CompareElems(xs, ys)
    {
      if ix == |ys| {
        return 0, true;
      }
      assert xs[ix..][1..] == xs[ix + 1..] && ys[ix..][1..] == ys[ix + 1..];
      c, panicked := CompareValues(xs[ix], ys[ix]);
      if panicked || c != 0 {
        return;
      }
      ix := ix + 1;
    }
    return 0, false;
  }

  method CompareSlice(xs: seq<Value>, ys: seq<Value>) returns (c: int, panicked: bool)
    ensures panicked <==> SlicesPanic(xs, ys)
    ensures !panicked ==> c == CompareSlices(xs, ys)
    decreases xs, 0
  {
    var ix := 0;
    while ix < |xs| && ix < |ys|
      invariant 0 <= ix <= |xs| && ix <= |ys|
      invariant SlicesPanic(xs[ix..], ys[ix..]) == SlicesPanic(xs, ys)
      invariant CompareElems(xs[ix..], ys[ix..]) == CompareElems(xs, ys)
    {
      assert xs[ix..][1..] == xs[ix + 1..] && ys[ix..][1..] == ys[ix + 1..];
      c, panicked := CompareValues(xs[ix], ys[ix]);
      if panicked || c != 0 {
        return;
      }
      ix := ix + 1;
    }
    if |xs| < |ys| {
      return -1, false;
    }
    if |xs| > |ys| {
      return 1, false;
    }
    return 0, false;
  }
}
