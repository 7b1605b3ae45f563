/** Counting members: overlapping majorities and the choice of the commit index. */
module RaftQuorum {

  /** The ids of an `n`-member cluster. */
  ghost function Ids(n: nat): (s: set<nat>)
    ensures forall i: nat :: i in s <==> i < n
    ensures |s| == n
  {
    if n == 0 then {} else Ids(n - 1) + {n - 1}
  }

  lemma SubsetSize<T>(a: set<T>, b: set<T>)
    requires a <= b
    ensures |a| <= |b|
  {
    assert b == a + (b - a);
  }

  /** Two groups that together outnumber the members share one. */
  lemma Overlap(n: nat, a: set<nat>, b: set<nat>) returns (m: nat)
    requires a <= Ids(n) && b <= Ids(n)
    requires |a| + |b| > n
    ensures m in a && m in b
  {
    SubsetSize(a + b, Ids(n));
    assert |a + b| == |a| + |b| - |a * b|;
    m :| m in a * b;
  }

  /** Votes an election must exceed: half of the *other* members, rounded down. */
  predicate WinningCount(n: nat, oks: nat)
    requires n > 0
  {
    oks > (n - 1) / 2
  }

  /** Size of a commit quorum. */
  function Quorum(n: nat): nat {
    (n + 1) / 2
  }

  predicate Descending(s: seq<nat>) {
    forall i, j :: 0 <= i < j < |s| ==> s[i] >= s[j]
  }

  /** How many leading elements of a descending sequence exceed `x`. */
  function Rank(x: nat, s: seq<nat>): (k: nat)
    ensures k <= |s|
    ensures forall i :: 0 <= i < k ==> s[i] > x
    ensures k < |s| ==> s[k] <= x
  {
    if s == [] || s[0] <= x then 0 else 1 + Rank(x, s[1..])
  }

  function InsertDescending(x: nat, s: seq<nat>): (r: seq<nat>)
    requires Descending(s)
    ensures Descending(r)
    ensures multiset(r) == multiset(s) + multiset{x}
  {
    var k := Rank(x, s);
    InsertedDescending(x, s[..k], s[k..]);
    assert s == s[..k] + s[k..];
    s[..k] + [x] + s[k..]
  }

  lemma InsertedDescending(x: nat, a: seq<nat>, b: seq<nat>)
    requires Descending(a) && Descending(b)
    requires forall i :: 0 <= i < |a| ==> a[i] >= x
    requires forall i :: 0 <= i < |b| ==> b[i] <= x
    ensures Descending(a + [x] + b)
  {
    var r := a + [x] + b;
    forall i, j | 0 <= i < j < |r| ensures r[i] >= r[j] {
      if i < |a| { assert r[i] == a[i]; }
      if j > |a| { assert r[j] == b[j - |a| - 1]; }
    }
  }

  /** `memberSlice` order: highest match index first. */
  function SortDescending(s: seq<nat>): (r: seq<nat>)
    ensures Descending(r)
    ensures multiset(r) == multiset(s)
  {
    if s == [] then []
    else
      assert s == [s[0]] + s[1..];
      InsertDescending(s[0], SortDescending(s[1..]))
  }

  /** The members whose match index reaches `i`. */
  ghost function Reaching(matched: seq<nat>, i: nat): (s: set<nat>) {
    set m | 0 <= m < |matched| && matched[m] >= i
  }

  /** How many elements are at least `i`. */
  ghost function CountReaching(s: seq<nat>, i: nat): nat {
    if s == [] then 0 else CountReaching(s[..|s| - 1], i) + (if s[|s| - 1] >= i then 1 else 0)
  }

  lemma {:induction false} CountIsSize(s: seq<nat>, i: nat)
    ensures CountReaching(s, i) == |Reaching(s, i)|
  {
    if s != [] {
      var l := |s| - 1;
      CountIsSize(s[..l], i);
      assert Reaching(s, i) == Reaching(s[..l], i) + (if s[l] >= i then {l} else {});
    }
  }

  lemma {:induction false} CountConcat(a: seq<nat>, b: seq<nat>, i: nat)
    ensures CountReaching(a + b, i) == CountReaching(a, i) + CountReaching(b, i)
  {
    if b == [] {
      assert a + b == a;
    } else {
      CountConcat(a, b[..|b| - 1], i);
      assert (a + b)[..|a + b| - 1] == a + b[..|b| - 1];
    }
  }

  lemma {:induction false} CountPermutation(a: seq<nat>, b: seq<nat>, i: nat)
    requires multiset(a) == multiset(b)
    ensures CountReaching(a, i) == CountReaching(b, i)
    decreases |a|
  {
    if a == [] {
      assert |multiset(b)| == |b|;
    } else {
      var l := |a| - 1;
      assert a == a[..l] + [a[l]];
      assert a[l] in multiset(b);
      var j :| 0 <= j < |b| && b[j] == a[l];
      var rest := b[..j] + b[j + 1..];
      assert b == b[..j] + [b[j]] + b[j + 1..];
      assert multiset(b) == multiset(rest) + multiset{a[l]};
      assert multiset(a[..l]) == multiset(a) - multiset{a[l]};
      CountPermutation(a[..l], rest, i);
      CountConcat(b[..j], b[j + 1..], i);
      CountConcat(b[..j], [b[j]], i);
      CountConcat(b[..j] + [b[j]], b[j + 1..], i);
    }
  }

  lemma {:induction false} CountLeading(s: seq<nat>, q: nat, i: nat)
    requires q <= |s|
    ensures (forall k :: 0 <= k < q ==> s[k] >= i) ==> CountReaching(s, i) >= q
    ensures (forall k :: q <= k < |s| ==> s[k] < i) ==> CountReaching(s, i) <= q
  {
    if s != [] {
      var l := |s| - 1;
      CountLeading(s[..l], if q <= l then q else l, i);
    }
  }

  lemma {:induction false} CountAtRank(sorted: seq<nat>, q: nat, i: nat)
    requires Descending(sorted) && 1 <= q <= |sorted|
    ensures CountReaching(sorted, i) >= q <==> i <= sorted[q - 1]
  {
    CountLeading(sorted, if i <= sorted[q - 1] then q else q - 1, i);
  }

  /** Whatever sort is used, the element at position `q - 1` of the descending order is the greatest
      index that at least `q` members have reached. */
  lemma CommitSelection(matched: seq<nat>, sorted: seq<nat>, q: nat)
    requires Descending(sorted) && multiset(sorted) == multiset(matched)
    requires 1 <= q <= |sorted|
    ensures forall i: nat :: |Reaching(matched, i)| >= q <==> i <= sorted[q - 1]
  {
    forall i: nat
      ensures |Reaching(matched, i)| >= q <==> i <= sorted[q - 1]
    {
      CountPermutation(matched, sorted, i);
      CountIsSize(matched, i);
      CountAtRank(sorted, q, i);
    }
  }

  lemma SameSize<T>(a: seq<T>, b: seq<T>)
    requires multiset(a) == multiset(b)
    ensures |a| == |b|
  {
    assert |multiset(a)| == |a| && |multiset(b)| == |b|;
  }
}
