/** nextPerm and getAlgoString of BRMerkleBlock.c: the hash functions of a block, as a numbered permutation. */
module Permutation {
  import opened Words

  // ---------- the rank of an arrangement ----------

  function Factorial(n: nat): (f: nat)
    ensures f > 0
  {
    if n == 0 then 1 else n * Factorial(n - 1)
  }

  ghost predicate Distinct(s: seq<int>) {
    forall i, j :: 0 <= i < j < |s| ==> s[i] != s[j]
  }

  function Elements(s: seq<int>): set<int> {
    set x | x in s
  }

  function Below(s: set<int>, x: int): set<int> {
    set y | y in s && y < x
  }

  /** How many arrangements of the same elements come before s in lexicographic order. */
  function Rank(s: seq<int>): nat {
    if s == [] then 0
    else |Below(Elements(s[1..]), s[0])| * Factorial(|s| - 1) + Rank(s[1..])
  }

  ghost predicate LexicographicallyLess(s: seq<int>, t: seq<int>)
    requires |s| == |t|
  {
    s != [] && (s[0] < t[0] || (s[0] == t[0] && LexicographicallyLess(s[1..], t[1..])))
  }

  lemma {:induction false} ElementCount(s: seq<int>)
    requires Distinct(s)
    ensures |Elements(s)| == |s|
  {
    if s != [] {
      assert Distinct(s[1..]);
      ElementCount(s[1..]);
      assert Elements(s) == Elements(s[1..]) + {s[0]};
      assert s[0] !in s[1..];
    }
  }

  lemma SubsetCount(a: set<int>, b: set<int>)
    requires a <= b
    ensures |a| <= |b|
  {
    assert b == a + (b - a);
    assert |b| == |a| + |b - a|;
  }

  lemma BelowCount(s: seq<int>)
    requires s != [] && Distinct(s)
    ensures |Below(Elements(s[1..]), s[0])| < |s|
  {
    assert Distinct(s[1..]);
    ElementCount(s[1..]);
    SubsetCount(Below(Elements(s[1..]), s[0]), Elements(s[1..]));
  }

  lemma {:induction false} RankBound(s: seq<int>)
    requires Distinct(s)
    ensures Rank(s) < Factorial(|s|)
  {
    if s != [] {
      assert Distinct(s[1..]);
      RankBound(s[1..]);
      BelowCount(s);
      CountTimes(|Below(Elements(s[1..]), s[0])|, |s|, Factorial(|s| - 1));
    }
  }

  lemma CountTimes(c: nat, n: nat, f: nat)
    requires c < n
    ensures c * f + f <= n * f
  {
    assert (c + 1) * f <= n * f;
  }

  /** The elements behind the first, for two arrangements of the same elements that start alike. */
  lemma SameTail(s: seq<int>, t: seq<int>)
    requires s != [] && |s| == |t| && Distinct(s) && Distinct(t) && Elements(s) == Elements(t) && s[0] == t[0]
    ensures Elements(s[1..]) == Elements(t[1..])
  {
    assert forall x :: x in s[1..] ==> x in Elements(s) && x != s[0];
    assert forall x :: x in t[1..] ==> x in Elements(t) && x != t[0];
    assert forall x :: x in Elements(s) && x != s[0] ==> x in s[1..];
    assert forall x :: x in Elements(t) && x != t[0] ==> x in t[1..];
  }

  /** A smaller first element has strictly fewer elements below it among the others. */
  lemma FewerBelow(s: seq<int>, t: seq<int>)
    requires s != [] && |s| == |t| && Distinct(s) && Distinct(t) && Elements(s) == Elements(t) && s[0] < t[0]
    ensures |Below(Elements(s[1..]), s[0])| < |Below(Elements(t[1..]), t[0])|
  {
    var a, b := Below(Elements(s[1..]), s[0]), Below(Elements(t[1..]), t[0]);
    assert s[0] in Elements(s) && s[0] in Elements(t) && s[0] in t[1..];
    forall x | x in a
      ensures x in b && x != s[0]
    {
      assert x in Elements(s) && x in Elements(t);
      assert x != t[0];
    }
    SubsetCount(a + {s[0]}, b);
  }

  lemma RankLess(c: nat, d: nat, f: nat, x: nat, y: nat)
    requires c < d && x < f
    ensures c * f + x < d * f + y
  {
    CountTimes(c, d, f);
  }

  lemma {:induction false} LessMeansLowerRank(s: seq<int>, t: seq<int>)
    requires |s| == |t| && Distinct(s) && Distinct(t) && Elements(s) == Elements(t)
    requires LexicographicallyLess(s, t)
    ensures Rank(s) < Rank(t)
  {
    var c, d := |Below(Elements(s[1..]), s[0])|, |Below(Elements(t[1..]), t[0])|;
    assert Distinct(s[1..]) && Distinct(t[1..]);
    if s[0] < t[0] {
      FewerBelow(s, t);
      RankBound(s[1..]);
      RankLess(c, d, Factorial(|s| - 1), Rank(s[1..]), Rank(t[1..]));
    } else {
      SameTail(s, t);
      LessMeansLowerRank(s[1..], t[1..]);
    }
  }

  lemma {:induction false} Trichotomy(s: seq<int>, t: seq<int>)
    requires |s| == |t|
    ensures s == t || LexicographicallyLess(s, t) || LexicographicallyLess(t, s)
  {
    if s != [] {
      Trichotomy(s[1..], t[1..]);
      assert s == [s[0]] + s[1..] && t == [t[0]] + t[1..];
    }
  }

  /** Ranks order the arrangements of the same elements lexicographically, and tell them apart. */
  lemma RankOrders(s: seq<int>, t: seq<int>)
    requires |s| == |t| && Distinct(s) && Distinct(t) && Elements(s) == Elements(t)
    ensures Rank(s) < Rank(t) <==> LexicographicallyLess(s, t)
    ensures Rank(s) == Rank(t) <==> s == t
  {
    Trichotomy(s, t);
    if LexicographicallyLess(s, t) {
      LessMeansLowerRank(s, t);
    }
    if LexicographicallyLess(t, s) {
      LessMeansLowerRank(t, s);
    }
  }

  // ---------- the next arrangement ----------

  ghost predicate Falling(s: seq<int>) {
    forall k :: 0 <= k < |s| - 1 ==> s[k] >= s[k + 1]
  }

  lemma {:induction false} FirstIsGreatest(s: seq<int>, k: nat)
    requires Falling(s) && k < |s|
    ensures s[0] >= s[k]
  {
    if k > 0 {
      FirstIsGreatest(s, k - 1);
      assert s[k - 1] >= s[k - 1 + 1];
    }
  }

  lemma RankStep(x: int, t: seq<int>)
    ensures Rank([x] + t) == |Below(Elements(t), x)| * Factorial(|t|) + Rank(t)
  {
    hide Elements;
    hide Below;
    hide Factorial;
    assert ([x] + t)[1..] == t;
  }

  lemma FactorialStep(n: nat)
    ensures n * Factorial(n) + Factorial(n) == Factorial(n + 1)
  {
    assert Factorial(n + 1) == (n + 1) * Factorial(n);
  }

  lemma DistinctPart(s: seq<int>, i: nat)
    requires i <= |s| && Distinct(s)
    ensures Distinct(s[i..])
  {
  }

  lemma DistinctFirst(x: int, t: seq<int>)
    requires Distinct([x] + t)
    ensures Distinct(t) && x !in t
  {
    DistinctPart([x] + t, 1);
    assert ([x] + t)[1..] == t;
    forall k | 0 <= k < |t|
      ensures t[k] != x
    {
      assert ([x] + t)[0] != ([x] + t)[k + 1];
    }
  }

  lemma FallingTail(s: seq<int>)
    requires s != [] && Falling(s)
    ensures Falling(s[1..])
  {
    var t := s[1..];
    forall k | 0 <= k < |t| - 1
      ensures t[k] >= t[k + 1]
    {
      assert s[k + 1] >= s[k + 1 + 1];
    }
  }

  lemma GreatestInFront(x: int, t: seq<int>)
    requires Distinct([x] + t) && Falling([x] + t)
    ensures Below(Elements(t), x) == Elements(t)
  {
    DistinctFirst(x, t);
    forall y | y in Elements(t)
      ensures y < x
    {
      var k :| 0 <= k < |t| && t[k] == y;
      FirstIsGreatest([x] + t, k + 1);
    }
  }

  /** A falling arrangement is the last one. */
  lemma {:induction false} FallingRank(s: seq<int>)
    requires Distinct(s) && Falling(s)
    ensures Rank(s) == Factorial(|s|) - 1
  {
    if s != [] {
      hide Rank;
      hide Factorial;
      hide Elements;
      hide Below;
      var x, t := s[0], s[1..];
      assert s == [x] + t;
      DistinctPart(s, 1);
      FallingTail(s);
      FallingRank(t);
      GreatestInFront(x, t);
      ElementCount(t);
      RankStep(x, t);
      FactorialStep(|t|);
    }
  }

  function Reversed(s: seq<int>): (r: seq<int>)
    ensures |r| == |s|
  {
    seq(|s|, i requires 0 <= i < |s| => s[|s| - 1 - i])
  }

  lemma {:induction false} ReversedElements(s: seq<int>)
    ensures multiset(Reversed(s)) == multiset(s)
  {
    if s != [] {
      ReversedElements(s[1..]);
      assert Reversed(s) == Reversed(s[1..]) + [s[0]];
      assert s == [s[0]] + s[1..];
    }
  }

  lemma LeastInFront(s: seq<int>, t: seq<int>, x: int)
    requires Falling(s) && s == t + [x]
    ensures Below(Elements(Reversed(t)), x) == {} && Reversed(s) == [x] + Reversed(t)
  {
    forall y | y in Elements(Reversed(t))
      ensures y >= x
    {
      var k :| 0 <= k < |t| && Reversed(t)[k] == y;
      LastIsLeast(s, |t| - 1 - k);
    }
  }

  lemma FallingPrefix(s: seq<int>, n: nat)
    requires n <= |s| && Falling(s)
    ensures Falling(s[..n])
  {
  }

  /** Turned around, a falling arrangement is the first one. */
  lemma {:induction false} RisingRank(s: seq<int>)
    requires Falling(s)
    ensures Rank(Reversed(s)) == 0
    decreases |s|
  {
    if s != [] {
      hide Rank;
      hide Elements;
      hide Below;
      hide Falling;
      var n := |s| - 1;
      var x, t := s[n], s[..n];
      assert s == t + [x];
      FallingPrefix(s, n);
      RisingRank(t);
      LeastInFront(s, t, x);
      RankStep(x, Reversed(t));
    }
  }

  lemma {:induction false} LastIsLeast(s: seq<int>, k: nat)
    requires Falling(s) && k < |s|
    ensures s[k] >= s[|s| - 1]
    decreases |s| - k
  {
    if k < |s| - 1 {
      LastIsLeast(s, k + 1);
      assert s[k] >= s[k + 1];
    }
  }

  /** The arrangement after [x] + d, when d is falling and its last element above x is the one at j. */
  function Successor(x: int, d: seq<int>, j: nat): seq<int>
    requires j < |d|
  {
    [d[j]] + Reversed(d[j := x])
  }

  ghost predicate LastAbove(x: int, d: seq<int>, j: nat) {
    j < |d| && x < d[j] && forall k :: j < k < |d| ==> d[k] <= x
  }

  lemma SwappedStaysFalling(x: int, d: seq<int>, j: nat)
    requires Falling(d) && LastAbove(x, d, j)
    ensures Falling(d[j := x])
  {
    var e := d[j := x];
    forall k | 0 <= k < |e| - 1
      ensures e[k] >= e[k + 1]
    {
      assert d[k] >= d[k + 1];
    }
  }

  /** The elements of d below x, and below the pivot's successor, are the ones behind j. */
  lemma AroundPivot(x: int, d: seq<int>, j: nat, k: nat)
    requires Distinct([x] + d) && Falling(d) && LastAbove(x, d, j) && k < |d|
    ensures d[k] < x <==> k > j
    ensures k != j ==> (d[k] < d[j] <==> k > j)
  {
    var u := [x] + d;
    assert u[0] != u[k + 1];
    if k <= j {
      FallsTo(d, k, j);
    }
    if k < j {
      assert u[k + 1] != u[j + 1];
    }
  }

  lemma BelowPivot(x: int, d: seq<int>, j: nat)
    requires Distinct([x] + d) && Falling(d) && LastAbove(x, d, j)
    ensures Below(Elements(d), x) == Elements(d[j + 1..])
  {
    hide Distinct;
    hide Falling;
    hide LastAbove;
    assert j < |d| by { PivotInside(x, d, j); }
    forall k | 0 <= k < |d|
      ensures d[k] < x <==> k > j
    {
      AroundPivot(x, d, j, k);
    }
    assert forall k :: j < k < |d| ==> d[k] in d[j + 1..];
  }

  lemma PivotInside(x: int, d: seq<int>, j: nat)
    requires LastAbove(x, d, j)
    ensures j < |d| && x < d[j]
  {
  }

  lemma BelowSuccessor(x: int, d: seq<int>, j: nat)
    requires Distinct([x] + d) && Falling(d) && LastAbove(x, d, j)
    ensures Below(Elements(Reversed(d[j := x])), d[j]) == Elements(d[j + 1..]) + {x}
  {
    hide Distinct;
    hide Falling;
    hide LastAbove;
    PivotInside(x, d, j);
    var e := d[j := x];
    ReversedElements(e);
    SameElements(Reversed(e), e);
    forall k | 0 <= k < |d| && k != j
      ensures d[k] < d[j] <==> k > j
    {
      AroundPivot(x, d, j, k);
    }
    BelowInUpdated(x, d, j);
  }

  lemma BelowInUpdated(x: int, d: seq<int>, j: nat)
    requires j < |d| && x < d[j] && forall k :: 0 <= k < |d| && k != j ==> (d[k] < d[j] <==> k > j)
    ensures Below(Elements(d[j := x]), d[j]) == Elements(d[j + 1..]) + {x}
  {
    var e, after := d[j := x], d[j + 1..];
    forall y | y in Below(Elements(e), d[j])
      ensures y in Elements(after) + {x}
    {
      var k :| 0 <= k < |e| && e[k] == y;
      assert k > j ==> after[k - j - 1] == y;
    }
    forall y | y in after
      ensures y in Below(Elements(e), d[j])
    {
      var k :| 0 <= k < |after| && after[k] == y;
      assert e[j + 1 + k] == y && d[j + 1 + k] == y;
    }
    assert e[j] == x;
  }

  lemma {:induction false} FallsTo(d: seq<int>, k: nat, j: nat)
    requires Falling(d) && k <= j < |d|
    ensures d[k] >= d[j]
    decreases j - k
  {
    if k < j {
      FallsTo(d, k + 1, j);
      assert d[k] >= d[k + 1];
    }
  }

  lemma SuccessorRank(x: int, d: seq<int>, j: nat)
    requires Distinct([x] + d) && Falling(d) && LastAbove(x, d, j)
    ensures Rank(Successor(x, d, j)) == Rank([x] + d) + 1
  {
    hide Rank;
    hide Factorial;
    hide Elements;
    hide Below;
    hide Falling;
    hide Reversed;
    var e, after := Reversed(d[j := x]), d[j + 1..];
    DistinctFirst(x, d);
    FallingRank(d);
    SwappedStaysFalling(x, d, j);
    RisingRank(d[j := x]);
    BelowPivot(x, d, j);
    BelowSuccessor(x, d, j);
    DistinctPart(d, j + 1);
    ElementCount(after);
    OneMore(after, x);
    RankStep(x, d);
    RankStep(d[j], e);
    assert |e| == |d|;
    OneTimesMore(|after|, Factorial(|d|));
  }

  lemma OneMore(s: seq<int>, x: int)
    requires x !in s
    ensures |Elements(s) + {x}| == |Elements(s)| + 1
  {
  }

  lemma OneTimesMore(c: nat, f: nat)
    ensures (c + 1) * f == c * f + f
  {
  }

  /** What stands in front of two arrangements of the same elements does not change the distance of their ranks. */
  lemma {:induction false} PrefixRank(p: seq<int>, u: seq<int>, v: seq<int>)
    requires |u| == |v| && Elements(u) == Elements(v)
    ensures Rank(p + v) - Rank(p + u) == Rank(v) - Rank(u)
  {
    if p == [] {
      assert p + u == u && p + v == v;
    } else {
      PrefixRank(p[1..], u, v);
      assert (p + u)[1..] == p[1..] + u && (p + v)[1..] == p[1..] + v;
      assert Elements(p[1..] + u) == Elements(p[1..]) + Elements(u);
      assert Elements(p[1..] + v) == Elements(p[1..]) + Elements(v);
    }
  }

  lemma SuccessorElements(x: int, d: seq<int>, j: nat)
    requires j < |d|
    ensures multiset(Successor(x, d, j)) == multiset([x] + d)
  {
    ReversedElements(d[j := x]);
    assert multiset(d[j := x]) == multiset(d) - multiset{d[j]} + multiset{x};
    assert d[j] in multiset(d);
  }

  lemma SameElements(u: seq<int>, v: seq<int>)
    requires multiset(u) == multiset(v)
    ensures Elements(u) == Elements(v)
  {
    assert forall x :: x in u <==> x in multiset(u);
    assert forall x :: x in v <==> x in multiset(v);
  }

  /** The arrangement behind s, when it falls from tail on and the element before that is the pivot. */
  lemma NextRank(s: seq<int>, tail: nat, j: nat)
    requires 0 < tail < |s| && Distinct(s)
    requires Falling(s[tail..]) && LastAbove(s[tail - 1], s[tail..], j)
    ensures Rank(s[..tail - 1] + Successor(s[tail - 1], s[tail..], j)) == Rank(s) + 1
  {
    hide Rank;
    hide Elements;
    hide Falling;
    var p, x, d := s[..tail - 1], s[tail - 1], s[tail..];
    assert s == p + ([x] + d);
    DistinctPart(s, tail - 1);
    assert [x] + d == s[tail - 1..];
    SuccessorRank(x, d, j);
    SuccessorElements(x, d, j);
    SameElements(Successor(x, d, j), [x] + d);
    PrefixRank(p, [x] + d, Successor(x, d, j));
  }

  // ---------- nextPerm ----------

  /** The last position from which the elements fall to the end. */
  method FindTail(n: array<byte>) returns (tail: nat)
    requires n.Length > 0
    ensures tail < n.Length && Falling(n[tail..])
    ensures tail > 0 ==> n[tail - 1] < n[tail]
  {
    tail := n.Length - 1;
    while tail > 0 && n[tail - 1] >= n[tail]
      invariant tail < n.Length && forall k :: tail <= k < n.Length - 1 ==> n[k] >= n[k + 1]
    {
      tail := tail - 1;
    }
  }

  /** The last element behind the pivot that is above it. */
  method FindAbove(n: array<byte>, tail: nat) returns (j: nat)
    requires 0 < tail < n.Length && n[tail - 1] < n[tail]
    ensures tail <= j < n.Length && LastAbove(n[tail - 1], n[tail..], j - tail)
  {
    j := n.Length - 1;
    while j > tail && n[j] <= n[tail - 1]
      invariant tail <= j < n.Length && forall k :: j < k < n.Length ==> n[k] <= n[tail - 1]
    {
      j := j - 1;
    }
  }

  method Swap(n: array<byte>, a: nat, b: nat)
    requires a < n.Length && b < n.Length
    modifies n
    ensures n[..] == old(n[..])[a := old(n[b])][b := old(n[a])]
  {
    var t := n[a];
    n[a] := n[b];
    n[b] := t;
  }

  method ReverseFrom(n: array<byte>, tail: nat)
    requires tail < n.Length
    modifies n
    ensures n[..] == old(n[..tail]) + Reversed(old(n[tail..]))
  {
    var i, j := tail, n.Length - 1;
    while i < j
      invariant tail <= i && i + j == tail + n.Length - 1 && i <= j + 1
      invariant forall k :: 0 <= k < tail || i <= k <= j ==> n[k] == old(n[k])
      invariant forall k :: tail <= k < i || j < k < n.Length ==> n[k] == old(n[tail + n.Length - 1 - k])
    {
      Swap(n, i, j);
      i, j := i + 1, j - 1;
    }
  }

  /** The rank one higher, around the corner from the last to the first. */
  ghost predicate NextInOrder(was: seq<int>, now: seq<int>, more: bool) {
    && |now| == |was| && multiset(now) == multiset(was)
    && (Distinct(was) ==> Rank(now) == (Rank(was) + 1) % Factorial(|was|) && (more <==> Rank(was) + 1 < Factorial(|was|)))
  }

  lemma NextInOrderByPivot(was: seq<int>, now: seq<int>, tail: nat, j: nat)
    requires 0 < tail < |was| && Falling(was[tail..]) && LastAbove(was[tail - 1], was[tail..], j)
    requires now == was[..tail - 1] + Successor(was[tail - 1], was[tail..], j)
    ensures NextInOrder(was, now, true)
  {
    hide Rank;
    hide Falling;
    hide Factorial;
    hide Distinct;
    var p, x, d := was[..tail - 1], was[tail - 1], was[tail..];
    assert was == p + ([x] + d);
    SuccessorElements(x, d, j);
    if Distinct(was) {
      NextRank(was, tail, j);
      DistinctMultiset(was, now);
      RankBound(now);
    }
  }

  lemma DistinctMultiset(was: seq<int>, now: seq<int>)
    requires |was| == |now| && multiset(was) == multiset(now) && Distinct(was)
    ensures Distinct(now)
  {
    forall i, j | 0 <= i < j < |now|
      ensures now[i] != now[j]
    {
      AtMostOnce(was, now[i]);
      if now[i] == now[j] {
        TwiceCounted(now, i, j);
        assert false;
      }
    }
  }

  lemma {:induction false} AtMostOnce(s: seq<int>, x: int)
    requires Distinct(s)
    ensures multiset(s)[x] <= 1
  {
    if s != [] {
      var t := s[1..];
      assert s == [s[0]] + t;
      DistinctFirst(s[0], t);
      AtMostOnce(t, x);
      assert s[0] !in multiset(t);
    }
  }

  lemma TwiceCounted(s: seq<int>, i: nat, j: nat)
    requires i < j < |s| && s[i] == s[j]
    ensures multiset(s)[s[i]] >= 2
  {
    assert s == s[..j] + s[j..];
    assert s[i] in s[..j] && s[j] in s[j..];
    assert s[i] in multiset(s[..j]) && s[j] in multiset(s[j..]);
  }

  lemma NextInOrderAtEnd(was: seq<int>)
    requires Falling(was)
    ensures NextInOrder(was, Reversed(was), false)
  {
    hide Rank;
    hide Falling;
    hide Factorial;
    hide Reversed;
    ReversedElements(was);
    if Distinct(was) {
      FallingRank(was);
      RisingRank(was);
      OneRound(Factorial(|was|));
    }
  }

  lemma OneRound(f: nat)
    requires f > 0
    ensures f % f == 0
  {
  }

  lemma SwappedTail(s: seq<byte>, tail: nat, j: nat)
    requires 0 < tail <= j < |s|
    ensures var t := s[tail - 1 := s[j]][j := s[tail - 1]];
            t[..tail] == s[..tail - 1] + [s[j]] && t[tail..] == s[tail..][j - tail := s[tail - 1]]
  {
  }

  /** nextPerm: the lexicographically next arrangement in place, or the first one after the last. */
  method NextPerm(n: array<byte>) returns (more: bool)
    modifies n
    ensures NextInOrder(old(n[..]), n[..], more)
  {
    hide NextInOrder;
    hide Falling;
    hide LastAbove;
    hide Reversed;
    ghost var was := n[..];
    if n.Length <= 1 {
      NothingToOrder(was);
      return false;
    }
    var tail := FindTail(n);
    if tail > 0 {
      var j := FindAbove(n, tail);
      assert j - tail < |was[tail..]|;
      SwappedTail(was, tail, j);
      Swap(n, tail - 1, j);
      ghost var now := n[..];
      assert n[..tail] == now[..tail] && n[tail..] == now[tail..];
      ReverseFrom(n, tail);
      assert n[..] == was[..tail - 1] + Successor(was[tail - 1], was[tail..], j - tail);
      NextInOrderByPivot(was, n[..], tail, j - tail);
    } else {
      assert was[0..] == was && n[tail..] == was;
      ReverseFrom(n, tail);
      assert n[..] == Reversed(was);
      NextInOrderAtEnd(was);
    }
    more := tail != 0;
  }

  lemma NothingToOrder(s: seq<int>)
    requires |s| <= 1
    ensures NextInOrder(s, s, false)
  {
    if s != [] {
      assert s == [s[0]] + [];
      RankStep(s[0], []);
    }
  }

  // ---------- getAlgoString ----------

  const HASH_FUNC_COUNT: nat := 10
  const HASH_FUNC_COUNT_PERMUTATIONS: nat := 40320
  const HASH_FUNC_BASE_TIMESTAMP: nat := 1492973331

  /** An arrangement of the ten hash functions. */
  ghost predicate IsOrder(s: seq<int>) {
    |s| == HASH_FUNC_COUNT && Distinct(s) && forall x :: x in Elements(s) <==> 0 <= x < HASH_FUNC_COUNT
  }

  /** The character of an element: a digit, or a letter from the eleventh on. */
  function Letter(x: byte): char {
    if x >= 10 then ('A' as int + (x - 10)) as char else ('0' as int + x) as char
  }

  /** initPerm, for as many elements as fit into bytes */
  method InitPerm(n: array<byte>)
    requires n.Length <= 0x100
    modifies n
    ensures Distinct(n[..]) && (forall x :: x in Elements(n[..]) <==> 0 <= x < n.Length) && Rank(n[..]) == 0
  {
    hide Rank;
    for i := 0 to n.Length
      invariant forall k :: 0 <= k < i ==> n[k] == k
    {
      n[i] := i;
    }
    FirstOrder(n[..]);
  }

  lemma FirstOrder(s: seq<int>)
    requires forall k :: 0 <= k < |s| ==> s[k] == k
    ensures Distinct(s) && (forall x :: x in Elements(s) <==> 0 <= x < |s|) && Rank(s) == 0
  {
    hide Rank;
    assert s == Reversed(Reversed(s));
    RisingRank(Reversed(s));
    forall x | 0 <= x < |s|
      ensures x in s
    {
      assert s[x] == x;
    }
  }

  lemma NextOrder(was: seq<int>, now: seq<int>, more: bool, k: nat)
    requires IsOrder(was) && NextInOrder(was, now, more) && Rank(was) == k % Factorial(HASH_FUNC_COUNT)
    ensures IsOrder(now) && Rank(now) == (k + 1) % Factorial(HASH_FUNC_COUNT)
  {
    hide Rank;
    hide Factorial;
    DistinctMultiset(was, now);
    SameElements(was, now);
    ModNext(k, Factorial(HASH_FUNC_COUNT));
  }

  lemma ModNext(k: nat, f: nat)
    requires f > 0
    ensures (k % f + 1) % f == (k + 1) % f
  {
    ModPlusMultiple(k % f + 1, f, k / f);
    assert k + 1 == (k % f + 1) + f * (k / f);
  }

  lemma {:induction false} FactorialFits(n: nat)
    ensures Factorial(n) <= Factorial(n + 1)
  {
    FactorialStep(n);
    assert n * Factorial(n) >= 0;
  }

  lemma Eight()
    ensures Factorial(8) == HASH_FUNC_COUNT_PERMUTATIONS
  {
  }

  lemma NoneBelow(c: nat, f: nat, rest: nat)
    requires c * f + rest < f
    ensures c == 0
  {
  }

  /** A rank below (n-1)! leaves the least element in front. */
  lemma LeastFirst(s: seq<int>, x: int)
    requires s != [] && Rank(s) < Factorial(|s| - 1) && x in s && forall y :: y in s ==> x <= y
    ensures s[0] == x && Rank(s[1..]) == Rank(s)
  {
    hide Factorial;
    var t := s[1..];
    assert s == [s[0]] + t;
    var y := s[0];
    assert y in s && x <= y && (x in t || x == y);
    assert x in t && x < y ==> x in Below(Elements(t), y);
    RankStep(y, t);
    NoneBelow(|Below(Elements(t), y)|, Factorial(|t|), Rank(t));
    assert |Below(Elements(t), y)| == 0;
  }

  /** The first 8! orders start with the first two functions. */
  lemma StartsWithTwo(s: seq<int>)
    requires IsOrder(s) && Rank(s) < HASH_FUNC_COUNT_PERMUTATIONS
    ensures s[0] == 0 && s[1] == 1
  {
    hide Rank;
    hide Factorial;
    Eight();
    FactorialFits(8);
    assert forall y :: y in s ==> y in Elements(s);
    assert 0 in Elements(s) && 1 in Elements(s);
    LeastFirst(s, 0);
    var t := s[1..];
    assert s == [0] + t;
    DistinctFirst(0, t);
    assert forall y :: y in t ==> y in s && y != 0;
    assert 1 in s;
    LeastFirst(t, 1);
  }

  /** The text that str holds for an order. */
  ghost predicate Spells(str: seq<char>, order: seq<byte>) {
    && |order| == HASH_FUNC_COUNT < |str| && str[HASH_FUNC_COUNT] == '\0'
    && forall j :: 0 <= j < HASH_FUNC_COUNT ==> str[j] == Letter(order[j])
  }

  /** getAlgoString: the order whose rank is count, counting around after 10! of them. */
  method GetAlgoString(str: array<char>, count: nat) returns (ghost order: seq<byte>)
    requires str.Length > HASH_FUNC_COUNT
    modifies str
    ensures IsOrder(order) && Rank(order) == count % Factorial(HASH_FUNC_COUNT) && Spells(str[..], order)
    ensures count < HASH_FUNC_COUNT_PERMUTATIONS ==> str[0] == '0' && str[1] == '1'
  {
    hide Rank;
    hide Factorial;
    hide NextInOrder;
    hide IsOrder;
    var algoList := new byte[HASH_FUNC_COUNT];
    InitPerm(algoList);
    OrderOfAll(algoList[..]);
    FirstCount(Factorial(HASH_FUNC_COUNT));
    for k := 0 to count
      invariant IsOrder(algoList[..]) && Rank(algoList[..]) == k % Factorial(HASH_FUNC_COUNT)
    {
      ghost var was := algoList[..];
      var more := NextPerm(algoList);
      NextOrder(was, algoList[..], more, k);
    }
    order := algoList[..];
    for j := 0 to HASH_FUNC_COUNT
      invariant algoList[..] == order && forall k :: 0 <= k < j ==> str[k] == Letter(order[k])
    {
      str[j] := Letter(algoList[j]);
    }
    str[HASH_FUNC_COUNT] := '\0';
    if count < HASH_FUNC_COUNT_PERMUTATIONS {
      SmallCount(count);
      StartsWithTwo(order);
    }
  }

  lemma OrderOfAll(s: seq<int>)
    requires |s| == HASH_FUNC_COUNT && Distinct(s) && forall x :: x in Elements(s) <==> 0 <= x < |s|
    ensures IsOrder(s)
  {
  }

  lemma FirstCount(f: nat)
    requires f > 0
    ensures 0 % f == 0
  {
  }

  lemma SmallCount(count: nat)
    requires count < HASH_FUNC_COUNT_PERMUTATIONS
    ensures count % Factorial(HASH_FUNC_COUNT) == count
  {
    hide Factorial;
    Eight();
    FactorialFits(8);
    FactorialFits(9);
  }

  /** getCurrentAlgoSeq: the seconds since the first block, in 32 bits, counted around at 8!. */
  function CurrentAlgoSeq(ntime: u32): (count: nat)
    ensures count < HASH_FUNC_COUNT_PERMUTATIONS
  {
    (ntime - HASH_FUNC_BASE_TIMESTAMP) % W32 % HASH_FUNC_COUNT_PERMUTATIONS
  }

  lemma SecondsSince(ntime: u32)
    ensures CurrentAlgoSeq(ntime) == (ntime - 1492973331) % 0x1_0000_0000 % 40320
  {
  }

  /** Ten functions take no letters. */
  lemma SpelledInDigits(str: seq<char>, order: seq<byte>)
    requires IsOrder(order) && Spells(str, order)
    ensures str[10] == '\0' && forall j :: 0 <= j < 10 ==> str[j] as int == '0' as int + order[j]
  {
    forall j | 0 <= j < 10
      ensures order[j] < 10
    {
      assert order[j] in Elements(order);
    }
  }

  /** get_travel_order: at every time the first two functions come first. */
  method GetTravelOrder(ntime: u32, permstr: array<char>) returns (ghost order: seq<byte>)
    requires permstr.Length > HASH_FUNC_COUNT
    modifies permstr
    ensures IsOrder(order) && Rank(order) == (ntime - 1492973331) % 0x1_0000_0000 % 40320
    ensures permstr[10] == '\0' && forall j :: 0 <= j < 10 ==> permstr[j] as int == '0' as int + order[j]
    ensures permstr[0] == '0' && permstr[1] == '1'
  {
    hide Rank;
    hide Factorial;
    hide IsOrder;
    hide CurrentAlgoSeq;
    var count := CurrentAlgoSeq(ntime);
    SmallCount(count);
    order := GetAlgoString(permstr, count);
    SecondsSince(ntime);
    SpelledInDigits(permstr[..], order);
  }
}
