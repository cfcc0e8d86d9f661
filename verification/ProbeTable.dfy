/**
 The bucket arrays of Modules/core/BRSet.c, seen as sequences.  A bucket is empty or holds an item;
 an item is looked for from its home bucket forward, cyclically, until it or an empty bucket is met.
 */
module ProbeTable {
  import opened Wrappers

  /** The two callbacks a set is created with. */
  datatype Keying<!T> = Keying(hash: T -> nat, eq: (T, T) -> bool)

  /** What BRSet.h asks of the callbacks: eq is an equivalence and equal items have equal hashes. */
  ghost predicate Lawful<T(!new)>(k: Keying<T>) {
    && (forall x :: k.eq(x, x))
    && (forall x, y :: k.eq(x, y) ==> k.eq(y, x) && k.hash(x) == k.hash(y))
    && (forall x, y, z :: k.eq(x, y) && k.eq(y, z) ==> k.eq(x, z))
  }

  function Home<T>(k: Keying<T>, n: nat, x: T): (h: nat)
    requires n > 0
    ensures h < n
  {
    k.hash(x) % n
  }

  /** How many steps forward bucket j lies from bucket i, in a cycle of n buckets. */
  function Dist(n: nat, i: nat, j: nat): (d: nat)
    requires i < n && j < n
  {
    if i <= j then j - i else n - i + j
  }

  function Next(n: nat, i: nat): (j: nat)
    requires i < n
    ensures j == if i + 1 == n then 0 else i + 1
  {
    (i + 1) % n
  }

  /** The item in bucket p is found by walking from its home: no empty bucket on the way. */
  ghost predicate Reachable<T>(k: Keying<T>, s: seq<Option<T>>, p: nat)
    requires p < |s| && s[p].Some?
  {
    var h := Home(k, |s|, s[p].value);
    forall q :: 0 <= q < |s| && Dist(|s|, h, q) <= Dist(|s|, h, p) ==> s[q].Some?
  }

  ghost predicate NoHoles<T>(k: Keying<T>, s: seq<Option<T>>) {
    forall p :: 0 <= p < |s| && s[p].Some? ==> Reachable(k, s, p)
  }

  ghost predicate Distinct<T>(k: Keying<T>, s: seq<Option<T>>) {
    forall p, q :: 0 <= p < |s| && 0 <= q < |s| && p != q && s[p].Some? && s[q].Some? ==>
      !k.eq(s[p].value, s[q].value)
  }

  ghost predicate HasRoom<T>(s: seq<Option<T>>) {
    exists e :: 0 <= e < |s| && s[e].None?
  }

  ghost function Items<T>(s: seq<Option<T>>): set<T> {
    set p | 0 <= p < |s| && s[p].Some? :: s[p].value
  }

  function Count<T>(s: seq<Option<T>>): nat {
    if s == [] then 0 else Count(s[..|s| - 1]) + if s[|s| - 1].Some? then 1 else 0
  }

  /** The members of a finite map keyed by eq once the entry for x is dropped. */
  ghost function Without<T>(k: Keying<T>, items: set<T>, x: T): set<T> {
    set y | y in items && !k.eq(y, x)
  }

  // ---------- counting ----------

  lemma {:induction false} CountUpdate<T>(s: seq<Option<T>>, i: nat, v: Option<T>)
    requires i < |s|
    ensures Count(s[i := v]) == Count(s) - (if s[i].Some? then 1 else 0) + (if v.Some? then 1 else 0)
  {
    var u := s[i := v];
    var m := |s| - 1;
    if i == m {
      assert u[..m] == s[..m];
    } else {
      assert u[..m] == s[..m][i := v];
      CountUpdate(s[..m], i, v);
    }
  }

  lemma {:induction false} RoomByCount<T>(s: seq<Option<T>>)
    ensures Count(s) <= |s|
    ensures Count(s) < |s| <==> HasRoom(s)
  {
    if s != [] {
      var m := |s| - 1;
      RoomByCount(s[..m]);
      if HasRoom(s[..m]) {
        var e :| 0 <= e < m && s[..m][e].None?;
        assert s[e].None?;
      }
      if HasRoom(s) && s[m].Some? {
        var e :| 0 <= e < |s| && s[e].None?;
        assert s[..m][e].None?;
      }
    }
  }

  lemma {:induction false} CountIsCardinality<T(!new)>(k: Keying<T>, s: seq<Option<T>>)
    requires Lawful(k) && Distinct(k, s)
    ensures |Items(s)| == Count(s)
  {
    if s == [] {
      assert Items(s) == {};
    } else {
      var m := |s| - 1;
      assert Distinct(k, s[..m]) by {
        forall p, q | 0 <= p < m && 0 <= q < m && p != q && s[..m][p].Some? && s[..m][q].Some?
          ensures !k.eq(s[..m][p].value, s[..m][q].value)
        {
          assert s[..m][p] == s[p] && s[..m][q] == s[q];
        }
      }
      CountIsCardinality(k, s[..m]);
      ItemsSnoc(s);
      if s[m].Some? {
        NotAmongOthers(k, s, s[..m]);
      }
    }
  }

  lemma NotAmongOthers<T(!new)>(k: Keying<T>, s: seq<Option<T>>, r: seq<Option<T>>)
    requires Lawful(k) && Distinct(k, s) && s != [] && s[|s| - 1].Some? && r == s[..|s| - 1]
    ensures s[|s| - 1].value !in Items(r)
  {
    forall p | 0 <= p < |r| && r[p].Some?
      ensures r[p].value != s[|s| - 1].value
    {
      assert !k.eq(s[p].value, s[|s| - 1].value);
    }
  }

  lemma ItemsSnoc<T>(s: seq<Option<T>>)
    requires s != []
    ensures var m := |s| - 1;
            Items(s) == Items(s[..m]) + if s[m].Some? then {s[m].value} else {}
  {
    var m := |s| - 1;
    forall x | x in Items(s)
      ensures x in Items(s[..m]) || (s[m].Some? && x == s[m].value)
    {
      var p :| 0 <= p < |s| && s[p].Some? && s[p].value == x;
      if p < m {
        assert s[..m][p] == s[p];
      }
    }
    forall x | x in Items(s[..m])
      ensures x in Items(s)
    {
      var p :| 0 <= p < m && s[..m][p].Some? && s[..m][p].value == x;
      assert s[p].Some? && s[p].value == x;
    }
  }

  // ---------- probing ----------

  predicate Matches<T(==)>(k: Keying<T>, b: Option<T>, x: T) {
    b.Some? && (b.value == x || k.eq(b.value, x))
  }

  /** Bucket p is where the probe for x stops: empty or holding a match, and nothing before it is either. */
  ghost predicate StopsAt<T>(k: Keying<T>, s: seq<Option<T>>, x: T, p: nat) {
    && p < |s|
    && (s[p].None? || Matches(k, s[p], x))
    && forall q :: 0 <= q < |s| && Dist(|s|, Home(k, |s|, x), q) < Dist(|s|, Home(k, |s|, x), p) ==>
         s[q].Some? && !Matches(k, s[q], x)
  }

  lemma StopExists<T>(k: Keying<T>, s: seq<Option<T>>, x: T)
    requires HasRoom(s)
    ensures exists p :: StopsAt(k, s, x, p)
  {
    var n, h := |s|, Home(k, |s|, x);
    var e :| 0 <= e < n && s[e].None?;
    var i := h;
    while s[i].Some? && !Matches(k, s[i], x)
      invariant 0 <= i < n
      invariant forall q :: 0 <= q < n && Dist(n, h, q) < Dist(n, h, i) ==> s[q].Some? && !Matches(k, s[q], x)
      decreases Dist(n, h, e) - Dist(n, h, i)
    {
      assert Dist(n, h, i) < Dist(n, h, e);
      i := Next(n, i);
    }
    assert StopsAt(k, s, x, i);
  }

  lemma StopUnique<T>(k: Keying<T>, s: seq<Option<T>>, x: T, p: nat, q: nat)
    requires StopsAt(k, s, x, p) && StopsAt(k, s, x, q)
    ensures p == q
  {
    var d := Dist(|s|, Home(k, |s|, x), p);
    assert d == Dist(|s|, Home(k, |s|, x), q);
  }

  ghost function Stop<T>(k: Keying<T>, s: seq<Option<T>>, x: T): (p: nat)
    requires HasRoom(s)
    ensures StopsAt(k, s, x, p)
  {
    StopExists(k, s, x);
    var p :| StopsAt(k, s, x, p);
    p
  }

  /** In a table without holes a probe that meets an empty bucket proves that nothing matches. */
  lemma EmptyStopMeansAbsent<T(!new)>(k: Keying<T>, s: seq<Option<T>>, x: T, p: nat)
    requires Lawful(k) && NoHoles(k, s) && StopsAt(k, s, x, p) && s[p].None?
    ensures forall y :: y in Items(s) ==> !k.eq(y, x)
  {
    forall y | y in Items(s)
      ensures !k.eq(y, x)
    {
      var q :| 0 <= q < |s| && s[q].Some? && s[q].value == y;
      assert Reachable(k, s, q);
      assert k.eq(y, x) ==> Home(k, |s|, y) == Home(k, |s|, x) && Matches(k, s[q], x);
    }
  }

  /** Putting x where its probe stops keeps the table free of holes and of duplicates. */
  lemma PutKeepsTable<T(!new)>(k: Keying<T>, s: seq<Option<T>>, x: T, p: nat)
    requires Lawful(k) && NoHoles(k, s) && Distinct(k, s) && StopsAt(k, s, x, p)
    ensures NoHoles(k, s[p := Some(x)]) && Distinct(k, s[p := Some(x)])
    ensures Items(s[p := Some(x)]) == Without(k, Items(s), x) + {x}
  {
    var u := s[p := Some(x)];
    if s[p].None? {
      EmptyStopMeansAbsent(k, s, x, p);
    }
    forall q | 0 <= q < |u| && u[q].Some?
      ensures Reachable(k, u, q)
    {
      if q != p {
        assert Reachable(k, s, q);
      }
    }
    forall q | 0 <= q < |s| && q != p && s[q].Some?
      ensures !k.eq(s[q].value, x)
    {
      assert s[q].value in Items(s);
      assert s[p].Some? ==> k.eq(x, s[p].value) && !k.eq(s[q].value, s[p].value);
    }
    ItemsAfterPut(k, s, x, p);
  }

  lemma ItemsAfterPut<T(!new)>(k: Keying<T>, s: seq<Option<T>>, x: T, p: nat)
    requires Lawful(k) && p < |s| && (s[p].None? || k.eq(s[p].value, x))
    requires forall q :: 0 <= q < |s| && q != p && s[q].Some? ==> !k.eq(s[q].value, x)
    ensures Items(s[p := Some(x)]) == Without(k, Items(s), x) + {x}
  {
    var u := s[p := Some(x)];
    forall y | y in Items(u)
      ensures y in Without(k, Items(s), x) + {x}
    {
      var q :| 0 <= q < |u| && u[q].Some? && u[q].value == y;
      if q != p {
        assert s[q].value == y;
      }
    }
    assert u[p].value == x;
    forall y | y in Without(k, Items(s), x)
      ensures y in Items(u)
    {
      var q :| 0 <= q < |s| && s[q].Some? && s[q].value == y;
      assert u[q] == s[q];
    }
  }

  lemma ItemsAfterClear<T(!new)>(k: Keying<T>, s: seq<Option<T>>, x: T, p: nat)
    requires Lawful(k) && Distinct(k, s) && p < |s| && s[p].Some? && k.eq(s[p].value, x)
    ensures Items(s[p := None]) == Without(k, Items(s), x)
    ensures Distinct(k, s[p := None])
  {
    var u := s[p := None];
    forall y | y in Items(u)
      ensures y in Without(k, Items(s), x)
    {
      var q :| 0 <= q < |u| && u[q].Some? && u[q].value == y;
      assert s[q].value == y && q != p;
      assert k.eq(x, s[p].value) && !k.eq(s[q].value, s[p].value);
    }
    forall y | y in Without(k, Items(s), x)
      ensures y in Items(u)
    {
      var q :| 0 <= q < |s| && s[q].Some? && s[q].value == y;
      assert u[q] == s[q];
    }
  }

  // ---------- removal ----------

  /** The first empty bucket after d. */
  lemma FirstHole<T>(s: seq<Option<T>>, d: nat) returns (e: nat)
    requires d < |s| && s[d].Some? && HasRoom(s)
    ensures e < |s| && s[e].None?
    ensures forall p :: 0 <= p < |s| && Dist(|s|, d, p) < Dist(|s|, d, e) ==> s[p].Some?
  {
    var n := |s|;
    var f :| 0 <= f < n && s[f].None?;
    e := d;
    while s[e].Some?
      invariant 0 <= e < n
      invariant forall p :: 0 <= p < n && Dist(n, d, p) < Dist(n, d, e) ==> s[p].Some?
      decreases Dist(n, d, f) - Dist(n, d, e)
    {
      assert Dist(n, d, e) < Dist(n, d, f);
      e := Next(n, e);
    }
  }

  /**
   The table s half way through the clean-up that follows emptying bucket d of orig: the rest of the
   cluster runs up to the empty bucket e, and the buckets from i on have not been moved yet.  Only
   those may have a hole on their path.
   */
  ghost predicate Cleaning<T>(k: Keying<T>, orig: seq<Option<T>>, d: nat, e: nat, i: nat, s: seq<Option<T>>) {
    var n := |orig|;
    && |s| == n && d < n && e < n && i < n
    && 0 < Dist(n, d, i) <= Dist(n, d, e)
    && orig[e].None?
    && (forall p :: 0 <= p < n && Dist(n, d, p) < Dist(n, d, e) ==> orig[p].Some?)
    && (forall p :: 0 <= p < n && Dist(n, d, i) <= Dist(n, d, p) ==> s[p] == orig[p])
    && (forall p :: 0 <= p < n && s[p].Some? && !(Dist(n, d, i) <= Dist(n, d, p) <= Dist(n, d, e)) ==>
          Reachable(k, s, p))
    && Distinct(k, s)
  }

  lemma CleaningStarts<T(!new)>(k: Keying<T>, orig: seq<Option<T>>, d: nat, e: nat)
    requires Lawful(k) && NoHoles(k, orig) && Distinct(k, orig)
    requires d < |orig| && orig[d].Some? && e < |orig| && orig[e].None?
    requires forall p :: 0 <= p < |orig| && Dist(|orig|, d, p) < Dist(|orig|, d, e) ==> orig[p].Some?
    ensures Cleaning(k, orig, d, e, Next(|orig|, d), orig[d := None])
  {
    var n, s := |orig|, orig[d := None];
    forall p | 0 <= p < n && s[p].Some? && Dist(n, d, e) < Dist(n, d, p)
      ensures Reachable(k, s, p)
    {
      assert Reachable(k, orig, p);
    }
  }

  /** The clean-up stops at the end of the cluster, and then no path has a hole. */
  lemma CleaningEnds<T>(k: Keying<T>, orig: seq<Option<T>>, d: nat, e: nat, i: nat, s: seq<Option<T>>)
    requires Cleaning(k, orig, d, e, i, s) && s[i].None?
    ensures i == e && NoHoles(k, s)
  {
    assert s[i] == orig[i];
    forall p | 0 <= p < |s| && s[p].Some?
      ensures Reachable(k, s, p)
    {
      assert p != e;
      assert Dist(|s|, d, p) != Dist(|s|, d, e);
    }
  }

  /** The item taken out of bucket i finds an empty bucket no later than its old one. */
  lemma CleaningTarget<T(!new)>(k: Keying<T>, orig: seq<Option<T>>, d: nat, e: nat, i: nat, s: seq<Option<T>>, q: nat)
    requires Lawful(k) && NoHoles(k, orig)
    requires Cleaning(k, orig, d, e, i, s) && s[i].Some?
    requires StopsAt(k, s[i := None], s[i].value, q)
    ensures s[i := None][q].None? && Dist(|s|, d, q) <= Dist(|s|, d, i) < Dist(|s|, d, e)
    ensures forall p :: 0 <= p < |s| && Dist(|s|, Home(k, |s|, s[i].value), p) < Dist(|s|, Home(k, |s|, s[i].value), q) ==>
              p != i && s[p].Some?
  {
    var n, u, h := |s|, s[i := None], Home(k, |s|, s[i].value);
    assert i != e;
    assert forall b :: 0 <= b < n && b != i && s[b].Some? ==> s[b].value != s[i].value && !k.eq(s[b].value, s[i].value);
    assert forall b :: 0 <= b < n ==> !Matches(k, u[b], s[i].value);
    assert Dist(n, h, q) <= Dist(n, h, i);
    assert Reachable(k, orig, i);
    assert orig[q].Some?;
    assert Dist(n, h, i) < Dist(n, h, e);
    assert q == i || s[q] != orig[q];
  }

  /** One round of the clean-up: take the item out of bucket i and add it again. */
  lemma CleaningStep<T(!new)>(k: Keying<T>, orig: seq<Option<T>>, d: nat, e: nat, i: nat, s: seq<Option<T>>, q: nat)
    requires Lawful(k) && NoHoles(k, orig)
    requires Cleaning(k, orig, d, e, i, s) && s[i].Some?
    requires StopsAt(k, s[i := None], s[i].value, q)
    ensures s[i := None][q].None?
    ensures Cleaning(k, orig, d, e, Next(|s|, i), s[i := None][q := s[i]])
    ensures Items(s[i := None][q := s[i]]) == Items(s)
  {
    hide Items;
    hide Distinct;
    hide NoHoles;
    var n, w := |s|, s[i := None][q := s[i]];
    var i' := Next(n, i);
    CleaningTarget(k, orig, d, e, i, s, q);
    assert Dist(n, d, i') == Dist(n, d, i) + 1;
    forall p | 0 <= p < n && w[p].Some? && !(Dist(n, d, i') <= Dist(n, d, p) <= Dist(n, d, e))
      ensures Reachable(k, w, p)
    {
      if p != q {
        MovedPath(k, s, d, e, i, q, p);
      }
    }
    ItemsMove(s, i, q);
    MoveKeepsDistinct(k, s, i, q);
  }

  /** Moving the item of bucket i leaves the finished paths free of holes: none of them passes bucket i. */
  lemma MovedPath<T>(k: Keying<T>, s: seq<Option<T>>, d: nat, e: nat, i: nat, q: nat, p: nat)
    requires d < |s| && e < |s| && i < |s| && q < |s| && p < |s| && s[e].None?
    requires s[i].Some? && s[i := None][q].None? && p != q && p != i && s[p].Some? && Reachable(k, s, p)
    requires 0 < Dist(|s|, d, i) < Dist(|s|, d, e)
    requires Dist(|s|, d, p) < Dist(|s|, d, i) || Dist(|s|, d, e) < Dist(|s|, d, p)
    ensures Reachable(k, s[i := None][q := s[i]], p)
  {
    var n, h := |s|, Home(k, |s|, s[p].value);
    assert Dist(n, h, p) < Dist(n, h, e);
    assert Dist(n, h, p) < Dist(n, h, i);
  }

  lemma MoveKeepsDistinct<T>(k: Keying<T>, s: seq<Option<T>>, i: nat, q: nat)
    requires Distinct(k, s) && i < |s| && q < |s| && s[i].Some? && s[i := None][q].None?
    ensures Distinct(k, s[i := None][q := s[i]])
  {
    var w := s[i := None][q := s[i]];
    forall a, b | 0 <= a < |w| && 0 <= b < |w| && a != b && w[a].Some? && w[b].Some?
      ensures !k.eq(w[a].value, w[b].value)
    {
      var a', b' := if a == q then i else a, if b == q then i else b;
      assert w[a] == s[a'] && w[b] == s[b'] && a' != b';
    }
  }

  lemma ItemsMove<T>(s: seq<Option<T>>, i: nat, q: nat)
    requires i < |s| && q < |s| && s[i].Some? && s[i := None][q].None?
    ensures Items(s[i := None][q := s[i]]) == Items(s)
  {
    var w := s[i := None][q := s[i]];
    forall y | y in Items(w)
      ensures y in Items(s)
    {
      var p :| 0 <= p < |w| && w[p].Some? && w[p].value == y;
      if p != q {
        assert s[p].value == y;
      } else {
        assert s[i].value == y;
      }
    }
    forall y | y in Items(s)
      ensures y in Items(w)
    {
      var p :| 0 <= p < |s| && s[p].Some? && s[p].value == y;
      if p != i {
        assert w[p] == s[p];
      } else {
        assert w[q].value == y;
      }
    }
  }

  /** Clean-up only moves items back towards bucket d. */
  ghost predicate SlidBack<T>(orig: seq<Option<T>>, d: nat, s: seq<Option<T>>) {
    && |s| == |orig| && d < |orig|
    && forall p :: 0 <= p < |s| && s[p].Some? ==> CameFrom(orig, d, p, s[p])
  }

  ghost predicate CameFrom<T>(orig: seq<Option<T>>, d: nat, p: nat, b: Option<T>)
    requires p < |orig| && d < |orig|
  {
    exists p' :: 0 <= p' < |orig| && orig[p'] == b && Dist(|orig|, d, p) <= Dist(|orig|, d, p')
  }

  lemma NothingSlid<T>(orig: seq<Option<T>>, d: nat)
    requires d < |orig|
    ensures SlidBack(orig, d, orig) && SlidBack(orig, d, orig[d := None])
  {
    forall p | 0 <= p < |orig| && orig[p].Some?
      ensures CameFrom(orig, d, p, orig[p])
    {
    }
  }

  lemma SlideStep<T>(orig: seq<Option<T>>, d: nat, s: seq<Option<T>>, i: nat, q: nat)
    requires SlidBack(orig, d, s) && i < |s| && q < |s| && s[i].Some?
    requires Dist(|s|, d, q) <= Dist(|s|, d, i)
    ensures SlidBack(orig, d, s[i := None][q := s[i]])
  {
    var w := s[i := None][q := s[i]];
    assert CameFrom(orig, d, i, s[i]);
    forall p | 0 <= p < |w| && w[p].Some?
      ensures CameFrom(orig, d, p, w[p])
    {
      if p != q {
        assert w[p] == s[p];
      }
    }
  }

  /** The probe for an item the table holds ends at that item. */
  lemma StopsAtOwn<T(!new)>(k: Keying<T>, s: seq<Option<T>>, p: nat)
    requires Lawful(k) && NoHoles(k, s) && Distinct(k, s) && p < |s| && s[p].Some?
    ensures StopsAt(k, s, s[p].value, p)
  {
    assert Reachable(k, s, p);
    forall q | 0 <= q < |s| && q != p && s[q].Some?
      ensures s[q].value != s[p].value && !k.eq(s[q].value, s[p].value)
    {
    }
  }

  /** Emptying the bucket the probe for x stops at: x is gone, and the clean-up of the cluster can start. */
  lemma EmptyBucket<T(!new)>(k: Keying<T>, orig: seq<Option<T>>, x: T, d: nat) returns (e: nat)
    requires Lawful(k) && NoHoles(k, orig) && Distinct(k, orig) && HasRoom(orig)
    requires StopsAt(k, orig, x, d) && orig[d].Some?
    ensures Cleaning(k, orig, d, e, Next(|orig|, d), orig[d := None]) && SlidBack(orig, d, orig[d := None])
    ensures Items(orig[d := None]) == Without(k, Items(orig), x)
    ensures Count(orig[d := None]) == Count(orig) - 1
  {
    e := FirstHole(orig, d);
    CountUpdate(orig, d, None);
    ItemsAfterClear(k, orig, x, d);
    CleaningStarts(k, orig, d, e);
    NothingSlid(orig, d);
  }

  // ---------- whole tables ----------

  lemma {:induction false} CountPrefix<T>(s: seq<Option<T>>, i: nat)
    requires i < |s|
    ensures Count(s[..i + 1]) == Count(s[..i]) + (if s[i].Some? then 1 else 0)
    ensures Count(s[..i + 1]) <= Count(s)
    decreases |s| - i
  {
    assert s[..i + 1][..i] == s[..i];
    if i + 1 == |s| {
      assert s[..i + 1] == s;
    } else {
      CountPrefix(s, i + 1);
    }
  }

  lemma ItemsPrefix<T>(s: seq<Option<T>>, i: nat)
    requires i < |s|
    ensures Items(s[..i + 1]) == Items(s[..i]) + if s[i].Some? then {s[i].value} else {}
  {
    assert s[..i + 1][..i] == s[..i];
    ItemsSnoc(s[..i + 1]);
  }

  lemma NotBefore<T(!new)>(k: Keying<T>, s: seq<Option<T>>, i: nat)
    requires Lawful(k) && Distinct(k, s) && i < |s|
    ensures s[i].Some? ==> s[i].value !in Items(s[..i])
  {
  }

  /** When the items of a prefix are as many as those of the whole table, they are all there are. */
  lemma {:induction false} NoneBehind<T>(s: seq<Option<T>>, i: nat)
    requires i <= |s|
    ensures Items(s[..i]) <= Items(s) && Count(s[..i]) <= Count(s)
    ensures Count(s[..i]) == Count(s) ==> Items(s[..i]) == Items(s)
    decreases |s| - i
  {
    if i == |s| {
      assert s[..i] == s;
    } else {
      CountPrefix(s, i);
      ItemsPrefix(s, i);
      NoneBehind(s, i + 1);
    }
  }

  /** The map after adding every item of b: b's items, and those of a equal to none of them. */
  ghost function UnionOf<T>(k: Keying<T>, a: set<T>, b: set<T>): set<T> {
    MinusOf(k, a, b) + b
  }

  ghost function MinusOf<T>(k: Keying<T>, a: set<T>, b: set<T>): set<T> {
    set x | x in a && !EqualToSome(k, x, b)
  }

  ghost function IntersectOf<T>(k: Keying<T>, a: set<T>, b: set<T>): set<T> {
    set x | x in a && EqualToSome(k, x, b)
  }

  ghost predicate EqualToSome<T>(k: Keying<T>, x: T, b: set<T>) {
    exists y :: y in b && k.eq(x, y)
  }

  lemma UnionStep<T(!new)>(k: Keying<T>, a: set<T>, s: seq<Option<T>>, i: nat)
    requires Lawful(k) && Distinct(k, s) && i < |s| && s[i].Some?
    ensures Without(k, UnionOf(k, a, Items(s[..i])), s[i].value) + {s[i].value} == UnionOf(k, a, Items(s[..i + 1]))
  {
    var b, x := Items(s[..i]), s[i].value;
    ItemsPrefix(s, i);
    forall y | y in b
      ensures !k.eq(y, x)
    {
      var p :| 0 <= p < i && s[..i][p].Some? && s[..i][p].value == y;
      assert s[p].value == y;
    }
    forall y
      ensures EqualToSome(k, y, b + {x}) <==> EqualToSome(k, y, b) || k.eq(y, x)
    {
    }
  }

  lemma UnionStarts<T>(k: Keying<T>, a: set<T>, s: seq<Option<T>>)
    ensures s[..0] == [] && UnionOf(k, a, Items(s[..0])) == a
    ensures Count(s[..0]) == 0 && s[..|s|] == s
  {
    assert s[..0] == [];
  }

  /** One round of BRSetUnion, on the items: c before it, c' after it. */
  lemma UnionRound<T(!new)>(k: Keying<T>, a: set<T>, s: seq<Option<T>>, i: nat, c: set<T>, c': set<T>)
    requires Lawful(k) && Distinct(k, s) && i < |s| && c == UnionOf(k, a, Items(s[..i]))
    requires c' == match s[i] case None => c case Some(x) => Without(k, c, x) + {x}
    ensures c' == UnionOf(k, a, Items(s[..i + 1]))
    ensures Count(s[..i + 1]) == Count(s[..i]) + (if s[i].Some? then 1 else 0)
    ensures Count(s[..i + 1]) <= Count(s)
  {
    CountPrefix(s, i);
    ItemsPrefix(s, i);
    if s[i].Some? {
      UnionStep(k, a, s, i);
    }
  }

  lemma MinusStep<T>(k: Keying<T>, a: set<T>, s: seq<Option<T>>, i: nat)
    requires i < |s| && s[i].Some?
    ensures Without(k, MinusOf(k, a, Items(s[..i])), s[i].value) == MinusOf(k, a, Items(s[..i + 1]))
  {
    var b, x := Items(s[..i]), s[i].value;
    ItemsPrefix(s, i);
    forall y | y in a
      ensures EqualToSome(k, y, b + {x}) <==> EqualToSome(k, y, b) || k.eq(y, x)
    {
    }
  }

  // ---------- deleting while walking ----------

  /** Every item in the first i buckets is equal to an item of b. */
  ghost predicate Kept<T>(k: Keying<T>, s: seq<Option<T>>, i: nat, b: set<T>) {
    forall p :: 0 <= p < i && p < |s| && s[p].Some? ==> EqualToSome(k, s[p].value, b)
  }

  lemma KeptAfterRemoval<T>(k: Keying<T>, orig: seq<Option<T>>, d: nat, s: seq<Option<T>>, b: set<T>)
    requires Kept(k, orig, d, b) && SlidBack(orig, d, s)
    ensures Kept(k, s, d, b)
  {
    forall p | 0 <= p < d && s[p].Some?
      ensures EqualToSome(k, s[p].value, b)
    {
      assert CameFrom(orig, d, p, s[p]);
      var p' :| 0 <= p' < |orig| && orig[p'] == s[p] && Dist(|orig|, d, p) <= Dist(|orig|, d, p');
      assert p' < d;
    }
  }

  lemma DropsNoneOf<T(!new)>(k: Keying<T>, a: set<T>, b: set<T>, c: set<T>, x: T)
    requires Lawful(k) && IntersectOf(k, a, b) <= c && !EqualToSome(k, x, b)
    ensures IntersectOf(k, a, b) <= Without(k, c, x)
  {
    forall y | y in IntersectOf(k, a, b)
      ensures !k.eq(y, x)
    {
      var z :| z in b && k.eq(y, z);
      assert !k.eq(x, z);
    }
  }

  lemma KeptAll<T>(k: Keying<T>, s: seq<Option<T>>, a: set<T>, b: set<T>)
    requires Kept(k, s, |s|, b) && IntersectOf(k, a, b) <= Items(s) <= a
    ensures Items(s) == IntersectOf(k, a, b)
  {
  }
}
