/**
 Modules/core/BRSet.c: a linear-probing hash table whose removal re-adds the rest of the cluster and
 whose growth rebuilds the table.  Every operation is proved against a finite map keyed by eq, given
 by the items it holds.
 */
module HashSet {
  import opened Wrappers
  import opened ProbeTable

  const TABLE_SIZES_LEN: nat := 51

  function TableSize(i: nat): nat
    requires i < TABLE_SIZES_LEN
  {
    match i
    case 0 => 1 case 1 => 3 case 2 => 7 case 3 => 13 case 4 => 23
    case 5 => 37 case 6 => 59 case 7 => 97 case 8 => 149 case 9 => 227
    case 10 => 347 case 11 => 523 case 12 => 787 case 13 => 1187 case 14 => 1783
    case 15 => 2677 case 16 => 4019 case 17 => 6037 case 18 => 9059 case 19 => 13591
    case 20 => 20389 case 21 => 30593 case 22 => 45887 case 23 => 68863 case 24 => 103307
    case 25 => 154981 case 26 => 232487 case 27 => 348739 case 28 => 523129 case 29 => 784697
    case 30 => 1177067 case 31 => 1765609 case 32 => 2648419 case 33 => 3972643 case 34 => 5958971
    case 35 => 8938469 case 36 => 13407707 case 37 => 20111563 case 38 => 30167359 case 39 => 45251077
    case 40 => 67876637 case 41 => 101814991 case 42 => 152722489 case 43 => 229083739 case 44 => 343625629
    case 45 => 515438447 case 46 => 773157683 case 47 => 1159736527 case 48 => 1739604799 case 49 => 2609407319
    case _ => 3914111041
  }

  const LARGEST_SIZE: nat := 3914111041

  /** The most items a table of the given size holds before it is rebuilt. */
  function Limit(size: nat): nat {
    ((size + 2) / 3) * 2
  }

  ghost predicate IsTableSize(size: nat) {
    exists i :: 1 <= i < TABLE_SIZES_LEN && TableSize(i) == size
  }

  /** How one size relates to the next.  The one exception matters only to a set created for 30593 items. */
  lemma SizeStep(i: nat)
    requires i + 1 < TABLE_SIZES_LEN
    ensures TableSize(i) < TableSize(i + 1) <= LARGEST_SIZE
    ensures 1 <= i ==> 3 <= TableSize(i) && TableSize(i) + 3 < TableSize(i + 1)
    ensures TableSize(i) <= Limit(TableSize(i + 1)) <==> i != 21
    ensures i == 21 <==> TableSize(i) == 30593
    ensures i == 49 <==> TableSize(i + 1) == LARGEST_SIZE
  {
  }

  /** The load limit always leaves an empty bucket, and the next size has room for one item more. */
  lemma LimitLeavesRoom(i: nat)
    requires 1 <= i < TABLE_SIZES_LEN
    ensures 3 <= TableSize(i) <= LARGEST_SIZE && Limit(TableSize(i)) < TableSize(i)
    ensures i < 50 ==> TableSize(i) < LARGEST_SIZE && Limit(TableSize(i)) + 1 <= Limit(TableSize(i + 1))
    ensures i == 50 ==> TableSize(i) == LARGEST_SIZE
  {
    SizeStep(i - 1);
    if i < 50 {
      SizeStep(i);
    }
  }

  lemma {:induction false} SizesSorted(i: nat, j: nat)
    requires i < j < TABLE_SIZES_LEN
    ensures TableSize(i) < TableSize(j)
    decreases j
  {
    SizeStep(j - 1);
    if i < j - 1 {
      SizesSorted(i, j - 1);
    }
  }

  lemma SizesIncrease()
    ensures forall i, j :: 0 <= i < j < TABLE_SIZES_LEN ==> TableSize(i) < TableSize(j)
  {
    forall i, j | 0 <= i < j < TABLE_SIZES_LEN
      ensures TableSize(i) < TableSize(j)
    {
      SizesSorted(i, j);
    }
  }

  /** The size _BRSetInit picks: the one after the first that is not below the capacity. */
  ghost predicate PickedSize(capacity: nat, i: nat) {
    i < 50 && capacity <= TableSize(i) && forall j :: 0 <= j < i ==> TableSize(j) < capacity
  }

  lemma PickedSizeFits(capacity: nat, i: nat)
    requires PickedSize(capacity, i)
    ensures capacity < TableSize(i + 1) && (capacity <= Limit(TableSize(i + 1)) <==> capacity != 30593)
    ensures forall j :: 0 <= j < 50 && TableSize(j) == capacity ==> i == j
  {
    SizeStep(i);
    SizesIncrease();
    assert TableSize(21) == 30593 && TableSize(22) == 45887 && TableSize(20) < 30592;
  }

  class BRSet<T(==,!new)> {
    var table: array<Option<T>>
    var size: nat
    var itemCount: nat
    const keying: Keying<T>

    /** The items the table holds: the state of the finite map this set stands for. */
    ghost function Contents(): set<T>
      reads this, table
    {
      Items(table[..])
    }

    /** A table a probe ends in, although paths may have holes: what BRSetRemove leaves while it cleans up. */
    ghost predicate Probeable()
      reads this, table
    {
      && size == table.Length && IsTableSize(size) && Lawful(keying)
      && itemCount == Count(table[..])
      && itemCount <= Limit(size)
    }

    ghost predicate Valid()
      reads this, table
    {
      && Probeable()
      && NoHoles(keying, table[..])
      && Distinct(keying, table[..])
    }

    lemma ProbeableHasRoom()
      requires Probeable()
      ensures HasRoom(table[..]) && size >= 3
    {
      var i :| 1 <= i < TABLE_SIZES_LEN && TableSize(i) == size;
      LimitLeavesRoom(i);
      RoomByCount(table[..]);
    }

    /** BRSetNew: capacities over the last but one table size get no table in the source. */
    constructor (keying: Keying<T>, capacity: nat)
      requires Lawful(keying) && capacity <= TableSize(49)
      ensures Valid() && fresh(table) && this.keying == keying
      ensures Contents() == {} && itemCount == 0
      ensures IsTableSize(size) && (capacity <= Limit(size) <==> capacity != 30593)
      ensures capacity < size
      ensures forall i :: 0 <= i < 50 && TableSize(i) == capacity ==> size == TableSize(i + 1)
    {
      var i := 0;
      while i < TABLE_SIZES_LEN && TableSize(i) < capacity
        invariant 0 <= i <= 49
        invariant forall j :: 0 <= j < i ==> TableSize(j) < capacity
      {
        i := i + 1;
      }
      var s := TableSize(i + 1);
      this.keying := keying;
      table := new Option<T>[s](_ => None);
      size := s;
      itemCount := 0;
      new;
      LimitLeavesRoom(i + 1);
      PickedSizeFits(capacity, i);
      EmptyTable(table[..]);
    }

    static lemma {:induction false} EmptyTable(s: seq<Option<T>>)
      requires forall p :: 0 <= p < |s| ==> s[p].None?
      ensures Count(s) == 0 && Items(s) == {}
    {
      if s != [] {
        EmptyTable(s[..|s| - 1]);
      }
    }

    /** The probe shared by BRSetAdd, BRSetRemove, BRSetGet and BRSetIterate. */
    method Probe(item: T) returns (i: nat)
      requires Probeable()
      ensures StopsAt(keying, table[..], item, i)
    {
      ghost var s := table[..];
      ProbeableHasRoom();
      ghost var e :| 0 <= e < |s| && s[e].None?;
      i := Home(keying, size, item);
      ghost var h := i;
      while table[i].Some? && table[i].value != item && !keying.eq(table[i].value, item)
        invariant i < size
        invariant forall q :: 0 <= q < size && Dist(size, h, q) < Dist(size, h, i) ==>
                    s[q].Some? && !Matches(keying, s[q], item)
        decreases Dist(size, h, e) - Dist(size, h, i)
      {
        assert s[i] == table[i] && i != e;
        assert Dist(size, h, i) < Dist(size, h, e);
        i := Next(size, i);
      }
      assert s[i] == table[i];
    }

    /** Room left, or a bigger size to grow to: past it the source has no table to put the items in. */
    ghost predicate CanAdd()
      reads this
    {
      itemCount < Limit(size) || size < LARGEST_SIZE
    }

    /**
     Adds item, or replaces the equal item and returns it.  While BRSetRemove cleans up, the table may have
     holes; the load is then below the limit and the call cannot lead to a rebuild.
     */
    method Add(item: T) returns (t: Option<T>)
      requires Probeable() && CanAdd()
      requires Valid() || itemCount < Limit(size)
      modifies this, table
      ensures Probeable() && (table == old(table) || fresh(table))
      ensures old(itemCount < Limit(size)) ==>
                && table == old(table) && size == old(size)
                && HasRoom(old(table[..]))
                && var p := Stop(keying, old(table[..]), item);
                   table[..] == old(table[..])[p := Some(item)] && t == old(table[..])[p]
      ensures old(Valid()) ==>
                && Valid()
                && Contents() == Without(keying, old(Contents()), item) + {item}
                && (t.Some? ==> t.value in old(Contents()) && keying.eq(t.value, item))
                && (t.None? ==> forall y :: y in old(Contents()) ==> !keying.eq(y, item))
                && itemCount == old(itemCount) + (if t.None? then 1 else 0)
      decreases if itemCount < Limit(size) then 0 else 3
    {
      ghost var s := table[..];
      ProbeableHasRoom();
      var i := Probe(item);
      StopUnique(keying, s, item, i, Stop(keying, s, item));
      t := table[i];
      assert t == s[i];
      CountUpdate(s, i, Some(item));
      if Valid() {
        PutKeepsTable(keying, s, item, i);
        if t.None? {
          EmptyStopMeansAbsent(keying, s, item, i);
        }
      }
      if t.None? { itemCount := itemCount + 1; }
      table[i] := Some(item);
      assert table[..] == s[i := Some(item)];
      if itemCount > Limit(size) {
        Grow(size);
      }
    }

    /** _BRSetGrow: the one caller passes the current size as the capacity. */
    method Grow(capacity: nat)
      requires size == table.Length && IsTableSize(size) && Lawful(keying) && capacity == size < LARGEST_SIZE
      requires itemCount == Count(table[..]) == Limit(size) + 1
      requires NoHoles(keying, table[..]) && Distinct(keying, table[..])
      modifies this
      ensures Valid() && fresh(table)
      ensures Contents() == old(Contents()) && itemCount == old(itemCount)
      decreases 2
    {
      ghost var i :| 1 <= i < TABLE_SIZES_LEN && TableSize(i) == size;
      LimitLeavesRoom(i);
      SizesIncrease();
      var newSet := new BRSet(keying, capacity);
      newSet.Union(this);
      assert MinusOf(keying, {}, Contents()) == {};
      table := newSet.table;
      size := newSet.size;
      CountIsCardinality(keying, old(table[..]));
      CountIsCardinality(keying, table[..]);
      itemCount := newSet.itemCount;
    }

    /**
     BRSetUnion.  other may be over its load limit: that is the table _BRSetGrow rebuilds.  When everything
     fits, no call below leads to a rebuild.
     */
    method Union(other: BRSet<T>)
      requires Valid() && other != this && other.table != table
      requires other.size == other.table.Length && other.keying == keying && Distinct(keying, other.table[..])
      requires other.itemCount == Count(other.table[..])
      requires itemCount + other.itemCount <= Limit(LARGEST_SIZE)
      modifies this, table
      ensures Valid() && (table == old(table) || fresh(table))
      ensures Contents() == UnionOf(keying, old(Contents()), other.Contents())
      ensures old(itemCount + other.itemCount <= Limit(size)) ==> table == old(table) && size == old(size)
      decreases if itemCount + other.itemCount <= Limit(size) then 1 else 4
    {
      hide NoHoles;
      hide Distinct;
      hide Items;
      hide Limit;
      ghost var a, s := Contents(), other.table[..];
      var i := 0;
      UnionStarts(keying, a, s);
      hide UnionOf;
      while i < other.size
        invariant i <= other.size
        invariant Valid() && (table == old(table) || fresh(table))
        invariant other.table[..] == s && other.size == old(other.size) && other.table == old(other.table)
        invariant itemCount <= old(itemCount) + Count(s[..i])
        invariant Contents() == UnionOf(keying, a, Items(s[..i]))
        invariant old(itemCount + other.itemCount <= Limit(size)) ==> table == old(table) && size == old(size)
      {
        ghost var c := Contents();
        var t := other.table[i];
        assert t == s[i];
        CountPrefix(s, i);
        if t.Some? {
          var _ := Add(t.value);
        }
        UnionRound(keying, a, s, i, c, Contents());
        i := i + 1;
      }
      assert s[..i] == s;
      assert other.Contents() == Items(s);
    }

    /** One round of the clean-up loop of BRSetRemove: takes the item out of bucket i and adds it again. */
    method ReAdd(i: nat, ghost orig: seq<Option<T>>, ghost d: nat, ghost e: nat)
      requires Probeable() && NoHoles(keying, orig) && Cleaning(keying, orig, d, e, i, table[..])
      requires SlidBack(orig, d, table[..]) && table[i].Some?
      modifies this, table
      ensures Probeable() && table == old(table) && size == old(size) && itemCount == old(itemCount)
      ensures Cleaning(keying, orig, d, e, Next(size, i), table[..]) && SlidBack(orig, d, table[..])
      ensures Contents() == old(Contents())
    {
      ghost var s := table[..];
      var t := table[i];
      ghost var u := s[i := None];
      assert s[i] == t && u[i].None?;
      CountUpdate(s, i, None);
      itemCount := itemCount - 1;
      table[i] := None;
      assert table[..] == u;
      ghost var q := Stop(keying, u, t.value);
      CleaningStep(keying, orig, d, e, i, s, q);
      CleaningTarget(keying, orig, d, e, i, s, q);
      SlideStep(orig, d, s, i, q);
      CountUpdate(u, q, t);
      var _ := Add(t.value);
    }

    /** The clean-up loop of BRSetRemove, up to the empty bucket e that ends the cluster of bucket d. */
    method CleanUp(start: nat, ghost orig: seq<Option<T>>, ghost d: nat, ghost e: nat)
      requires Probeable() && NoHoles(keying, orig) && Cleaning(keying, orig, d, e, start, table[..])
      requires SlidBack(orig, d, table[..])
      modifies this, table
      ensures Valid() && table == old(table) && size == old(size) && itemCount == old(itemCount)
      ensures SlidBack(orig, d, table[..])
      ensures Contents() == old(Contents())
    {
      var i := start;
      while table[i].Some?
        invariant table == old(table) && size == old(size) && itemCount == old(itemCount)
        invariant Probeable() && Cleaning(keying, orig, d, e, i, table[..]) && SlidBack(orig, d, table[..])
        invariant Contents() == old(Contents())
        decreases Dist(size, d, e) - Dist(size, d, i)
      {
        ReAdd(i, orig, d, e);
        i := Next(size, i);
      }
      CleaningEnds(keying, orig, d, e, i, table[..]);
    }

    /** BRSetRemove: empties the bucket, then takes out and re-adds every item of the cluster after it. */
    method Remove(item: T) returns (r: Option<T>)
      requires Valid()
      modifies this, table
      ensures Valid() && table == old(table) && size == old(size)
      ensures Contents() == Without(keying, old(Contents()), item)
      ensures r.Some? ==> r.value in old(Contents()) && keying.eq(r.value, item)
      ensures r.None? ==> forall y :: y in old(Contents()) ==> !keying.eq(y, item)
      ensures itemCount == old(itemCount) - (if r.Some? then 1 else 0)
      ensures HasRoom(old(table[..])) && SlidBack(old(table[..]), Stop(keying, old(table[..]), item), table[..])
    {
      ghost var orig := table[..];
      ProbeableHasRoom();
      var i := Probe(item);
      ghost var d := i;
      StopUnique(keying, orig, item, d, Stop(keying, orig, item));
      r := table[i];
      assert r == orig[d];
      if r.Some? {
        ghost var e := EmptyBucket(keying, orig, item, d);
        itemCount := itemCount - 1;
        table[i] := None;
        i := Next(size, i);
        assert table[..] == orig[d := None];
        CleanUp(i, orig, d, e);
      } else {
        EmptyStopMeansAbsent(keying, orig, item, d);
        NothingSlid(orig, d);
      }
    }

    method Clear()
      requires Valid()
      modifies this, table
      ensures Valid() && table == old(table) && size == old(size)
      ensures Contents() == {} && itemCount == 0
    {
      forall i | 0 <= i < size {
        table[i] := None;
      }
      itemCount := 0;
      EmptyTable(table[..]);
    }

    /** BRSetGet: the member equal to item, if there is one. */
    method Get(item: T) returns (t: Option<T>)
      requires Valid()
      ensures t.Some? ==> t.value in Contents() && keying.eq(t.value, item)
      ensures t.None? <==> !EqualToSome(keying, item, Contents())
    {
      var i := Probe(item);
      ghost var s := table[..];
      t := table[i];
      assert t == s[i];
      if t.None? {
        EmptyStopMeansAbsent(keying, s, item, i);
      }
    }

    /** BRSetCount */
    method ItemCount() returns (n: nat)
      requires Valid()
      ensures n == |Contents()|
    {
      CountIsCardinality(keying, table[..]);
      n := itemCount;
    }

    method Contains(item: T) returns (r: bool)
      requires Valid()
      ensures r <==> EqualToSome(keying, item, Contents())
    {
      var t := Get(item);
      r := t.Some?;
    }

    /** BRSetIntersects: whether any item of other is in this set. */
    method Intersects(other: BRSet<T>) returns (r: bool)
      requires Valid() && other.Valid()
      ensures r <==> exists x :: x in other.Contents() && EqualToSome(keying, x, Contents())
    {
      ghost var s := other.table[..];
      var i := 0;
      assert s[..0] == [];
      while i < other.size
        invariant i <= other.size
        invariant forall x :: x in Items(s[..i]) ==> !EqualToSome(keying, x, Contents())
      {
        ItemsPrefix(s, i);
        var t := other.table[i];
        assert t == s[i];
        if t.Some? {
          var c := Contains(t.value);
          if c {
            assert t.value in other.Contents();
            return true;
          }
        }
        i := i + 1;
      }
      assert s[..i] == s;
      r := false;
    }

    /** BRSetAll: each item is written once, as far as count goes. */
    method All(count: nat) returns (allItems: seq<T>)
      requires Valid()
      ensures |allItems| == if itemCount < count then itemCount else count
      ensures forall j, k :: 0 <= j < k < |allItems| ==> allItems[j] != allItems[k]
      ensures forall x :: x in allItems ==> x in Contents()
      ensures count >= itemCount ==> forall x :: x in Contents() ==> x in allItems
    {
      ghost var s := table[..];
      var i := 0;
      allItems := [];
      assert s[..0] == [];
      while i < size && |allItems| < count
        invariant i <= size && |allItems| == Count(s[..i]) <= count
        invariant forall x :: x in allItems <==> x in Items(s[..i])
        invariant forall j, k :: 0 <= j < k < |allItems| ==> allItems[j] != allItems[k]
        invariant Count(s[..i]) <= Count(s)
      {
        CountPrefix(s, i);
        ItemsPrefix(s, i);
        NotBefore(keying, s, i);
        var t := table[i];
        assert t == s[i];
        if t.Some? {
          allItems := allItems + [t.value];
        }
        i := i + 1;
      }
      if i < size {
        NoneBehind(s, i);
      } else {
        assert s[..i] == s;
      }
    }

    /** BRSetMinus, for two different sets. */
    method Minus(other: BRSet<T>)
      requires Valid() && other.Valid() && other != this && other.table != table && other.keying == keying
      modifies this, table
      ensures Valid() && table == old(table)
      ensures Contents() == MinusOf(keying, old(Contents()), old(other.Contents()))
    {
      ghost var a, s := Contents(), other.table[..];
      var i := 0;
      assert s[..0] == [];
      while i < other.size
        invariant i <= other.size
        invariant Valid() && table == old(table)
        invariant other.table[..] == s && other.size == old(other.size) && other.table == old(other.table)
        invariant Contents() == MinusOf(keying, a, Items(s[..i]))
      {
        var t := other.table[i];
        assert t == s[i];
        if t.Some? {
          MinusStep(keying, a, s, i);
          var _ := Remove(t.value);
        } else {
          ItemsPrefix(s, i);
        }
        i := i + 1;
      }
      assert s[..i] == s;
    }

    /** BRSetRemove called with the item in bucket i, as BRSetIntersect does. */
    method RemoveAt(i: nat)
      requires Valid() && i < size && table[i].Some?
      modifies this, table
      ensures Valid() && table == old(table) && size == old(size) && itemCount == old(itemCount) - 1
      ensures Contents() == Without(keying, old(Contents()), old(table[i].value))
      ensures SlidBack(old(table[..]), i, table[..])
    {
      ghost var s := table[..];
      var t := table[i];
      assert t == s[i];
      assert t.value in Items(s);
      StopsAtOwn(keying, s, i);
      var _ := Remove(t.value);
      StopUnique(keying, s, t.value, i, Stop(keying, s, t.value));
    }

    /**
     BRSetIntersect deletes while it walks the table: a removal may move later items into the bucket just
     emptied, which is why the walk stays there, and moves no unvisited item to a bucket already passed.
     */
    method Intersect(other: BRSet<T>)
      requires Valid() && other.Valid() && other != this && other.table != table && other.keying == keying
      modifies this, table
      ensures Valid() && table == old(table)
      ensures Contents() == IntersectOf(keying, old(Contents()), old(other.Contents()))
    {
      ghost var a, b := Contents(), other.Contents();
      var i := 0;
      while i < size
        invariant i <= size && size == old(size) && table == old(table)
        invariant Valid() && other.Valid() && other.Contents() == b
        invariant IntersectOf(keying, a, b) <= Contents() <= a
        invariant Kept(keying, table[..], i, b)
        decreases itemCount + size - i
      {
        ghost var s := table[..];
        var t := table[i];
        assert t == s[i];
        var keep := true;
        if t.Some? {
          keep := other.Contains(t.value);
        }
        if !keep {
          RemoveAt(i);
          KeptAfterRemoval(keying, s, i, table[..], b);
          DropsNoneOf(keying, a, b, Items(s), t.value);
        } else {
          i := i + 1;
        }
      }
      KeptAll(keying, table[..], a, b);
    }
  }
}
