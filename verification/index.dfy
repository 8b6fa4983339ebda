/** The code index: a growable buffer of (code, slot) pairs, sorted once in place by
    the `strcmp` order and then searched by bisection (add_var_to_index,
    sort_index_aux, sort_index, cherche_var). */
module Index {
  import opened Wrappers
  import opened CStrings

  /** var_entry_t: a code or alias, and the slot of `var[]` it designates. */
  datatype Entry = Entry(code: Code, slot: nat)

  /** The capacity of the buffer when the first entry is added. */
  const InitialSize: nat := 1024

  /** The entries at positions lo..hi-1 are in non-decreasing `strcmp` order. */
  ghost predicate SortedBetween(s: seq<Entry>, lo: int, hi: int) {
    0 <= lo && hi <= |s| &&
    forall a, b :: lo <= a < b < hi ==> Cmp(s[a].code, s[b].code) <= 0
  }

  ghost predicate Sorted(s: seq<Entry>) {
    SortedBetween(s, 0, |s|)
  }

  /** Every entry designates a slot below `n`. */
  ghost predicate SlotsBelow(s: seq<Entry>, n: nat) {
    forall k :: 0 <= k < |s| ==> s[k].slot < n
  }

  /** Rearranging the entries keeps every slot below the bound. */
  lemma SlotsBelowPerm(s: seq<Entry>, t: seq<Entry>, n: nat)
    requires multiset(s) == multiset(t) && SlotsBelow(s, n)
    ensures SlotsBelow(t, n)
  {
    forall k | 0 <= k < |t| ensures t[k].slot < n {
      assert t[k] in multiset(s);
    }
  }

  /** Every entry of `s` is at most `p`, or strictly above it. */
  ghost predicate AllAtMost(s: seq<Entry>, p: Code) {
    forall k :: 0 <= k < |s| ==> Cmp(s[k].code, p) <= 0
  }

  ghost predicate AllAbove(s: seq<Entry>, p: Code) {
    forall k :: 0 <= k < |s| ==> Cmp(s[k].code, p) > 0
  }

  /** The bisection of cherche_var over positions lo..hi-1, as a function: it
      examines the middle entry, stops on an equal code and otherwise keeps the half
      that the `strcmp` sign points to. */
  function Search(s: seq<Entry>, key: Code, lo: nat, hi: nat): (r: Option<nat>)
    requires lo <= hi <= |s|
    ensures r.Some? ==> exists k :: lo <= k < hi && s[k].code == key && s[k].slot == r.value
    decreases hi - lo
  {
    if lo >= hi then None
    else
      var mid := (lo + hi) / 2;
      var res := Cmp(key, s[mid].code);
      if res < 0 then Search(s, key, lo, mid)
      else if res > 0 then Search(s, key, mid + 1, hi)
      else (CmpZero(key, s[mid].code); Some(s[mid].slot))
  }

  /** Some entry of s has code `key`. */
  ghost predicate HasCode(s: seq<Entry>, key: Code) {
    exists k :: 0 <= k < |s| && s[k].code == key
  }

  /** On a sorted index the bisection finds every key that is present. */
  lemma {:induction false} SearchComplete(s: seq<Entry>, key: Code, lo: nat, hi: nat, k: nat)
    requires lo <= k < hi <= |s|
    requires SortedBetween(s, lo, hi)
    requires s[k].code == key
    ensures Search(s, key, lo, hi).Some?
    decreases hi - lo
  {
    var mid := (lo + hi) / 2;
    var res := Cmp(key, s[mid].code);
    if res < 0 {
      if mid <= k {
        CmpZero(key, s[mid].code);
        if mid < k { CmpFlip(s[mid].code, key); }
        assert false;
      }
      SearchComplete(s, key, lo, mid, k);
    } else if res > 0 {
      if k <= mid {
        CmpZero(key, s[mid].code);
        assert false;
      }
      SearchComplete(s, key, mid + 1, hi, k);
    }
  }
  /** On a sorted index the bisection finds every code that is present. */
  lemma SearchFinds(s: seq<Entry>, key: Code)
    requires Sorted(s) && HasCode(s, key)
    ensures Search(s, key, 0, |s|).Some?
  {
    var k :| 0 <= k < |s| && s[k].code == key;
    SearchComplete(s, key, 0, |s|, k);
  }

  /** What the bisection returns is the slot of an entry with that very code. */
  lemma SearchSound(s: seq<Entry>, key: Code, v: nat)
    requires Search(s, key, 0, |s|) == Some(v)
    ensures Entry(key, v) in s
  {
    var k :| 0 <= k < |s| && s[k].code == key && s[k].slot == v;
    assert s[k] == Entry(key, v);
  }


  /** A multiset-preserving rearrangement keeps "every entry is at most p" ... */
  lemma AllAtMostPerm(s: seq<Entry>, t: seq<Entry>, p: Code)
    requires multiset(s) == multiset(t) && AllAtMost(s, p)
    ensures AllAtMost(t, p)
  {
    forall k | 0 <= k < |t| ensures Cmp(t[k].code, p) <= 0 {
      assert t[k] in multiset(t);
      assert t[k] in s;
    }
  }

  /** ... and "every entry is above p". */
  lemma AllAbovePerm(s: seq<Entry>, t: seq<Entry>, p: Code)
    requires multiset(s) == multiset(t) && AllAbove(s, p)
    ensures AllAbove(t, p)
  {
    forall k | 0 <= k < |t| ensures Cmp(t[k].code, p) > 0 {
      assert t[k] in multiset(t);
      assert t[k] in s;
    }
  }

  /** Two sorted halves around a pivot entry at position j make a sorted range. */
  lemma SortedJoin(s: seq<Entry>, first: int, j: int, last: int)
    requires 0 <= first <= j <= last < |s|
    requires SortedBetween(s, first, j) && SortedBetween(s, j + 1, last + 1)
    requires AllAtMost(s[first..j], s[j].code) && AllAbove(s[j + 1..last + 1], s[j].code)
    ensures SortedBetween(s, first, last + 1)
  {
    var p := s[j].code;
    forall a, b | first <= a < b <= last ensures Cmp(s[a].code, s[b].code) <= 0 {
      if a < j {
        assert s[first..j][a - first] == s[a];
        if b == j {
        } else if b > j {
          assert s[j + 1..last + 1][b - j - 1] == s[b];
          CmpFlip(s[b].code, p);
          CmpTrans(s[a].code, p, s[b].code);
        }
      } else if a == j {
        assert s[j + 1..last + 1][b - j - 1] == s[b];
        CmpFlip(s[b].code, p);
      } else {
      }
    }
  }

  lemma AtMostSlice(s: seq<Entry>, lo: int, hi: int, p: Code)
    requires 0 <= lo <= hi <= |s|
    requires forall k :: lo <= k < hi ==> Cmp(s[k].code, p) <= 0
    ensures AllAtMost(s[lo..hi], p)
  {
  }

  lemma AboveSlice(s: seq<Entry>, lo: int, hi: int, p: Code)
    requires 0 <= lo <= hi <= |s|
    requires forall k :: lo <= k < hi ==> Cmp(s[k].code, p) > 0
    ensures AllAbove(s[lo..hi], p)
  {
  }

  /** s and t agree outside positions lo..hi-1. */
  ghost predicate SameOutside(s: seq<Entry>, t: seq<Entry>, lo: int, hi: int) {
    |s| == |t| && forall k :: 0 <= k < |s| && (k < lo || hi <= k) ==> s[k] == t[k]
  }

  lemma SplitMultiset(s: seq<Entry>, first: int, j: int, last: int)
    requires 0 <= first <= j <= last < |s|
    ensures multiset(s[first..last + 1]) == multiset(s[first..j]) + multiset{s[j]} + multiset(s[j + 1..last + 1])
  {
    assert s[first..last + 1] == s[first..j] + [s[j]] + s[j + 1..last + 1];
  }

  /** Exchanging two entries inside lo..hi-1 keeps that range's multiset and
      everything outside it. */
  lemma SwapFacts(t: seq<Entry>, u: seq<Entry>, lo: int, hi: int, x: int, y: int)
    requires 0 <= lo <= x < hi <= |t| && lo <= y < hi
    requires u == t[x := t[y]][y := t[x]]
    ensures multiset(u[lo..hi]) == multiset(t[lo..hi])
    ensures SameOutside(t, u, lo, hi)
  {
    assert u[lo..hi] == t[lo..hi][x - lo := t[y]][y - lo := t[x]];
  }

  lemma SameOutsideTrans(s: seq<Entry>, t: seq<Entry>, u: seq<Entry>, lo: int, hi: int)
    requires SameOutside(s, t, lo, hi) && SameOutside(t, u, lo, hi)
    ensures SameOutside(s, u, lo, hi)
  {
  }

  /** Positions lo..hi-1 hold codes at most p; positions lo..hi-1 hold codes above p. */
  ghost predicate LowPart(s: seq<Entry>, lo: int, hi: int, p: Code) {
    forall k :: lo <= k < hi && 0 <= k < |s| ==> Cmp(s[k].code, p) <= 0
  }

  ghost predicate HighPart(s: seq<Entry>, lo: int, hi: int, p: Code) {
    forall k :: lo <= k < hi && 0 <= k < |s| ==> Cmp(s[k].code, p) > 0
  }

  lemma LowJoin(s: seq<Entry>, lo: int, mid: int, hi: int, p: Code)
    requires LowPart(s, lo, mid, p) && LowPart(s, mid, hi, p)
    ensures LowPart(s, lo, hi, p)
  {
  }

  lemma HighJoin(s: seq<Entry>, j: int, j0: int, last: int, p: Code)
    requires HighPart(s, j + 1, j0 + 1, p) && HighPart(s, j0 + 1, last + 1, p)
    ensures HighPart(s, j + 1, last + 1, p)
  {
  }

  /** Swapping an entry above the pivot at i with one at most the pivot at j keeps
      both sides' invariants. */
  lemma SwapStep(t: seq<Entry>, u: seq<Entry>, first: int, i: int, j: int, last: int, p: Code)
    requires 0 <= first < i < j <= last < |t|
    requires u == t[i := t[j]][j := t[i]]
    requires LowPart(t, first, i, p) && HighPart(t, j + 1, last + 1, p)
    requires Cmp(t[j].code, p) <= 0
    ensures LowPart(u, first, i, p) && HighPart(u, j + 1, last + 1, p)
    ensures Cmp(u[i].code, p) <= 0 && u[first] == t[first]
  {
  }

  /** The state of the partition loop: the pivot still at `first`, entries
      first..i-1 at most the pivot, entries j+1..last above it, and the range a
      rearrangement of what it was. */
  ghost predicate PartitionInv(s0: seq<Entry>, s: seq<Entry>, first: int, last: int, i: int, j: int) {
    && |s0| == |s| && 0 <= first <= i <= last < |s| && first <= j <= last && i <= j + 1
    && s[first] == s0[first]
    && LowPart(s, first, i, s0[first].code) && HighPart(s, j + 1, last + 1, s0[first].code)
    && (i < j ==> Cmp(s[i].code, s0[first].code) <= 0)
    && (j <= i ==> Cmp(s[j].code, s0[first].code) <= 0)
    && multiset(s[first..last + 1]) == multiset(s0[first..last + 1])
    && SameOutside(s0, s, first, last + 1)
  }

  /** The result of a partition step: the old entry at `first` now sits at `j`, with
      entries at most it before and entries above it after, all within first..last. */
  ghost predicate Partitioned(s0: seq<Entry>, s: seq<Entry>, first: int, j: int, last: int) {
    && |s0| == |s| && 0 <= first <= j <= last < |s|
    && s[j] == s0[first]
    && AllAtMost(s[first..j], s[j].code) && AllAbove(s[j + 1..last + 1], s[j].code)
    && multiset(s[first..last + 1]) == multiset(s0[first..last + 1])
    && SameOutside(s0, s, first, last + 1)
  }

  /** s is s0 with positions lo..hi-1 sorted by `strcmp`, as a rearrangement of
      those entries, and every other position as it was. */
  ghost predicate SortedPermutation(s0: seq<Entry>, s: seq<Entry>, lo: int, hi: int) {
    && |s0| == |s| && 0 <= lo <= hi <= |s|
    && SortedBetween(s, lo, hi)
    && multiset(s[lo..hi]) == multiset(s0[lo..hi])
    && SameOutside(s0, s, lo, hi)
  }

  /** A range of at most one position cannot be rearranged: sorting it is a no-op. */
  lemma ShortRangeUnchanged(s0: seq<Entry>, s: seq<Entry>, lo: int, hi: int)
    requires SortedPermutation(s0, s, lo, hi) && hi - lo <= 1
    ensures s == s0
  {
    if lo < hi {
      assert s[lo..hi] == [s[lo]] && s0[lo..hi] == [s0[lo]];
      assert s[lo] in multiset(s0[lo..hi]);
    }
    assert forall k :: 0 <= k < |s| ==> s[k] == s0[k];
  }

  /** The last swap of the partition step puts the pivot between the two sides. */
  lemma PlacePivot(s0: seq<Entry>, t: seq<Entry>, u: seq<Entry>, first: int, i: int, j: int, last: int)
    requires PartitionInv(s0, t, first, last, i, j) && j <= i
    requires u == t[first := t[j]][j := t[first]]
    ensures Partitioned(s0, u, first, j, last)
  {
    var p := s0[first].code;
    assert LowPart(u, first, j, p);
    AtMostSlice(u, first, j, p);
    AboveSlice(u, j + 1, last + 1, p);
    SwapFacts(t, u, first, last + 1, first, j);
    SameOutsideTrans(s0, t, u, first, last + 1);
  }

  lemma SameSlice(s: seq<Entry>, t: seq<Entry>, lo: int, hi: int, a: int, b: int)
    requires SameOutside(s, t, lo, hi) && 0 <= a <= b <= |s| && (b <= lo || hi <= a)
    ensures s[a..b] == t[a..b]
  {
  }

  /** After partitioning and sorting both sides, the whole range is in order. */
  lemma QuickSortOrder(s0: seq<Entry>, s1: seq<Entry>, s2: seq<Entry>, s3: seq<Entry>, first: int, j: int, last: int)
    requires Partitioned(s0, s1, first, j, last)
    requires SortedPermutation(s1, s2, first, j)
    requires SortedPermutation(s2, s3, j + 1, last + 1)
    ensures SortedBetween(s3, first, last + 1)
  {
    var p := s1[j].code;
    SameSlice(s1, s2, first, j, j + 1, last + 1);
    SameSlice(s2, s3, j + 1, last + 1, first, j);
    assert s3[j] == s1[j];
    AllAtMostPerm(s1[first..j], s2[first..j], p);
    AllAbovePerm(s2[j + 1..last + 1], s3[j + 1..last + 1], p);
    assert SortedBetween(s3, first, j) by {
      forall a, b | first <= a < b < j ensures Cmp(s3[a].code, s3[b].code) <= 0 {
        assert s3[a] == s2[a] && s3[b] == s2[b];
      }
    }
    SortedJoin(s3, first, j, last);
  }

  /** ... and it holds the entries it held before partitioning. */
  lemma QuickSortPerm(s0: seq<Entry>, s1: seq<Entry>, s2: seq<Entry>, s3: seq<Entry>, first: int, j: int, last: int)
    requires Partitioned(s0, s1, first, j, last)
    requires SortedPermutation(s1, s2, first, j)
    requires SortedPermutation(s2, s3, j + 1, last + 1)
    ensures multiset(s3[first..last + 1]) == multiset(s0[first..last + 1])
  {
    SameSlice(s1, s2, first, j, j + 1, last + 1);
    SameSlice(s2, s3, j + 1, last + 1, first, j);
    assert s3[j] == s1[j];
    SplitMultiset(s1, first, j, last);
    SplitMultiset(s3, first, j, last);
  }

  /** The recursive case of sort_index_aux: partition, then sort each side. */
  lemma QuickSortStep(s0: seq<Entry>, s1: seq<Entry>, s2: seq<Entry>, s3: seq<Entry>, first: int, j: int, last: int)
    requires Partitioned(s0, s1, first, j, last)
    requires SortedPermutation(s1, s2, first, j)
    requires SortedPermutation(s2, s3, j + 1, last + 1)
    ensures SortedPermutation(s0, s3, first, last + 1)
  {
    QuickSortOrder(s0, s1, s2, s3, first, j, last);
    QuickSortPerm(s0, s1, s2, s3, first, j, last);
  }

  /** The first inner loop of sort_index_aux: `i` moves right over entries at
      most the pivot's code, stopping at `last` at the latest. */
  method ClimbLow(a: array<Entry>, pivot: int, i0: int, j: int, last: int) returns (i: int)
    requires 0 <= pivot <= i0 <= last < a.Length && i0 <= j + 1 && j <= last
    requires HighPart(a[..], j + 1, last + 1, a[pivot].code)
    ensures i0 <= i <= last && i <= j + 1
    ensures LowPart(a[..], i0, i, a[pivot].code)
    ensures i == last || Cmp(a[i].code, a[pivot].code) > 0
    ensures Cmp(a[i0].code, a[pivot].code) <= 0 && i0 < last ==> i0 < i
  {
    i := i0;
    while Cmp(a[i].code, a[pivot].code) <= 0 && i < last
      invariant i0 <= i <= last && i <= j + 1
      invariant LowPart(a[..], i0, i, a[pivot].code)
      decreases last - i
    {
      i := i + 1;
    }
  }

  /** The second inner loop of sort_index_aux: `j` moves left over entries above
      the pivot's code; the pivot itself stops it. */
  method DescendHigh(a: array<Entry>, pivot: int, i: int, j0: int, last: int) returns (j: int)
    requires 0 <= pivot < i <= last + 1 && pivot <= j0 <= last < a.Length && i - 1 <= j0
    requires LowPart(a[..], pivot, i, a[pivot].code)
    ensures pivot <= j <= j0 && i - 1 <= j
    ensures HighPart(a[..], j + 1, j0 + 1, a[pivot].code)
    ensures Cmp(a[j].code, a[pivot].code) <= 0
  {
    j := j0;
    while Cmp(a[j].code, a[pivot].code) > 0
      invariant pivot <= j <= j0 && i - 1 <= j
      invariant HighPart(a[..], j + 1, j0 + 1, a[pivot].code)
      decreases j
    {
      j := j - 1;
    }
  }

  /** One round of the outer loop of the partition step: both scans, then the
      exchange of the out-of-place pair if the scans have not crossed. */
  method PartitionRound(a: array<Entry>, ghost s0: seq<Entry>, first: int, last: int, i0: int, j0: int) returns (i: int, j: int)
    requires a.Length == |s0| && PartitionInv(s0, a[..], first, last, i0, j0) && i0 < j0
    modifies a
    ensures PartitionInv(s0, a[..], first, last, i, j) && i0 < i
  {
    var pivot := first;
    ghost var p := s0[first].code;
    i := ClimbLow(a, pivot, i0, j0, last);
    LowJoin(a[..], first, i0, i, p);
    j := DescendHigh(a, pivot, i, j0, last);
    HighJoin(a[..], j, j0, last, p);
    if i < j {
      ghost var t := a[..];
      a[i], a[j] := a[j], a[i];
      SwapStep(t, a[..], first, i, j, last, p);
      SwapFacts(t, a[..], first, last + 1, i, j);
      SameOutsideTrans(s0, t, a[..], first, last + 1);
    }
  }

  /** The partition step of sort_index_aux, with the pivot at `first`: `i` climbs
      over entries at most the pivot, `j` descends over entries above it, and
      out-of-place pairs are swapped; the pivot then goes to `j`. */
  method Partition(a: array<Entry>, first: int, last: int) returns (j: int)
    requires 0 <= first < last < a.Length
    modifies a
    ensures Partitioned(old(a[..]), a[..], first, j, last)
  {
    ghost var s0 := a[..];
    CmpZero(s0[first].code, s0[first].code);
    var i := first;
    j := last;
    while i < j
      invariant PartitionInv(s0, a[..], first, last, i, j)
      decreases last - i
    {
      i, j := PartitionRound(a, s0, first, last, i, j);
    }
    ghost var t := a[..];
    a[first], a[j] := a[j], a[first];
    PlacePivot(s0, t, a[..], first, i, j, last);
  }

  /** sort_index_aux(first, last): sorts positions first..last in place by
      `strcmp`, as a permutation of those entries, leaving every other position
      alone; nothing happens when first >= last. */
  method SortAux(a: array<Entry>, first: int, last: int)
    requires 0 <= first <= last + 1 <= a.Length
    modifies a
    ensures SortedPermutation(old(a[..]), a[..], first, last + 1)
    decreases last - first
  {
    if first < last {
      ghost var s0 := a[..];
      var j := Partition(a, first, last);
      ghost var s1 := a[..];
      SortAux(a, first, j - 1);
      ghost var s2 := a[..];
      SortAux(a, j + 1, last);
      QuickSortStep(s0, s1, s2, a[..], first, j, last);
    }
  }

  /** The index buffer and its two counters, the globals `var_index`,
      `var_index_entries` and `var_index_size` (the size is `data.Length`). */
  class VarIndex {
    var data: array<Entry>
    var count: nat
    /** var_index != NULL: the buffer has been allocated. */
    var started: bool

    ghost predicate Valid()
      reads this
    {
      && count <= data.Length
      && (started ==> data.Length >= InitialSize)
      && (!started ==> count == 0)
    }

    /** The entries added so far, in the buffer's current order. */
    ghost function Contents(): seq<Entry>
      reads this, data
      requires Valid()
    {
      data[..count]
    }

    /** The static initial state: no buffer, no entries. */
    constructor ()
      ensures Valid() && !started && Contents() == [] && fresh(data)
    {
      data := new Entry[0];
      count := 0;
      started := false;
    }

    /** add_var_to_index: appends (code, slot) after the existing entries. The first
        call allocates 1024 entries; a full buffer grows by a quarter of its size.
        A NULL code or variable aborts (ok is false) and changes nothing. */
    method Add(code: Option<Code>, v: Option<nat>) returns (ok: bool)
      requires Valid()
      modifies this, data
      ensures Valid() && started == (old(started) || ok)
      ensures data == old(data) || fresh(data)
      ensures ok <==> code.Some? && v.Some?
      ensures !ok ==> Contents() == old(Contents()) && data == old(data)
      ensures ok ==> Contents() == old(Contents()) + [Entry(code.value, v.value)]
      ensures ok && !old(started) ==> data.Length == InitialSize
      ensures ok && old(started) && old(count) < old(data.Length) ==> data == old(data)
      ensures ok && old(started) && old(count) >= old(data.Length) ==>
                data.Length == old(data.Length) + old(data.Length) / 4
    {
      if code.None? || v.None? {
        return false;
      }
      if !started {
        count := 0;
        data := new Entry[InitialSize](_ => Entry([], 0));
        started := true;
      } else if count >= data.Length {
        var grown := new Entry[data.Length + data.Length / 4](_ => Entry([], 0));
        forall k | 0 <= k < count {
          grown[k] := data[k];
        }
        data := grown;
      }
      data[count] := Entry(code.value, v.value);
      count := count + 1;
      ok := true;
    }

    /** sort_index: sorts the whole index; with no entries the C call
        sort_index_aux(0, -1) does nothing. */
    method Sort()
      requires Valid()
      modifies data
      ensures Sorted(Contents())
      ensures multiset(Contents()) == multiset(old(Contents()))
      ensures count <= 1 ==> Contents() == old(Contents())
    {
      ghost var s0 := data[..];
      SortAux(data, 0, count - 1);
      if count <= 1 {
        ShortRangeUnchanged(s0, data[..], 0, count);
      }
    }

    /** cherche_var: bisection for `key`; the slot of an entry with that code, or
        None. It finds every present key once the index is sorted. */
    method Find(key: Code) returns (r: Option<nat>)
      requires Valid()
      ensures r == Search(Contents(), key, 0, count)
      ensures r.Some? ==> Entry(key, r.value) in Contents()
      ensures Sorted(Contents()) && HasCode(Contents(), key) ==> r.Some?
      ensures count == 0 ==> r == None
    {
      ghost var s := Contents();
      var res := -1;
      var inf := 0;
      var sup := count;
      var entry := Entry([], 0);
      while res != 0 && inf < sup
        invariant 0 <= inf <= sup <= count
        invariant res != 0 ==> Search(s, key, inf, sup) == Search(s, key, 0, count)
        invariant res == 0 ==> Search(s, key, 0, count) == Some(entry.slot)
        decreases sup - inf + (if res == 0 then 0 else 1)
      {
        var mid := (inf + sup) / 2;
        entry := data[mid];
        res := Cmp(key, entry.code);
        if res < 0 {
          sup := mid;
        } else if res > 0 {
          inf := mid + 1;
        }
      }
      if res == 0 {
        r := Some(entry.slot);
      } else {
        r := None;
      }
      if Sorted(s) && HasCode(s, key) {
        SearchFinds(s, key);
      }
      if r.Some? {
        SearchSound(s, key, r.value);
      }
    }
  }
}
