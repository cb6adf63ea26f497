/** The export set: an ordered list of object links that the helpers search
    and reorder (collada_utils.cpp). The singly linked list is modelled by
    the sequence, or for the in-place sort the array, of its links in list
    order. */
module ExportSet {
  import opened SceneObjects
  import opened Strings

  /** BLI_linklist_index: the position of the first link equal to `ob`, or
      -1 when there is none. */
  function LinkIndex(list: seq<Object>, ob: Object): (index: int)
    ensures -1 <= index < |list|
    ensures index == -1 <==> ob !in list
    ensures index >= 0 ==> list[index] == ob && ob !in list[..index]
  {
    if |list| == 0 then -1
    else if list[0] == ob then 0
    else
      var i := LinkIndex(list[1..], ob);
      assert list[1..] == list[..|list|][1..];
      if i == -1 then -1
      else
        assert list[..i + 1] == [list[0]] + list[1..][..i];
        i + 1
  }

  /** bc_is_in_Export_set: the object is one of the set's links. */
  function IsInExportSet(exportSet: seq<Object>, ob: Object): (r: bool)
    ensures r <==> ob in exportSet
  {
    LinkIndex(exportSet, ob) != -1
  }

  /** bc_has_object_type: some member has the given type and carries data. */
  method HasObjectType(exportSet: seq<Object>, obtype: int) returns (found: bool)
    ensures found <==> exists i :: 0 <= i < |exportSet| &&
                                   exportSet[i].objectType == obtype && exportSet[i].data != null
  {
    var i := 0;
    while i < |exportSet|
      invariant 0 <= i <= |exportSet|
      invariant forall k :: 0 <= k < i ==> !(exportSet[k].objectType == obtype && exportSet[k].data != null)
    {
      var ob := exportSet[i];
      if ob.objectType == obtype && ob.data != null {
        return true;
      }
      i := i + 1;
    }
    return false;
  }

  /** `x`'s name sorts no later than `y`'s. */
  predicate NameLe(x: Object, y: Object)
  {
    StrCmp(x.name, y.name) <= 0
  }

  /** The links are in non-decreasing name order. */
  ghost predicate SortedByName(s: seq<Object>)
  {
    forall i, j :: 0 <= i < j < |s| ==> NameLe(s[i], s[j])
  }

  /** Every link from position m on is in its final place: no earlier link
      sorts after it. */
  ghost predicate PlacedFrom(s: seq<Object>, m: int)
  {
    forall i, j :: 0 <= i < j < |s| && m <= j ==> NameLe(s[i], s[j])
  }

  /** Every link sorts no later than the link after it. */
  ghost predicate AdjacentInOrder(s: seq<Object>)
  {
    forall k :: 0 <= k < |s| - 1 ==> NameLe(s[k], s[k + 1])
  }

  /** The link at c sorts no earlier than any link before it. */
  ghost predicate PrefixMaxAt(s: seq<Object>, c: int)
  {
    0 <= c < |s| && forall k :: 0 <= k <= c ==> NameLe(s[k], s[c])
  }

  /** Neighbours in order, from position i to position j. */
  lemma {:induction false} NeighboursInOrder(s: seq<Object>, i: int, j: int)
    requires 0 <= i <= j < |s|
    requires AdjacentInOrder(s)
    ensures StrCmp(s[i].name, s[j].name) <= 0
    decreases j - i
  {
    if i < j {
      NeighboursInOrder(s, i + 1, j);
      StrCmpTransitive(s[i].name, s[i + 1].name, s[j].name);
    }
  }

  /** bc_bubble_sort_by_Object_name: bubble sort of the links by name.
      Each pass swaps neighbours whose names are out of order; passes stop
      after one that swaps nothing, and there are at most n - 1 of them. The
      list keeps its nodes: only the links move, and they are permuted. A list
      already in order is left as it is after a single pass. */
  method BubbleSortByObjectName(links: array<Object>) returns (ghost passes: nat)
    requires links.Length > 0
    modifies links
    ensures (links[..], passes as int) == SortLoop(old(links[..]), 0, false)
    ensures multiset(links[..]) == multiset(old(links[..]))
    ensures SortedByName(links[..])
    ensures passes <= links.Length - 1
    ensures old(AdjacentInOrder(links[..])) ==>
            links[..] == old(links[..]) && passes == (if links.Length > 1 then 1 else 0)
  {
    var n := links.Length;
    ghost var s0 := links[..];
    var sorted := false;
    var node := 0;
    passes := 0;
    while node < n - 1 && !sorted
      invariant 0 <= node <= n - 1 && passes == node
      invariant SortLoop(links[..], node, sorted) == SortLoop(s0, 0, false)
    {
      sorted := BubblePass(links);
      node := node + 1;
      passes := passes + 1;
    }
    SortLoopSorts(s0, 0, links[..], passes);
    if AdjacentInOrder(s0) {
      SortInOrder(s0, links[..], passes);
    }
  }

  /** The links and the pass count the outer loop ends with, from the point
      where `node` passes have run and `sorted` tells whether the last of them
      swapped nothing: another pass runs while fewer than n - 1 have and the
      last one swapped something. */
  function SortLoop(s: seq<Object>, node: int, sorted: bool): (r: (seq<Object>, int))
    requires 0 <= node <= |s| - 1
    decreases |s| - node
  {
    if node < |s| - 1 && !sorted then
      SortLoop(PassUpTo(s, |s| - 1), node + 1, SwapFreeUpTo(s, |s| - 1))
    else (s, node)
  }

  /** Links already in order take one pass (none for a single link) and do
      not move. */
  lemma SortInOrder(s: seq<Object>, r: seq<Object>, passes: int)
    requires |s| > 0 && AdjacentInOrder(s) && (r, passes) == SortLoop(s, 0, false)
    ensures r == s && passes == (if |s| > 1 then 1 else 0)
  {
    if |s| > 1 {
      PassProperties(s, |s|, PassUpTo(s, |s| - 1), SwapFreeUpTo(s, |s| - 1));
    }
  }

  /** From any point of the outer loop at which the last `node` positions
      (those from n - node on) are placed, the sort ends with a permutation sorted by name, and the
      pass count never exceeds n - 1. */
  lemma {:induction false} SortLoopSorts(s: seq<Object>, node: int, r: seq<Object>, passes: int)
    requires 0 <= node <= |s| - 1 && PlacedFrom(s, |s| - node)
    requires (r, passes) == SortLoop(s, node, false)
    ensures multiset(r) == multiset(s)
    ensures SortedByName(r)
    ensures node <= passes <= |s| - 1
    decreases |s| - node
  {
    if node == |s| - 1 {
      assert r == s;
      PlacedAllSorted(s);
    } else {
      var next := PassUpTo(s, |s| - 1);
      var sorted := SwapFreeUpTo(s, |s| - 1);
      PassProperties(s, |s| - node, next, sorted);
      if sorted {
        assert r == next;
        AdjacentSorted(next);
      } else {
        assert (r, passes) == SortLoop(next, node + 1, false);
        SortLoopSorts(next, node + 1, r, passes);
      }
    }
  }

  /** Links placed from position 1 on are sorted. */
  lemma PlacedAllSorted(s: seq<Object>)
    requires PlacedFrom(s, 1)
    ensures SortedByName(s)
  {
  }

  /** Links whose neighbours are in order are sorted. */
  lemma AdjacentSorted(s: seq<Object>)
    requires AdjacentInOrder(s)
    ensures SortedByName(s)
  {
    forall i, j | 0 <= i < j < |s|
      ensures NameLe(s[i], s[j])
    {
      NeighboursInOrder(s, i, j);
    }
  }

  /** The links after comparing the pair at c by name and exchanging it when
      the first sorts after the second. */
  function CompareStep(s: seq<Object>, c: int): (r: seq<Object>)
    requires 0 <= c && c + 1 < |s|
    ensures |r| == |s|
  {
    if StrCmp(s[c].name, s[c + 1].name) > 0 then s[c := s[c + 1]][c + 1 := s[c]] else s
  }

  /** The links after a pass has compared the first k pairs. */
  function PassUpTo(s0: seq<Object>, k: int): (r: seq<Object>)
    requires 0 <= k < |s0|
    ensures |r| == |s0|
    decreases k
  {
    if k == 0 then s0 else CompareStep(PassUpTo(s0, k - 1), k - 1)
  }

  /** None of the first k comparisons of a pass exchanged its pair. */
  function SwapFreeUpTo(s0: seq<Object>, k: int): bool
    requires 0 <= k < |s0|
    decreases k
  {
    k == 0 ||
    (SwapFreeUpTo(s0, k - 1) &&
     var s := PassUpTo(s0, k - 1);
     StrCmp(s[k - 1].name, s[k].name) <= 0)
  }

  /** One pass of the sort (the inner loop): walks every neighbour pair from
      the head and swaps those out of order; `sorted` tells that nothing was
      swapped. */
  method BubblePass(links: array<Object>) returns (sorted: bool)
    requires links.Length > 0
    modifies links
    ensures links[..] == PassUpTo(old(links[..]), links.Length - 1)
    ensures sorted == SwapFreeUpTo(old(links[..]), links.Length - 1)
  {
    var n := links.Length;
    ghost var s0 := links[..];
    sorted := true;
    var current := 0;
    while current < n - 1
      invariant 0 <= current <= n - 1
      invariant links[..] == PassUpTo(s0, current)
      invariant sorted == SwapFreeUpTo(s0, current)
    {
      var swapped := CompareAndSwap(links, current);
      if swapped {
        sorted := false;
      }
      current := current + 1;
    }
  }

  /** A pass permutes the links, and swaps nothing exactly when they were
      already in order, in which case they stay as they are. */
  lemma PassSwapFree(s0: seq<Object>, s: seq<Object>, sorted: bool)
    requires |s0| > 0
    requires s == PassUpTo(s0, |s0| - 1) && sorted == SwapFreeUpTo(s0, |s0| - 1)
    ensures multiset(s) == multiset(s0)
    ensures sorted <==> AdjacentInOrder(s0)
    ensures sorted ==> s == s0
  {
    if |s0| > 1 {
      PassProperties(s0, |s0|, s, sorted);
    }
  }

  /** What a whole pass does to links whose suffix from m is placed: it
      permutes them and places one more position; it swaps nothing exactly
      when the links were in order, and then leaves them as they are. */
  lemma PassProperties(s0: seq<Object>, m: int, s: seq<Object>, sorted: bool)
    requires 2 <= m <= |s0| && PlacedFrom(s0, m)
    requires s == PassUpTo(s0, |s0| - 1) && sorted == SwapFreeUpTo(s0, |s0| - 1)
    ensures multiset(s) == multiset(s0)
    ensures PlacedFrom(s, m - 1)
    ensures sorted <==> AdjacentInOrder(s0)
    ensures sorted ==> s == s0 && AdjacentInOrder(s)
  {
    PassUpToInvariant(s0, m, |s0| - 1);
    PassEnd(s, s0, m, |s0| - 1, sorted);
  }

  /** Every prefix of a pass keeps the pass invariant. */
  lemma {:induction false} PassUpToInvariant(s0: seq<Object>, m: int, k: int)
    requires 2 <= m <= |s0| && PlacedFrom(s0, m) && 0 <= k < |s0|
    ensures PassInvariant(PassUpTo(s0, k), s0, m, k, SwapFreeUpTo(s0, k))
    decreases k
  {
    if k == 0 {
      PassStart(s0, m);
    } else {
      PassUpToInvariant(s0, m, k - 1);
      var s := PassUpTo(s0, k - 1);
      var t := PassUpTo(s0, k);
      assert t == CompareStep(s, k - 1);
      PassStep(s, t, s0, m, k - 1, SwapFreeUpTo(s0, k - 1), SwapFreeUpTo(s0, k));
    }
  }

  /** Before its first comparison a pass knows nothing has moved. */
  lemma PassStart(s0: seq<Object>, m: int)
    requires 2 <= m <= |s0| && PlacedFrom(s0, m)
    ensures PassInvariant(s0, s0, m, 0, true)
  {
  }

  /** What a pass knows after comparing the pairs before `current`, `s0`
      being the links before the pass: they are permuted, the suffix from m
      stays placed, the largest of the prefix up to `current` sits at
      `current`, and `sorted` tells whether the original pairs so far were in
      order, in which case nothing has moved. */
  ghost predicate PassInvariant(s: seq<Object>, s0: seq<Object>, m: int, current: int, sorted: bool)
  {
    |s| == |s0| && 2 <= m <= |s| && 0 <= current <= |s| - 1 &&
    multiset(s) == multiset(s0) &&
    PlacedFrom(s, m) &&
    PrefixMaxAt(s, current) &&
    (current >= m - 1 ==> PrefixMaxAt(s, m - 1)) &&
    (sorted <==> forall k :: 0 <= k < current ==> NameLe(s0[k], s0[k + 1])) &&
    (sorted ==> s == s0)
  }

  /** At the end of a pass one more link is placed, and `sorted` tells that
      the links were in order before the pass, and are unchanged. */
  lemma PassEnd(s: seq<Object>, s0: seq<Object>, m: int, current: int, sorted: bool)
    requires PassInvariant(s, s0, m, current, sorted) && current >= |s| - 1
    ensures PlacedFrom(s, m - 1)
    ensures sorted <==> AdjacentInOrder(s0)
    ensures sorted ==> s == s0 && AdjacentInOrder(s)
  {
  }

  /** One comparison of the pass, from links `s` to links `t`, keeps the
      pass invariant one position further on. */
  lemma PassStep(s: seq<Object>, t: seq<Object>, s0: seq<Object>, m: int, c: int, sorted: bool, sorted': bool)
    requires PassInvariant(s, s0, m, c, sorted) && c < |s| - 1
    requires t == CompareStep(s, c)
    requires sorted' == (sorted && StrCmp(s[c].name, s[c + 1].name) <= 0)
    ensures PassInvariant(t, s0, m, c + 1, sorted')
  {
    var swapped := StrCmp(s[c].name, s[c + 1].name) > 0;
    if c + 1 >= m {
      assert NameLe(s[c], s[c + 1]);
    }
    if sorted {
      assert s[c] == s0[c] && s[c + 1] == s0[c + 1];
    }
    if swapped {
      StrCmpAntisymmetric(s[c].name, s[c + 1].name);
      PlacedAfterSwap(s, c, m);
      SwapMovesMaxUp(s, c);
    } else {
      MaxMovesUp(s, c);
    }
  }

  /** Exchanging an out-of-order pair after the largest of the prefix moves
      that largest one position up, and permutes the links. */
  lemma SwapMovesMaxUp(s: seq<Object>, c: int)
    requires PrefixMaxAt(s, c) && c + 1 < |s|
    requires NameLe(s[c + 1], s[c])
    ensures PrefixMaxAt(s[c := s[c + 1]][c + 1 := s[c]], c + 1)
    ensures multiset(s[c := s[c + 1]][c + 1 := s[c]]) == multiset(s)
  {
  }

  /** A neighbour that sorts no earlier than the largest of a prefix is the
      largest of the prefix one longer. */
  lemma MaxMovesUp(s: seq<Object>, c: int)
    requires 0 <= c && c + 1 < |s|
    requires PrefixMaxAt(s, c)
    requires NameLe(s[c], s[c + 1])
    ensures PrefixMaxAt(s, c + 1)
  {
    forall k | 0 <= k <= c
      ensures NameLe(s[k], s[c + 1])
    {
      StrCmpTransitive(s[k].name, s[c].name, s[c + 1].name);
    }
  }

  /** Exchanging two neighbours before the placed suffix keeps it placed. */
  lemma PlacedAfterSwap(s: seq<Object>, c: int, m: int)
    requires 0 <= c && c + 1 < m && c + 1 < |s|
    requires PlacedFrom(s, m)
    ensures PlacedFrom(s[c := s[c + 1]][c + 1 := s[c]], m)
  {
  }

  /** The body of a pass: compares the links at c and c + 1 by name and
      swaps them when the first sorts after the second; nothing else
      moves. */
  method CompareAndSwap(links: array<Object>, c: int) returns (swapped: bool)
    requires 0 <= c && c + 1 < links.Length
    modifies links
    ensures swapped <==> StrCmp(old(links[c]).name, old(links[c + 1]).name) > 0
    ensures swapped ==> links[..] == old(links[..])[c := old(links[c + 1])][c + 1 := old(links[c])]
    ensures !swapped ==> links[..] == old(links[..])
  {
    var a := links[c];
    var b := links[c + 1];
    if StrCmp(a.name, b.name) > 0 {
      links[c] := b;
      links[c + 1] := a;
      swapped := true;
    } else {
      swapped := false;
    }
  }
}
