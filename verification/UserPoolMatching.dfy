/** Order-insensitive comparison of lists by greedy first-match marking. */
module UserPoolMatching {
  import opened Options

  /** A Go slice: nil, or a possibly empty list. */
  type Slice<T> = Option<seq<T>>

  /** The elements of right that are marked. */
  ghost function Marked<T>(right: seq<T>, matched: seq<bool>): multiset<T>
    requires |right| == |matched|
  {
    if right == [] then multiset{}
    else
      var last := |right| - 1;
      Marked(right[..last], matched[..last]) + if matched[last] then multiset{right[last]} else multiset{}
  }

  lemma {:induction false} NoneMarked<T>(right: seq<T>, matched: seq<bool>)
    requires |right| == |matched| && forall k :: 0 <= k < |matched| ==> !matched[k]
    ensures Marked(right, matched) == multiset{}
  {
    if right != [] { NoneMarked(right[..|right| - 1], matched[..|right| - 1]); }
  }

  /** Marking one more position adds its element. */
  lemma {:induction false} MarkOne<T>(right: seq<T>, matched: seq<bool>, index: nat)
    requires |right| == |matched| && index < |right| && !matched[index]
    ensures Marked(right, matched[index := true]) == Marked(right, matched) + multiset{right[index]}
  {
    var last := |right| - 1;
    var marked := matched[index := true];
    if index == last {
      assert marked[..last] == matched[..last];
    } else {
      MarkOne(right[..last], matched[..last], index);
      assert marked[..last] == matched[..last][index := true] && marked[last] == matched[last];
    }
  }

  /** When no unmarked element equals x, every x of right is among the marked ones. */
  lemma {:induction false} AllMarked<T>(right: seq<T>, matched: seq<bool>, x: T)
    requires |right| == |matched|
    requires forall k :: 0 <= k < |right| && right[k] == x ==> matched[k]
    ensures Marked(right, matched)[x] == multiset(right)[x]
  {
    if right != [] {
      var last := |right| - 1;
      AllMarked(right[..last], matched[..last], x);
      assert right == right[..last] + [right[last]];
    }
  }

  method UnorderedSliceEqual<T(==)>(left: Slice<T>, right: Slice<T>) returns (equal: bool)
    ensures equal <==> left.Some? == right.Some?
                       && multiset(left.GetOr([])) == multiset(right.GetOr([]))
  {
    var l, r := left.GetOr([]), right.GetOr([]);
    if left.Some? != right.Some? {
      return false;
    }
    if |l| != |r| {
      DifferentLengths(l, r);
      return false;
    }
    var matched := new bool[|r|](_ => false);
    NoneMarked(r, matched[..]);
    for i := 0 to |l|
      invariant Marked(r, matched[..]) == multiset(l[..i])
    {
      var found := MarkFirst(matched, r, l[i]);
      OneMoreThanBefore(l, i);
      if !found {
        NotFoundDiffers(l, r, matched[..], i);
        return false;
      }
    }
    assert l[..|l|] == l;
    SameCountIsAll(r, matched[..]);
    return true;
  }

  lemma DifferentLengths<T>(l: seq<T>, r: seq<T>)
    requires |l| != |r|
    ensures multiset(l) != multiset(r)
  {
    assert |multiset(l)| == |l| && |multiset(r)| == |r|;
  }

  /** An element with no unmarked partner occurs more often on the left. */
  lemma NotFoundDiffers<T>(l: seq<T>, r: seq<T>, matched: seq<bool>, i: nat)
    requires i < |l| && |r| == |matched| && Marked(r, matched) == multiset(l[..i])
    requires forall k :: 0 <= k < |r| && r[k] == l[i] ==> matched[k]
    ensures multiset(l) != multiset(r)
  {
    AllMarked(r, matched, l[i]);
    OneMoreThanBefore(l, i);
  }

  lemma OneMoreThanBefore<T>(s: seq<T>, i: nat)
    requires i < |s|
    ensures multiset(s[..i + 1]) == multiset(s[..i]) + multiset{s[i]}
    ensures multiset(s)[s[i]] > multiset(s[..i])[s[i]]
  {
    assert s[..i + 1] == s[..i] + [s[i]];
    assert s == s[..i + 1] + s[i + 1..];
  }

  /** Marks the first unmarked element equal to x, if there is one. */
  method MarkFirst<T(==)>(matched: array<bool>, right: seq<T>, x: T) returns (found: bool)
    requires matched.Length == |right|
    modifies matched
    ensures found ==> Marked(right, matched[..]) == Marked(right, old(matched[..])) + multiset{x}
    ensures !found ==> matched[..] == old(matched[..])
                       && forall k :: 0 <= k < |right| && right[k] == x ==> matched[k]
  {
    for index := 0 to |right|
      invariant matched[..] == old(matched[..])
      invariant forall k :: 0 <= k < index && right[k] == x ==> matched[k]
    {
      if matched[index] || x != right[index] {
        continue;
      }
      MarkOne(right, matched[..], index);
      matched[index] := true;
      assert matched[..] == old(matched[..])[index := true];
      return true;
    }
    return false;
  }

  /** As many marked elements as there are elements: all are marked. */
  lemma {:induction false} SameCountIsAll<T>(right: seq<T>, matched: seq<bool>)
    requires |right| == |matched|
    ensures |Marked(right, matched)| <= |right|
    ensures |Marked(right, matched)| == |right| ==> Marked(right, matched) == multiset(right)
  {
    if right != [] {
      var last := |right| - 1;
      SameCountIsAll(right[..last], matched[..last]);
      assert right == right[..last] + [right[last]];
    }
  }

  method OptionalUnorderedSliceEqual<T(==)>(left: Option<Slice<T>>, right: Option<Slice<T>>)
    returns (equal: bool)
    ensures equal <==>
              left.Some? == right.Some? &&
              (left.Some? ==>
                 left.value.Some? == right.value.Some?
                 && multiset(left.value.GetOr([])) == multiset(right.value.GetOr([])))
  {
    if left.Some? != right.Some? {
      return false;
    }
    if left.None? {
      return true;
    }
    equal := UnorderedSliceEqual(left.value, right.value);
  }
}
