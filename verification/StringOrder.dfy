/** The order Go sorts strings by, sorting, and sorted lists as names for sets. */
module StringOrder {

  /** Code unit by code unit; a proper prefix comes first. */
  predicate Less(a: string, b: string) {
    b != "" && (a == "" || a[0] < b[0] || (a[0] == b[0] && Less(a[1..], b[1..])))
  }

  /** The first difference decides, and a proper prefix comes first. */
  lemma {:induction false} LessMeaning(a: string, b: string)
    ensures Less(a, b)
            <==> exists n :: && 0 <= n <= |a| && n < |b| && a[..n] == b[..n]
                             && (n == |a| || a[n] < b[n])
  {
    if a != "" && b != "" && a[0] == b[0] {
      var a', b' := a[1..], b[1..];
      LessMeaning(a', b');
      if n :| 0 <= n <= |a'| && n < |b'| && a'[..n] == b'[..n] && (n == |a'| || a'[n] < b'[n]) {
        assert a[..n + 1] == [a[0]] + a'[..n] && b[..n + 1] == [b[0]] + b'[..n];
      }
      if n :| 0 <= n <= |a| && n < |b| && a[..n] == b[..n] && (n == |a| || a[n] < b[n]) {
        assert n > 0;
        assert a'[..n - 1] == a[..n][1..] && b'[..n - 1] == b[..n][1..];
      }
    } else if Less(a, b) {
      assert a[..0] == b[..0];
    } else if n :| 0 <= n <= |a| && n < |b| && a[..n] == b[..n] && (n == |a| || a[n] < b[n]) {
      if n > 0 { assert a[..n][0] == b[..n][0]; }
    }
  }

  lemma {:induction false} LessIsTotal(a: string, b: string)
    ensures Less(a, b) || a == b || Less(b, a)
  {
    if a != "" && b != "" && a[0] == b[0] {
      LessIsTotal(a[1..], b[1..]);
      assert a[1..] == b[1..] ==> a == [a[0]] + a[1..] == b;
    }
  }

  lemma {:induction false} LessIsAsymmetric(a: string, b: string)
    requires Less(a, b)
    ensures !Less(b, a) && a != b
  {
    if a != "" && a[0] == b[0] { LessIsAsymmetric(a[1..], b[1..]); }
  }

  lemma {:induction false} LessIsTransitive(a: string, b: string, c: string)
    requires Less(a, b) && Less(b, c)
    ensures Less(a, c)
  {
    if a != "" && a[0] == b[0] && b[0] == c[0] { LessIsTransitive(a[1..], b[1..], c[1..]); }
  }

  ghost predicate Sorted(s: seq<string>) {
    forall i, j :: 0 <= i < j < |s| ==> Less(s[i], s[j]) || s[i] == s[j]
  }

  ghost predicate StrictlyIncreasing(s: seq<string>) {
    forall i, j :: 0 <= i < j < |s| ==> Less(s[i], s[j])
  }

  ghost function Elements(s: seq<string>): set<string> {
    set x | x in s
  }

  /** The one sorted arrangement of a list, by insertion. */
  function SortedCopy(s: seq<string>): (r: seq<string>)
    ensures Sorted(r) && multiset(r) == multiset(s) && |r| == |s|
  {
    if s == [] then []
    else
      var rest := SortedCopy(s[..|s| - 1]);
      assert s == s[..|s| - 1] + [s[|s| - 1]];
      Insert(rest, s[|s| - 1])
  }

  function Insert(s: seq<string>, x: string): (r: seq<string>)
    requires Sorted(s)
    ensures Sorted(r) && multiset(r) == multiset(s) + multiset{x} && |r| == |s| + 1
  {
    if s == [] || !Less(x, s[|s| - 1]) then
      assert Sorted(s + [x]) by { AppendKeepsOrder(s, x); }
      s + [x]
    else
      var last := s[|s| - 1];
      var front := Insert(s[..|s| - 1], x);
      assert s == s[..|s| - 1] + [last];
      assert Sorted(front + [last]) by { InsertedBelow(s, x, front); }
      front + [last]
  }

  lemma AppendKeepsOrder(s: seq<string>, x: string)
    requires Sorted(s) && (s == [] || !Less(x, s[|s| - 1]))
    ensures Sorted(s + [x])
  {
    forall i | 0 <= i < |s| ensures Less(s[i], x) || s[i] == x {
      var last := s[|s| - 1];
      LessIsTotal(last, x);
      if Less(s[i], last) && Less(last, x) { LessIsTransitive(s[i], last, x); }
    }
  }

  lemma InsertedBelow(s: seq<string>, x: string, front: seq<string>)
    requires s != [] && Sorted(s) && Less(x, s[|s| - 1]) && Sorted(front)
    requires multiset(front) == multiset(s[..|s| - 1]) + multiset{x}
    ensures Sorted(front + [s[|s| - 1]])
  {
    forall i | 0 <= i < |front| ensures Less(front[i], s[|s| - 1]) || front[i] == s[|s| - 1] {
      assert front[i] in multiset(front);
      if front[i] != x {
        assert front[i] in s[..|s| - 1];
      }
    }
  }

  /** sort.Strings and slices.Sort: the array in place becomes its sorted arrangement. */
  method SortStrings(a: array<string>)
    modifies a
    ensures a[..] == SortedCopy(old(a[..]))
  {
    var sorted := SortedCopy(a[..]);
    forall i | 0 <= i < a.Length { a[i] := sorted[i]; }
  }

  /** A strictly increasing list is determined by its set of elements. */
  lemma {:induction false} IncreasingListIsUnique(a: seq<string>, b: seq<string>)
    requires StrictlyIncreasing(a) && StrictlyIncreasing(b) && Elements(a) == Elements(b)
    ensures a == b
  {
    NoElements(a);
    NoElements(b);
    if a != [] && b != [] {
      assert a[0] == b[0] by {
        LeastFirst(a, b);
        LeastFirst(b, a);
        if Less(a[0], b[0]) { LessIsAsymmetric(a[0], b[0]); }
      }
      forall x ensures x in a[1..] <==> x in b[1..] {
        TailElements(a, x);
        TailElements(b, x);
        assert x in Elements(a) <==> x in Elements(b);
      }
      assert Elements(a[1..]) == Elements(b[1..]);
      IncreasingListIsUnique(a[1..], b[1..]);
      assert a == [a[0]] + a[1..] && b == [b[0]] + b[1..];
    }
  }

  lemma NoElements(s: seq<string>)
    ensures Elements(s) == {} <==> s == []
  {
    if s != [] { assert s[0] in Elements(s); }
  }

  lemma LeastFirst(a: seq<string>, b: seq<string>)
    requires StrictlyIncreasing(a) && a != [] && b != [] && Elements(a) == Elements(b)
    ensures a[0] == b[0] || Less(a[0], b[0])
  {
    assert b[0] in Elements(a);
  }

  lemma TailElements(a: seq<string>, x: string)
    requires StrictlyIncreasing(a) && a != []
    ensures x in a[1..] <==> x in a && x != a[0]
  {
    if x in a[1..] {
      var i :| 1 <= i < |a| && a[i] == x;
      LessIsAsymmetric(a[0], a[i]);
    }
    assert a == [a[0]] + a[1..];
  }
}
