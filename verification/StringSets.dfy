/** Lists of strings that stand for sets: each is brought to one canonical list. */
module StringSets {
  import opened StringOrder

  /** The list names the set: its strictly increasing arrangement. */
  ghost predicate Names(list: seq<string>, elements: set<string>) {
    StrictlyIncreasing(list) && Elements(list) == elements
  }

  ghost predicate Distinct(s: seq<string>) {
    forall i, j :: 0 <= i < j < |s| ==> s[i] != s[j]
  }

  lemma ElementsAppend(s: seq<string>, x: string)
    ensures Elements(s + [x]) == Elements(s) + {x}
    ensures Distinct(s + [x]) <==> Distinct(s) && x !in Elements(s)
  {
    if Distinct(s + [x]) {
      assert forall i, j :: 0 <= i < j < |s| ==> s[i] == (s + [x])[i] != (s + [x])[j] == s[j];
      assert forall i :: 0 <= i < |s| ==> s[i] == (s + [x])[i] != (s + [x])[|s|];
    }
  }

  lemma {:induction false} DistinctCount(s: seq<string>, x: string)
    requires Distinct(s)
    ensures multiset(s)[x] <= 1
  {
    if s != [] {
      var front, last := s[..|s| - 1], s[|s| - 1];
      assert s == front + [last];
      ElementsAppend(front, last);
      DistinctCount(front, x);
    }
  }

  lemma RepeatedCount(s: seq<string>, i: nat, j: nat)
    requires i < j < |s| && s[i] == s[j]
    ensures multiset(s)[s[i]] >= 2
  {
    assert s == s[..j] + [s[j]] + s[j + 1..];
    assert s[..j][i] == s[i] && s[i] in multiset(s[..j]);
  }

  lemma SameElements(s: seq<string>, t: seq<string>)
    requires multiset(s) == multiset(t)
    ensures Elements(s) == Elements(t)
  {
    forall x ensures x in s <==> x in t {
      assert x in s <==> x in multiset(s);
      assert x in t <==> x in multiset(t);
    }
  }

  /** Sorting a list without repetitions gives the canonical list of its set. */
  lemma SortedDistinctNames(s: seq<string>)
    requires Distinct(s)
    ensures Names(SortedCopy(s), Elements(s))
  {
    var r := SortedCopy(s);
    forall i, j | 0 <= i < j < |r| ensures Less(r[i], r[j]) {
      if r[i] == r[j] {
        RepeatedCount(r, i, j);
        DistinctCount(s, r[i]);
      }
    }
    SameElements(s, r);
  }

  method Sort(s: seq<string>) returns (r: seq<string>)
    ensures r == SortedCopy(s)
  {
    var a := new string[|s|](i requires 0 <= i < |s| => s[i]);
    assert a[..] == s;
    SortStrings(a);
    r := a[..];
  }

  /** Keeping each entry that differs from the last one kept. */
  function Compacted(s: seq<string>): seq<string> {
    if s == [] then []
    else
      var front := Compacted(s[..|s| - 1]);
      if front == [] || front[|front| - 1] != s[|s| - 1] then front + [s[|s| - 1]] else front
  }

  lemma {:induction false} CompactedLast(s: seq<string>)
    requires s != []
    ensures Compacted(s) != [] && Compacted(s)[|Compacted(s)| - 1] == s[|s| - 1]
  {
  }

  lemma SortedFront(front: seq<string>, last: string)
    requires Sorted(front + [last])
    ensures Sorted(front)
  {
    var s := front + [last];
    assert forall i :: 0 <= i < |front| ==> front[i] == s[i];
  }

  lemma {:induction false} CompactedNames(s: seq<string>)
    requires Sorted(s)
    ensures Names(Compacted(s), Elements(s))
  {
    if s != [] {
      var front, last := s[..|s| - 1], s[|s| - 1];
      assert s == front + [last];
      SortedFront(front, last);
      CompactedNames(front);
      if front != [] { CompactedLast(front); }
      CompactedAppend(front, last, Compacted(front));
    }
  }

  /** One more entry of a sorted list is kept exactly when it is greater than the last one kept. */
  lemma CompactedAppend(front: seq<string>, last: string, kept: seq<string>)
    requires Sorted(front + [last]) && Names(kept, Elements(front))
    requires front != [] ==> kept != [] && kept[|kept| - 1] == front[|front| - 1]
    ensures Names(if kept == [] || kept[|kept| - 1] != last then kept + [last] else kept,
                  Elements(front + [last]))
  {
    ElementsAppend(front, last);
    if kept == [] || kept[|kept| - 1] != last {
      if kept != [] {
        assert kept[0] in Elements(front);
        var s, n := front + [last], |front|;
        assert s[n - 1] == kept[|kept| - 1] && s[n] == last;
      }
      AppendGreater(kept, last);
      ElementsAppend(kept, last);
    } else {
      assert last in front;
    }
  }

  lemma AppendGreater(s: seq<string>, x: string)
    requires StrictlyIncreasing(s) && (s != [] ==> Less(s[|s| - 1], x))
    ensures StrictlyIncreasing(s + [x])
  {
    forall i | 0 <= i < |s| ensures Less(s[i], x) {
      if i < |s| - 1 { LessIsTransitive(s[i], s[|s| - 1], x); }
    }
  }

  /** Repetitions are squeezed out inside the sorted array: the writes never overtake the reads. */
  method StableOriginRequestPolicyItems(items: seq<string>) returns (unique: seq<string>)
    ensures Names(unique, Elements(items))
  {
    if |items| == 0 {
      return [];
    }
    var out := new string[|items|](i requires 0 <= i < |items| => items[i]);
    assert out[..] == items;
    SortStrings(out);
    ghost var sorted := out[..];
    var length := CompactInPlace(out);
    CompactedNames(sorted);
    SameElements(sorted, items);
    return out[..length];
  }

  /** The loop over the one backing array: read position i, write position length, length <= i. */
  method CompactInPlace(out: array<string>) returns (length: nat)
    modifies out
    ensures length <= out.Length && out[..length] == Compacted(old(out[..]))
  {
    ghost var input := out[..];
    length := 0;
    for i := 0 to out.Length
      invariant 0 <= length <= i
      invariant forall k :: i <= k < out.Length ==> out[k] == input[k]
      invariant out[..length] == Compacted(input[..i])
    {
      var item := out[i];
      CompactedStep(input, i);
      if length == 0 || out[length - 1] != item {
        WriteAt(out, length, item);
        length := length + 1;
      }
    }
    assert input[..out.Length] == input;
  }

  lemma CompactedStep(s: seq<string>, i: nat)
    requires i < |s|
    ensures var kept := Compacted(s[..i]);
            Compacted(s[..i + 1])
            == if kept == [] || kept[|kept| - 1] != s[i] then kept + [s[i]] else kept
  {
    assert s[..i + 1][..i] == s[..i];
  }

  /** Appending to a slice that ends before the array does overwrites the next cell. */
  method WriteAt(out: array<string>, position: nat, item: string)
    requires position < out.Length
    modifies out
    ensures out[..position + 1] == old(out[..position]) + [item]
    ensures forall k :: position < k < out.Length ==> out[k] == old(out[k])
  {
    out[position] := item;
  }

  /** The set of the non-empty strings, listed in order. */
  method AuthorizerStringSet(values: seq<string>) returns (out: seq<string>)
    ensures Names(out, Elements(values) - {""})
  {
    var seen: set<string> := {};
    for i := 0 to |values|
      invariant seen == Elements(values[..i]) - {""}
    {
      assert values[..i + 1] == values[..i] + [values[i]];
      ElementsAppend(values[..i], values[i]);
      if values[i] == "" {
        continue;
      }
      seen := seen + {values[i]};
    }
    assert values[..|values|] == values;
    var keys := seen;
    out := [];
    while keys != {}
      invariant keys <= seen && Distinct(out) && Elements(out) == seen - keys
      decreases |keys|
    {
      var value :| value in keys;
      ElementsAppend(out, value);
      keys := keys - {value};
      out := out + [value];
    }
    SortedDistinctNames(out);
    out := Sort(out);
  }

  method AuthorizerStringSetChanged(prior: seq<string>, current: seq<string>)
    returns (changed: bool)
    ensures changed <==> Elements(prior) - {""} != Elements(current) - {""}
  {
    var a := AuthorizerStringSet(prior);
    var b := AuthorizerStringSet(current);
    changed := a != b;
    if !changed || Elements(a) == Elements(b) { IncreasingListIsUnique(a, b); }
  }

  method NormalizedEmitSystemFields(fields: seq<string>) returns (out: seq<string>)
    ensures Names(out, Elements(fields))
  {
    if |fields| == 0 {
      return [];
    }
    var seen: set<string> := {};
    out := [];
    for i := 0 to |fields|
      invariant seen == Elements(out) == Elements(fields[..i])
      invariant Distinct(out)
    {
      assert fields[..i + 1] == fields[..i] + [fields[i]];
      ElementsAppend(fields[..i], fields[i]);
      if fields[i] in seen {
        continue;
      }
      ElementsAppend(out, fields[i]);
      seen := seen + {fields[i]};
      out := out + [fields[i]];
    }
    assert fields[..|fields|] == fields;
    SortedDistinctNames(out);
    out := Sort(out);
  }

  method SameStringSet(a: seq<string>, b: seq<string>) returns (same: bool)
    ensures same <==> Elements(a) == Elements(b)
  {
    var left := NormalizedEmitSystemFields(a);
    var right := NormalizedEmitSystemFields(b);
    same := left == right;
    if same || Elements(a) == Elements(b) { IncreasingListIsUnique(left, right); }
  }
}
