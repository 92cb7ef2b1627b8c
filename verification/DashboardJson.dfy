/** Equivalence of decoded dashboard bodies: it decides equality of meaning. */
module DashboardJson {
  import opened JsonNumber

  /** A decoded JSON value; numbers keep their text, as the decoder is told to leave them. */
  datatype Json =
    | Null
    | Bool(value: bool)
    | Text(text: string)
    | Number(literal: string)
    | Array(items: seq<Json>)
    | Object(members: map<string, Json>)
  {
    /** The decoder yields number literals of the JSON grammar only. */
    ghost predicate WellFormed() {
      match this
      case Number(literal) => IsJsonNumber(literal)
      case Array(items) => forall i :: 0 <= i < |items| ==> items[i].WellFormed()
      case Object(members) => forall k :: k in members ==> members[k].WellFormed()
      case _ => true
    }
  }

  /** What a JSON value stands for: numbers are rationals and objects are finite maps. */
  datatype Meaning =
    | NullMeaning
    | Truth(value: bool)
    | Characters(text: string)
    | Rational(number: real)
    | List(items: seq<Meaning>)
    | Record(members: map<string, Meaning>)

  ghost function Denote(json: Json): Meaning {
    match json
    case Null => NullMeaning
    case Bool(b) => Truth(b)
    case Text(s) => Characters(s)
    case Number(literal) => Rational(NumberValue(literal))
    case Array(items) => List(seq(|items|, i requires 0 <= i < |items| => Denote(items[i])))
    case Object(members) => Record(map k | k in members :: Denote(members[k]))
  }

  /** The comparison answers true exactly when both values stand for the same thing. */
  method EquivalentDashboardJsonValue(left: Json, right: Json) returns (equal: bool)
    requires left.WellFormed() && right.WellFormed()
    ensures equal <==> Denote(left) == Denote(right)
    decreases left
  {
    match left
    case Null =>
      return right.Null?;
    case Bool(b) =>
      return right.Bool? && b == right.value;
    case Text(s) =>
      return right.Text? && s == right.text;
    case Number(literal) =>
      if !right.Number? {
        return false;
      }
      equal := EquivalentDashboardJsonNumber(literal, right.literal);
    case Array(items) =>
      if !right.Array? {
        return false;
      }
      assert |Denote(left).items| == |items| && |Denote(right).items| == |right.items|;
      if |items| != |right.items| {
        return false;
      }
      for i := 0 to |items|
        invariant forall k :: 0 <= k < i ==> Denote(items[k]) == Denote(right.items[k])
      {
        var same := EquivalentDashboardJsonValue(items[i], right.items[i]);
        if !same {
          assert Denote(left).items[i] != Denote(right).items[i];
          return false;
        }
      }
      return true;
    case Object(members) =>
      if !right.Object? {
        return false;
      }
      equal := EquivalentMembers(left, right);
  }

  /** Equal sizes and inclusion of keys one way are enough: no key of the right is left over. */
  method EquivalentMembers(left: Json, right: Json) returns (equal: bool)
    requires left.Object? && right.Object? && left.WellFormed() && right.WellFormed()
    ensures equal <==> Denote(left) == Denote(right)
    decreases left, 0
  {
    var members, others := left.members, right.members;
    if |members| != |others| {
      assert Denote(left).members.Keys == members.Keys && Denote(right).members.Keys == others.Keys;
      assert |members.Keys| == |members| && |others.Keys| == |others|;
      return false;
    }
    var rest := members.Keys;
    while rest != {}
      invariant rest <= members.Keys
      invariant forall k :: k in members.Keys - rest ==>
                  k in others && Denote(members[k]) == Denote(others[k])
      decreases |rest|
    {
      var key :| key in rest;
      rest := rest - {key};
      if key !in others {
        assert key in Denote(left).members && key !in Denote(right).members;
        return false;
      }
      var same := EquivalentDashboardJsonValue(members[key], others[key]);
      if !same {
        assert Denote(left).members[key] != Denote(right).members[key];
        return false;
      }
    }
    SameKeys(members.Keys, others.Keys);
    assert Denote(left).members == Denote(right).members;
    return true;
  }

  lemma SameKeys<T>(a: set<T>, b: set<T>)
    requires a <= b && |a| == |b|
    ensures a == b
  {
    assert |b - a| == |b| - |a|;
  }
}
