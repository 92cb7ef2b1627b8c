/** Service DNS names: parsing and printing, forward and reverse. */
module ServiceNames {
  import opened Options

  // ---------- labels ----------

  predicate DotFree(s: string) {
    '.' !in s
  }

  /** strings.Split at every dot; the result is never empty. */
  function Split(s: string): (labels: seq<string>)
    ensures labels != []
    ensures forall l :: l in labels ==> DotFree(l)
  {
    if s == "" then [""]
    else
      var rest := Split(s[1..]);
      assert DotFree(rest[0]) by { assert rest[0] in rest; }
      if s[0] == '.' then [""] + rest else [[s[0]] + rest[0]] + rest[1..]
  }

  function Join(labels: seq<string>): string {
    if labels == [] then ""
    else if |labels| == 1 then labels[0]
    else labels[0] + "." + Join(labels[1..])
  }

  lemma JoinFirst(first: string, rest: seq<string>)
    requires rest != []
    ensures Join([first] + rest) == first + "." + Join(rest)
  {
    assert ([first] + rest)[1..] == rest;
  }

  lemma JoinLonger(c: char, labels: seq<string>)
    requires labels != []
    ensures Join([[c] + labels[0]] + labels[1..]) == [c] + Join(labels)
  {
    var longer := [[c] + labels[0]] + labels[1..];
    assert longer[1..] == labels[1..];
    if |labels| > 1 {
      assert [c] + labels[0] + "." + Join(labels[1..]) == [c] + (labels[0] + "." + Join(labels[1..]));
    }
  }

  lemma {:induction false} JoinOfSplit(s: string)
    ensures Join(Split(s)) == s
  {
    if s != "" {
      JoinOfSplit(s[1..]);
      var rest := Split(s[1..]);
      assert s == [s[0]] + s[1..];
      if s[0] == '.' {
        JoinFirst("", rest);
      } else {
        JoinLonger(s[0], rest);
      }
    }
  }

  lemma {:induction false} SplitOfJoin(labels: seq<string>)
    requires labels != [] && forall l :: l in labels ==> DotFree(l)
    ensures Split(Join(labels)) == labels
  {
    if |labels| == 1 {
      SplitDotFree(labels[0]);
      assert labels == [labels[0]];
    } else {
      SplitOfJoin(labels[1..]);
      SplitAtDot(labels[0], Join(labels[1..]));
      assert labels == [labels[0]] + labels[1..];
    }
  }

  lemma {:induction false} SplitDotFree(s: string)
    requires DotFree(s)
    ensures Split(s) == [s]
  {
    if s != "" {
      SplitDotFree(s[1..]);
      assert s == [s[0]] + s[1..];
    }
  }

  lemma {:induction false} SplitAtDot(first: string, rest: string)
    requires DotFree(first)
    ensures Split(first + "." + rest) == [first] + Split(rest)
  {
    var s := first + "." + rest;
    if first == "" {
      assert s[1..] == rest;
    } else {
      SplitAtDot(first[1..], rest);
      assert s[1..] == first[1..] + "." + rest;
      assert first == [first[0]] + first[1..];
    }
  }

  function Reversed<T>(s: seq<T>): (r: seq<T>)
    ensures |r| == |s| && forall i :: 0 <= i < |s| ==> r[i] == s[|s| - 1 - i]
  {
    seq(|s|, i requires 0 <= i < |s| => s[|s| - 1 - i])
  }

  // ---------- ASCII lower case ----------

  function LowerChar(c: char): char {
    if 'A' <= c <= 'Z' then (c as int + 32) as char else c
  }

  function Lower(s: string): (r: string)
    ensures |r| == |s| && forall i :: 0 <= i < |s| ==> r[i] == LowerChar(s[i])
  {
    seq(|s|, i requires 0 <= i < |s| => LowerChar(s[i]))
  }

  /** The ASCII capitals become small letters and every other character stays. */
  lemma LowerIsAscii(i: nat, c: char)
    requires i < 26
    ensures LowerChar("ABCDEFGHIJKLMNOPQRSTUVWXYZ"[i]) == "abcdefghijklmnopqrstuvwxyz"[i]
    ensures c !in "ABCDEFGHIJKLMNOPQRSTUVWXYZ" ==> LowerChar(c) == c
  {
    var capitals := "ABCDEFGHIJKLMNOPQRSTUVWXYZ";
    if 'A' <= c <= 'Z' { assert capitals[c as int - 'A' as int] == c; }
  }

  predicate IsLower(s: string) {
    Lower(s) == s
  }

  lemma LowerTwice(s: string)
    ensures Lower(Lower(s)) == Lower(s)
  {
  }

  lemma LowerConcat(a: string, b: string)
    ensures Lower(a + b) == Lower(a) + Lower(b)
  {
  }

  lemma {:induction false} LowerLabels(labels: seq<string>)
    ensures IsLower(Join(labels)) <==> forall i :: 0 <= i < |labels| ==> IsLower(labels[i])
  {
    if |labels| > 1 {
      var head, tail := labels[0] + ".", Join(labels[1..]);
      LowerLabels(labels[1..]);
      LowerConcat(head, tail);
      LowerConcat(labels[0], ".");
      LowerParts(head, tail);
      LowerParts(labels[0], ".");
      assert forall i :: 1 <= i < |labels| ==> labels[i] == labels[1..][i - 1];
    } else if |labels| == 1 {
      assert Join(labels) == labels[0];
    }
  }

  lemma LowerParts(a: string, b: string)
    ensures IsLower(a + b) <==> IsLower(a) && IsLower(b)
  {
    LowerConcat(a, b);
    if IsLower(a + b) {
      assert Lower(a) == (Lower(a) + Lower(b))[..|a|] == (a + b)[..|a|] == a;
      assert Lower(b) == (Lower(a) + Lower(b))[|a|..] == (a + b)[|a|..] == b;
    }
  }

  // ---------- parsing and printing ----------

  datatype Service = Service(region: string, prefix: string, serviceId: string)

  /** The labels of a reverse name: a prefix of at least two, the region, the service. */
  function ParseServiceParts(parts: seq<string>): Option<Service> {
    var n := |parts|;
    if n < 4 then None
    else Some(Service(parts[n - 2], Join(parts[..n - 2]), parts[n - 1]))
  }

  function ParseReverseServiceDnsName(v: string): Option<Service> {
    ParseServiceParts(Split(Lower(v)))
  }

  function ReverseDnsName(prefix: string, region: string, serviceId: string): string {
    prefix + "." + region + "." + serviceId
  }

  function PrintReverse(s: Service): string {
    ReverseDnsName(s.prefix, s.region, s.serviceId)
  }

  /** Two indices move toward each other and swap. */
  method ReverseInPlace<T>(values: array<T>)
    modifies values
    ensures values[..] == Reversed(old(values[..]))
  {
    var i, j := 0, values.Length - 1;
    while i < j
      invariant 0 <= i <= j + 1 && i + j == values.Length - 1
      invariant forall k :: i <= k <= j ==> values[k] == old(values[k])
      invariant forall k :: 0 <= k < i ==> values[k] == old(values[values.Length - 1 - k])
      invariant forall k :: j < k < values.Length ==> values[k] == old(values[values.Length - 1 - k])
    {
      values[i], values[j] := values[j], values[i];
      i, j := i + 1, j - 1;
    }
  }

  ghost function ForwardParse(v: string): Option<Service> {
    ParseServiceParts(Reversed(Split(Lower(v))))
  }

  method ParseServiceDnsName(v: string) returns (service: Option<Service>)
    ensures service == ForwardParse(v)
  {
    var labels := Split(Lower(v));
    var parts := new string[|labels|](i requires 0 <= i < |labels| => labels[i]);
    assert parts[..] == labels;
    ReverseInPlace(parts);
    service := ParseServiceParts(parts[..]);
  }

  ghost function ForwardName(reverseName: string): string {
    Lower(Join(Reversed(Split(reverseName))))
  }

  method DnsName(reverseName: string) returns (name: string)
    ensures name == ForwardName(reverseName)
  {
    var labels := Split(reverseName);
    var parts := new string[|labels|](i requires 0 <= i < |labels| => labels[i]);
    assert parts[..] == labels;
    ReverseInPlace(parts);
    name := Lower(Join(parts[..]));
  }

  method ReverseDnsPrefix(dnsSuffix: string) returns (prefix: string)
    ensures Split(prefix) == Reversed(Split(dnsSuffix))
  {
    var labels := Split(dnsSuffix);
    var parts := new string[|labels|](i requires 0 <= i < |labels| => labels[i]);
    assert parts[..] == labels;
    ReverseInPlace(parts);
    prefix := Join(parts[..]);
    SplitOfJoin(parts[..]);
  }

  lemma {:induction false} JoinConcat(a: seq<string>, b: seq<string>)
    requires a != [] && b != []
    ensures Join(a + b) == Join(a) + "." + Join(b)
  {
    if |a| == 1 {
      assert (a + b)[1..] == b;
    } else {
      JoinConcat(a[1..], b);
      assert (a + b)[1..] == a[1..] + b;
      assert a[0] + "." + (Join(a[1..]) + "." + Join(b)) == a[0] + "." + Join(a[1..]) + "." + Join(b);
    }
  }

  lemma PrintOfLabels(prefix: seq<string>, region: string, serviceId: string)
    requires prefix != []
    ensures PrintReverse(Service(region, Join(prefix), serviceId))
            == Join(prefix + [region, serviceId])
  {
    JoinConcat(prefix, [region, serviceId]);
    assert [region, serviceId][1..] == [serviceId];
    Regroup(Join(prefix), region, serviceId);
  }

  lemma Regroup(a: string, b: string, c: string)
    ensures a + "." + (b + "." + c) == a + "." + b + "." + c
  {
  }

  lemma LastTwo(parts: seq<string>)
    requires |parts| >= 2
    ensures parts[..|parts| - 2] + [parts[|parts| - 2], parts[|parts| - 1]] == parts
  {
  }

  /** Printing what was parsed gives back the labels. */
  lemma PrintOfParts(parts: seq<string>)
    requires |parts| >= 4
    ensures PrintReverse(ParseServiceParts(parts).value) == Join(parts)
  {
    var prefix, region, serviceId := parts[..|parts| - 2], parts[|parts| - 2], parts[|parts| - 1];
    LastTwo(parts);
    PrintOfLabels(prefix, region, serviceId);
  }

  /** Every name of at least four labels parses, and printing gives back its lower-case form. */
  lemma {:induction false} ParseThenPrint(v: string)
    ensures ParseReverseServiceDnsName(v).Some? <==> |Split(v)| >= 4
    ensures ParseReverseServiceDnsName(v).Some? ==>
              PrintReverse(ParseReverseServiceDnsName(v).value) == Lower(v)
    ensures ForwardParse(v).Some? <==> |Split(v)| >= 4
    ensures ForwardParse(v).Some? ==>
              ForwardName(PrintReverse(ForwardParse(v).value)) == Lower(v)
  {
    SplitLower(v);
    var labels := Split(Lower(v));
    if |labels| >= 4 {
      PrintOfParts(labels);
      JoinOfSplit(Lower(v));
      var reversed := Reversed(labels);
      PrintOfParts(reversed);
      assert forall l :: l in reversed ==> DotFree(l);
      SplitOfJoin(reversed);
      assert Reversed(reversed) == labels;
      LowerTwice(v);
    }
  }

  lemma {:induction false} SplitLower(s: string)
    ensures |Split(Lower(s))| == |Split(s)|
  {
    if s != "" {
      assert Lower(s)[1..] == Lower(s[1..]);
      SplitLower(s[1..]);
    }
  }

  /** A service that printing and parsing give back unchanged. */
  ghost predicate Printable(s: Service) {
    && IsLower(s.prefix) && IsLower(s.region) && IsLower(s.serviceId)
    && DotFree(s.region) && DotFree(s.serviceId) && |Split(s.prefix)| >= 2
  }

  /** Both round trips hold exactly for lower-case fields, dot-free region and service, and a
      prefix of at least two labels. */
  lemma {:induction false} PrintThenParse(s: Service)
    ensures ParseReverseServiceDnsName(PrintReverse(s)) == Some(s) <==> Printable(s)
    ensures ForwardParse(ForwardName(PrintReverse(s))) == Some(s) <==> Printable(s)
  {
    ParsedIsPrintable(PrintReverse(s));
    ForwardParsedIsPrintable(ForwardName(PrintReverse(s)));
    if Printable(s) {
      PrintableParses(s);
      PrintableParsesForward(s);
    }
  }

  ghost function LabelsOf(s: Service): seq<string> {
    Split(s.prefix) + [s.region, s.serviceId]
  }

  /** Lower-case labels without dots. */
  ghost predicate CleanLabels(labels: seq<string>) {
    && labels != []
    && (forall i :: 0 <= i < |labels| ==> IsLower(labels[i]))
    && (forall l :: l in labels ==> DotFree(l))
  }

  lemma CleanJoin(labels: seq<string>)
    requires CleanLabels(labels)
    ensures Split(Lower(Join(labels))) == labels
  {
    LowerLabels(labels);
    SplitOfJoin(labels);
  }

  lemma CleanReversed(labels: seq<string>)
    requires CleanLabels(labels)
    ensures CleanLabels(Reversed(labels)) && Reversed(Reversed(labels)) == labels
  {
  }

  lemma CleanSplit(v: string)
    ensures CleanLabels(Split(Lower(v)))
  {
    JoinOfSplit(Lower(v));
    LowerTwice(v);
    LowerLabels(Split(Lower(v)));
  }

  lemma PrintableLabels(s: Service)
    requires Printable(s)
    ensures CleanLabels(LabelsOf(s)) && PrintReverse(s) == Join(LabelsOf(s))
    ensures ParseServiceParts(LabelsOf(s)) == Some(s)
  {
    JoinOfSplit(s.prefix);
    PrintOfLabels(Split(s.prefix), s.region, s.serviceId);
    LowerLabels(Split(s.prefix));
    assert LabelsOf(s)[..|LabelsOf(s)| - 2] == Split(s.prefix);
  }

  lemma PrintableParses(s: Service)
    requires Printable(s)
    ensures ParseReverseServiceDnsName(PrintReverse(s)) == Some(s)
  {
    PrintableLabels(s);
    CleanJoin(LabelsOf(s));
  }

  lemma PrintableParsesForward(s: Service)
    requires Printable(s)
    ensures ForwardParse(ForwardName(PrintReverse(s))) == Some(s)
  {
    var labels := LabelsOf(s);
    PrintableLabels(s);
    SplitOfJoin(labels);
    CleanReversed(labels);
    CleanJoin(Reversed(labels));
    LowerTwice(Join(Reversed(labels)));
  }

  /** Clean labels give a printable service. */
  lemma PartsArePrintable(parts: seq<string>)
    requires |parts| >= 4 && CleanLabels(parts)
    ensures Printable(ParseServiceParts(parts).value)
  {
    var prefix := parts[..|parts| - 2];
    LowerLabels(prefix);
    SplitOfJoin(prefix);
  }

  lemma ParsedIsPrintable(v: string)
    ensures ParseReverseServiceDnsName(v).Some? ==>
              Printable(ParseReverseServiceDnsName(v).value)
  {
    CleanSplit(v);
    if |Split(Lower(v))| >= 4 { PartsArePrintable(Split(Lower(v))); }
  }

  lemma ForwardParsedIsPrintable(v: string)
    ensures ForwardParse(v).Some? ==> Printable(ForwardParse(v).value)
  {
    var labels := Split(Lower(v));
    if |labels| >= 4 {
      CleanSplit(v);
      CleanReversed(labels);
      PartsArePrintable(Reversed(labels));
    }
  }

  /** A dot in a service id moves the region into the prefix and the id's head into the region. */
  lemma DottedServiceIdIsMisread(region: string, prefix: string, head: string, tail: string)
    requires Printable(Service(head, prefix + "." + region, tail))
    ensures var printed := PrintReverse(Service(region, prefix, head + "." + tail));
            ParseReverseServiceDnsName(printed)
            == Some(Service(head, prefix + "." + region, tail))
  {
    PrintThenParse(Service(head, prefix + "." + region, tail));
    Regroup(prefix + "." + region, head, tail);
  }

  lemma DottedServiceIdExample()
    ensures !Printable(Service("r", "a.b", "c.d"))
    ensures ParseReverseServiceDnsName(PrintReverse(Service("r", "a.b", "c.d")))
            == Some(Service("c", "a.b.r", "d"))
  {
    assert "c.d"[1] == '.';
    DottedExamplePrintable();
    assert "a.b" + "." + "r" == "a.b.r" && "c" + "." + "d" == "c.d";
    DottedServiceIdIsMisread("r", "a.b", "c", "d");
  }

  lemma DottedExamplePrintable()
    ensures Printable(Service("c", "a.b.r", "d"))
  {
    SplitAtDot("a", "b.r");
    assert "a" + "." + "b.r" == "a.b.r";
  }

  // ---------- resolving ----------

  /** The names given so far; the empty string is a name not given. */
  class ResolvedService {
    var region: string
    var prefix: string
    var serviceId: string

    constructor (region: string, prefix: string, serviceId: string)
      ensures Value() == Service(region, prefix, serviceId)
    {
      this.region, this.prefix, this.serviceId := region, prefix, serviceId;
    }

    function Value(): Service
      reads this
    {
      Service(region, prefix, serviceId)
    }

    /** A parsed name is taken over unless it contradicts a name given before. */
    method Merge(parsed: Service) returns (ok: bool)
      modifies this
      ensures ok <==> && old(region) in {"", parsed.region}
                      && old(prefix) in {"", parsed.prefix}
                      && old(serviceId) in {"", parsed.serviceId}
      ensures Value() == if ok then parsed else old(Value())
    {
      if region != "" && region != parsed.region {
        return false;
      }
      if prefix != "" && prefix != parsed.prefix {
        return false;
      }
      if serviceId != "" && serviceId != parsed.serviceId {
        return false;
      }
      region := parsed.region;
      prefix := parsed.prefix;
      serviceId := parsed.serviceId;
      return true;
    }
  }
}
