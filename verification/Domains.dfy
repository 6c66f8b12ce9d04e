/**
 Domains are looked up by their labels in reverse order: a parent domain is then a prefix
 of its children, and a table that finds the longest stored prefix finds the nearest parent.
 */
module Domains {
  import opened Splitting

  function StripDot(domain: string): string {
    if domain != "" && domain[0] == '.' then domain[1..] else domain
  }

  function Labels(domain: string): (ls: seq<string>)
    ensures ls != []
  {
    Split(StripDot(domain), '.')
  }

  function Reversed(ls: seq<string>): (r: seq<string>)
    ensures |r| == |ls|
  {
    seq(|ls|, i requires 0 <= i < |ls| => ls[|ls| - 1 - i])
  }

  function ReverseDomain(domain: string): string {
    Join(Reversed(Labels(domain)), '.') + "."
  }

  function ReverseBack(reversed: string): string {
    var trimmed := if reversed != "" && reversed[|reversed| - 1] == '.' then reversed[..|reversed| - 1] else reversed;
    Join(Reversed(Split(trimmed, '.')), '.')
  }

  /** Reversing back gives the domain again, without a leading dot. */
  lemma ReverseRoundTrip(domain: string)
    ensures ReverseBack(ReverseDomain(domain)) == if domain != "" && domain[0] == '.' then domain[1..] else domain
  {
    var ls := Labels(domain);
    var reversed := ReverseDomain(domain);
    assert reversed[..|reversed| - 1] == Join(Reversed(ls), '.');
    SplitIsFree(StripDot(domain), '.');
    SplitOfJoin(Reversed(ls), '.');
    assert Reversed(Reversed(ls)) == ls;
    JoinOfSplit(StripDot(domain), '.');
  }

  /** A leading dot does not count: ".example.org" is stored and looked up as "example.org". */
  lemma LeadingDot(domain: string)
    requires domain == "" || domain[0] != '.'
    ensures ReverseDomain("." + domain) == ReverseDomain(domain)
  {
    assert ("." + domain)[1..] == domain;
  }

  /** Labels with a dot after each. */
  function Dotted(ls: seq<string>): string {
    if ls == [] then "" else ls[0] + "." + Dotted(ls[1..])
  }

  lemma {:induction false} JoinedIsDotted(ls: seq<string>)
    requires ls != []
    ensures Join(ls, '.') + "." == Dotted(ls)
  {
    if |ls| > 1 {
      JoinedIsDotted(ls[1..]);
    }
  }

  /** `Dotted` keeps prefixes apart: one key is a prefix of another iff the labels are. */
  lemma {:induction false} DottedPrefix(a: seq<string>, b: seq<string>)
    requires FreeOf(a, '.') && FreeOf(b, '.')
    ensures Dotted(a) <= Dotted(b) <==> a <= b
    decreases |a|
  {
    if a != [] && b != [] {
      DottedPrefix(a[1..], b[1..]);
      var x, y := Dotted(a), Dotted(b);
      assert x[|a[0]|] == '.' && y[|b[0]|] == '.';
      if x <= y {
        assert |a[0]| == |b[0]|;
        assert a[0] == x[..|a[0]|] == y[..|b[0]|] == b[0];
        assert Dotted(a[1..]) == x[|a[0]| + 1..] && Dotted(b[1..]) == y[|b[0]| + 1..];
        assert a == [a[0]] + a[1..] && b == [b[0]] + b[1..];
      }
      if a <= b {
        assert a[0] == b[0] && a[1..] <= b[1..];
      }
    }
  }

  /** The key under which a domain is stored or looked up. */
  ghost function KeyLabels(domain: string): seq<string> {
    Reversed(Labels(domain))
  }

  lemma KeyIsDotted(domain: string)
    ensures ReverseDomain(domain) == Dotted(KeyLabels(domain)) && FreeOf(KeyLabels(domain), '.')
  {
    SplitIsFree(StripDot(domain), '.');
    JoinedIsDotted(KeyLabels(domain));
  }

  /** `parent` names the host itself or a domain above it. */
  ghost predicate IsParent(parent: string, host: string) {
    var p, h := Labels(parent), Labels(host);
    |p| <= |h| && h[|h| - |p|..] == p
  }

  lemma ReversedSuffix(p: seq<string>, h: seq<string>)
    requires |p| <= |h| && h[|h| - |p|..] == p
    ensures Reversed(p) <= Reversed(h)
  {
    forall i | 0 <= i < |p| ensures Reversed(p)[i] == Reversed(h)[i] {
      assert h[|h| - |p|..][|p| - 1 - i] == h[|h| - 1 - i];
    }
  }

  lemma ReversedPrefix(p: seq<string>, h: seq<string>)
    requires Reversed(p) <= Reversed(h)
    ensures |p| <= |h| && h[|h| - |p|..] == p
  {
    forall i | 0 <= i < |p| ensures h[|h| - |p|..][i] == p[i] {
      assert Reversed(p)[|p| - 1 - i] == Reversed(h)[|p| - 1 - i];
    }
  }

  /** One reversed domain is a prefix of another exactly if it is that of a parent. */
  lemma PrefixIffParent(parent: string, host: string)
    ensures ReverseDomain(parent) <= ReverseDomain(host) <==> IsParent(parent, host)
  {
    KeyIsDotted(parent);
    KeyIsDotted(host);
    DottedPrefix(KeyLabels(parent), KeyLabels(host));
    if IsParent(parent, host) {
      ReversedSuffix(Labels(parent), Labels(host));
    } else if KeyLabels(parent) <= KeyLabels(host) {
      ReversedPrefix(Labels(parent), Labels(host));
    }
  }
}
