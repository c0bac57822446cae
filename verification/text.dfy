/** The string operations the codec relies on: `Integer.toString` of a
    day of month, `String.compareTo` and `Collectors.joining`. */
module Text {

  function DigitChar(d: nat): (c: char)
    requires d < 10
    ensures '0' <= c <= '9' && DigitValue(c) == d
  {
    ('0' as int + d) as char
  }

  function DigitValue(c: char): int {
    c as int - '0' as int
  }

  /** The number a run of decimal digits spells, most significant digit first. */
  function DecimalValue(s: string): int {
    if |s| == 0 then 0 else 10 * DecimalValue(s[..|s| - 1]) + DigitValue(s[|s| - 1])
  }

  /** `Integer.toString(n)` for a non-negative `n`: the decimal digits of `n`, no leading zero. */
  function DecimalText(n: nat): (s: string)
    ensures |s| > 0
    ensures forall i :: 0 <= i < |s| ==> '0' <= s[i] <= '9'
    ensures |s| > 1 ==> s[0] != '0'
    ensures DecimalValue(s) == n
  {
    if n < 10 then [DigitChar(n)]
    else
      var prefix := DecimalText(n / 10);
      var s := prefix + [DigitChar(n % 10)];
      assert s[..|s| - 1] == prefix;
      s
  }

  /** `String.compareTo(a, b) < 0`: the first differing character decides, a proper prefix comes first. */
  predicate StringLess(a: string, b: string) {
    if |a| == 0 then |b| > 0
    else if |b| == 0 then false
    else a[0] < b[0] || (a[0] == b[0] && StringLess(a[1..], b[1..]))
  }

  lemma {:induction false} StringLessIrreflexive(a: string)
    ensures !StringLess(a, a)
  {
    if |a| > 0 {
      StringLessIrreflexive(a[1..]);
    }
  }

  lemma {:induction false} StringLessTransitive(a: string, b: string, c: string)
    requires StringLess(a, b) && StringLess(b, c)
    ensures StringLess(a, c)
  {
    if |a| > 0 && a[0] == b[0] && b[0] == c[0] {
      StringLessTransitive(a[1..], b[1..], c[1..]);
    }
  }

  /** Any two different strings are ordered one way or the other. */
  lemma {:induction false} StringLessTotal(a: string, b: string)
    requires a != b
    ensures StringLess(a, b) || StringLess(b, a)
  {
    if |a| > 0 && |b| > 0 && a[0] == b[0] {
      assert a == [a[0]] + a[1..] && b == [b[0]] + b[1..];
      StringLessTotal(a[1..], b[1..]);
    }
  }

  /** `Collectors.joining(separator)`. */
  function Join(parts: seq<string>, separator: string): string {
    if |parts| == 0 then ""
    else if |parts| == 1 then parts[0]
    else parts[0] + separator + Join(parts[1..], separator)
  }

  function TotalLength(parts: seq<string>): nat {
    if |parts| == 0 then 0 else |parts[0]| + TotalLength(parts[1..])
  }

  /** A joined string is as long as its parts plus one separator between neighbours. */
  lemma {:induction false} JoinLength(parts: seq<string>, separator: string)
    requires |parts| > 0
    ensures |Join(parts, separator)| == TotalLength(parts) + (|parts| - 1) * |separator|
  {
    if |parts| > 1 {
      JoinLength(parts[1..], separator);
    }
  }

  /** Where part `k` starts in the joined string: after the parts before it, each followed by a separator. */
  function PartOffset(parts: seq<string>, separator: string, k: nat): nat
    requires k <= |parts|
  {
    TotalLength(parts[..k]) + k * |separator|
  }

  /** Part `k` stands in the joined string at its offset, and a separator follows it unless it is the last. */
  lemma {:induction false} JoinParts(parts: seq<string>, separator: string, k: nat)
    requires k < |parts|
    ensures var at := PartOffset(parts, separator, k);
      && at + |parts[k]| <= |Join(parts, separator)|
      && Join(parts, separator)[at..at + |parts[k]|] == parts[k]
      && (k + 1 < |parts| ==>
            at + |parts[k]| + |separator| <= |Join(parts, separator)|
            && Join(parts, separator)[at + |parts[k]|..at + |parts[k]| + |separator|] == separator)
  {
    var joined := Join(parts, separator);
    if k == 0 {
      assert parts[..0] == [];
      if |parts| > 1 {
        assert joined == parts[0] + separator + Join(parts[1..], separator);
        assert joined[..|parts[0]|] == parts[0];
        assert joined[|parts[0]|..|parts[0]| + |separator|] == separator;
      }
    } else {
      var rest := parts[1..];
      var head := parts[0] + separator;
      JoinParts(rest, separator, k - 1);
      assert parts[..k][1..] == rest[..k - 1];
      assert PartOffset(parts, separator, k) == |head| + PartOffset(rest, separator, k - 1);
      assert joined == head + Join(rest, separator);
      SliceAfterPrefix(head, Join(rest, separator), PartOffset(rest, separator, k - 1), |parts[k]|);
      if k + 1 < |parts| {
        SliceAfterPrefix(head, Join(rest, separator), PartOffset(rest, separator, k - 1) + |parts[k]|, |separator|);
      }
    }
  }

  lemma SliceAfterPrefix(a: string, b: string, i: nat, n: nat)
    requires i + n <= |b|
    ensures (a + b)[|a| + i..|a| + i + n] == b[i..i + n]
  {
  }

  /** Joining two non-empty lists is joining each and putting one separator between. */
  lemma {:induction false} JoinAppend(a: seq<string>, b: seq<string>, separator: string)
    requires |a| > 0 && |b| > 0
    ensures Join(a + b, separator) == Join(a, separator) + separator + Join(b, separator)
  {
    if |a| > 1 {
      assert (a + b)[1..] == a[1..] + b;
      JoinAppend(a[1..], b, separator);
    } else {
      assert (a + b)[1..] == b;
    }
  }

  // ---------------------------------------------------------------------
  // `String.equalsIgnoreCase`, for letters A to Z.

  /** The lower-case form of an upper-case ASCII letter; any other character is itself. */
  function FoldCase(c: char): (f: char)
    ensures 'A' <= c <= 'Z' ==> f as int == c as int + 32
    ensures !('A' <= c <= 'Z') ==> f == c
  {
    if 'A' <= c <= 'Z' then (c as int + 32) as char else c
  }

  /** `a.equalsIgnoreCase(b)`: equally long, and equal character by character once folded. */
  predicate SameIgnoringCase(a: string, b: string) {
    |a| == |b| && forall i :: 0 <= i < |a| ==> FoldCase(a[i]) == FoldCase(b[i])
  }

  /** Matching ignoring case is an equivalence, and it only differs from equality in letter case. */
  lemma SameIgnoringCaseEquivalence(a: string, b: string, c: string)
    ensures SameIgnoringCase(a, a)
    ensures SameIgnoringCase(a, b) ==> SameIgnoringCase(b, a)
    ensures SameIgnoringCase(a, b) && SameIgnoringCase(b, c) ==> SameIgnoringCase(a, c)
    ensures SameIgnoringCase(a, b) ==> forall i :: 0 <= i < |a| ==>
      a[i] == b[i] || (a[i] as int - b[i] as int == 32 || b[i] as int - a[i] as int == 32)
  {
  }
}
