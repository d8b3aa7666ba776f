/**
  The two string operations the program relies on: Array.prototype.join, which
  builds the command line handed to the shell, and the decimal rendering of a
  number inside a template literal, which numbers the commands in the listing.
 */
module Text {

  /** `parts.join(sep)`: the empty list gives "", otherwise the parts with `sep` between neighbours. */
  function Join(parts: seq<string>, sep: string): (r: string)
    ensures parts == [] ==> r == ""
    ensures |parts| == 1 ==> r == parts[0]
  {
    if |parts| == 0 then ""
    else if |parts| == 1 then parts[0]
    else parts[0] + sep + Join(parts[1..], sep)
  }

  /** Where part `i` starts in `Join(parts, sep)`: every earlier part and its separator come first. */
  function Offset(parts: seq<string>, sep: string, i: nat): nat
    requires i <= |parts|
  {
    if i == 0 then 0 else Offset(parts, sep, i - 1) + |parts[i - 1]| + |sep|
  }

  lemma {:induction false} OffsetOfTail(parts: seq<string>, sep: string, i: nat)
    requires 1 <= i <= |parts|
    ensures Offset(parts, sep, i) == |parts[0]| + |sep| + Offset(parts[1..], sep, i - 1)
  {
    if i > 1 {
      OffsetOfTail(parts, sep, i - 1);
    }
  }

  /** A slice of the right operand of a concatenation, seen through the concatenation. */
  lemma SliceOfAppend<T>(a: seq<T>, b: seq<T>, x: nat, y: nat)
    requires x <= y <= |b|
    ensures (a + b)[|a| + x..|a| + y] == b[x..y]
  {
    forall j | x <= j < y ensures (a + b)[|a| + j] == b[j] {}
  }

  /** The joined line is the parts plus one separator between each pair of neighbours. */
  lemma {:induction false} JoinLength(parts: seq<string>, sep: string)
    requires |parts| >= 1
    ensures |Join(parts, sep)| + |sep| == Offset(parts, sep, |parts|)
  {
    OffsetOfTail(parts, sep, |parts|);
    if |parts| > 1 {
      JoinLength(parts[1..], sep);
    }
  }

  /** Part `i` of the list stands, unchanged, at `Offset(parts, sep, i)` of the joined line. */
  lemma {:induction false} JoinPlacesPart(parts: seq<string>, sep: string, i: nat)
    requires i < |parts|
    ensures Offset(parts, sep, i) + |parts[i]| <= |Join(parts, sep)|
    ensures Join(parts, sep)[Offset(parts, sep, i)..Offset(parts, sep, i) + |parts[i]|] == parts[i]
  {
    if |parts| > 1 {
      var head := parts[0] + sep;
      var rest := Join(parts[1..], sep);
      assert Join(parts, sep) == head + rest;
      if i == 0 {
        assert head[0..|parts[0]|] == parts[0];
        assert (head + rest)[0..|parts[0]|] == head[0..|parts[0]|];
      } else {
        JoinPlacesPart(parts[1..], sep, i - 1);
        assert parts[1..][i - 1] == parts[i];
        OffsetOfTail(parts, sep, i);
        var o := Offset(parts[1..], sep, i - 1);
        SliceOfAppend(head, rest, o, o + |parts[i]|);
      }
    }
  }

  /** Between part `i` and part `i + 1` of the joined line stands exactly one separator. */
  lemma {:induction false} JoinSeparatesParts(parts: seq<string>, sep: string, i: nat)
    requires i + 1 < |parts|
    ensures Offset(parts, sep, i + 1) <= |Join(parts, sep)|
    ensures Join(parts, sep)[Offset(parts, sep, i) + |parts[i]|..Offset(parts, sep, i + 1)] == sep
  {
    var head := parts[0] + sep;
    var rest := Join(parts[1..], sep);
    assert Join(parts, sep) == head + rest;
    if i == 0 {
      SliceOfAppend(parts[0], sep, 0, |sep|);
      assert (head + rest)[|parts[0]|..|head|] == head[|parts[0]|..|head|];
    } else {
      JoinSeparatesParts(parts[1..], sep, i - 1);
      assert parts[1..][i - 1] == parts[i];
      var a := Offset(parts[1..], sep, i - 1) + |parts[i]|;
      var b := Offset(parts[1..], sep, i);
      assert rest[a..b] == sep;
      OffsetOfTail(parts, sep, i);
      OffsetOfTail(parts, sep, i + 1);
      assert Offset(parts, sep, i) + |parts[i]| == |head| + a;
      assert Offset(parts, sep, i + 1) == |head| + b;
      SliceOfAppend(head, rest, a, b);
    }
  }

  function DigitChar(d: nat): (c: char)
    requires d < 10
    ensures '0' <= c <= '9'
  {
    ('0' as int + d) as char
  }

  predicate IsDigits(s: string) {
    forall i :: 0 <= i < |s| ==> '0' <= s[i] <= '9'
  }

  /** The number a string of decimal digits denotes. */
  function DigitsValue(s: string): nat
    requires IsDigits(s)
  {
    if s == [] then 0 else DigitsValue(s[..|s| - 1]) * 10 + (s[|s| - 1] as int - '0' as int)
  }

  /** A number as a template literal prints it: decimal digits without leading zeros. */
  function NatToString(n: nat): (s: string)
    ensures |s| >= 1 && IsDigits(s)
    ensures s[0] == '0' ==> n == 0
  {
    if n < 10 then [DigitChar(n)] else NatToString(n / 10) + [DigitChar(n % 10)]
  }

  /** Reading back the digits gives the number: the rendering loses nothing. */
  lemma {:induction false} NatToStringRoundTrip(n: nat)
    ensures DigitsValue(NatToString(n)) == n
  {
    var s := NatToString(n);
    if n >= 10 {
      NatToStringRoundTrip(n / 10);
      assert s[..|s| - 1] == NatToString(n / 10);
    }
  }

  /** Distinct numbers are rendered differently. */
  lemma NatToStringInjective(m: nat, n: nat)
    requires NatToString(m) == NatToString(n)
    ensures m == n
  {
    NatToStringRoundTrip(m);
    NatToStringRoundTrip(n);
  }
}
