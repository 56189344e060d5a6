/**
 * Character classes, decimal digit strings and Python's string ordering.
 *
 * Python's `\d` matches every Unicode decimal digit; this model restricts it
 * to the ASCII digits `0`-`9`. `int(...)` on such a string is `DecimalValue`,
 * and the zero-padded `%02d` / `%04d` renderings are `PadDecimal`.
 */
module Text {

  predicate IsDigit(c: char) { '0' <= c <= '9' }

  /** The regex class `[A-Za-z]`. */
  predicate IsAsciiLetter(c: char) { 'A' <= c <= 'Z' || 'a' <= c <= 'z' }

  predicate AllDigits(s: string) { forall i :: 0 <= i < |s| ==> IsDigit(s[i]) }

  function Pow10(n: nat): (p: nat)
    ensures p >= 1
  {
    if n == 0 then 1 else 10 * Pow10(n - 1)
  }

  function DigitValue(c: char): (v: nat)
    requires IsDigit(c)
    ensures v < 10
  {
    c as int - '0' as int
  }

  function DigitChar(d: nat): (c: char)
    requires d < 10
    ensures IsDigit(c) && DigitValue(c) == d
  {
    ('0' as int + d) as char
  }

  /** `int(s)` for a string of ASCII digits (leading zeros allowed). */
  function DecimalValue(s: string): (v: nat)
    requires AllDigits(s)
    ensures v < Pow10(|s|)
  {
    if s == [] then 0 else 10 * DecimalValue(s[..|s| - 1]) + DigitValue(s[|s| - 1])
  }

  lemma TwoDigitValue(s: string)
    requires |s| == 2 && AllDigits(s)
    ensures DecimalValue(s) == 10 * DigitValue(s[0]) + DigitValue(s[1])
  {
    assert s[..1][..0] == [];
  }

  lemma FourDigitValue(s: string)
    requires |s| == 4 && AllDigits(s)
    ensures DecimalValue(s) == 1000 * DigitValue(s[0]) + 100 * DigitValue(s[1]) + 10 * DigitValue(s[2]) + DigitValue(s[3])
  {
    assert s[..3][..2] == s[..2] && s[..2][..1] == s[..1] && s[..1][..0] == [];
    assert DecimalValue(s[..1]) == DigitValue(s[0]);
    assert DecimalValue(s[..2]) == 10 * DigitValue(s[0]) + DigitValue(s[1]);
    assert DecimalValue(s[..3]) == 100 * DigitValue(s[0]) + 10 * DigitValue(s[1]) + DigitValue(s[2]);
  }

  /** `n` written in exactly `width` decimal digits, zero padded on the left. */
  function PadDecimal(n: nat, width: nat): (s: string)
    requires n < Pow10(width)
    ensures |s| == width && AllDigits(s)
    ensures DecimalValue(s) == n
  {
    if width == 0 then ""
    else
      var prefix := PadDecimal(n / 10, width - 1);
      var s := prefix + [DigitChar(n % 10)];
      assert s[..|s| - 1] == prefix;
      s
  }

  /** Padding the value of a digit string back to its own width gives the string back. */
  lemma {:induction false} PadDecimalOfValue(s: string)
    requires AllDigits(s)
    ensures PadDecimal(DecimalValue(s), |s|) == s
  {
    if s != [] {
      var prefix := s[..|s| - 1];
      var v := DecimalValue(s);
      assert v / 10 == DecimalValue(prefix) && v % 10 == DigitValue(s[|s| - 1]);
      PadDecimalOfValue(prefix);
      assert DigitChar(DigitValue(s[|s| - 1])) == s[|s| - 1];
      assert s == prefix + [s[|s| - 1]];
    }
  }

  /** Python's `a < b` on `str`: lexicographic by code point, a proper prefix first. */
  predicate StrLess(a: string, b: string)
    decreases |a|
  {
    if a == [] then b != []
    else if b == [] then false
    else if a[0] != b[0] then a[0] < b[0]
    else StrLess(a[1..], b[1..])
  }

  lemma {:induction false} StrLessIrreflexive(a: string)
    ensures !StrLess(a, a)
  {
    if a != [] {
      StrLessIrreflexive(a[1..]);
    }
  }

  lemma {:induction false} StrLessTransitive(a: string, b: string, c: string)
    requires StrLess(a, b) && StrLess(b, c)
    ensures StrLess(a, c)
  {
    if a != [] && b != [] && c != [] && a[0] == b[0] && b[0] == c[0] {
      StrLessTransitive(a[1..], b[1..], c[1..]);
    }
  }

  /** Two different strings are always ordered one way or the other. */
  lemma {:induction false} StrLessTotal(a: string, b: string)
    requires a != b
    ensures StrLess(a, b) || StrLess(b, a)
  {
    if a != [] && b != [] && a[0] == b[0] {
      assert a == [a[0]] + a[1..] && b == [b[0]] + b[1..];
      StrLessTotal(a[1..], b[1..]);
    }
  }

  lemma {:induction false} StrLessAsymmetric(a: string, b: string)
    requires StrLess(a, b)
    ensures !StrLess(b, a)
  {
    if StrLess(b, a) {
      StrLessTransitive(a, b, a);
      StrLessIrreflexive(a);
    }
  }

  /** `a` is a proper prefix of `b`. */
  predicate ProperPrefix(a: string, b: string) { |a| < |b| && a == b[..|a|] }

  /** `a` and `b` agree before index k and differ there, `a` holding the smaller code point. */
  predicate FirstDifferenceBelow(a: string, b: string, k: nat)
  {
    k < |a| && k < |b| && a[..k] == b[..k] && a[k] < b[k]
  }

  /**
   * The string order by its usual definition: `a < b` exactly when `a` is a
   * proper prefix of `b`, or at the first index where they differ `a` has
   * the smaller code point.
   */
  lemma {:induction false} StrLessFirstDifference(a: string, b: string)
    ensures StrLess(a, b) <==> ProperPrefix(a, b) || exists k: nat :: FirstDifferenceBelow(a, b, k)
    decreases |a|
  {
    if a == [] {
      if b != [] {
        assert ProperPrefix(a, b);
      }
    } else if b == [] {
    } else if a[0] != b[0] {
      if a[0] < b[0] {
        assert FirstDifferenceBelow(a, b, 0);
      } else {
        assert forall k: nat :: !FirstDifferenceBelow(a, b, k);
      }
    } else {
      var a', b' := a[1..], b[1..];
      StrLessFirstDifference(a', b');
      assert ProperPrefix(a, b) <==> ProperPrefix(a', b') by {
        assert a == [a[0]] + a';
        assert |a| <= |b| ==> b[..|a|] == [b[0]] + b'[..|a'|];
      }
      forall k: nat | FirstDifferenceBelow(a', b', k) ensures FirstDifferenceBelow(a, b, k + 1) {
        assert a[..k + 1] == [a[0]] + a'[..k] && b[..k + 1] == [b[0]] + b'[..k];
      }
      forall k: nat | FirstDifferenceBelow(a, b, k) ensures k > 0 && FirstDifferenceBelow(a', b', k - 1) {
        assert a'[..k - 1] == a[..k][1..] && b'[..k - 1] == b[..k][1..];
      }
    }
  }

  /** The pieces written one after another. */
  function Concat(parts: seq<string>): string
    decreases |parts|
  {
    if parts == [] then "" else Concat(parts[..|parts| - 1]) + parts[|parts| - 1]
  }

  lemma ConcatExtend(parts: seq<string>, j: nat)
    requires j < |parts|
    ensures Concat(parts[..j + 1]) == Concat(parts[..j]) + parts[j]
  {
    assert parts[..j + 1][..j] == parts[..j];
  }

  lemma ConcatPair(a: string, b: string)
    ensures Concat([a, b]) == a + b
  {
    assert [a, b][..1] == [a] && [a][..0] == [];
    assert Concat([a]) == "" + a == a;
  }

  /** What is written after the first j pieces is a prefix of the whole. */
  lemma {:induction false} ConcatPrefix(parts: seq<string>, j: nat)
    requires j <= |parts|
    ensures Concat(parts[..j]) <= Concat(parts)
    decreases |parts|
  {
    if j < |parts| {
      var init := parts[..|parts| - 1];
      assert init[..j] == parts[..j];
      ConcatPrefix(init, j);
    } else {
      assert parts[..j] == parts;
    }
  }

  /** `piece` occurs in `text` starting at index `at`. */
  predicate OccursAt(text: string, at: nat, piece: string)
  {
    at + |piece| <= |text| && text[at..at + |piece|] == piece
  }

  /** Piece i sits in `lead + Concat(parts)` right after `lead` and the pieces before it. */
  lemma PieceAt(lead: string, parts: seq<string>, i: nat)
    requires i < |parts|
    ensures OccursAt(lead + Concat(parts), |lead| + |Concat(parts[..i])|, parts[i])
  {
    ConcatExtend(parts, i);
    ConcatPrefix(parts, i + 1);
    PrefixOccurs(lead, Concat(parts), Concat(parts[..i]), parts[i]);
  }

  /** What ends a prefix of `all` occurs at its place in `lead + all`. */
  lemma PrefixOccurs(lead: string, all: string, before: string, p: string)
    requires before + p <= all
    ensures OccursAt(lead + all, |lead| + |before|, p)
  {
    var rest := all[|before| + |p|..];
    assert all == before + p + rest;
    assert lead + all == (lead + before) + p + rest;
    MiddleOccurs(lead + before, p, rest);
  }

  lemma MiddleOccurs(x: string, p: string, y: string)
    ensures OccursAt(x + p + y, |x|, p)
  {
    assert (x + p + y)[|x|..|x| + |p|] == p;
  }

  /** Piece i of `lead + Concat(parts)` split as `h + tail`: where h sits. */
  lemma HeadOfPiece(lead: string, parts: seq<string>, i: nat, h: string, tail: string)
    requires i < |parts| && parts[i] == h + tail
    ensures OccursAt(lead + Concat(parts), |lead| + |Concat(parts[..i])|, h)
  {
    PieceAt(lead, parts, i);
    SplitSlice(lead + Concat(parts), |lead| + |Concat(parts[..i])|, h, tail);
  }

  /** Piece i of `lead + Concat(parts)` split as `h + tail`: where tail sits. */
  lemma TailOfPiece(lead: string, parts: seq<string>, i: nat, h: string, tail: string)
    requires i < |parts| && parts[i] == h + tail
    ensures OccursAt(lead + Concat(parts), |lead| + |Concat(parts[..i])| + |h|, tail)
  {
    PieceAt(lead, parts, i);
    SplitSlice(lead + Concat(parts), |lead| + |Concat(parts[..i])|, h, tail);
  }

  /** When piece i is just h, what follows h is the next piece, or the end. */
  lemma AfterWholePiece(lead: string, parts: seq<string>, i: nat, h: string, marker: string)
    requires i < |parts| && parts[i] == h
    requires i + 1 < |parts| ==> marker <= parts[i + 1]
    ensures i + 1 == |parts| ==> |lead| + |Concat(parts[..i])| + |h| == |lead + Concat(parts)|
    ensures i + 1 < |parts| ==> OccursAt(lead + Concat(parts), |lead| + |Concat(parts[..i])| + |h|, marker)
  {
    ConcatExtend(parts, i);
    if i + 1 == |parts| {
      assert parts[..i + 1] == parts;
    } else {
      var text := lead + Concat(parts);
      var at := |lead| + |Concat(parts[..i])|;
      PieceAt(lead, parts, i + 1);
      assert text[at + |h|..at + |h| + |marker|] == parts[i + 1][..|marker|];
    }
  }

  lemma SplitSlice(t: string, at: nat, a: string, b: string)
    requires at + |a| + |b| <= |t| && t[at..at + |a| + |b|] == a + b
    ensures t[at..at + |a|] == a && t[at + |a|..at + |a| + |b|] == b
  {
    assert t[at..at + |a|] == (a + b)[..|a|];
    assert t[at + |a|..at + |a| + |b|] == (a + b)[|a|..];
  }

  /**
   * Joining is associative. Kept as a lemma: stating the step this way keeps
   * the loop proof in `WriteOutput` small.
   */
  lemma AppendAssociative(a: string, b: string, c: string)
    ensures (a + b) + c == a + (b + c)
  {
  }

  /** The empty text joined in front changes nothing. */
  lemma EmptyLead(t: string)
    ensures "" + t == t
  {
  }
}
