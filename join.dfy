/**
 * `library::v2a::JoinVector`: writes a vector as a prefix, its elements in
 * order with a separator between neighbours, and a suffix. The defaults are
 * `", "`, `"["` and `"]"`. Elements of type `int` are written in decimal, as
 * `operator<<` on an `int` does.
 */
module Join {
  import opened Machine

  /** The default separator, prefix and suffix. */
  const DefaultSeparator: string := ", "
  const DefaultPrefix: string := "["
  const DefaultSuffix: string := "]"

  /** The elements in order, with `separator` between each two neighbours. */
  function JoinElements(elems: seq<string>, separator: string): string
    decreases |elems|
  {
    if |elems| == 0 then ""
    else if |elems| == 1 then elems[0]
    else elems[0] + separator + JoinElements(elems[1..], separator)
  }

  /** The pieces written out, in order: element, separator, element, ..., element. */
  function Pieces(elems: seq<string>, separator: string): (p: seq<string>)
    ensures |elems| == 0 ==> p == []
    ensures |elems| > 0 ==> |p| == 2 * |elems| - 1
  {
    if |elems| == 0 then []
    else seq(2 * |elems| - 1, i requires 0 <= i < 2 * |elems| - 1 => if i % 2 == 0 then elems[i / 2] else separator)
  }

  /** The concatenation of a sequence of strings. */
  function Concat(pieces: seq<string>): string
    decreases |pieces|
  {
    if |pieces| == 0 then "" else pieces[0] + Concat(pieces[1..])
  }

  /** The sum of the elements' lengths. */
  function TotalLength(elems: seq<string>): nat
    decreases |elems|
  {
    if |elems| == 0 then 0 else |elems[0]| + TotalLength(elems[1..])
  }

  /**
   * Separators stand only between elements: the even pieces are the elements
   * in input order, the odd pieces are separators, so n elements give n - 1
   * separators and none before the first or after the last element.
   */
  lemma PiecesShape(elems: seq<string>, separator: string)
    requires |elems| > 0
    ensures |Pieces(elems, separator)| == 2 * |elems| - 1
    ensures Pieces(elems, separator)[0] == elems[0]
    ensures Pieces(elems, separator)[|Pieces(elems, separator)| - 1] == elems[|elems| - 1]
    ensures forall k :: 0 <= k < |elems| ==> Pieces(elems, separator)[2 * k] == elems[k]
    ensures forall k :: 0 <= k < |elems| - 1 ==> Pieces(elems, separator)[2 * k + 1] == separator
  {
    var n := |elems|;
    ElementPiece(elems, separator, 0);
    ElementPiece(elems, separator, n - 1);
    assert |Pieces(elems, separator)| - 1 == 2 * (n - 1);
    forall k | 0 <= k < n ensures Pieces(elems, separator)[2 * k] == elems[k] {
      ElementPiece(elems, separator, k);
    }
    forall k | 0 <= k < n - 1 ensures Pieces(elems, separator)[2 * k + 1] == separator {
      SeparatorPiece(elems, separator, k);
    }
  }

  /** Piece `2 * k` is element `k`. */
  lemma ElementPiece(elems: seq<string>, separator: string, k: nat)
    requires k < |elems|
    ensures 2 * k < |Pieces(elems, separator)| && Pieces(elems, separator)[2 * k] == elems[k]
  {
    assert (2 * k) % 2 == 0 && (2 * k) / 2 == k;
  }

  /** Piece `2 * k + 1` is the separator. */
  lemma SeparatorPiece(elems: seq<string>, separator: string, k: nat)
    requires k + 1 < |elems|
    ensures 2 * k + 1 < |Pieces(elems, separator)| && Pieces(elems, separator)[2 * k + 1] == separator
  {
    assert (2 * k + 1) % 2 == 1;
  }

  /** The recursive join writes exactly the pieces, in order. */
  lemma {:induction false} JoinElementsIsConcatOfPieces(elems: seq<string>, separator: string)
    ensures JoinElements(elems, separator) == Concat(Pieces(elems, separator))
    decreases |elems|
  {
    if |elems| == 1 {
      assert Pieces(elems, separator) == [elems[0]];
    } else if |elems| > 1 {
      var p, rest := Pieces(elems, separator), Pieces(elems[1..], separator);
      assert p[2..] == rest by {
        forall i | 0 <= i < |rest| ensures p[2..][i] == rest[i] {
          if i % 2 == 0 {
            assert (i + 2) / 2 == i / 2 + 1;
          }
        }
      }
      assert p[0] == elems[0] && p[1] == separator && p[1..][1..] == p[2..];
      JoinElementsIsConcatOfPieces(elems[1..], separator);
    }
  }

  /** Appending an element appends a separator and that element. */
  lemma {:induction false} JoinElementsAppend(elems: seq<string>, x: string, separator: string)
    requires |elems| > 0
    ensures JoinElements(elems + [x], separator) == JoinElements(elems, separator) + separator + x
    decreases |elems|
  {
    if |elems| > 1 {
      assert (elems + [x])[1..] == elems[1..] + [x];
      JoinElementsAppend(elems[1..], x, separator);
    }
  }

  /** Two joined runs are joined by one more separator. */
  lemma {:induction false} JoinElementsConcat(a: seq<string>, b: seq<string>, separator: string)
    requires |a| > 0 && |b| > 0
    ensures JoinElements(a + b, separator) == JoinElements(a, separator) + separator + JoinElements(b, separator)
    decreases |a|
  {
    if |a| == 1 {
      assert (a + b)[1..] == b;
    } else {
      assert (a + b)[1..] == a[1..] + b;
      JoinElementsConcat(a[1..], b, separator);
    }
  }

  /** The joined text is as long as the elements plus n - 1 separators. */
  lemma {:induction false} JoinElementsLength(elems: seq<string>, separator: string)
    requires |elems| > 0
    ensures |JoinElements(elems, separator)| == TotalLength(elems) + (|elems| - 1) * |separator|
    decreases |elems|
  {
    if |elems| > 1 {
      JoinElementsLength(elems[1..], separator);
    }
  }

  /** `os << JoinVector {v, separator, prefix, suffix}`. */
  function JoinVector(elems: seq<string>, separator: string := DefaultSeparator, prefix: string := DefaultPrefix, suffix: string := DefaultSuffix): string {
    prefix + JoinElements(elems, separator) + suffix
  }

  /**
   * The output of `JoinVector` is the prefix, the pieces in order, then the
   * suffix; an empty vector gives the prefix immediately followed by the suffix.
   */
  lemma JoinVectorShape(elems: seq<string>, separator: string, prefix: string, suffix: string)
    ensures |elems| == 0 ==> JoinVector(elems, separator, prefix, suffix) == prefix + suffix
    ensures |JoinVector(elems, separator, prefix, suffix)| >= |prefix| + |suffix|
    ensures JoinVector(elems, separator, prefix, suffix)[..|prefix|] == prefix
    ensures JoinVector(elems, separator, prefix, suffix)[|JoinVector(elems, separator, prefix, suffix)| - |suffix|..] == suffix
    ensures JoinVector(elems, separator, prefix, suffix)[|prefix|..|JoinVector(elems, separator, prefix, suffix)| - |suffix|] ==
      Concat(Pieces(elems, separator))
  {
    var body := JoinElements(elems, separator);
    JoinElementsIsConcatOfPieces(elems, separator);
    var r := prefix + body + suffix;
    assert r[..|prefix|] == prefix && r[|prefix|..|r| - |suffix|] == body && r[|r| - |suffix|..] == suffix;
  }

  /** The digit character for a value below ten. */
  function DigitChar(d: nat): char
    requires d < 10
  {
    "0123456789"[d]
  }

  /** The value of a digit character. */
  function DigitValue(c: char): int {
    c as int - '0' as int
  }

  predicate IsDigit(c: char) {
    '0' <= c <= '9'
  }

  /** The decimal digits of a natural number, most significant first, without leading zeros. */
  function NatToString(n: nat): (s: string)
    ensures |s| > 0 && (forall i :: 0 <= i < |s| ==> IsDigit(s[i]))
    ensures s[0] == '0' <==> n == 0
    ensures n == 0 ==> s == "0"
    decreases n
  {
    if n < 10 then [DigitChar(n)] else NatToString(n / 10) + [DigitChar(n % 10)]
  }

  /** The value of a string of decimal digits. */
  function DigitsValue(s: string): int
    decreases |s|
  {
    if |s| == 0 then 0 else DigitsValue(s[..|s| - 1]) * 10 + DigitValue(s[|s| - 1])
  }

  /** Reading the digits back gives the number. */
  lemma {:induction false} NatToStringRoundTrip(n: nat)
    ensures DigitsValue(NatToString(n)) == n
    decreases n
  {
    var s := NatToString(n);
    if n < 10 {
      assert DigitValue(DigitChar(n)) == n;
    } else {
      NatToStringRoundTrip(n / 10);
      assert s[..|s| - 1] == NatToString(n / 10);
      assert DigitValue(DigitChar(n % 10)) == n % 10;
    }
  }

  /** `os << i` for an `int`: a minus sign for negative values, then the decimal digits. */
  function IntToString(i: int32): string {
    if i < 0 then "-" + NatToString(-(i as int)) else NatToString(i as int)
  }

  /** Reads back what `IntToString` writes: an optional minus sign and decimal digits. */
  function ParseInt(s: string): int {
    if |s| > 0 && s[0] == '-' then -DigitsValue(s[1..]) else DigitsValue(s)
  }

  /** `IntToString` loses nothing: parsing its output gives the original value. */
  lemma IntToStringRoundTrip(i: int32)
    ensures ParseInt(IntToString(i)) == i as int
  {
    var s := IntToString(i);
    if i < 0 {
      var d := NatToString(-(i as int));
      NatToStringRoundTrip(-(i as int));
      assert s == "-" + d;
      assert s[0] == '-' && s[1..] == d;
    } else {
      var d := NatToString(i as int);
      NatToStringRoundTrip(i as int);
      assert s == d && IsDigit(d[0]);
    }
  }

  /**
   * `IntToString` writes the canonical decimal form: a minus sign exactly for
   * negative values, then digits, with a leading `0` only for zero.
   */
  lemma IntToStringCanonical(i: int32)
    ensures |IntToString(i)| > 0
    ensures IntToString(i)[0] == '-' <==> i < 0
    ensures i < 0 ==> |IntToString(i)| > 1 && IntToString(i)[1..] == NatToString(-(i as int))
    ensures i >= 0 ==> IntToString(i) == NatToString(i as int)
    ensures var digits := if i < 0 then IntToString(i)[1..] else IntToString(i);
      |digits| > 0 && (forall k :: 0 <= k < |digits| ==> IsDigit(digits[k])) && (digits[0] == '0' <==> i == 0)
  {
    if i < 0 {
      assert IntToString(i)[1..] == NatToString(-(i as int));
    } else {
      assert IsDigit(NatToString(i as int)[0]);
    }
  }

  /** Distinct integers are written differently. */
  lemma IntToStringInjective(i: int32, j: int32)
    requires IntToString(i) == IntToString(j)
    ensures i == j
  {
    IntToStringRoundTrip(i);
    IntToStringRoundTrip(j);
  }

  /** Each element in its decimal form, in order. */
  function IntStrings(elems: seq<int32>): (r: seq<string>)
    ensures |r| == |elems| && forall k :: 0 <= k < |elems| ==> r[k] == IntToString(elems[k])
    decreases |elems|
  {
    if |elems| == 0 then [] else [IntToString(elems[0])] + IntStrings(elems[1..])
  }

  /** `JoinVector` over a `std::vector<int>`: each element in its decimal form. */
  function JoinInts(elems: seq<int32>, separator: string := DefaultSeparator, prefix: string := DefaultPrefix, suffix: string := DefaultSuffix): string {
    JoinVector(IntStrings(elems), separator, prefix, suffix)
  }

  /** Three elements are written with a separator between the first and second and between the second and third. */
  lemma JoinElementsThree(a: string, b: string, c: string, separator: string)
    ensures JoinElements([a, b, c], separator) == a + separator + b + separator + c
  {
    assert [a, b, c][1..] == [b, c] && [b, c][1..] == [c];
    assert JoinElements([b, c], separator) == b + separator + c;
  }

  lemma JoinVectorEmptyExample()
    ensures JoinVector([]) == "[]"
  {
  }

  lemma JoinVectorStringsExample()
    ensures JoinVector(["alpha", "beta", "gamma"]) == "[alpha, beta, gamma]"
  {
    JoinElementsThree("alpha", "beta", "gamma", ", ");
    assert "alpha" + ", " + "beta" + ", " + "gamma" == "alpha, beta, gamma";
    assert "[" + "alpha, beta, gamma" + "]" == "[alpha, beta, gamma]";
  }

  lemma JoinVectorIntsExample()
    ensures JoinInts([1, 2, 3]) == "[1, 2, 3]"
  {
    assert IntStrings([1, 2, 3]) == ["1", "2", "3"] by {
      assert IntToString(1) == "1" && IntToString(2) == "2" && IntToString(3) == "3";
    }
    JoinElementsThree("1", "2", "3", ", ");
  }

  lemma JoinVectorSeparatorExample()
    ensures JoinVector(["alpha", "beta", "gamma"], "; ") == "[alpha; beta; gamma]"
  {
    JoinElementsThree("alpha", "beta", "gamma", "; ");
    assert "alpha" + "; " + "beta" + "; " + "gamma" == "alpha; beta; gamma";
    assert "[" + "alpha; beta; gamma" + "]" == "[alpha; beta; gamma]";
  }

  lemma JoinVectorPrefixSuffixExample()
    ensures JoinVector(["alpha", "beta", "gamma"], "; ", "(", ")") == "(alpha; beta; gamma)"
  {
    JoinElementsThree("alpha", "beta", "gamma", "; ");
    assert "alpha" + "; " + "beta" + "; " + "gamma" == "alpha; beta; gamma";
    assert "(" + "alpha; beta; gamma" + ")" == "(alpha; beta; gamma)";
  }
}
