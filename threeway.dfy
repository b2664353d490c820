/**
 * C++20 three-way comparison (`<=>`) on the built-in types that the library's
 * defaulted comparisons reach: integers, `std::string` and
 * `std::optional<std::string>`, and the member-by-member combination that a
 * defaulted `operator<=>` performs.
 */
module ThreeWay {
  import opened Wrappers

  /** `std::strong_ordering`. */
  datatype Ordering = Less | Equal | Greater {
    /** The result of comparing the operands the other way round. */
    function Flip(): Ordering {
      match this
      case Less => Greater
      case Equal => Equal
      case Greater => Less
    }
  }

  /** `<=>` on integers (`unsigned int`, `int`, character codes). */
  function CompareInts(a: int, b: int): (r: Ordering)
    ensures r == Less <==> a < b
    ensures r == Equal <==> a == b
    ensures r == Greater <==> a > b
  {
    if a < b then Less else if a == b then Equal else Greater
  }

  /**
   * A defaulted `<=>` compares members in declaration order and returns the
   * first result that is not `Equal`.
   */
  function Then(first: Ordering, rest: Ordering): Ordering {
    if first != Equal then first else rest
  }

  /**
   * `<=>` on `std::string`: lexicographic on the character codes; a proper
   * prefix is smaller.
   */
  function CompareStrings(s: string, t: string): Ordering
    decreases |s|
  {
    if |s| == 0 then (if |t| == 0 then Equal else Less)
    else if |t| == 0 then Greater
    else Then(CompareInts(s[0] as int, t[0] as int), CompareStrings(s[1..], t[1..]))
  }

  /** `s` and `t` agree before index `k` and differ at `k`, where `s` has the smaller character. */
  ghost predicate FirstDifferenceAt(s: string, t: string, k: int) {
    0 <= k < |s| && k < |t| && s[..k] == t[..k] && s[k] < t[k]
  }

  /** The textbook definition of "`s` comes before `t` in lexicographic order". */
  ghost predicate LexicographicallyBefore(s: string, t: string) {
    (|s| < |t| && s == t[..|s|]) || exists k :: FirstDifferenceAt(s, t, k)
  }

  lemma {:induction false} CompareStringsEqualIff(s: string, t: string)
    ensures CompareStrings(s, t) == Equal <==> s == t
    decreases |s|
  {
    if |s| > 0 && |t| > 0 {
      CompareStringsEqualIff(s[1..], t[1..]);
      if s[0] == t[0] && s[1..] == t[1..] {
        assert s == [s[0]] + s[1..] && t == [t[0]] + t[1..];
      }
    }
  }

  lemma {:induction false} CompareStringsFlip(s: string, t: string)
    ensures CompareStrings(t, s) == CompareStrings(s, t).Flip()
    decreases |s|
  {
    if |s| > 0 && |t| > 0 {
      CompareStringsFlip(s[1..], t[1..]);
    }
  }

  lemma {:induction false} CompareStringsTransitive(s: string, t: string, u: string)
    requires CompareStrings(s, t) == Less && CompareStrings(t, u) == Less
    ensures CompareStrings(s, u) == Less
    decreases |s|
  {
    if |s| > 0 && |t| > 0 && |u| > 0 && s[0] == t[0] == u[0] {
      CompareStringsTransitive(s[1..], t[1..], u[1..]);
    }
  }

  /** The recursive comparison agrees with the textbook definition of lexicographic order. */
  lemma {:induction false} CompareStringsLessIff(s: string, t: string)
    ensures CompareStrings(s, t) == Less <==> LexicographicallyBefore(s, t)
    decreases |s|
  {
    if |s| == 0 {
      if |t| > 0 {
        assert s == t[..0];
      } else {
        assert !FirstDifferenceAt(s, t, 0);
      }
    } else if |t| == 0 {
      assert forall k :: !FirstDifferenceAt(s, t, k);
    } else {
      CompareStringsLessIff(s[1..], t[1..]);
      if s[0] < t[0] {
        assert FirstDifferenceAt(s, t, 0);
      } else if s[0] == t[0] {
        // The heads agree: the order is decided by the tails.
        var s', t' := s[1..], t[1..];
        if LexicographicallyBefore(s', t') {
          if |s'| < |t'| && s' == t'[..|s'|] {
            assert s == [s[0]] + s' && t[..|s|] == [t[0]] + t'[..|s'|];
          } else {
            var k :| FirstDifferenceAt(s', t', k);
            assert s[..k + 1] == [s[0]] + s'[..k] && t[..k + 1] == [t[0]] + t'[..k];
            assert s[k + 1] == s'[k] && t[k + 1] == t'[k];
            assert FirstDifferenceAt(s, t, k + 1);
          }
        }
        if LexicographicallyBefore(s, t) {
          if |s| < |t| && s == t[..|s|] {
            assert s' == t'[..|s'|];
          } else {
            var k :| FirstDifferenceAt(s, t, k);
            assert k != 0;
            assert s'[..k - 1] == s[..k][1..] && t'[..k - 1] == t[..k][1..];
            assert FirstDifferenceAt(s', t', k - 1);
          }
        }
      }
    }
  }

  /** Chaining two string comparisons that are each `Less` or `Equal`, at least one `Less`. */
  lemma CompareStringsLessOrEqualThenLess(s: string, t: string, u: string)
    requires CompareStrings(s, t) != Greater && CompareStrings(t, u) != Greater
    requires CompareStrings(s, t) == Less || CompareStrings(t, u) == Less
    ensures CompareStrings(s, u) == Less
  {
    CompareStringsEqualIff(s, t);
    CompareStringsEqualIff(t, u);
    if CompareStrings(s, t) == Less && CompareStrings(t, u) == Less {
      CompareStringsTransitive(s, t, u);
    }
  }

  /**
   * `<=>` on `std::optional<std::string>`: an empty optional is smaller than
   * any value, two empty ones are equal, two values compare as strings.
   */
  function CompareOptionals(a: Option<string>, b: Option<string>): Ordering {
    match (a, b)
    case (None, None) => Equal
    case (None, Some(_)) => Less
    case (Some(_), None) => Greater
    case (Some(x), Some(y)) => CompareStrings(x, y)
  }

  /**
   * The three cases of `<=>` on optionals: an empty optional is below every
   * optional that holds a value, and two values compare as those strings.
   */
  lemma CompareOptionalsCases(a: Option<string>, b: Option<string>)
    ensures a.None? && b.Some? ==> CompareOptionals(a, b) == Less
    ensures a.Some? && b.None? ==> CompareOptionals(a, b) == Greater
    ensures a.Some? && b.Some? ==> CompareOptionals(a, b) == CompareStrings(a.value, b.value)
  {
  }

  lemma CompareOptionalsEqualIff(a: Option<string>, b: Option<string>)
    ensures CompareOptionals(a, b) == Equal <==> a == b
  {
    if a.Some? && b.Some? {
      CompareStringsEqualIff(a.value, b.value);
    }
  }

  lemma CompareOptionalsFlip(a: Option<string>, b: Option<string>)
    ensures CompareOptionals(b, a) == CompareOptionals(a, b).Flip()
  {
    if a.Some? && b.Some? {
      CompareStringsFlip(a.value, b.value);
    }
  }

  lemma CompareOptionalsTransitive(a: Option<string>, b: Option<string>, c: Option<string>)
    requires CompareOptionals(a, b) == Less && CompareOptionals(b, c) == Less
    ensures CompareOptionals(a, c) == Less
  {
    if a.Some? {
      CompareStringsTransitive(a.value, b.value, c.value);
    }
  }
}
