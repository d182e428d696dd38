/**
 * The e-mail check of the registration handler, the regular expression
 * `/^[^\s@]+@[^\s@]+\.[^\s@]+$/`, in two forms: `MatchesPattern` is what
 * the anchored expression accepts, `EmailShape` is the plain description
 * the handler is modelled with, and `ShapeIffPattern` shows they agree on
 * every string.
 */
module EmailFormat {
  import opened JsText

  /** A character of the class `[^\s@]`. */
  predicate WordChar(c: char)
  {
    !IsSpace(c) && c != '@'
  }

  /** A match of `[^\s@]+`. */
  predicate WordRun(s: string)
  {
    |s| > 0 && forall i :: 0 <= i < |s| ==> WordChar(s[i])
  }

  /**
   * The language of the anchored pattern: the string splits as
   * local `@` head `.` tail, each of the three parts a non-empty `[^\s@]+`.
   */
  ghost predicate MatchesPattern(s: string)
  {
    exists a, d :: 0 < a && a + 1 < d && d + 1 < |s| && s[a] == '@' && s[d] == '.'
                   && WordRun(s[..a]) && WordRun(s[a + 1..d]) && WordRun(s[d + 1..])
  }

  /** Number of occurrences of `c` in `s`. */
  function Count(s: string, c: char): nat
  {
    if s == [] then 0 else (if s[0] == c then 1 else 0) + Count(s[1..], c)
  }

  /** Position of the first `c` in `s`, or `|s|` when there is none. */
  function IndexOf(s: string, c: char): (r: nat)
    ensures r <= |s|
    ensures r < |s| ==> s[r] == c
    ensures forall i :: 0 <= i < r ==> s[i] != c
  {
    if s == [] then 0 else if s[0] == c then 0 else 1 + IndexOf(s[1..], c)
  }

  /** The domain has a `.` that is neither its first nor its last character. */
  predicate HasInnerDot(d: string)
  {
    exists k | 0 < k < |d| - 1 :: d[k] == '.'
  }

  /**
   * No whitespace, exactly one `@`, a non-empty part before it, and a
   * domain after it with a `.` strictly inside.
   */
  predicate EmailShape(s: string)
  {
    && NoSpace(s)
    && Count(s, '@') == 1
    && var a := IndexOf(s, '@');
       0 < a < |s| && HasInnerDot(s[a + 1..])
  }

  /** A string with one occurrence of `c` has none anywhere else. */
  lemma {:induction false} CountOneIsOnly(s: string, c: char, a: int)
    requires 0 <= a < |s| && s[a] == c && Count(s, c) == 1
    ensures forall i :: 0 <= i < |s| && i != a ==> s[i] != c
  {
    if a == 0 {
      NoneCounted(s[1..], c);
      forall i | 0 < i < |s|
        ensures s[i] != c
      {
        assert s[i] == s[1..][i - 1];
      }
    } else {
      if s[0] == c {
        NoneCounted(s[1..], c);
        assert false;
      }
      CountOneIsOnly(s[1..], c, a - 1);
      forall i | 0 < i < |s| && i != a
        ensures s[i] != c
      {
        assert s[i] == s[1..][i - 1];
      }
    }
  }

  /** A count of zero means the character does not occur. */
  lemma {:induction false} NoneCounted(s: string, c: char)
    requires Count(s, c) == 0
    ensures forall i :: 0 <= i < |s| ==> s[i] != c
  {
    if s != [] {
      NoneCounted(s[1..], c);
      forall i | 0 < i < |s|
        ensures s[i] != c
      {
        assert s[i] == s[1..][i - 1];
      }
    }
  }

  /** A character that occurs exactly at one position is counted once. */
  lemma {:induction false} OnlyIsCountOne(s: string, c: char, a: int)
    requires 0 <= a < |s| && s[a] == c
    requires forall i :: 0 <= i < |s| && i != a ==> s[i] != c
    ensures Count(s, c) == 1
  {
    if a == 0 {
      Absent(s[1..], c);
    } else {
      OnlyIsCountOne(s[1..], c, a - 1);
    }
  }

  /** A character that does not occur is counted zero times. */
  lemma {:induction false} Absent(s: string, c: char)
    requires forall i :: 0 <= i < |s| ==> s[i] != c
    ensures Count(s, c) == 0
  {
    if s != [] {
      Absent(s[1..], c);
    }
  }

  /** The plain description and the regular expression accept the same strings. */
  lemma ShapeIffPattern(s: string)
    ensures EmailShape(s) <==> MatchesPattern(s)
  {
    if EmailShape(s) {
      ShapeMatches(s);
    }
    if MatchesPattern(s) {
      var a, d :| 0 < a && a + 1 < d && d + 1 < |s| && s[a] == '@' && s[d] == '.'
                  && WordRun(s[..a]) && WordRun(s[a + 1..d]) && WordRun(s[d + 1..]);
      MatchHasShape(s, a, d);
    }
  }

  lemma ShapeMatches(s: string)
    requires EmailShape(s)
    ensures MatchesPattern(s)
  {
    var a := IndexOf(s, '@');
    CountOneIsOnly(s, '@', a);
    var dom := s[a + 1..];
    var k :| 0 < k < |dom| - 1 && dom[k] == '.';
    var d := a + 1 + k;
    assert s[d] == dom[k];
    assert WordRun(s[..a]);
    assert forall i :: a < i < |s| ==> WordChar(s[i]);
    assert WordRun(s[a + 1..d]);
    assert WordRun(s[d + 1..]);
  }

  lemma MatchHasShape(s: string, a: int, d: int)
    requires 0 < a && a + 1 < d && d + 1 < |s| && s[a] == '@' && s[d] == '.'
    requires WordRun(s[..a]) && WordRun(s[a + 1..d]) && WordRun(s[d + 1..])
    ensures EmailShape(s)
  {
    forall i | 0 <= i < |s|
      ensures !IsSpace(s[i]) && (i != a ==> s[i] != '@')
    {
      if i < a {
        assert s[i] == s[..a][i];
      } else if a < i < d {
        assert s[i] == s[a + 1..d][i - a - 1];
      } else if d < i {
        assert s[i] == s[d + 1..][i - d - 1];
      }
    }
    OnlyIsCountOne(s, '@', a);
    assert IndexOf(s, '@') == a;
    assert s[a + 1..][d - a - 1] == '.';
  }
}
