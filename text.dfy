/** String helpers the device module relies on: ASCII lower-casing, ordinal
    substring search, decimal rendering of unsigned integers, and the
    dot-separated version strings built from them ("10.0", "1.2.3.4"). */
module Text {
  import opened Wrappers

  // ---------------------------------------------------------------------
  // Case folding

  function LowerChar(c: char): char
  {
    if 'A' <= c <= 'Z' then (c as int + 32) as char else c
  }

  /** The string with every ASCII upper-case letter replaced by its
      lower-case form: it has no ASCII capital left, it equals `s` once
      case is ignored, and every character that is not a capital is kept. */
  function ToLower(s: string): (r: string)
    ensures |r| == |s|
    ensures forall i :: 0 <= i < |r| ==> !('A' <= r[i] <= 'Z')
    ensures forall i :: 0 <= i < |s| ==> LowerChar(r[i]) == LowerChar(s[i])
    ensures forall i :: 0 <= i < |s| && !('A' <= s[i] <= 'Z') ==> r[i] == s[i]
  {
    seq(|s|, i requires 0 <= i < |s| => LowerChar(s[i]))
  }

  /** Lower-casing twice is lower-casing once. */
  lemma ToLowerIdempotent(s: string)
    ensures ToLower(ToLower(s)) == ToLower(s)
  {
  }

  /** The contract of `ToLower` pins its result: any string of the same
      length, without ASCII capitals and equal to `s` ignoring case, is it. */
  lemma ToLowerUnique(s: string, t: string)
    requires |t| == |s|
    requires forall i :: 0 <= i < |t| ==> !('A' <= t[i] <= 'Z')
    requires forall i :: 0 <= i < |s| ==> LowerChar(t[i]) == LowerChar(s[i])
    ensures t == ToLower(s)
  {
  }

  // ---------------------------------------------------------------------
  // Substring search

  /** `pat` occurs in `s` starting at index `i`. */
  ghost predicate OccursAt(s: string, pat: string, i: int)
  {
    0 <= i && i + |pat| <= |s| && s[i..i + |pat|] == pat
  }

  /** `s` has, starting at `i`, a run of characters equal to `word` once
      upper-case ASCII letters in `s` are read as lower-case. */
  ghost predicate MatchesIgnoringCaseAt(s: string, word: string, i: int)
  {
    0 <= i && i + |word| <= |s| &&
    forall k :: 0 <= k < |word| ==> LowerChar(s[i + k]) == word[k]
  }

  lemma OccursAtShift(s: string, pat: string, j: int)
    requires |s| > 0 && 0 <= j
    ensures OccursAt(s, pat, j + 1) <==> OccursAt(s[1..], pat, j)
  {
    if 0 <= j && j + 1 + |pat| <= |s| {
      assert s[1..][j..j + |pat|] == s[j + 1..j + 1 + |pat|];
    }
  }

  /** Ordinal substring test, scanning start positions left to right. */
  function Contains(s: string, pat: string): (r: bool)
    ensures r <==> exists i :: OccursAt(s, pat, i)
    decreases |s|
  {
    if pat <= s then
      assert OccursAt(s, pat, 0);
      true
    else if s == [] then
      false
    else
      var rest := Contains(s[1..], pat);
      assert rest ==> exists i :: OccursAt(s, pat, i) by {
        if rest {
          var j :| OccursAt(s[1..], pat, j);
          OccursAtShift(s, pat, j);
        }
      }
      assert (exists i :: OccursAt(s, pat, i)) ==> rest by {
        if i :| OccursAt(s, pat, i) {
          assert i != 0;
          OccursAtShift(s, pat, i - 1);
        }
      }
      rest
  }

  /** One mismatching character rules a position out. */
  lemma MismatchAt(s: string, word: string, i: int, k: int)
    requires 0 <= k < |word| && 0 <= i + k < |s|
    requires LowerChar(s[i + k]) != word[k]
    ensures !MatchesIgnoringCaseAt(s, word, i)
  {
  }

  /** Searching the lower-cased string for an all-lower-case word is the same
      as matching the word case-insensitively in the original string. */
  lemma LowerOccursIffMatchesIgnoringCase(s: string, word: string, i: int)
    ensures OccursAt(ToLower(s), word, i) <==> MatchesIgnoringCaseAt(s, word, i)
  {
    var t := ToLower(s);
    if 0 <= i && i + |word| <= |s| {
      if OccursAt(t, word, i) {
        forall k | 0 <= k < |word| ensures LowerChar(s[i + k]) == word[k] {
          assert t[i..i + |word|][k] == t[i + k];
        }
      }
      if MatchesIgnoringCaseAt(s, word, i) {
        assert t[i..i + |word|] == word;
      }
    }
  }

  /** Case-insensitive search for `word`, which holds no ASCII capital:
      the result is true exactly when some position matches. */
  function ContainsIgnoringCase(s: string, word: string): (r: bool)
    requires forall k :: 0 <= k < |word| ==> !('A' <= word[k] <= 'Z')
    ensures r <==> exists i :: MatchesIgnoringCaseAt(s, word, i)
  {
    var r := Contains(ToLower(s), word);
    assert r ==> exists i :: MatchesIgnoringCaseAt(s, word, i) by {
      if r {
        var i :| OccursAt(ToLower(s), word, i);
        LowerOccursIffMatchesIgnoringCase(s, word, i);
      }
    }
    assert (exists i :: MatchesIgnoringCaseAt(s, word, i)) ==> r by {
      if i :| MatchesIgnoringCaseAt(s, word, i) {
        LowerOccursIffMatchesIgnoringCase(s, word, i);
      }
    }
    r
  }

  // ---------------------------------------------------------------------
  // Decimal rendering of non-negative integers (what `ToString()` and string
  // interpolation produce for C#'s unsigned integer types)

  predicate IsDigit(c: char)
  {
    '0' <= c <= '9'
  }

  predicate AllDigits(s: string)
  {
    forall i :: 0 <= i < |s| ==> IsDigit(s[i])
  }

  function DigitChar(d: nat): (c: char)
    requires d < 10
    ensures IsDigit(c)
  {
    ('0' as int + d) as char
  }

  function DigitValue(c: char): (d: nat)
    requires IsDigit(c)
    ensures d < 10
  {
    c as int - '0' as int
  }

  /** The shortest decimal numeral of `n`: non-empty, digits only, and with
      no leading zero unless `n` itself is 0. */
  function Decimal(n: nat): (s: string)
    ensures |s| >= 1 && AllDigits(s)
    ensures s[0] == '0' ==> n == 0
    ensures s[0] == '0' ==> s == "0"
    decreases n
  {
    if n < 10 then [DigitChar(n)] else Decimal(n / 10) + [DigitChar(n % 10)]
  }

  /** The number a string of digits denotes. */
  function DecimalValue(s: string): nat
    requires AllDigits(s)
    decreases |s|
  {
    if s == [] then 0 else 10 * DecimalValue(s[..|s| - 1]) + DigitValue(s[|s| - 1])
  }

  lemma {:induction false} DecimalRoundTrip(n: nat)
    ensures DecimalValue(Decimal(n)) == n
    decreases n
  {
    if n >= 10 {
      DecimalRoundTrip(n / 10);
      var s := Decimal(n);
      assert s[..|s| - 1] == Decimal(n / 10);
    }
  }

  /** Different numbers never render to the same numeral. */
  lemma DecimalInjective(m: nat, n: nat)
    ensures Decimal(m) == Decimal(n) ==> m == n
  {
    DecimalRoundTrip(m);
    DecimalRoundTrip(n);
  }

  // ---------------------------------------------------------------------
  // Dot-separated version strings

  /** Index of the first '.' in `s`, or |s| when there is none. */
  function IndexOfDot(s: string): (k: nat)
    ensures k <= |s|
    ensures k < |s| ==> s[k] == '.'
    ensures forall j :: 0 <= j < k ==> s[j] != '.'
    decreases |s|
  {
    if s == [] || s[0] == '.' then 0 else 1 + IndexOfDot(s[1..])
  }

  /** The numbers of `parts` in decimal, separated by single dots. */
  function JoinDotted(parts: seq<nat>): string
    decreases |parts|
  {
    if |parts| == 0 then []
    else if |parts| == 1 then Decimal(parts[0])
    else Decimal(parts[0]) + "." + JoinDotted(parts[1..])
  }

  /** Joining a longer list puts the first numeral and a dot in front of
      the join of the rest. */
  lemma JoinDottedCons(x: nat, rest: seq<nat>)
    requires |rest| >= 1
    ensures JoinDotted([x] + rest) == Decimal(x) + "." + JoinDotted(rest)
  {
    assert ([x] + rest)[1..] == rest;
  }

  /** Four numerals separated by dots, written left to right, are the
      join of the four numbers. */
  lemma JoinFour(a: nat, b: nat, c: nat, d: nat)
    ensures Decimal(a) + "." + Decimal(b) + "." + Decimal(c) + "." + Decimal(d) == JoinDotted([a, b, c, d])
  {
    var parts: seq<nat> := [a, b, c, d];
    assert [c] + [d] == parts[2..];
    JoinDottedCons(c, [d]);
    assert [b] + parts[2..] == parts[1..];
    JoinDottedCons(b, parts[2..]);
    assert [a] + parts[1..] == parts;
    JoinDottedCons(a, parts[1..]);
    DotsAssociate(Decimal(a), Decimal(b), Decimal(c), Decimal(d));
  }

  lemma DotsAssociate(a: string, b: string, c: string, d: string)
    ensures a + "." + (b + "." + (c + "." + d)) == a + "." + b + "." + c + "." + d
  {
  }

  /** Reads a dot-separated list of non-empty decimal numerals; None when
      any component is empty or holds a non-digit. */
  function ParseDotted(s: string): Option<seq<nat>>
    decreases |s|
  {
    var k := IndexOfDot(s);
    if k == 0 || !AllDigits(s[..k]) then None
    else if k == |s| then Some([DecimalValue(s[..k])])
    else
      match ParseDotted(s[k + 1..])
      case None => None
      case Some(rest) => Some([DecimalValue(s[..k])] + rest)
  }

  lemma IndexOfDotAfterNumeral(d: string, rest: string)
    requires |d| >= 1 && AllDigits(d)
    ensures IndexOfDot(d) == |d|
    ensures rest != [] && rest[0] == '.' ==> IndexOfDot(d + rest) == |d|
  {
    if rest != [] && rest[0] == '.' {
      assert (d + rest)[|d|] == '.';
    }
  }

  /** Parsing a joined list of numbers gives the numbers back. */
  lemma {:induction false} JoinDottedRoundTrip(parts: seq<nat>)
    requires |parts| >= 1
    ensures ParseDotted(JoinDotted(parts)) == Some(parts)
    decreases |parts|
  {
    var d := Decimal(parts[0]);
    DecimalRoundTrip(parts[0]);
    if |parts| == 1 {
      IndexOfDotAfterNumeral(d, []);
      assert d[..|d|] == d;
      assert parts == [parts[0]];
    } else {
      var tail := JoinDotted(parts[1..]);
      var s := d + "." + tail;
      assert s == d + ("." + tail);
      IndexOfDotAfterNumeral(d, "." + tail);
      assert s[..|d|] == d;
      assert s[|d| + 1..] == tail;
      JoinDottedRoundTrip(parts[1..]);
      assert parts == [parts[0]] + parts[1..];
    }
  }
}
