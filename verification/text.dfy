/** The Python string operations the reconciliation relies on: `strip()`,
    `replace(c, '')`, `isdigit()`, `lower() == 'nan'` and the `in` substring test.
    Strings are sequences of Unicode scalar values, as Python's `str` is. */
module Text {

  /** Python's `str.isspace` for one character: the ASCII controls TAB to CR,
      the separators 0x1C to 0x1F, SPACE, NEL, NO-BREAK SPACE and the Unicode
      space separators (OGHAM, EN QUAD to HAIR SPACE, LINE and PARAGRAPH
      SEPARATOR, NARROW NO-BREAK, MEDIUM MATHEMATICAL and IDEOGRAPHIC SPACE). */
  predicate IsSpace(c: char) {
    var n := c as int;
    (9 <= n <= 13) || (28 <= n <= 32) || n == 0x85 || n == 0xA0 || n == 0x1680
    || (0x2000 <= n <= 0x200A) || n == 0x2028 || n == 0x2029 || n == 0x202F
    || n == 0x205F || n == 0x3000
  }

  /** A string with no white space at either end: what `strip()` returns. */
  predicate Stripped(s: string) {
    s == [] || (!IsSpace(s[0]) && !IsSpace(s[|s| - 1]))
  }

  /** `r` is the piece of `s` starting at `lo`, and everything of `s` around it is white space. */
  predicate FramedBySpace(s: string, r: string, lo: int) {
    0 <= lo && lo + |r| <= |s| && r == s[lo..lo + |r|]
    && (forall i :: 0 <= i < lo ==> IsSpace(s[i]))
    && (forall i :: lo + |r| <= i < |s| ==> IsSpace(s[i]))
  }

  /** `s.lstrip()` */
  function TrimStart(s: string): string {
    if s != [] && IsSpace(s[0]) then TrimStart(s[1..]) else s
  }

  /** `lstrip()` drops a run of white space from the front and stops at the first other character. */
  lemma {:induction false} TrimStartSpec(s: string)
    ensures var r := TrimStart(s);
      |r| <= |s| && r == s[|s| - |r|..]
      && (forall i :: 0 <= i < |s| - |r| ==> IsSpace(s[i]))
      && (r == [] || !IsSpace(r[0]))
  {
    if s != [] && IsSpace(s[0]) {
      var r := TrimStart(s[1..]);
      TrimStartSpec(s[1..]);
      assert TrimStart(s) == r;
      assert s[1..][|s| - 1 - |r|..] == s[|s| - |r|..];
      forall i | 1 <= i < |s| - |r| ensures IsSpace(s[i]) {
        assert s[i] == s[1..][i - 1];
      }
    }
  }

  /** `s.rstrip()` */
  function TrimEnd(s: string): string {
    if s != [] && IsSpace(s[|s| - 1]) then TrimEnd(s[..|s| - 1]) else s
  }

  /** `rstrip()` drops a run of white space from the back and stops at the last other character. */
  lemma {:induction false} TrimEndSpec(s: string)
    ensures var r := TrimEnd(s);
      |r| <= |s| && r == s[..|r|]
      && (forall i :: |r| <= i < |s| ==> IsSpace(s[i]))
      && (r == [] || !IsSpace(r[|r| - 1]))
  {
    if s != [] && IsSpace(s[|s| - 1]) {
      var r := TrimEnd(s[..|s| - 1]);
      TrimEndSpec(s[..|s| - 1]);
      assert TrimEnd(s) == r;
      assert s[..|s| - 1][..|r|] == s[..|r|];
      forall i | |r| <= i < |s| - 1 ensures IsSpace(s[i]) {
        assert s[i] == s[..|s| - 1][i];
      }
    }
  }

  /** `s.strip()` */
  function Strip(s: string): string {
    TrimEnd(TrimStart(s))
  }

  /** `strip()` returns the longest piece of its argument that neither starts
      nor ends with white space and outside which there is only white space. */
  lemma StripSpec(s: string)
    ensures Stripped(Strip(s))
    ensures exists lo :: FramedBySpace(s, Strip(s), lo)
  {
    var left := TrimStart(s);
    TrimStartSpec(s);
    TrimEndSpec(left);
    assert FramedBySpace(s, Strip(s), |s| - |left|);
  }

  /** Stripping a string that `strip()` already returned changes nothing. */
  lemma StripStripped(s: string)
    requires Stripped(s)
    ensures Strip(s) == s
  {
    assert TrimStart(s) == s;
    assert TrimEnd(s) == s;
  }

  /** `strip()` is idempotent. */
  lemma StripIdempotent(s: string)
    ensures Strip(Strip(s)) == Strip(s)
  {
    StripSpec(s);
    StripStripped(Strip(s));
  }

  /** `strip()` brings in no character its argument lacks. */
  lemma StripAddsNothing(s: string, c: char)
    requires c !in s
    ensures c !in Strip(s)
  {
    var r := Strip(s);
    StripSpec(s);
    var lo :| FramedBySpace(s, r, lo);
    forall k | 0 <= k < |r| ensures r[k] != c {
      assert r[k] == s[lo + k];
    }
  }

  /** `s.replace(c, '')` for a one-character `c`: `s` with every `c` deleted, the rest in order. */
  function RemoveAll(s: string, c: char): (r: string)
  {
    if s == [] then []
    else (if s[0] == c then [] else [s[0]]) + RemoveAll(s[1..], c)
  }

  /** `replace(c, '')` keeps every other character and drops every `c`. */
  lemma {:induction false} RemoveAllMembers(s: string, c: char)
    ensures forall x :: x in RemoveAll(s, c) <==> x in s && x != c
    ensures |RemoveAll(s, c)| <= |s|
  {
    if s != [] {
      RemoveAllMembers(s[1..], c);
      assert s == [s[0]] + s[1..];
    }
  }

  /** Deleting a character that does not occur changes nothing. */
  lemma {:induction false} RemoveAllAbsent(s: string, c: char)
    requires c !in s
    ensures RemoveAll(s, c) == s
  {
    if s != [] {
      assert c !in s[1..];
      RemoveAllAbsent(s[1..], c);
      assert s == [s[0]] + s[1..];
    }
  }

  /** Deleting a character distributes over concatenation. */
  lemma {:induction false} RemoveAllAppend(a: string, b: string, c: char)
    ensures RemoveAll(a + b, c) == RemoveAll(a, c) + RemoveAll(b, c)
  {
    if a != [] {
      assert (a + b)[1..] == a[1..] + b;
      RemoveAllAppend(a[1..], b, c);
    } else {
      assert a + b == b;
    }
  }

  /** `kw in s` for strings: `t` occurs in `s` at index `i`. */
  predicate OccursAt(s: string, t: string, i: int) {
    0 <= i && i + |t| <= |s| && s[i..i + |t|] == t
  }

  /** Python's `t in s` for two strings; the empty string occurs in every string. */
  predicate Contains(s: string, t: string) {
    exists i | 0 <= i <= |s| - |t| :: OccursAt(s, t, i)
  }

  /** Every string contains the empty string and itself. */
  lemma ContainsTrivial(s: string)
    ensures Contains(s, [])
    ensures Contains(s, s)
  {
    assert OccursAt(s, [], 0);
    assert OccursAt(s, s, 0);
  }

  /** A one-character string occurs in `s` exactly when that character does. */
  lemma ContainsChar(s: string, c: char)
    ensures Contains(s, [c]) <==> c in s
  {
    if c in s {
      var k :| 0 <= k < |s| && s[k] == c;
      assert OccursAt(s, [c], k);
    }
    if Contains(s, [c]) {
      var k :| 0 <= k <= |s| - 1 && OccursAt(s, [c], k);
      assert s[k] == s[k..k + 1][0] == c;
    }
  }

  /** A digit for `str.isdigit`: the ASCII digits and the full-width digits U+FF10 to U+FF19. */
  predicate IsDigitChar(c: char) {
    ('0' <= c <= '9') || ('０' <= c <= '９')
  }

  /** Python's `s.isdigit()`: at least one character, and every character a digit. */
  predicate IsDigits(s: string) {
    |s| > 0 && forall i :: 0 <= i < |s| ==> IsDigitChar(s[i])
  }

  /** Python's `s.lower() == 'nan'`: no other character lower-cases to an ASCII `n` or `a`. */
  predicate LowersToNan(s: string) {
    |s| == 3 && (s[0] == 'n' || s[0] == 'N') && (s[1] == 'a' || s[1] == 'A')
    && (s[2] == 'n' || s[2] == 'N')
  }

  /** `s.replace('.', '').isdigit()` holds exactly when `s` is made of digits
      and dots and has at least one digit ("12.5", "3.", "1.2.3", but not "." or "-4"). */
  lemma DigitsIgnoringDots(s: string)
    ensures IsDigits(RemoveAll(s, '.'))
        <==> (exists i :: 0 <= i < |s| && IsDigitChar(s[i]))
             && (forall i :: 0 <= i < |s| ==> IsDigitChar(s[i]) || s[i] == '.')
  {
    var r := RemoveAll(s, '.');
    RemoveAllMembers(s, '.');
    if IsDigits(r) {
      assert r[0] in r;
      var i :| 0 <= i < |s| && s[i] == r[0];
      assert IsDigitChar(s[i]);
      forall i | 0 <= i < |s| ensures IsDigitChar(s[i]) || s[i] == '.' {
        if s[i] != '.' {
          assert s[i] in r;
          var k :| 0 <= k < |r| && r[k] == s[i];
        }
      }
    }
    if (exists i :: 0 <= i < |s| && IsDigitChar(s[i]))
       && (forall i :: 0 <= i < |s| ==> IsDigitChar(s[i]) || s[i] == '.') {
      var i :| 0 <= i < |s| && IsDigitChar(s[i]);
      assert s[i] in r;
      forall k | 0 <= k < |r| ensures IsDigitChar(r[k]) {
        assert r[k] in s;
        var j :| 0 <= j < |s| && s[j] == r[k];
      }
    }
  }
}
