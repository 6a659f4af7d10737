/**
 * The string primitives the scraper leans on, written out for Dafny's
 * `seq<char>`: Python's `str.strip()`, `str.split()`, the `in` substring test
 * and the grammar `int()` accepts.
 */
module Text {

  /** Python's `str.isspace()` for the characters of the Latin-1 range. */
  predicate IsSpace(c: char) {
    c == ' ' || c == '\t' || c == '\n' || c == '\r' || c == '\U{B}' || c == '\U{C}'
    || c == '\U{1C}' || c == '\U{1D}' || c == '\U{1E}' || c == '\U{1F}'
    || c == '\U{85}' || c == '\U{A0}'
  }

  predicate IsDigit(c: char) {
    '0' <= c <= '9'
  }

  predicate AllDigits(s: string) {
    forall i :: 0 <= i < |s| ==> IsDigit(s[i])
  }

  /** Neither the first nor the last character is whitespace. */
  predicate NoOuterSpace(s: string) {
    s == [] || (!IsSpace(s[0]) && !IsSpace(s[|s| - 1]))
  }

  predicate Blank(s: string) {
    forall i :: 0 <= i < |s| ==> IsSpace(s[i])
  }

  /**
   * Python's `str.strip()`: `s` without the whitespace at either end. It is
   * empty exactly when `s` is blank.
   */
  function Strip(s: string): (r: string)
    ensures |r| <= |s|
    ensures NoOuterSpace(r)
    ensures r == [] <==> Blank(s)
    decreases |s|
  {
    if s == [] then s
    else if IsSpace(s[0]) then
      var r := Strip(s[1..]);
      assert Blank(s[1..]) ==> Blank(s) by {
        if Blank(s[1..]) {
          forall i | 0 < i < |s| ensures IsSpace(s[i]) { assert s[i] == s[1..][i - 1]; }
        }
      }
      r
    else if IsSpace(s[|s| - 1]) then
      var r := Strip(s[..|s| - 1]);
      assert !Blank(s[..|s| - 1]) by { assert s[..|s| - 1][0] == s[0]; }
      r
    else s
  }

  /**
   * Stripping removes only whitespace, and only at the two ends: the result
   * is the slice of `s` that starts at `a`, with blanks before and after it.
   */
  lemma {:induction false} StripIsSlice(s: string) returns (a: nat)
    ensures a + |Strip(s)| <= |s| && Strip(s) == s[a..a + |Strip(s)|]
    ensures Blank(s[..a]) && Blank(s[a + |Strip(s)|..])
    decreases |s|
  {
    var r := Strip(s);
    if s == [] {
      a := 0;
    } else if IsSpace(s[0]) {
      var t := s[1..];
      var b := StripIsSlice(t);
      a := b + 1;
      assert r == Strip(t);
      assert r == s[a..a + |r|] by { assert t[b..b + |r|] == s[a..a + |r|]; }
      assert Blank(s[..a]) by {
        forall i | 0 < i < a ensures IsSpace(s[..a][i]) { assert s[..a][i] == t[..b][i - 1]; }
      }
      assert Blank(s[a + |r|..]) by { assert s[a + |r|..] == t[b + |r|..]; }
    } else if IsSpace(s[|s| - 1]) {
      var t := s[..|s| - 1];
      a := StripIsSlice(t);
      assert r == Strip(t);
      assert r == s[a..a + |r|] by { assert t[a..a + |r|] == s[a..a + |r|]; }
      assert Blank(s[..a]) by { assert s[..a] == t[..a]; }
      assert Blank(s[a + |r|..]) by {
        assert s[a + |r|..] == t[a + |r|..] + [s[|s| - 1]];
      }
    } else {
      a := 0;
      assert r == s;
    }
  }

  /** A string that neither starts nor ends with whitespace strips to itself. */
  lemma StripUntrimmed(s: string)
    requires NoOuterSpace(s)
    ensures Strip(s) == s
  {
  }

  /** Stripping twice is stripping once. */
  lemma StripIdempotent(s: string)
    ensures Strip(Strip(s)) == Strip(s)
  {
    StripUntrimmed(Strip(s));
  }

  // ----- substring search: Python's `pat in s` -----

  predicate OccursAt(s: string, i: nat, pat: string) {
    i + |pat| <= |s| && s[i..i + |pat|] == pat
  }

  predicate Contains(s: string, pat: string) {
    exists i: nat | i <= |s| :: OccursAt(s, i, pat)
  }

  // ----- Python's `str.split()` with no separator -----

  /** The end of the run of non-whitespace characters that starts at `i`. */
  function TokenEnd(s: string, i: nat): (j: nat)
    requires i <= |s|
    ensures i <= j <= |s|
    ensures forall k :: i <= k < j ==> !IsSpace(s[k])
    ensures j == |s| || IsSpace(s[j])
    decreases |s| - i
  {
    if i == |s| || IsSpace(s[i]) then i else TokenEnd(s, i + 1)
  }

  /**
   * The maximal runs of non-whitespace characters of `s`, left to right.
   * Every token is non-empty and holds no whitespace.
   */
  function Split(s: string): (r: seq<string>)
    ensures forall k :: 0 <= k < |r| ==> r[k] != []
    ensures forall k, i :: 0 <= k < |r| && 0 <= i < |r[k]| ==> !IsSpace(r[k][i])
    ensures s == [] ==> r == []
    decreases |s|
  {
    if s == [] then []
    else if IsSpace(s[0]) then Split(s[1..])
    else
      var j := TokenEnd(s, 0);
      [s[..j]] + Split(s[j..])
  }

  /** A run of non-whitespace ends at the same place in any extension that continues with whitespace. */
  lemma {:induction false} TokenEndExtend(a: string, i: nat, sp: char, b: string)
    requires i <= |a| && IsSpace(sp)
    ensures TokenEnd(a + [sp] + b, i) == TokenEnd(a, i)
    decreases |a| - i
  {
    var s := a + [sp] + b;
    if i == |a| {
      assert s[i] == sp;
    } else {
      assert s[i] == a[i];
      if !IsSpace(a[i]) {
        TokenEndExtend(a, i + 1, sp, b);
      }
    }
  }

  /** A whitespace character separates: the tokens of `a` come first, then those of `b`. */
  lemma {:induction false} SplitAtSpace(a: string, sp: char, b: string)
    requires IsSpace(sp)
    ensures Split(a + [sp] + b) == Split(a) + Split(b)
    decreases |a|
  {
    var s := a + [sp] + b;
    if a == [] {
      assert s == [sp] + b;
      assert s[1..] == b;
    } else if IsSpace(a[0]) {
      assert s[0] == a[0];
      assert s[1..] == a[1..] + [sp] + b;
      SplitAtSpace(a[1..], sp, b);
    } else {
      assert s[0] == a[0];
      var j := TokenEnd(a, 0);
      TokenEndExtend(a, 0, sp, b);
      assert s[..j] == a[..j];
      if j == |a| {
        assert s[j..] == [sp] + b;
        assert ([sp] + b)[1..] == b;
        assert a[j..] == [];
      } else {
        assert s[j..] == a[j..] + [sp] + b;
        SplitAtSpace(a[j..], sp, b);
      }
    }
  }

  /** A non-empty word without whitespace splits into itself alone. */
  lemma SplitWord(w: string)
    requires w != [] && forall i :: 0 <= i < |w| ==> !IsSpace(w[i])
    ensures Split(w) == [w]
  {
    assert !IsSpace(w[0]);
    assert TokenEnd(w, 0) == |w|;
    assert w[..|w|] == w && w[|w|..] == [];
    assert Split(w) == [w[..|w|]] + Split(w[|w|..]);
  }

  // ----- Python's `int()` on a string -----

  /**
   * The strings `int()` converts: after stripping, an optional sign and one
   * or more ASCII digits.
   */
  predicate IntParses(s: string) {
    var t := Strip(s);
    if t != [] && (t[0] == '+' || t[0] == '-') then |t| > 1 && AllDigits(t[1..])
    else t != [] && AllDigits(t)
  }

  /** Every non-empty digit string is accepted by `int()`. */
  lemma DigitsParse(d: string)
    requires d != [] && AllDigits(d)
    ensures IntParses(d)
  {
    StripUntrimmed(d);
    assert IsDigit(d[0]);
  }
}
