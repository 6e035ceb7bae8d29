/** The string operations the application applies to user input: Python's
    str.strip() (which removes every character str.isspace() accepts from both
    ends) and str.lower() restricted to the ASCII letters. */
module Text {

  /** The characters Python's str.isspace() accepts. */
  predicate IsSpace(c: char)
  {
    || c == ' '
    || '\t' <= c <= '\r'
    || '\U{1C}' <= c <= '\U{1F}'
    || c == '\U{85}' || c == '\U{A0}' || c == '\U{1680}'
    || '\U{2000}' <= c <= '\U{200A}'
    || c == '\U{2028}' || c == '\U{2029}' || c == '\U{202F}' || c == '\U{205F}' || c == '\U{3000}'
  }

  /** True when s has no whitespace at either end (trivially so when empty). */
  predicate Unpadded(s: string)
  {
    |s| == 0 || (!IsSpace(s[0]) && !IsSpace(s[|s| - 1]))
  }

  predicate AllSpace(s: string)
  {
    forall i :: 0 <= i < |s| ==> IsSpace(s[i])
  }

  function StripLeft(s: string): (r: string)
    ensures |r| <= |s|
    ensures |r| > 0 ==> !IsSpace(r[0])
    ensures AllSpace(s[..|s| - |r|])
  {
    if |s| > 0 && IsSpace(s[0]) then
      var r := StripLeft(s[1..]);
      assert s[1..][..|s| - 1 - |r|] == s[1..|s| - |r|];
      r
    else s
  }

  /** What StripLeft keeps is a suffix of its input. */
  lemma {:induction false} StripLeftSuffix(s: string)
    ensures StripLeft(s) == s[|s| - |StripLeft(s)|..]
    decreases |s|
  {
    if |s| > 0 && IsSpace(s[0]) {
      StripLeftSuffix(s[1..]);
      var r := StripLeft(s[1..]);
      assert s[1..][|s| - 1 - |r|..] == s[|s| - |r|..];
    }
  }

  function StripRight(s: string): (r: string)
    ensures |r| <= |s| && r == s[..|r|]
    ensures |r| > 0 ==> !IsSpace(r[|r| - 1])
    ensures AllSpace(s[|r|..])
  {
    if |s| > 0 && IsSpace(s[|s| - 1]) then
      var p := s[..|s| - 1];
      var r := StripRight(p);
      assert p[..|r|] == s[..|r|];
      assert s[|r|..] == p[|r|..] + [s[|s| - 1]];
      r
    else s
  }

  /** Python's str.strip() with no argument. */
  function Strip(s: string): (r: string)
    ensures |r| <= |s|
    ensures Unpadded(r)
  {
    var l := StripLeft(s);
    var r := StripRight(l);
    assert |r| > 0 ==> r[0] == l[0];
    r
  }

  function LowerChar(c: char): char
  {
    if 'A' <= c <= 'Z' then (c as int + 32) as char else c
  }

  /** Python's str.lower() on the ASCII letters; other characters are kept. */
  function Lower(s: string): (r: string)
    ensures |r| == |s|
    ensures forall i :: 0 <= i < |s| ==> r[i] == LowerChar(s[i])
  {
    seq(|s|, i requires 0 <= i < |s| => LowerChar(s[i]))
  }

  /** Strip removes only whitespace, and only from the ends: the result is a
      contiguous piece of the input with no whitespace at either end, and what
      was cut off on each side is all whitespace. */
  lemma StripShape(s: string)
    ensures Unpadded(Strip(s))
    ensures exists i, j :: 0 <= i <= j <= |s| && Strip(s) == s[i..j]
                           && AllSpace(s[..i]) && AllSpace(s[j..])
  {
    var l := StripLeft(s);
    var r := StripRight(l);
    var i := |s| - |l|;
    StripLeftSuffix(s);
    var j := i + |r|;
    assert r == s[i..j];
    assert s[j..] == l[|r|..];
    if |r| > 0 {
      assert r[0] == l[0];
    }
  }

  /** What Strip returns has no whitespace at either end. */
  lemma StripIsUnpadded(s: string)
    ensures Unpadded(Strip(s))
  {
    StripShape(s);
  }

  lemma {:induction false} StripLeftOfUnpadded(s: string)
    requires |s| == 0 || !IsSpace(s[0])
    ensures StripLeft(s) == s
  {
  }

  lemma {:induction false} StripRightOfUnpadded(s: string)
    requires |s| == 0 || !IsSpace(s[|s| - 1])
    ensures StripRight(s) == s
  {
  }

  /** A string with no whitespace at its ends is left alone by Strip. */
  lemma StripOfUnpadded(s: string)
    requires Unpadded(s)
    ensures Strip(s) == s
  {
    StripLeftOfUnpadded(s);
    StripRightOfUnpadded(s);
  }

  /** Strip is idempotent. */
  lemma StripIdempotent(s: string)
    ensures Strip(Strip(s)) == Strip(s)
  {
    StripShape(s);
    StripOfUnpadded(Strip(s));
  }

  /** Strip yields the empty string exactly for the all-whitespace inputs
      (the empty string included). */
  lemma {:induction false} StripEmptyIff(s: string)
    ensures Strip(s) == [] <==> AllSpace(s)
  {
    StripLeftSuffix(s);
    if !AllSpace(s) {
      var k :| 0 <= k < |s| && !IsSpace(s[k]);
      var l := StripLeft(s);
      assert |l| > 0;
      assert !IsSpace(l[0]);
      assert !AllSpace(l[0..]);
      assert |StripRight(l)| != 0;
    }
  }

  lemma LowerCharIdempotent(c: char)
    ensures LowerChar(LowerChar(c)) == LowerChar(c)
  {
  }

  /** Lower is idempotent. */
  lemma LowerIdempotent(s: string)
    ensures Lower(Lower(s)) == Lower(s)
  {
    assert forall i :: 0 <= i < |s| ==> Lower(Lower(s))[i] == Lower(s)[i] by {
      forall i | 0 <= i < |s| { LowerCharIdempotent(s[i]); }
    }
  }

  /** Lowering never creates or destroys whitespace. */
  lemma LowerCharKeepsSpace(c: char)
    ensures IsSpace(LowerChar(c)) <==> IsSpace(c)
  {
  }

  lemma LowerSlice(s: string, i: nat, j: nat)
    requires i <= j <= |s|
    ensures Lower(s[i..j]) == Lower(s)[i..j]
  {
  }

  lemma {:induction false} StripLeftLower(s: string)
    ensures StripLeft(Lower(s)) == Lower(StripLeft(s))
    decreases |s|
  {
    if |s| > 0 {
      var t := Lower(s);
      LowerCharKeepsSpace(s[0]);
      assert t[0] == LowerChar(s[0]);
      if IsSpace(s[0]) {
        LowerSlice(s, 1, |s|);
        assert t[1..] == Lower(s[1..]);
        assert StripLeft(t) == StripLeft(t[1..]);
        StripLeftLower(s[1..]);
      } else {
        assert StripLeft(t) == t;
      }
    }
  }

  lemma {:induction false} StripRightLower(s: string)
    ensures StripRight(Lower(s)) == Lower(StripRight(s))
    decreases |s|
  {
    if |s| > 0 {
      var n := |s| - 1;
      var t := Lower(s);
      LowerCharKeepsSpace(s[n]);
      if IsSpace(s[n]) {
        assert IsSpace(t[n]);
        StripRightDrop(t);
        LowerSlice(s, 0, n);
        StripRightLower(s[..n]);
      } else {
        assert !IsSpace(t[n]);
        StripRightOfUnpadded(t);
      }
    }
  }

  lemma StripRightDrop(t: string)
    requires |t| > 0 && IsSpace(t[|t| - 1])
    ensures StripRight(t) == StripRight(t[..|t| - 1])
  {
  }

  /** Stripping and lowering commute, so `x.strip().lower()` and
      `x.lower().strip()` give the same string. */
  lemma StripLowerCommute(s: string)
    ensures Strip(Lower(s)) == Lower(Strip(s))
  {
    StripLeftLower(s);
    StripRightLower(StripLeft(s));
  }
}
