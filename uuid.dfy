/** Share identifiers. An event's share id is a 128-bit UUID; the server hands
    it out as Python's `str(uuid)` (32 lower-case hex digits grouped 8-4-4-4-12
    by hyphens), and the public lookup turns the path segment back into a UUID
    the way Python's `uuid.UUID(hex=...)` does: remove `urn:` and `uuid:`,
    strip braces from both ends, drop every hyphen, demand 32 characters, and
    read them with `int(..., 16)`, whose grammar allows surrounding
    whitespace, a sign, a `0x` prefix and underscores between digits. */
module Uuids {
  import opened Wrappers
  import Text

  /** A UUID is a 128-bit number, that is, one of 32 hex digits. */
  type Uuid = n: nat | n < Pow16(32)

  function Pow16(k: nat): (r: nat)
    ensures r >= 1
  {
    if k == 0 then 1 else 16 * Pow16(k - 1)
  }

  predicate IsHexDigit(c: char)
  {
    '0' <= c <= '9' || 'a' <= c <= 'f' || 'A' <= c <= 'F'
  }

  /** The lower-case hex digit for d. */
  function HexChar(d: nat): (c: char)
    requires d < 16
    ensures IsHexDigit(c) && c != '-' && c != '{' && c != '}'
  {
    if d < 10 then ('0' as int + d) as char else ('a' as int + d - 10) as char
  }

  function DigitValue(c: char): (d: nat)
    requires IsHexDigit(c)
    ensures d < 16
  {
    if '0' <= c <= '9' then c as int - '0' as int
    else if 'a' <= c <= 'f' then c as int - 'a' as int + 10
    else c as int - 'A' as int + 10
  }

  lemma DigitValueOfHexChar(d: nat)
    requires d < 16
    ensures DigitValue(HexChar(d)) == d
  {
  }

  /** The k lower-case hex digits of n, most significant first. */
  function Hex(n: nat, k: nat): (r: string)
    requires n < Pow16(k)
    ensures |r| == k
    ensures forall i :: 0 <= i < k ==> IsHexDigit(r[i]) && r[i] != '-' && r[i] != '{' && r[i] != '}'
  {
    if k == 0 then [] else Hex(n / 16, k - 1) + [HexChar(n % 16)]
  }

  /** The value of a string of hex digits, or None if some character is not one. */
  function HexValue(s: string): (r: Option<nat>)
    ensures r.Some? <==> forall i :: 0 <= i < |s| ==> IsHexDigit(s[i])
    ensures r.Some? ==> r.value < Pow16(|s|)
  {
    if s == [] then Some(0)
    else
      var n := |s| - 1;
      match HexValue(s[..n])
      case None => None
      case Some(v) =>
        if IsHexDigit(s[n]) then Some(v * 16 + DigitValue(s[n])) else None
  }

  lemma {:induction false} HexRoundTrip(n: nat, k: nat)
    requires n < Pow16(k)
    ensures HexValue(Hex(n, k)) == Some(n)
  {
    if k > 0 {
      var h := Hex(n, k);
      assert h[..k - 1] == Hex(n / 16, k - 1);
      HexRoundTrip(n / 16, k - 1);
      DigitValueOfHexChar(n % 16);
    }
  }

  /** Every character of s except c, in order (`s.replace(c, '')`). */
  function DropChar(s: string, c: char): (r: string)
    ensures |r| <= |s|
  {
    if s == [] then [] else (if s[0] == c then [] else [s[0]]) + DropChar(s[1..], c)
  }

  lemma {:induction false} DropCharAppend(a: string, b: string, c: char)
    ensures DropChar(a + b, c) == DropChar(a, c) + DropChar(b, c)
  {
    if a != [] {
      assert (a + b)[0] == a[0];
      assert (a + b)[1..] == a[1..] + b;
      DropCharAppend(a[1..], b, c);
    } else {
      assert a + b == b;
    }
  }

  lemma {:induction false} DropHyphensDash(a: string, b: string)
    ensures DropChar(a + "-" + b, '-') == DropChar(a, '-') + DropChar(b, '-')
  {
    DropCharAppend(a + "-", b, '-');
    DropCharAppend(a, "-", '-');
    assert "-"[1..] == [];
    assert DropChar("-", '-') == [];
  }

  lemma {:induction false} DropCharNone(s: string, c: char)
    requires c !in s
    ensures DropChar(s, c) == s
  {
    if s != [] {
      assert s[0] != c;
      assert c !in s[1..];
      DropCharNone(s[1..], c);
    }
  }

  /** Dropping c keeps every other character. */
  lemma {:induction false} DropCharKeeps(s: string, c: char, d: char)
    requires d in s && d != c
    ensures d in DropChar(s, c)
  {
    if s[0] == d {
      assert DropChar(s, c)[0] == d;
    } else {
      InTail(s, d);
      DropCharKeeps(s[1..], c, d);
    }
  }

  /** A character of s other than its first is in its tail. */
  lemma InTail(s: string, d: char)
    requires d in s && s[0] != d
    ensures d in s[1..]
  {
    var i :| 0 <= i < |s| && s[i] == d;
    assert s[1..][i - 1] == d;
  }

  /** `s.replace(pat, '')`: the occurrences of pat removed, scanning from the
      left as Python does. */
  function RemoveAll(s: string, pat: string): (r: string)
    requires |pat| > 0
    ensures |r| <= |s|
    decreases |s|
  {
    if |s| < |pat| then s
    else if s[..|pat|] == pat then RemoveAll(s[|pat|..], pat)
    else [s[0]] + RemoveAll(s[1..], pat)
  }

  /** Text in which some character of pat never occurs holds no occurrence
      of pat, so removing pat changes nothing. */
  lemma {:induction false} RemoveAllAbsent(s: string, pat: string, k: nat)
    requires k < |pat| && pat[k] !in s
    ensures RemoveAll(s, pat) == s
    decreases |s|
  {
    if |s| >= |pat| {
      assert s[..|pat|] != pat;
      assert pat[k] !in s[1..];
      RemoveAllAbsent(s[1..], pat, k);
      assert [s[0]] + s[1..] == s;
    }
  }

  /** A leading occurrence of pat is removed. */
  lemma RemoveAllLeading(pat: string, s: string)
    requires |pat| > 0
    ensures RemoveAll(pat + s, pat) == RemoveAll(s, pat)
  {
    assert (pat + s)[..|pat|] == pat;
    assert (pat + s)[|pat|..] == s;
  }

  /** Removing pat keeps every character that pat does not hold. */
  lemma {:induction false} RemoveAllKeeps(s: string, pat: string, d: char)
    requires |pat| > 0 && d in s && d !in pat
    ensures d in RemoveAll(s, pat)
    decreases |s|
  {
    if |s| < |pat| {
    } else if s[..|pat|] == pat {
      var i :| 0 <= i < |s| && s[i] == d;
      assert i >= |pat|;
      assert s[|pat|..][i - |pat|] == d;
      RemoveAllKeeps(s[|pat|..], pat, d);
    } else if s[0] == d {
      assert RemoveAll(s, pat)[0] == d;
    } else {
      InTail(s, d);
      RemoveAllKeeps(s[1..], pat, d);
      var t := RemoveAll(s[1..], pat);
      var j :| 0 <= j < |t| && t[j] == d;
      assert ([s[0]] + t)[j + 1] == d;
    }
  }

  predicate IsBrace(c: char)
  {
    c == '{' || c == '}'
  }

  /** `s.strip('{}')`: braces removed from both ends. */
  function StripBraces(s: string): (r: string)
    ensures |r| <= |s|
  {
    if |s| > 0 && IsBrace(s[0]) then StripBraces(s[1..])
    else if |s| > 0 && IsBrace(s[|s| - 1]) then StripBraces(s[..|s| - 1])
    else s
  }

  /** The characters int() skips around a number: the ASCII whitespace itself,
      and the non-ASCII characters of str.isspace(), which int() reads as
      spaces. (The separators U+001C to U+001F are str.isspace() characters
      that int() does not skip.) */
  predicate IntSpace(c: char)
  {
    c == ' ' || '\t' <= c <= '\r' || (c as int >= 127 && Text.IsSpace(c))
  }

  /** s with the IntSpace characters removed from both ends. */
  function TrimIntSpace(s: string): (r: string)
    ensures |r| <= |s|
    ensures |r| > 0 ==> !IntSpace(r[0]) && !IntSpace(r[|r| - 1])
  {
    if |s| > 0 && IntSpace(s[0]) then TrimIntSpace(s[1..])
    else if |s| > 0 && IntSpace(s[|s| - 1]) then TrimIntSpace(s[..|s| - 1])
    else s
  }

  /** Hex digits with single underscores between them, the digit part int()
      accepts. */
  predicate Grouped(s: string)
  {
    && |s| > 0 && IsHexDigit(s[0]) && IsHexDigit(s[|s| - 1])
    && (forall i :: 0 <= i < |s| ==> IsHexDigit(s[i]) || s[i] == '_')
    && (forall i :: 0 <= i < |s| - 1 ==> s[i] == '_' ==> s[i + 1] != '_')
  }

  /** The digit part after an optional `0x` or `0X` prefix, which one
      underscore may follow. */
  function DigitPart(u: string): (r: string)
    ensures |r| <= |u|
  {
    if |u| >= 2 && u[0] == '0' && (u[1] == 'x' || u[1] == 'X') then
      if |u| >= 3 && u[2] == '_' then u[3..] else u[2..]
    else u
  }

  /** The number an optional `0x` prefix and grouped hex digits denote. */
  function UnsignedHex(u: string): Option<nat>
  {
    var d := DigitPart(u);
    if Grouped(d) then HexValue(DropChar(d, '_')) else None
  }

  /** An optional sign, then the unsigned part. */
  function SignedHex(t: string): Option<int>
  {
    if |t| > 0 && t[0] == '+' then
      match UnsignedHex(t[1..])
      case None => None
      case Some(v) => Some(v as int)
    else if |t| > 0 && t[0] == '-' then
      match UnsignedHex(t[1..])
      case None => None
      case Some(v) => Some(-(v as int))
    else
      match UnsignedHex(t)
      case None => None
      case Some(v) => Some(v as int)
  }

  /** Python's `int(s, 16)` for text whose digits are ASCII: whitespace around,
      an optional sign, an optional `0x` prefix, then grouped hex digits. */
  function IntHex(s: string): (r: Option<int>)
    ensures r.Some? ==> TrimIntSpace(s) != ""
    ensures r.Some? && r.value < 0 ==> TrimIntSpace(s)[0] == '-'
  {
    SignedHex(TrimIntSpace(s))
  }

  lemma {:induction false} Pow16Monotone(j: nat, k: nat)
    requires j <= k
    ensures Pow16(j) <= Pow16(k)
    decreases k
  {
    if j < k {
      Pow16Monotone(j, k - 1);
    }
  }

  /** The canonical text form `str(uuid)`. */
  function Format(u: Uuid): (r: string)
    ensures |r| == 36
  {
    var h := Hex(u, 32);
    h[..8] + "-" + h[8..12] + "-" + h[12..16] + "-" + h[16..20] + "-" + h[20..]
  }

  /** The text `uuid.UUID(hex=s)` reads digits from: `urn:` and `uuid:`
      removed wherever they occur, braces stripped from both ends, hyphens
      dropped. */
  function UuidDigits(s: string): (r: string)
    ensures |r| <= |s|
  {
    DropChar(StripBraces(RemoveAll(RemoveAll(s, "urn:"), "uuid:")), '-')
  }

  /** The UUID a path segment denotes, as `uuid.UUID(hex=s)` reads it, or None
      when it raises: the digit text must be 32 characters long, int() must
      read it in base 16, and the number must lie in [0, 2^128). */
  function Parse(s: string): (r: Option<Uuid>)
    ensures r.Some? ==> |UuidDigits(s)| == 32 && IntHex(UuidDigits(s)) == Some(r.value as int)
  {
    var digits := UuidDigits(s);
    if |digits| != 32 then None
    else match IntHex(digits)
      case None => None
      case Some(v) => if 0 <= v < Pow16(32) then Some(v as nat) else None
  }

  predicate HexDigits(s: string)
  {
    forall i :: 0 <= i < |s| ==> IsHexDigit(s[i])
  }

  /** The unsigned part of a plain run of hex digits is their value. */
  lemma UnsignedHexPlain(s: string)
    requires |s| > 0 && HexDigits(s)
    ensures DigitPart(s) == s && UnsignedHex(s) == HexValue(s)
  {
    if |s| >= 2 {
      assert s[1] != 'x' && s[1] != 'X';
    }
    assert DigitPart(s) == s;
    assert Grouped(s);
    assert '_' !in s;
    DropCharNone(s, '_');
  }

  /** int() reads a plain run of hex digits as their value. */
  lemma IntHexPlain(s: string)
    requires |s| > 0 && HexDigits(s)
    ensures IntHex(s) == HexValue(s)
  {
    assert !IntSpace(s[0]) && !IntSpace(s[|s| - 1]);
    assert TrimIntSpace(s) == s;
    UnsignedHexPlain(s);
  }

  /** A leading space is skipped. */
  lemma IntHexSpace(s: string)
    requires |s| > 0 && HexDigits(s)
    ensures IntHex(" " + s) == HexValue(s)
  {
    var w := " " + s;
    assert w[1..] == s;
    assert TrimIntSpace(w) == TrimIntSpace(s);
    IntHexPlain(s);
  }

  /** A plus sign before the digits changes nothing. */
  lemma IntHexPlus(s: string)
    requires |s| > 0 && HexDigits(s)
    ensures IntHex("+" + s) == HexValue(s)
  {
    var w := "+" + s;
    assert w[0] == '+' && w[|w| - 1] == s[|s| - 1];
    assert TrimIntSpace(w) == w;
    assert w[1..] == s;
    UnsignedHexPlain(s);
  }

  /** A `0x` prefix before the digits changes nothing. */
  lemma IntHexPrefixed(s: string)
    requires |s| > 0 && HexDigits(s)
    ensures IntHex("0x" + s) == HexValue(s)
  {
    var w := "0x" + s;
    PrefixedTrim(s);
    PrefixedUnsigned(s);
    assert SignedHex(w) == UnsignedHex(w);
  }

  lemma PrefixedTrim(s: string)
    requires |s| > 0 && HexDigits(s)
    ensures TrimIntSpace("0x" + s) == "0x" + s && ("0x" + s)[0] == '0'
  {
    var w := "0x" + s;
    assert w[|w| - 1] == s[|s| - 1];
    TrimIntSpaceOfUnpadded(w);
  }

  lemma PrefixedUnsigned(s: string)
    requires |s| > 0 && HexDigits(s)
    ensures UnsignedHex("0x" + s) == HexValue(s)
  {
    PrefixedDigitPart(s);
    UnsignedHexPlain(s);
  }

  lemma TrimIntSpaceOfUnpadded(w: string)
    requires |w| > 0 && !IntSpace(w[0]) && !IntSpace(w[|w| - 1])
    ensures TrimIntSpace(w) == w
  {
  }

  lemma PrefixedDigitPart(s: string)
    requires |s| > 0 && s[0] != '_'
    ensures DigitPart("0x" + s) == s
  {
    var w := "0x" + s;
    assert w[2..] == s && w[2] == s[0];
  }

  /** int() reads the k hex digits of n as n. */
  lemma IntHexOfDigits(n: nat, k: nat)
    requires 0 < k && n < Pow16(k)
    ensures IntHex(Hex(n, k)) == Some(n)
  {
    IntHexPlain(Hex(n, k));
    HexRoundTrip(n, k);
  }

  /** The text the server hands out parses back to the same UUID. */
  lemma FormatParseRoundTrip(u: Uuid)
    ensures Parse(Format(u)) == Some(u)
  {
    FormatChars(u);
    FormatNoPrefixes(Format(u));
    FormatHasNoBraces(u);
    FormatDigits(u);
    IntHexOfDigits(u, 32);
  }

  predicate HexOrDash(s: string)
  {
    forall i :: 0 <= i < |s| ==> IsHexDigit(s[i]) || s[i] == '-'
  }

  lemma HexOrDashJoin(a: string, b: string)
    requires HexOrDash(a) && HexOrDash(b)
    ensures HexOrDash(a + "-" + b)
  {
    var j := a + "-" + b;
    forall i | 0 <= i < |j|
      ensures IsHexDigit(j[i]) || j[i] == '-'
    {
      if i < |a| { assert j[i] == a[i]; }
      else if i > |a| { assert j[i] == b[i - |a| - 1]; }
    }
  }

  lemma HexOrDashSlice(h: string, i: nat, j: nat)
    requires i <= j <= |h| && HexDigits(h)
    ensures HexOrDash(h[i..j])
  {
  }

  /** The text form holds hex digits and hyphens only. */
  lemma FormatChars(u: Uuid)
    ensures HexOrDash(Format(u))
  {
    var h := Hex(u, 32);
    HexOrDashSlice(h, 0, 8);
    HexOrDashSlice(h, 8, 12);
    HexOrDashSlice(h, 12, 16);
    HexOrDashSlice(h, 16, 20);
    HexOrDashSlice(h, 20, 32);
    assert h[20..] == h[20..32];
    HexOrDashJoin(h[..8], h[8..12]);
    HexOrDashJoin(h[..8] + "-" + h[8..12], h[12..16]);
    HexOrDashJoin(h[..8] + "-" + h[8..12] + "-" + h[12..16], h[16..20]);
    HexOrDashJoin(h[..8] + "-" + h[8..12] + "-" + h[12..16] + "-" + h[16..20], h[20..]);
  }

  /** Text without an 'r' or a ':' holds neither `urn:` nor `uuid:` to remove. */
  lemma FormatNoPrefixes(s: string)
    requires 'r' !in s && ':' !in s
    ensures RemoveAll(RemoveAll(s, "urn:"), "uuid:") == s
  {
    RemoveAllAbsent(s, "urn:", 1);
    RemoveAllAbsent(s, "uuid:", 4);
  }

  lemma FormatHasNoBraces(u: Uuid)
    ensures StripBraces(Format(u)) == Format(u)
  {
    var h := Hex(u, 32);
    var f := Format(u);
    assert f[0] == h[0] && f[35] == h[31];
  }

  /** Dropping the hyphens of the text form leaves the 32 hex digits. */
  lemma FormatDigits(u: Uuid)
    ensures DropChar(Format(u), '-') == Hex(u, 32)
  {
    var h := Hex(u, 32);
    assert '-' !in h;
    GroupedDigits(h);
  }

  /** Grouping 32 characters with no hyphen among them 8-4-4-4-12 and then
      dropping the hyphens gives them back. */
  lemma GroupedDigits(h: string)
    requires |h| == 32 && '-' !in h
    ensures DropChar(h[..8] + "-" + h[8..12] + "-" + h[12..16] + "-" + h[16..20] + "-" + h[20..], '-') == h
  {
    var p0, p1, p2, p3, p4 := h[..8], h[8..12], h[12..16], h[16..20], h[20..];
    var q1 := p0 + "-" + p1;
    var q2 := q1 + "-" + p2;
    var q3 := q2 + "-" + p3;
    NoneInSlice(h, 0, 8);
    NoneInSlice(h, 8, 12);
    NoneInSlice(h, 12, 16);
    NoneInSlice(h, 16, 20);
    NoneInSlice(h, 20, 32);
    DropCharNone(p0, '-');
    DropCharNone(p1, '-');
    DropCharNone(p2, '-');
    DropCharNone(p3, '-');
    DropCharNone(p4, '-');
    DropHyphensDash(p0, p1);
    assert p0 + p1 == h[..12];
    DropHyphensDash(q1, p2);
    assert h[..12] + p2 == h[..16];
    DropHyphensDash(q2, p3);
    assert h[..16] + p3 == h[..20];
    DropHyphensDash(q3, p4);
    assert h[..20] + p4 == h;
  }

  lemma NoneInSlice(h: string, i: nat, j: nat)
    requires i <= j <= |h| && '-' !in h
    ensures '-' !in h[i..j]
  {
  }

  /** Distinct UUIDs have distinct text forms, so the text form identifies the share. */
  lemma FormatInjective(u: Uuid, v: Uuid)
    requires Format(u) == Format(v)
    ensures u == v
  {
    FormatParseRoundTrip(u);
    FormatParseRoundTrip(v);
  }

  /** The `urn:uuid:` form of a share id names the same UUID. */
  lemma ParseUrnForm(u: Uuid)
    ensures Parse("urn:uuid:" + Format(u)) == Some(u)
  {
    var f := Format(u);
    FormatChars(u);
    UrnPrefixRemoved(f);
    FormatNoPrefixes(f);
    FormatParseRoundTrip(u);
  }

  /** Before text without an 'r' or a ':', `urn:uuid:` is removed whole. */
  lemma UrnPrefixRemoved(f: string)
    requires 'r' !in f && ':' !in f
    ensures RemoveAll(RemoveAll("urn:uuid:" + f, "urn:"), "uuid:") == f
  {
    assert "urn:uuid:" + f == "urn:" + ("uuid:" + f);
    RemoveAllLeading("urn:", "uuid:" + f);
    assert 'r' !in "uuid:" + f;
    RemoveAllAbsent("uuid:" + f, "urn:", 1);
    RemoveAllLeading("uuid:", f);
    RemoveAllAbsent(f, "uuid:", 4);
  }

  /** int()'s leniency reaches the share ids: 31 hex digits after a space or a
      plus sign, or 30 after `0x`, name the UUID with those digits. */
  lemma ParseLenientForms(n: nat)
    requires n < Pow16(30)
    ensures Parse(" " + Hex(n, 31)) == Some(n)
    ensures Parse("+" + Hex(n, 31)) == Some(n)
    ensures Parse("0x" + Hex(n, 30)) == Some(n)
  {
    Pow16Monotone(30, 31);
    Pow16Monotone(31, 32);
    ParseLeading(" ", Hex(n, 31), n);
    ParseLeading("+", Hex(n, 31), n);
    ParseLeading("0x", Hex(n, 30), n);
  }

  /** A one- or two-character lead of int()'s grammar before hex digits. */
  lemma ParseLeading(lead: string, h: string, n: nat)
    requires lead == " " || lead == "+" || lead == "0x"
    requires 0 < |h| && |lead| + |h| == 32 && n < Pow16(|h|) && h == Hex(n, |h|)
    ensures Parse(lead + h) == Some(n)
  {
    var s := lead + h;
    LeadChars(lead, h);
    UuidDigitsOfPlain(s);
    if lead == " " {
      IntHexSpace(h);
    } else if lead == "+" {
      IntHexPlus(h);
    } else {
      IntHexPrefixed(h);
    }
    HexRoundTrip(n, |h|);
    Pow16Monotone(|h|, 32);
    ParseOfDigitText(s, n);
  }

  lemma LeadChars(lead: string, h: string)
    requires lead == " " || lead == "+" || lead == "0x"
    requires 0 < |h| && HexDigits(h)
    ensures 'r' !in lead + h && ':' !in lead + h && '-' !in lead + h
    ensures !IsBrace((lead + h)[0]) && !IsBrace((lead + h)[|lead + h| - 1])
  {
    assert (lead + h)[|lead + h| - 1] == h[|h| - 1];
  }

  /** Text that is its own digit text, of 32 characters that int() reads as
      an in-range number, parses to that number. */
  lemma ParseOfDigitText(s: string, n: nat)
    requires UuidDigits(s) == s && |s| == 32 && IntHex(s) == Some(n) && n < Pow16(32)
    ensures Parse(s) == Some(n)
  {
  }

  /** Text with no `urn:`, `uuid:`, hyphen or end brace is its own digit text. */
  lemma UuidDigitsOfPlain(s: string)
    requires 'r' !in s && ':' !in s && '-' !in s
    requires |s| == 0 || (!IsBrace(s[0]) && !IsBrace(s[|s| - 1]))
    ensures UuidDigits(s) == s
  {
    FormatNoPrefixes(s);
    assert StripBraces(s) == s;
    DropCharNone(s, '-');
  }

  /** A segment with fewer than 32 characters is never a UUID. */
  lemma ParseRejectsShort(s: string)
    requires |s| < 32
    ensures Parse(s) == None
  {
  }

  /** The characters int(s, 16) can read at some position of its input. */
  predicate IntChar(c: char)
  {
    IsHexDigit(c) || c == '_' || c == 'x' || c == 'X' || c == '+' || c == '-' || IntSpace(c)
  }

  /** In this model, a segment holding a character that int() cannot read
      and that the `urn:`/`uuid:` removal and the brace strip cannot take
      away (a dot or a slash of "../", a '#') is never a UUID. The model
      counts every non-ASCII decimal digit among these characters, which
      int() in fact reads. */
  lemma ParseRejectsForeignChar(s: string, c: char)
    requires c in s && !IntChar(c) && !IsBrace(c) && c !in "urn:" && c !in "uuid:"
    ensures Parse(s) == None
  {
    RemoveAllKeeps(s, "urn:", c);
    var s1 := RemoveAll(s, "urn:");
    RemoveAllKeeps(s1, "uuid:", c);
    var s2 := RemoveAll(s1, "uuid:");
    StripBracesKeeps(s2, c);
    DropCharKeeps(StripBraces(s2), '-', c);
    IntHexRejects(UuidDigits(s), c);
  }

  lemma {:induction false} StripBracesKeeps(s: string, c: char)
    requires c in s && !IsBrace(c)
    ensures c in StripBraces(s)
    decreases |s|
  {
    if |s| > 0 && IsBrace(s[0]) {
      InTail(s, c);
      StripBracesKeeps(s[1..], c);
    } else if |s| > 0 && IsBrace(s[|s| - 1]) {
      var i :| 0 <= i < |s| && s[i] == c;
      assert s[..|s| - 1][i] == c;
      StripBracesKeeps(s[..|s| - 1], c);
    }
  }

  lemma {:induction false} TrimIntSpaceKeeps(s: string, c: char)
    requires c in s && !IntSpace(c)
    ensures c in TrimIntSpace(s)
    decreases |s|
  {
    if |s| > 0 && IntSpace(s[0]) {
      InTail(s, c);
      TrimIntSpaceKeeps(s[1..], c);
    } else if |s| > 0 && IntSpace(s[|s| - 1]) {
      var i :| 0 <= i < |s| && s[i] == c;
      assert s[..|s| - 1][i] == c;
      TrimIntSpaceKeeps(s[..|s| - 1], c);
    }
  }

  /** int() refuses text holding a character it cannot read. */
  lemma IntHexRejects(s: string, c: char)
    requires c in s && !IntChar(c)
    ensures IntHex(s) == None
  {
    TrimIntSpaceKeeps(s, c);
    var t := TrimIntSpace(s);
    var u := if |t| > 0 && (t[0] == '+' || t[0] == '-') then t[1..] else t;
    if u != t {
      InTail(t, c);
    }
    assert c in u;
    var i :| 0 <= i < |u| && u[i] == c;
    var d := DigitPart(u);
    if d != u {
      assert i >= 2;
      if |u| >= 3 && u[2] == '_' {
        assert d[i - 3] == c;
      } else {
        assert d[i - 2] == c;
      }
    }
    assert c in d;
  }
}
