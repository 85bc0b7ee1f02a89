/** String helpers with the semantics of the Python built-ins the source uses:
    `in` on strings, `startswith`/`endswith`, `replace`, `split` on one character,
    `strip`, `lower`, `capitalize`, and decimal formatting with zero padding.
    Strings are sequences of Unicode scalar values; case mapping covers ASCII only. */
module Text {

  /** Python's `str.isspace` for a single character. */
  predicate IsSpace(c: char)
  {
    c == ' ' || ('\t' <= c <= '\r') || ('\U{1c}' <= c <= '\U{1f}')
    || c == '\U{85}' || c == '\U{a0}' || c == '\U{1680}'
    || ('\U{2000}' <= c <= '\U{200a}') || c == '\U{2028}' || c == '\U{2029}'
    || c == '\U{202f}' || c == '\U{205f}' || c == '\U{3000}'
  }

  predicate StartsWith(s: string, prefix: string)
  {
    |prefix| <= |s| && s[..|prefix|] == prefix
  }

  predicate EndsWith(s: string, suffix: string)
  {
    |suffix| <= |s| && s[|s| - |suffix|..] == suffix
  }

  /** `sub in s` for strings. */
  predicate Contains(s: string, sub: string)
    decreases |s|
  {
    StartsWith(s, sub) || (s != [] && Contains(s[1..], sub))
  }

  lemma {:induction false} ContainsAt(s: string, sub: string, i: nat)
    requires i + |sub| <= |s| && s[i..i + |sub|] == sub
    ensures Contains(s, sub)
    decreases i
  {
    if i > 0 {
      assert s[1..][i - 1..i - 1 + |sub|] == s[i..i + |sub|];
      ContainsAt(s[1..], sub, i - 1);
    }
  }

  /** A one-character needle is contained exactly when the character occurs. */
  lemma {:induction false} ContainsChar(s: string, c: char)
    ensures Contains(s, [c]) <==> c in s
    decreases |s|
  {
    if s != [] {
      ContainsChar(s[1..], c);
      assert c in s <==> s[0] == c || c in s[1..];
    }
  }

  /** Python `s.lstrip()`: drop leading whitespace. */
  function StripLeft(s: string): (r: string)
    ensures |r| <= |s| && r == s[|s| - |r|..]
    ensures forall k :: 0 <= k < |s| - |r| ==> IsSpace(s[k])
    ensures r != [] ==> !IsSpace(r[0])
    decreases |s|
  {
    if s != [] && IsSpace(s[0]) then StripLeft(s[1..]) else s
  }

  /** Python `s.rstrip()`: drop trailing whitespace. */
  function StripRight(s: string): (r: string)
    ensures |r| <= |s| && r == s[..|r|]
    ensures forall k :: |r| <= k < |s| ==> IsSpace(s[k])
    ensures r != [] ==> !IsSpace(r[|r| - 1])
    decreases |s|
  {
    if s != [] && IsSpace(s[|s| - 1]) then StripRight(s[..|s| - 1]) else s
  }

  /** Python `s.strip()`. */
  function Strip(s: string): string
  {
    StripRight(StripLeft(s))
  }

  /** `Strip` keeps a contiguous middle part of its argument, removes only whitespace
      around it, and leaves neither leading nor trailing whitespace. */
  lemma StripSpec(s: string)
    ensures var r := Strip(s);
      exists i, j :: 0 <= i <= j <= |s| && r == s[i..j]
        && (forall k :: 0 <= k < i ==> IsSpace(s[k]))
        && (forall k :: j <= k < |s| ==> IsSpace(s[k]))
    ensures Strip(s) != [] ==> !IsSpace(Strip(s)[0]) && !IsSpace(Strip(s)[|Strip(s)| - 1])
  {
    var i, j := StripBounds(s);
    StripEnds(s);
  }

  /** The bounds of the part `Strip` keeps. */
  lemma StripBounds(s: string) returns (i: nat, j: nat)
    ensures i <= j <= |s| && Strip(s) == s[i..j]
    ensures forall k :: 0 <= k < i ==> IsSpace(s[k])
    ensures forall k :: j <= k < |s| ==> IsSpace(s[k])
  {
    var l := StripLeft(s);
    i := |s| - |l|;
    j := i + |StripRight(l)|;
    TailSpaces(s, l, i, j);
    assert Strip(s) == StripRight(l) == s[i..j];
    assert forall k :: 0 <= k < i ==> IsSpace(s[k]);
  }

  /** Whitespace after the kept part of `StripLeft(s)` is whitespace after it in `s`. */
  lemma TailSpaces(s: string, l: string, i: nat, j: nat)
    requires i <= |s| && l == s[i..] && j == i + |StripRight(l)|
    ensures j <= |s| && StripRight(l) == s[i..j]
    ensures forall k :: j <= k < |s| ==> IsSpace(s[k])
  {
    var r := StripRight(l);
    assert r == s[i..j];
    forall k | j <= k < |s| ensures IsSpace(s[k]) {
      assert s[k] == l[k - i];
    }
  }

  /** Neither end of a stripped string is whitespace. */
  lemma StripEnds(s: string)
    ensures Strip(s) != [] ==> !IsSpace(Strip(s)[0]) && !IsSpace(Strip(s)[|Strip(s)| - 1])
  {
    var l := StripLeft(s);
    var r := StripRight(l);
    if r != [] {
      assert r[0] == l[0];
    }
  }

  /** A string with no whitespace at either end is its own strip. */
  lemma StripIdempotent(s: string)
    ensures Strip(Strip(s)) == Strip(s)
  {
    var r := Strip(s);
    StripSpec(s);
    if r != [] {
      assert StripLeft(r) == r;
      assert StripRight(r) == r;
    }
  }

  /** No whitespace at either end. */
  predicate Trimmed(s: string)
  {
    s != [] ==> !IsSpace(s[0]) && !IsSpace(s[|s| - 1])
  }

  /** A string with no whitespace at either end is its own strip. */
  lemma StripKeeps(s: string)
    requires Trimmed(s)
    ensures Strip(s) == s
  {
    if s != [] {
      assert StripLeft(s) == s;
      assert StripRight(s) == s;
    }
  }

  /** A string with a character that is not whitespace does not strip to nothing. */
  lemma StripNotBlank(s: string, i: nat)
    requires i < |s| && !IsSpace(s[i])
    ensures Strip(s) != ""
  {
    var a, b := StripBounds(s);
  }

  /** `Strip` only removes characters: whatever it keeps occurs in its argument. */
  lemma StripSubset(s: string)
    ensures forall c :: c in Strip(s) ==> c in s
  {
    var l := StripLeft(s);
    var r := StripRight(l);
    assert forall k :: 0 <= k < |r| ==> r[k] == l[k];
    assert forall k :: 0 <= k < |l| ==> l[k] == s[|s| - |l| + k];
  }

  /** Python `s.replace(pat, rep)` for a non-empty pattern: every non-overlapping
      occurrence, scanning from the left, is replaced. */
  function Replace(s: string, pat: string, rep: string): string
    requires pat != []
    decreases |s|
  {
    if |s| < |pat| then s
    else if s[..|pat|] == pat then rep + Replace(s[|pat|..], pat, rep)
    else [s[0]] + Replace(s[1..], pat, rep)
  }

  /** Replacing one character by a string that does not contain it leaves no occurrence,
      and keeps every other character. */
  lemma {:induction false} ReplaceCharRemoves(s: string, c: char, rep: string)
    requires c !in rep
    ensures c !in Replace(s, [c], rep)
    ensures forall d :: d != c && d !in rep ==> (d in Replace(s, [c], rep) <==> d in s)
    decreases |s|
  {
    if |s| >= 1 {
      ReplaceCharRemoves(s[1..], c, rep);
      assert s == [s[0]] + s[1..];
    }
  }

  /** Replacing a character that does not occur changes nothing. */
  lemma {:induction false} ReplaceCharAbsent(s: string, c: char, rep: string)
    requires c !in s
    ensures Replace(s, [c], rep) == s
    decreases |s|
  {
    if |s| >= 1 {
      ReplaceCharAbsent(s[1..], c, rep);
      assert s == [s[0]] + s[1..];
    }
  }

  /** Replacing one character by another keeps the length and maps position by position. */
  lemma {:induction false} ReplaceCharByChar(s: string, c: char, d: char)
    ensures |Replace(s, [c], [d])| == |s|
    ensures forall k :: 0 <= k < |s| ==> Replace(s, [c], [d])[k] == if s[k] == c then d else s[k]
    decreases |s|
  {
    if |s| >= 1 {
      ReplaceCharByChar(s[1..], c, d);
    }
  }

  /** Python `s.split(sep)` for a one-character separator. */
  function Split(s: string, sep: char): (r: seq<string>)
    ensures |r| > 0
    ensures forall k :: 0 <= k < |r| ==> sep !in r[k]
    decreases |s|
  {
    if s == [] then [""]
    else if s[0] == sep then [""] + Split(s[1..], sep)
    else
      var rest := Split(s[1..], sep);
      [[s[0]] + rest[0]] + rest[1..]
  }

  /** Python `sep.join(parts)`. */
  function JoinWith(parts: seq<string>, sep: char): string
  {
    if parts == [] then ""
    else if |parts| == 1 then parts[0]
    else parts[0] + [sep] + JoinWith(parts[1..], sep)
  }

  /** Joining the pieces of a split gives back the string. */
  lemma {:induction false} JoinSplit(s: string, sep: char)
    ensures JoinWith(Split(s, sep), sep) == s
    decreases |s|
  {
    if s == [] {
    } else if s[0] == sep {
      JoinSplit(s[1..], sep);
      var rest := Split(s[1..], sep);
      assert Split(s, sep) == [""] + rest;
      assert |[""] + rest| >= 2;
      assert JoinWith([""] + rest, sep) == "" + [sep] + JoinWith(rest, sep);
      assert s == [s[0]] + s[1..];
    } else {
      JoinSplit(s[1..], sep);
      var rest := Split(s[1..], sep);
      var r := Split(s, sep);
      assert r == [[s[0]] + rest[0]] + rest[1..];
      if |rest| == 1 {
        assert JoinWith(r, sep) == [s[0]] + rest[0];
        assert JoinWith(rest, sep) == rest[0];
      } else {
        assert JoinWith(r, sep) == [s[0]] + rest[0] + [sep] + JoinWith(rest[1..], sep);
        assert JoinWith(rest, sep) == rest[0] + [sep] + JoinWith(rest[1..], sep);
      }
      assert s == [s[0]] + s[1..];
    }
  }

  /** Splitting pieces that do not contain the separator gives back the pieces. */
  lemma {:induction false} SplitJoin(parts: seq<string>, sep: char)
    requires |parts| > 0
    requires forall k :: 0 <= k < |parts| ==> sep !in parts[k]
    ensures Split(JoinWith(parts, sep), sep) == parts
    decreases |parts|, |parts[0]|
  {
    var p := parts[0];
    if |parts| == 1 {
      SplitNoSep(p, sep);
    } else if p == [] {
      SplitJoin(parts[1..], sep);
      var j := JoinWith(parts, sep);
      assert j == [sep] + JoinWith(parts[1..], sep);
      assert j[1..] == JoinWith(parts[1..], sep);
      assert parts == [""] + parts[1..];
    } else {
      var tail := [p[1..]] + parts[1..];
      assert p == [p[0]] + p[1..];
      SplitJoin(tail, sep);
      var j := JoinWith(parts, sep);
      assert JoinWith(tail, sep) == p[1..] + [sep] + JoinWith(parts[1..], sep);
      assert j == [p[0]] + JoinWith(tail, sep);
      assert j[1..] == JoinWith(tail, sep);
      assert j[0] == p[0] && p[0] != sep;
      assert parts == [[p[0]] + tail[0]] + tail[1..];
    }
  }

  lemma {:induction false} SplitNoSep(s: string, sep: char)
    requires sep !in s
    ensures Split(s, sep) == [s]
    decreases |s|
  {
    if s != [] {
      SplitNoSep(s[1..], sep);
      assert s == [s[0]] + s[1..];
    }
  }

  /** Number of occurrences of a character. */
  function Count(s: string, c: char): nat
    decreases |s|
  {
    if s == [] then 0 else (if s[0] == c then 1 else 0) + Count(s[1..], c)
  }

  /** `s.split(sep)` has one piece more than there are separators. */
  lemma {:induction false} SplitCount(s: string, sep: char)
    ensures |Split(s, sep)| == Count(s, sep) + 1
    decreases |s|
  {
    if s != [] {
      SplitCount(s[1..], sep);
    }
  }

  function LowerChar(c: char): char
  {
    if 'A' <= c <= 'Z' then (c as int + 32) as char else c
  }

  function UpperChar(c: char): char
  {
    if 'a' <= c <= 'z' then (c as int - 32) as char else c
  }

  /** Python `s.lower()` on ASCII letters. */
  function Lower(s: string): (r: string)
    ensures |r| == |s|
    ensures forall k :: 0 <= k < |s| ==> r[k] == LowerChar(s[k])
  {
    seq(|s|, k requires 0 <= k < |s| => LowerChar(s[k]))
  }

  /** Python `s.capitalize()` on ASCII letters: first character upper case, the rest lower. */
  function Capitalize(s: string): (r: string)
    ensures |r| == |s|
    ensures s != [] ==> r[0] == UpperChar(s[0]) && r[1..] == Lower(s[1..])
  {
    if s == [] then "" else [UpperChar(s[0])] + Lower(s[1..])
  }

  // ---- decimal numbers -------------------------------------------------------

  predicate IsDigit(c: char)
  {
    '0' <= c <= '9'
  }

  predicate AllDigits(s: string)
  {
    forall k :: 0 <= k < |s| ==> IsDigit(s[k])
  }

  function DigitChar(d: nat): (c: char)
    requires d < 10
    ensures IsDigit(c) && c as int - '0' as int == d
  {
    ('0' as int + d) as char
  }

  /** Python `str(n)` for a natural number. */
  function NatToString(n: nat): (r: string)
    ensures |r| > 0 && AllDigits(r)
    ensures n < 10 <==> |r| == 1
  {
    if n < 10 then [DigitChar(n)] else NatToString(n / 10) + [DigitChar(n % 10)]
  }

  /** The value of a string of decimal digits; leading zeros are allowed. */
  function DigitsValue(s: string): nat
    requires AllDigits(s)
  {
    if s == [] then 0 else DigitsValue(s[..|s| - 1]) * 10 + (s[|s| - 1] as int - '0' as int)
  }

  /** Reading back the decimal form of a number gives the number. */
  lemma {:induction false} NatToStringValue(n: nat)
    ensures DigitsValue(NatToString(n)) == n
  {
    var r := NatToString(n);
    if n >= 10 {
      NatToStringValue(n / 10);
      assert r[..|r| - 1] == NatToString(n / 10);
    }
  }

  /** Distinct numbers have distinct decimal forms. */
  lemma NatToStringInjective(a: nat, b: nat)
    requires NatToString(a) == NatToString(b)
    ensures a == b
  {
    NatToStringValue(a);
    NatToStringValue(b);
  }

  /** Leading zeros do not change the value. */
  lemma {:induction false} LeadingZeros(z: string, s: string)
    requires AllDigits(s) && forall k :: 0 <= k < |z| ==> z[k] == '0'
    ensures AllDigits(z + s) && DigitsValue(z + s) == DigitsValue(s)
    decreases |s|, |z|
  {
    var t := z + s;
    if s == [] {
      assert t == z;
      if z != [] {
        LeadingZeros(z[..|z| - 1], "");
        assert t[..|t| - 1] == z[..|z| - 1] + "";
      }
    } else {
      LeadingZeros(z, s[..|s| - 1]);
      assert t[..|t| - 1] == z + s[..|s| - 1];
    }
  }

  function Zeros(n: nat): (r: string)
    ensures |r| == n && forall k :: 0 <= k < n ==> r[k] == '0'
  {
    seq(n, _ => '0')
  }

  /** Python `f"{n:0{width}d}"`: decimal form left-padded with zeros to at least `width`. */
  function ZeroPad(n: nat, width: nat): (r: string)
    ensures AllDigits(r) && |r| >= width && |r| >= 1
    ensures DigitsValue(r) == n
    ensures |NatToString(n)| >= width ==> r == NatToString(n)
  {
    var d := NatToString(n);
    var z := if |d| < width then Zeros(width - |d|) else "";
    NatToStringValue(n);
    LeadingZeros(z, d);
    z + d
  }

  /** A number below 10^k has at most k digits. */
  lemma {:induction false} NatToStringLength(n: nat, k: nat, bound: nat)
    requires bound == Pow10(k) && n < bound && k >= 1
    ensures |NatToString(n)| <= k
  {
    if n >= 10 {
      assert k != 1;
      Pow10Step(k - 1);
      NatToStringLength(n / 10, k - 1, Pow10(k - 1));
    }
  }

  function Pow10(k: nat): nat
  {
    if k == 0 then 1 else 10 * Pow10(k - 1)
  }

  lemma Pow10Step(k: nat)
    ensures Pow10(k + 1) == 10 * Pow10(k)
  {
  }

  /** Padding a number below 10^width gives exactly `width` digits. */
  lemma ZeroPadExact(n: nat, width: nat)
    requires width >= 1 && n < Pow10(width)
    ensures |ZeroPad(n, width)| == width
  {
    NatToStringLength(n, width, Pow10(width));
  }
}
