/**
  The parts of JavaScript's string semantics that the validators rely on:
  `String.prototype.trim` and the `length` property, which counts UTF-16
  code units. Strings are sequences of Unicode scalar values.
 */
module JsString {

  /** The ECMAScript WhiteSpace and LineTerminator code points: what `trim`
      strips from both ends and what `Number(...)` skips around a numeral. */
  predicate IsWhitespace(c: char) {
    || c == '\t' || c == '\n' || c == '\r' || c == ' '
    || c == '\U{0B}' || c == '\U{0C}' || c == '\U{A0}' || c == '\U{1680}'
    || ('\U{2000}' <= c <= '\U{200A}')
    || c == '\U{2028}' || c == '\U{2029}' || c == '\U{202F}' || c == '\U{205F}'
    || c == '\U{3000}' || c == '\U{FEFF}'
  }

  predicate AllWhitespace(s: string) {
    forall i :: 0 <= i < |s| ==> IsWhitespace(s[i])
  }

  /** The number of whitespace characters `s` starts with: everything
      before it is whitespace and the character at it, if any, is not. */
  function LeadingSpace(s: string): (n: nat)
    ensures n <= |s|
    ensures forall i :: 0 <= i < n ==> IsWhitespace(s[i])
    ensures n < |s| ==> !IsWhitespace(s[n])
  {
    if s != [] && IsWhitespace(s[0]) then
      assert forall i :: 1 <= i <= |s| - 1 ==> s[1..][i - 1] == s[i];
      1 + LeadingSpace(s[1..])
    else
      0
  }

  /** The length of `s` without its trailing whitespace: everything from it
      on is whitespace and the character before it, if any, is not. */
  function ContentEnd(s: string): (n: nat)
    ensures n <= |s|
    ensures forall i :: n <= i < |s| ==> IsWhitespace(s[i])
    ensures n > 0 ==> !IsWhitespace(s[n - 1])
  {
    if s != [] && IsWhitespace(s[|s| - 1]) then
      ContentEnd(s[..|s| - 1])
    else
      |s|
  }

  /** `s.trimStart()` */
  function TrimStart(s: string): string {
    s[LeadingSpace(s)..]
  }

  /** `s.trimEnd()` */
  function TrimEnd(s: string): string {
    s[..ContentEnd(s)]
  }

  /** `s.trim()` */
  function Trim(s: string): string {
    TrimEnd(TrimStart(s))
  }

  /** `trim` removes a whitespace prefix and a whitespace suffix and nothing
      else; what remains is empty or starts and ends with non-whitespace. */
  lemma TrimIsSlice(s: string) returns (lo: nat, hi: nat)
    ensures lo <= hi <= |s| && Trim(s) == s[lo..hi]
    ensures forall i :: 0 <= i < lo ==> IsWhitespace(s[i])
    ensures forall i :: hi <= i < |s| ==> IsWhitespace(s[i])
    ensures Trim(s) == [] || (!IsWhitespace(Trim(s)[0]) && !IsWhitespace(Trim(s)[|Trim(s)| - 1]))
  {
    lo := LeadingSpace(s);
    var t := s[lo..];
    var n := ContentEnd(t);
    hi := lo + n;
    assert Trim(s) == t[..n] == s[lo..hi];
    forall i | hi <= i < |s| ensures IsWhitespace(s[i]) {
      assert s[i] == t[i - lo];
    }
    if n > 0 {
      assert Trim(s)[0] == t[0] && Trim(s)[n - 1] == t[n - 1];
    }
  }

  /** A string trims to the empty string exactly when it is all whitespace. */
  lemma TrimBlank(s: string)
    ensures Trim(s) == [] <==> AllWhitespace(s)
  {
    var lo, hi := TrimIsSlice(s);
    if Trim(s) != [] {
      assert !IsWhitespace(s[lo]);
    }
  }

  /** A stretch of `s` that starts and ends with non-whitespace survives
      `trim` unchanged, shifted by the length of the stripped prefix. */
  lemma TrimKeeps(s: string, i: nat, k: nat) returns (lo: nat)
    requires i <= k < |s| && !IsWhitespace(s[i]) && !IsWhitespace(s[k])
    ensures lo <= i && k - lo < |Trim(s)|
    ensures forall m :: i <= m <= k ==> Trim(s)[m - lo] == s[m]
  {
    var hi;
    lo, hi := TrimIsSlice(s);
    assert lo <= i && k < hi;
  }

  /** A string that neither starts nor ends with whitespace is its own trim. */
  lemma TrimNoop(s: string)
    requires s != [] && !IsWhitespace(s[0]) && !IsWhitespace(s[|s| - 1])
    ensures Trim(s) == s
  {
  }

  /** Whitespace padding on either side is exactly what `trim` removes. */
  lemma TrimPadded(pad: string, s: string, pad': string)
    requires AllWhitespace(pad) && AllWhitespace(pad')
    requires s != [] && !IsWhitespace(s[0]) && !IsWhitespace(s[|s| - 1])
    ensures Trim(pad + s + pad') == s
  {
    var v := pad + s + pad';
    var first, last := |pad|, |pad| + |s| - 1;
    assert v[first] == s[0] && v[last] == s[|s| - 1];
    var lo, hi := TrimIsSlice(v);
    var t := Trim(v);
    assert lo <= first && last < hi;
    assert lo == first && hi == last + 1;
    assert v[first..last + 1] == s;
  }

  /** Trimming twice is trimming once. */
  lemma TrimIdempotent(s: string)
    ensures Trim(Trim(s)) == Trim(s)
  {
    var lo, hi := TrimIsSlice(s);
    if Trim(s) != [] {
      TrimNoop(Trim(s));
    }
  }

  /** The number of UTF-16 code units a character takes: two for a code
      point outside the Basic Multilingual Plane, one otherwise. */
  function CodeUnits(c: char): nat {
    if c as int >= 0x1_0000 then 2 else 1
  }

  predicate InBasicPlane(s: string) {
    forall i :: 0 <= i < |s| ==> s[i] as int < 0x1_0000
  }

  /** `s.length`: at least one and at most two code units per character, and
      exactly one each when the string stays in the Basic Multilingual Plane. */
  function Utf16Length(s: string): (n: nat)
    ensures |s| <= n <= 2 * |s|
  {
    if s == [] then 0 else CodeUnits(s[0]) + Utf16Length(s[1..])
  }

  /** `s.length` equals the number of characters exactly when every
      character is in the Basic Multilingual Plane. */
  lemma {:induction false} Utf16LengthBasicPlane(s: string)
    ensures Utf16Length(s) == |s| <==> InBasicPlane(s)
  {
    if s != [] {
      Utf16LengthBasicPlane(s[1..]);
      assert InBasicPlane(s) <==> s[0] as int < 0x1_0000 && InBasicPlane(s[1..]) by {
        if s[0] as int < 0x1_0000 && InBasicPlane(s[1..]) {
          forall i | 0 <= i < |s| ensures s[i] as int < 0x1_0000 {
            if i > 0 { assert s[i] == s[1..][i - 1]; }
          }
        }
      }
    }
  }

  lemma {:induction false} Utf16LengthAppend(a: string, b: string)
    ensures Utf16Length(a + b) == Utf16Length(a) + Utf16Length(b)
  {
    if a == [] {
      assert a + b == b;
    } else {
      assert (a + b)[0] == a[0] && (a + b)[1..] == a[1..] + b;
      Utf16LengthAppend(a[1..], b);
    }
  }

  /** A piece of a string is never longer than the string. */
  lemma Utf16LengthSlice(s: string, lo: nat, hi: nat)
    requires lo <= hi <= |s|
    ensures Utf16Length(s[lo..hi]) <= Utf16Length(s)
  {
    var prefix, middle, suffix := s[..lo], s[lo..hi], s[hi..];
    assert s == prefix + middle + suffix;
    Utf16LengthAppend(prefix + middle, suffix);
    Utf16LengthAppend(prefix, middle);
  }

  /** Trimming never lengthens a string. */
  lemma Utf16LengthTrim(s: string)
    ensures Utf16Length(Trim(s)) <= Utf16Length(s)
  {
    var lo, hi := TrimIsSlice(s);
    Utf16LengthSlice(s, lo, hi);
  }
}
