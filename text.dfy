/** String helpers that the sitemap code takes from JavaScript's String and Number:
    `includes`, `trim`, decimal rendering of integers and `Array.prototype.join`. */
module Text {

  /** `s[i..]` starts with `sub`. */
  predicate OccursAt(s: string, sub: string, i: nat)
  {
    i + |sub| <= |s| && s[i..i + |sub|] == sub
  }

  /** `s.includes(sub)`: scans `s` left to right for an occurrence of `sub`. */
  function Includes(s: string, sub: string): (r: bool)
    ensures r <==> exists i: nat :: OccursAt(s, sub, i)
    decreases |s|
  {
    if |sub| > |s| then
      assert forall i: nat :: !OccursAt(s, sub, i);
      false
    else if s[..|sub|] == sub then
      assert OccursAt(s, sub, 0);
      true
    else
      var rest := Includes(s[1..], sub);
      assert forall i: nat :: OccursAt(s[1..], sub, i) <==> OccursAt(s, sub, i + 1) by {
        forall i: nat ensures OccursAt(s[1..], sub, i) <==> OccursAt(s, sub, i + 1) {
          if i + |sub| <= |s[1..]| {
            assert s[1..][i..i + |sub|] == s[i + 1..i + 1 + |sub|];
          }
        }
      }
      assert !OccursAt(s, sub, 0);
      assert rest ==> exists i: nat :: OccursAt(s, sub, i) by {
        if rest {
          var i: nat :| OccursAt(s[1..], sub, i);
          assert OccursAt(s, sub, i + 1);
        }
      }
      assert (exists i: nat :: OccursAt(s, sub, i)) ==> rest by {
        if exists i: nat :: OccursAt(s, sub, i) {
          var i: nat :| OccursAt(s, sub, i);
          assert i != 0;
          assert OccursAt(s[1..], sub, i - 1);
        }
      }
      rest
  }

  /** The characters `String.prototype.trim` removes: ECMAScript WhiteSpace
      (tab, vertical tab, form feed, space, no-break space, byte order mark and
      the Unicode space separators) and LineTerminator (LF, CR, LS, PS). */
  predicate IsJsWhitespace(c: char)
  {
    c == '\t' || c == '\n' || c == '\U{B}' || c == '\U{C}' || c == '\r' || c == ' '
    || c == '\U{A0}' || c == '\U{1680}' || ('\U{2000}' <= c <= '\U{200A}')
    || c == '\U{2028}' || c == '\U{2029}' || c == '\U{202F}' || c == '\U{205F}'
    || c == '\U{3000}' || c == '\U{FEFF}'
  }

  function TrimStart(s: string): (r: string)
    ensures r != [] ==> !IsJsWhitespace(r[0])
  {
    if s != [] && IsJsWhitespace(s[0]) then TrimStart(s[1..]) else s
  }

  function TrimEnd(s: string): (r: string)
  {
    if s != [] && IsJsWhitespace(s[|s| - 1]) then TrimEnd(s[..|s| - 1]) else s
  }

  /** `s.trim()`. */
  function Trim(s: string): string
  {
    TrimEnd(TrimStart(s))
  }

  /** TrimStart removes exactly a leading run of whitespace. */
  lemma {:induction false} TrimStartAllWhitespace(s: string)
    ensures TrimStart(s) == [] <==> forall i :: 0 <= i < |s| ==> IsJsWhitespace(s[i])
  {
    if s != [] && IsJsWhitespace(s[0]) {
      TrimStartAllWhitespace(s[1..]);
      assert forall i :: 1 <= i < |s| ==> s[i] == s[1..][i - 1];
    }
  }

  /** A string trims to the empty string exactly when every character of it is
      whitespace, so `s.trim() !== ''` means "s has a visible character". */
  lemma TrimEmptyIffAllWhitespace(s: string)
    ensures Trim(s) == [] <==> forall i :: 0 <= i < |s| ==> IsJsWhitespace(s[i])
  {
    TrimStartAllWhitespace(s);
    var t := TrimStart(s);
    if t != [] {
      assert TrimEnd(t) != [] by {
        if TrimEnd(t) == [] {
          TrimEndEmpty(t);
        }
      }
    }
  }

  lemma {:induction false} TrimEndEmpty(s: string)
    requires TrimEnd(s) == []
    ensures forall i :: 0 <= i < |s| ==> IsJsWhitespace(s[i])
  {
    if s != [] {
      TrimEndEmpty(s[..|s| - 1]);
      assert forall i :: 0 <= i < |s| - 1 ==> s[i] == s[..|s| - 1][i];
    }
  }

  function DigitChar(d: nat): (c: char)
    requires d < 10
    ensures '0' <= c <= '9' && c as int - '0' as int == d
  {
    "0123456789"[d]
  }

  predicate IsDigits(s: string)
  {
    forall i :: 0 <= i < |s| ==> '0' <= s[i] <= '9'
  }

  /** The decimal rendering JavaScript gives a non-negative integer in a template
      literal: digits only, no leading zero. */
  function NatToDecimal(n: nat): (s: string)
    ensures s != [] && IsDigits(s)
    ensures s[0] == '0' <==> n == 0
    decreases n
  {
    if n < 10 then [DigitChar(n)] else NatToDecimal(n / 10) + [DigitChar(n % 10)]
  }

  /** The number a string of digits denotes. */
  function DecimalValue(s: string): nat
    requires IsDigits(s)
  {
    if s == [] then 0
    else DecimalValue(s[..|s| - 1]) * 10 + (s[|s| - 1] as int - '0' as int)
  }

  /** Reading the rendering back gives the number: the rendering loses nothing. */
  lemma {:induction false} DecimalRoundTrip(n: nat)
    ensures DecimalValue(NatToDecimal(n)) == n
    decreases n
  {
    if n >= 10 {
      DecimalRoundTrip(n / 10);
      var s := NatToDecimal(n);
      assert s[..|s| - 1] == NatToDecimal(n / 10);
    }
  }

  /** `parts.join(sep)`. */
  function Join(parts: seq<string>, sep: string): string
  {
    if parts == [] then []
    else if |parts| == 1 then parts[0]
    else parts[0] + sep + Join(parts[1..], sep)
  }
}
