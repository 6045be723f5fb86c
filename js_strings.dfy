/**
 * The JavaScript string built-ins the listing search relies on, restricted to
 * what the search needs: `trim`, `toLowerCase` (ASCII letters only), `includes`,
 * the string `||` default, and `Number` on integer text.
 */
module JsStrings {
  import opened Wrappers

  /** The characters `String.prototype.trim` strips: JavaScript's WhiteSpace and LineTerminator. */
  predicate IsJsWhitespace(c: char) {
    c == ' ' || c == '\t' || c == '\n' || c == '\r' || c == '\U{000B}' || c == '\U{000C}'
    || c == '\U{00A0}' || c == '\U{FEFF}' || c == '\U{1680}' || ('\U{2000}' <= c <= '\U{200A}')
    || c == '\U{2028}' || c == '\U{2029}' || c == '\U{202F}' || c == '\U{205F}' || c == '\U{3000}'
  }

  predicate AllWhitespace(s: string) {
    forall k :: 0 <= k < |s| ==> IsJsWhitespace(s[k])
  }

  function TrimStart(s: string): string {
    if s != [] && IsJsWhitespace(s[0]) then TrimStart(s[1..]) else s
  }

  function TrimEnd(s: string): string {
    if s != [] && IsJsWhitespace(s[|s| - 1]) then TrimEnd(s[..|s| - 1]) else s
  }

  /** `s.trim()`. */
  function Trim(s: string): string {
    TrimEnd(TrimStart(s))
  }

  lemma {:induction false} TrimStartEmpty(s: string)
    ensures TrimStart(s) == [] <==> AllWhitespace(s)
    ensures TrimStart(s) != [] ==> !IsJsWhitespace(TrimStart(s)[0])
  {
    if s != [] && IsJsWhitespace(s[0]) {
      TrimStartEmpty(s[1..]);
      assert AllWhitespace(s) <==> AllWhitespace(s[1..]) by {
        if AllWhitespace(s[1..]) {
          forall k | 0 <= k < |s| ensures IsJsWhitespace(s[k]) {
            if k > 0 { assert s[k] == s[1..][k - 1]; }
          }
        }
      }
    }
  }

  lemma {:induction false} TrimEndKeepsFirst(s: string)
    requires s != [] && !IsJsWhitespace(s[0])
    ensures TrimEnd(s) != [] && TrimEnd(s)[0] == s[0]
  {
    if IsJsWhitespace(s[|s| - 1]) {
      TrimEndKeepsFirst(s[..|s| - 1]);
    }
  }

  /** `s.trim() === ''` holds exactly when every character of `s` is whitespace. */
  lemma TrimEmptyIffAllWhitespace(s: string)
    ensures Trim(s) == [] <==> AllWhitespace(s)
  {
    TrimStartEmpty(s);
    if TrimStart(s) != [] {
      TrimEndKeepsFirst(TrimStart(s));
    }
  }

  /** `c.toLowerCase()` on ASCII letters; every other character is left as it is. */
  function LowerChar(c: char): char {
    if 'A' <= c <= 'Z' then (c as int + 32) as char else c
  }

  /** `s.toLowerCase()`, character by character. */
  function Lower(s: string): (r: string)
    ensures |r| == |s|
    ensures forall k :: 0 <= k < |s| ==> r[k] == LowerChar(s[k])
  {
    seq(|s|, k requires 0 <= k < |s| => LowerChar(s[k]))
  }

  /** Lower-casing is idempotent, leaves no ASCII capital behind and changes no other character. */
  lemma LowerIsLowerCase(s: string)
    ensures Lower(Lower(s)) == Lower(s)
    ensures forall k :: 0 <= k < |s| ==> !('A' <= Lower(s)[k] <= 'Z')
    ensures forall k :: 0 <= k < |s| && !('A' <= s[k] <= 'Z') ==> Lower(s)[k] == s[k]
  {
  }

  /** Lower-casing never creates or removes whitespace, so two strings equal up to case are blank together. */
  lemma LowerKeepsBlankness(s: string, t: string)
    requires Lower(s) == Lower(t)
    ensures AllWhitespace(s) <==> AllWhitespace(t)
  {
    forall k | 0 <= k < |s|
      ensures IsJsWhitespace(s[k]) <==> IsJsWhitespace(t[k])
    {
      assert LowerChar(s[k]) == LowerChar(t[k]);
    }
  }

  /** `hay.includes(needle)`: needle occurs in hay at some offset. */
  predicate Contains(hay: string, needle: string) {
    needle <= hay || (hay != [] && Contains(hay[1..], needle))
  }

  /** `needle` occurs in `hay` at offset `k`. */
  predicate OccursAt(hay: string, needle: string, k: nat) {
    k + |needle| <= |hay| && hay[k..k + |needle|] == needle
  }

  /** `Contains` is `includes`: it holds exactly when `needle` occurs in `hay` at some offset. */
  lemma {:induction false} ContainsIffOccurs(hay: string, needle: string)
    ensures Contains(hay, needle) <==> exists k: nat :: OccursAt(hay, needle, k)
  {
    if Contains(hay, needle) {
      if needle <= hay {
        assert OccursAt(hay, needle, 0);
      } else {
        ContainsIffOccurs(hay[1..], needle);
        var k: nat :| OccursAt(hay[1..], needle, k);
        assert hay != [];
        assert hay[k + 1..k + 1 + |needle|] == needle by {
          forall d | 0 <= d < |needle| ensures hay[k + 1..k + 1 + |needle|][d] == needle[d] {
            calc {
              needle[d];
              hay[1..][k..k + |needle|][d];
              hay[1..][k + d];
              hay[k + 1 + d];
              hay[k + 1..k + 1 + |needle|][d];
            }
          }
        }
        assert OccursAt(hay, needle, k + 1);
      }
    }
    if exists k: nat :: OccursAt(hay, needle, k) {
      var k: nat :| OccursAt(hay, needle, k);
      if k == 0 {
        assert needle <= hay;
      } else {
        assert hay[1..][k - 1..k - 1 + |needle|] == needle by {
          forall d | 0 <= d < |needle| ensures hay[1..][k - 1..k - 1 + |needle|][d] == needle[d] {
            calc {
              needle[d];
              hay[k..k + |needle|][d];
              hay[k + d];
              hay[1..][k - 1 + d];
              hay[1..][k - 1..k - 1 + |needle|][d];
            }
          }
        }
        assert OccursAt(hay[1..], needle, k - 1);
        ContainsIffOccurs(hay[1..], needle);
        assert hay != [] && Contains(hay[1..], needle);
      }
    }
  }

  /** `s || d` for strings: the empty string is falsy. */
  function OrDefault(s: string, d: string): string {
    if s == "" then d else s
  }

  predicate IsDigit(c: char) {
    '0' <= c <= '9'
  }

  predicate AllDigits(s: string) {
    forall k :: 0 <= k < |s| ==> IsDigit(s[k])
  }

  /** The value of a string of decimal digits, most significant first. */
  function DigitsValue(s: string): nat
    requires AllDigits(s)
  {
    if s == [] then 0 else DigitsValue(s[..|s| - 1]) * 10 + (s[|s| - 1] as int - '0' as int)
  }

  /**
   * `Number(s)` on integer text: surrounding whitespace is ignored, blank text is 0,
   * an optional sign followed by decimal digits is that integer, anything else is NaN (None).
   */
  function ParseNum(s: string): (r: Option<int>)
    ensures AllWhitespace(s) ==> r == Some(0)
  {
    TrimEmptyIffAllWhitespace(s);
    var t := Trim(s);
    if t == [] then Some(0)
    else if (t[0] == '-' || t[0] == '+') && |t| > 1 && AllDigits(t[1..]) then
      var magnitude: int := DigitsValue(t[1..]);
      Some(if t[0] == '-' then -magnitude else magnitude)
    else if AllDigits(t) then Some(DigitsValue(t))
    else None
  }

  function DigitChar(d: nat): (c: char)
    requires d < 10
    ensures IsDigit(c) && c as int - '0' as int == d
  {
    ('0' as int + d) as char
  }

  /** The decimal spelling of a natural number, without sign or leading zeros. */
  function Decimal(n: nat): (s: string)
    ensures s != [] && AllDigits(s)
  {
    if n < 10 then [DigitChar(n)] else Decimal(n / 10) + [DigitChar(n % 10)]
  }

  lemma {:induction false} DigitsValueOfDecimal(n: nat)
    ensures DigitsValue(Decimal(n)) == n
  {
    if n >= 10 {
      DigitsValueOfDecimal(n / 10);
      var s := Decimal(n);
      assert s[..|s| - 1] == Decimal(n / 10);
    }
  }

  /** `Number` reads back the decimal spelling of every natural number. */
  lemma ParseNumOfDecimal(n: nat)
    ensures ParseNum(Decimal(n)) == Some(n)
  {
    var s := Decimal(n);
    assert !IsJsWhitespace(s[0]) && !IsJsWhitespace(s[|s| - 1]);
    assert TrimStart(s) == s;
    assert Trim(s) == s;
    DigitsValueOfDecimal(n);
  }

  /** `Number` strips surrounding whitespace and honours an explicit sign. */
  lemma ParseNumSigned(n: nat)
    ensures ParseNum(" -" + Decimal(n) + " ") == Some(-(n as int))
    ensures ParseNum("+" + Decimal(n)) == Some(n)
  {
    DigitsValueOfDecimal(n);
    var d := Decimal(n);
    var neg := " -" + d + " ";
    assert TrimStart(neg) == neg[1..];
    assert neg[1..] == "-" + d + " ";
    assert TrimEnd(neg[1..]) == "-" + d by {
      assert ("-" + d + " ")[..|d| + 1] == "-" + d;
    }
    assert ("-" + d)[1..] == d;
    var pos := "+" + d;
    assert TrimStart(pos) == pos && TrimEnd(pos) == pos;
    assert pos[1..] == d;
  }
}
