/**
 * Foundation's `addingPercentEncoding(withAllowedCharacters:)`: every character outside the
 * allowed set is written as the UTF-8 bytes of section 3 of RFC 3629, each as `%` and two
 * upper-case hexadecimal digits (section 2.1 of RFC 3986).
 */
module UrlEncoding {
  import opened Text

  /** `CharacterSet.urlQueryAllowed`: the ASCII letters and digits, the unreserved marks and the query sub-delimiters. */
  predicate UrlQueryAllowed(c: char) {
    ('a' <= c <= 'z') || ('A' <= c <= 'Z') || ('0' <= c <= '9') ||
    c in "-._~" || c in "!$&'()*+,;=" || c in ":@/?"
  }

  /** The set a query parameter's value needs: the query set without the `&` that separates parameters. */
  predicate QueryValueAllowed(c: char) {
    UrlQueryAllowed(c) && c != '&'
  }

  const HexDigits: string := "0123456789ABCDEF"

  predicate IsHexDigit(c: char) {
    ('0' <= c <= '9') || ('A' <= c <= 'F') || ('a' <= c <= 'f')
  }

  function HexValue(c: char): (v: int)
    requires IsHexDigit(c)
    ensures 0 <= v < 16
  {
    if '0' <= c <= '9' then c as int - '0' as int
    else if 'A' <= c <= 'F' then c as int - 'A' as int + 10
    else c as int - 'a' as int + 10
  }

  lemma HexDigitsRead(k: int)
    requires 0 <= k < 16
    ensures IsHexDigit(HexDigits[k]) && HexValue(HexDigits[k]) == k
  {
    assert HexDigits == "0123456789" + "ABCDEF";
    if k >= 10 {
      assert HexDigits[k] == "ABCDEF"[k - 10];
    }
  }

  /** The UTF-8 bytes of one character. */
  function Utf8(c: char): (bytes: seq<int>)
    ensures 1 <= |bytes| <= 4
    ensures forall k :: 0 <= k < |bytes| ==> 0 <= bytes[k] < 256
    ensures c as int < 0x80 <==> bytes == [c as int]
  {
    var n := c as int;
    if n < 0x80 then [n]
    else if n < 0x800 then [0xC0 + n / 0x40, 0x80 + n % 0x40]
    else if n < 0x1_0000 then [0xE0 + n / 0x1000, 0x80 + (n / 0x40) % 0x40, 0x80 + n % 0x40]
    else [0xF0 + n / 0x4_0000, 0x80 + (n / 0x1000) % 0x40, 0x80 + (n / 0x40) % 0x40, 0x80 + n % 0x40]
  }

  /** `%XY` for one byte. */
  function PercentByte(b: int): (r: string)
    requires 0 <= b < 256
    ensures |r| == 3 && r[0] == '%' && IsHexDigit(r[1]) && IsHexDigit(r[2])
    ensures 16 * HexValue(r[1]) + HexValue(r[2]) == b
  {
    HexDigitsRead(b / 16);
    HexDigitsRead(b % 16);
    "%" + [HexDigits[b / 16], HexDigits[b % 16]]
  }

  function PercentBytes(bytes: seq<int>): (r: string)
    requires forall k :: 0 <= k < |bytes| ==> 0 <= bytes[k] < 256
    ensures forall k :: 0 <= k < |r| ==> r[k] == '%' || IsHexDigit(r[k])
  {
    if |bytes| == 0 then "" else PercentByte(bytes[0]) + PercentBytes(bytes[1..])
  }

  function EncodeChar(c: char, allowed: char -> bool): string {
    if allowed(c) then [c] else PercentBytes(Utf8(c))
  }

  /** `s.addingPercentEncoding(withAllowedCharacters: allowed)`; a Swift string is valid Unicode, so it never fails. */
  function PercentEncode(s: string, allowed: char -> bool): (r: string)
    ensures forall k :: 0 <= k < |r| ==> allowed(r[k]) || r[k] == '%' || IsHexDigit(r[k])
  {
    if |s| == 0 then "" else EncodeChar(s[0], allowed) + PercentEncode(s[1..], allowed)
  }

  /** `removingPercentEncoding` for text whose escapes are single bytes below 256. */
  function PercentDecode(s: string): string
    decreases |s|
  {
    if |s| == 0 then ""
    else if |s| >= 3 && s[0] == '%' && IsHexDigit(s[1]) && IsHexDigit(s[2]) then
      [(16 * HexValue(s[1]) + HexValue(s[2])) as char] + PercentDecode(s[3..])
    else [s[0]] + PercentDecode(s[1..])
  }

  predicate IsAscii(s: string) {
    forall k :: 0 <= k < |s| ==> s[k] as int < 0x80
  }

  /** A character outside the allowed set that is neither `%` nor a hex digit never appears in the encoding. */
  lemma {:induction false} EncodingOmits(s: string, allowed: char -> bool, c: char)
    requires !allowed(c) && c != '%' && !IsHexDigit(c)
    ensures c !in PercentEncode(s, allowed)
    decreases |s|
  {
    if |s| > 0 {
      EncodingOmits(s[1..], allowed, c);
      if !allowed(s[0]) {
        assert c !in PercentBytes(Utf8(s[0]));
      }
    }
  }

  /** An allowed character passes through: it is in the encoding exactly when it is in the text. */
  lemma {:induction false} EncodingKeeps(s: string, allowed: char -> bool, c: char)
    requires allowed(c) && c != '%' && !IsHexDigit(c)
    ensures c in PercentEncode(s, allowed) <==> c in s
    decreases |s|
  {
    if |s| > 0 {
      EncodingKeeps(s[1..], allowed, c);
      var r := PercentEncode(s, allowed);
      assert r == EncodeChar(s[0], allowed) + PercentEncode(s[1..], allowed);
      if s[0] == c {
        assert r[0] == c;
      } else if !allowed(s[0]) {
        assert c !in PercentBytes(Utf8(s[0]));
      }
    }
  }

  /** Encoding works character by character, so it distributes over concatenation. */
  lemma {:induction false} EncodeAppend(a: string, b: string, allowed: char -> bool)
    ensures PercentEncode(a + b, allowed) == PercentEncode(a, allowed) + PercentEncode(b, allowed)
    decreases |a|
  {
    if |a| > 0 {
      assert (a + b)[0] == a[0];
      assert (a + b)[1..] == a[1..] + b;
      EncodeAppend(a[1..], b, allowed);
    } else {
      assert a + b == b;
    }
  }

  /** An allowed character between two texts is kept as it is between their encodings. */
  lemma EncodeAround(pre: string, c: char, post: string, allowed: char -> bool)
    requires allowed(c)
    ensures PercentEncode(pre + [c] + post, allowed) == PercentEncode(pre, allowed) + ([c] + PercentEncode(post, allowed))
  {
    EncodeThree(pre, c, post, allowed);
    EncodeAllowedChar(c, allowed);
  }

  lemma EncodeAllowedChar(c: char, allowed: char -> bool)
    requires allowed(c)
    ensures PercentEncode([c], allowed) == [c]
  {
    assert [c][1..] == [];
  }

  lemma EncodeThree(pre: string, c: char, post: string, allowed: char -> bool)
    ensures PercentEncode(pre + [c] + post, allowed) ==
      PercentEncode(pre, allowed) + PercentEncode([c], allowed) + PercentEncode(post, allowed)
  {
    EncodeAppend(pre + [c], post, allowed);
    EncodeAppend(pre, [c], allowed);
  }

  /**
   * Cutting the text at the first allowed separator `c` and encoding the first part gives
   * the first part of the encoded text, which is strictly shorter than the whole.
   */
  lemma EncodingCutsAt(s: string, allowed: char -> bool, c: char)
    requires allowed(c) && c != '%' && !IsHexDigit(c) && c in s
    ensures c in PercentEncode(s, allowed)
    ensures BeforeFirst(PercentEncode(s, allowed), c) == PercentEncode(BeforeFirst(s, c), allowed)
    ensures |PercentEncode(BeforeFirst(s, c), allowed)| < |PercentEncode(s, allowed)|
  {
    var pre := BeforeFirst(s, c);
    BeforeFirstSpec(s, c);
    var post := s[|pre| + 1..];
    assert s == pre + [c] + post;
    EncodeAround(pre, c, post, allowed);
    var encPre := PercentEncode(pre, allowed);
    var encPost := PercentEncode(post, allowed);
    EncodingKeeps(pre, allowed, c);
    BeforeFirstAppend(encPre, [c] + encPost, c);
    assert BeforeFirst([c] + encPost, c) == [];
  }

  lemma DecodeAfterPlain(c: char, rest: string)
    requires c != '%'
    ensures PercentDecode([c] + rest) == [c] + PercentDecode(rest)
  {
    assert ([c] + rest)[1..] == rest;
  }

  lemma DecodeAfterByte(b: int, rest: string)
    requires 0 <= b < 256
    ensures PercentDecode(PercentByte(b) + rest) == [b as char] + PercentDecode(rest)
  {
    var s := PercentByte(b) + rest;
    assert s[0] == '%' && s[1] == PercentByte(b)[1] && s[2] == PercentByte(b)[2];
    assert s[3..] == rest;
  }

  /** Encoding with a set that escapes `%`, then decoding, gives back ASCII text unchanged. */
  lemma {:induction false} DecodeEncode(s: string, allowed: char -> bool)
    requires !allowed('%') && IsAscii(s)
    ensures PercentDecode(PercentEncode(s, allowed)) == s
    decreases |s|
  {
    if |s| > 0 {
      var tail := PercentEncode(s[1..], allowed);
      assert IsAscii(s[1..]) by {
        forall k | 0 <= k < |s[1..]| ensures s[1..][k] as int < 0x80 {
          assert s[1..][k] == s[k + 1];
        }
      }
      DecodeEncode(s[1..], allowed);
      assert PercentEncode(s, allowed) == EncodeChar(s[0], allowed) + tail;
      if allowed(s[0]) {
        DecodeAfterPlain(s[0], tail);
      } else {
        assert s[0] as int < 0x80;
        assert PercentBytes(Utf8(s[0])) == PercentByte(s[0] as int);
        DecodeAfterByte(s[0] as int, tail);
      }
      assert s == [s[0]] + s[1..];
    }
  }
}
