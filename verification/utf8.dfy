/** UTF-8, as Python's `str.encode("utf-8")` and strict `bytes.decode("UTF-8")`
    apply it to qualifiers and appended values. A Dafny `char` is a Unicode
    scalar value, which is exactly what a Python `str` of valid text holds. */
module Utf8 {
  import opened Wrappers
  import opened Keys

  /** How many bytes UTF-8 spends on a scalar value. */
  function Width(c: char): nat {
    var n := c as int;
    if n < 0x80 then 1 else if n < 0x800 then 2 else if n < 0x10000 then 3 else 4
  }

  /** The first byte of an encoding says how long the encoding is. */
  predicate LeadOfWidth(b: Byte, w: nat) {
    if w == 1 then b < 0x80
    else if w == 2 then 0xC2 <= b < 0xE0
    else if w == 3 then 0xE0 <= b < 0xF0
    else w == 4 && 0xF0 <= b < 0xF5
  }

  predicate IsCont(b: Byte) {
    0x80 <= b < 0xC0
  }

  /** The six payload bits of a continuation byte. */
  function Low(b: Byte): int {
    b as int - 0x80
  }

  /** Division by 64 with a known quotient and remainder. */
  lemma Split64(n: int, q: int, r: int)
    requires n == q * 64 + r && 0 <= r < 64
    ensures n / 64 == q && n % 64 == r
  {
  }

  function EncodeChar(c: char): (bs: Bytes)
    ensures |bs| == Width(c) && LeadOfWidth(bs[0], Width(c))
    ensures forall k :: 1 <= k < |bs| ==> IsCont(bs[k])
  {
    var n := c as int;
    var q1 := n / 64;
    var q2 := q1 / 64;
    if n < 0x80 then [n]
    else if n < 0x800 then [0xC0 + q1, 0x80 + n % 64]
    else if n < 0x10000 then [0xE0 + q2, 0x80 + q1 % 64, 0x80 + n % 64]
    else [0xF0 + q2 / 64, 0x80 + q2 % 64, 0x80 + q1 % 64, 0x80 + n % 64]
  }

  /** `s.encode("utf-8")`. */
  function Encode(s: string): (bs: Bytes)
    ensures |s| <= |bs| <= 4 * |s|
  {
    if |s| == 0 then [] else EncodeChar(s[0]) + Encode(s[1..])
  }

  /** A `str | bytes` argument. */
  datatype StrOrBytes = Str(text: string) | Raw(bytes: Bytes)

  /** The bytes such an argument stands for: text is UTF-8 encoded, bytes
      are taken as they are. */
  function BytesOf(x: StrOrBytes): (bs: Bytes)
    ensures x.Raw? ==> bs == x.bytes
    ensures x.Str? ==> Decode(bs) == Some(x.text)
  {
    if x.Str? then
      assert Decode(Encode(x.text)) == Some(x.text) by {
        DecodeEncode(x.text);
      }
      Encode(x.text)
    else x.bytes
  }

  /** A decoded scalar value and the bytes it took. */
  datatype Decoded = Decoded(c: char, width: nat)

  /** The scalar value at the front of `bs` under the strict decoder:
      overlong forms, surrogates, values past U+10FFFF, stray continuation
      bytes and truncated sequences are all errors. */
  function DecodeFirst(bs: Bytes): (r: Option<Decoded>)
    requires |bs| > 0
    ensures r.Some? ==> 1 <= r.value.width <= |bs|
  {
    var b0: int := bs[0];
    if b0 < 0x80 then Some(Decoded(b0 as char, 1))
    else if 0xC2 <= b0 < 0xE0 && |bs| >= 2 && IsCont(bs[1]) then
      Some(Decoded(((b0 - 0xC0) * 64 + Low(bs[1])) as char, 2))
    else if 0xE0 <= b0 < 0xF0 && |bs| >= 3 && IsCont(bs[1]) && IsCont(bs[2]) then
      var n := ((b0 - 0xE0) * 64 + Low(bs[1])) * 64 + Low(bs[2]);
      if 0x800 <= n && !(0xD800 <= n < 0xE000) then Some(Decoded(n as char, 3)) else None
    else if 0xF0 <= b0 < 0xF5 && |bs| >= 4 && IsCont(bs[1]) && IsCont(bs[2]) && IsCont(bs[3]) then
      var n := (((b0 - 0xF0) * 64 + Low(bs[1])) * 64 + Low(bs[2])) * 64 + Low(bs[3]);
      if 0x10000 <= n < 0x110000 then Some(Decoded(n as char, 4)) else None
    else None
  }

  /** `bs.decode("UTF-8")`; `None` is the `UnicodeDecodeError`. */
  function Decode(bs: Bytes): Option<string>
    decreases |bs|
  {
    if |bs| == 0 then Some("")
    else
      match DecodeFirst(bs)
      case None => None
      case Some(d) =>
        match Decode(bs[d.width..])
        case None => None
        case Some(rest) => Some([d.c] + rest)
  }

  /** A scalar value in base 64, the digits the encoding spreads over its
      bytes. */
  lemma Base64Digits(n: int)
    requires 0 <= n
    ensures n == n / 64 * 64 + n % 64
    ensures n / 64 == n / 64 / 64 * 64 + n / 64 % 64
    ensures n / 64 / 64 == n / 64 / 64 / 64 * 64 + n / 64 / 64 % 64
  {
  }

  lemma DecodeFirstEncodeChar(c: char, rest: Bytes)
    ensures DecodeFirst(EncodeChar(c) + rest) == Some(Decoded(c, Width(c)))
  {
    Base64Digits(c as int);
  }

  /** The strict decoder reads back whatever the encoder wrote. */
  lemma {:induction false} DecodeEncode(s: string)
    ensures Decode(Encode(s)) == Some(s)
  {
    if |s| > 0 {
      var bs := Encode(s);
      DecodeFirstEncodeChar(s[0], Encode(s[1..]));
      assert bs[Width(s[0])..] == Encode(s[1..]);
      DecodeEncode(s[1..]);
      assert [s[0]] + s[1..] == s;
    }
  }

  lemma EncodeCharDecodeFirst(bs: Bytes)
    requires |bs| > 0 && DecodeFirst(bs).Some?
    ensures EncodeChar(DecodeFirst(bs).value.c) == bs[..DecodeFirst(bs).value.width]
  {
    var w := DecodeFirst(bs).value.width;
    if w == 2 {
      EncodeWidth2(bs);
    } else if w == 3 {
      EncodeWidth3(bs);
    } else if w == 4 {
      EncodeWidth4(bs);
    }
  }

  lemma EncodeWidth2(bs: Bytes)
    requires |bs| > 0 && DecodeFirst(bs).Some? && DecodeFirst(bs).value.width == 2
    ensures EncodeChar(DecodeFirst(bs).value.c) == bs[..2]
  {
    var b0: int := bs[0];
    Split64(DecodeFirst(bs).value.c as int, b0 - 0xC0, Low(bs[1]));
  }

  lemma EncodeWidth3(bs: Bytes)
    requires |bs| > 0 && DecodeFirst(bs).Some? && DecodeFirst(bs).value.width == 3
    ensures EncodeChar(DecodeFirst(bs).value.c) == bs[..3]
  {
    var n := DecodeFirst(bs).value.c as int;
    var b0: int := bs[0];
    Split64(n, (b0 - 0xE0) * 64 + Low(bs[1]), Low(bs[2]));
    Split64(n / 64, b0 - 0xE0, Low(bs[1]));
  }

  lemma EncodeWidth4(bs: Bytes)
    requires |bs| > 0 && DecodeFirst(bs).Some? && DecodeFirst(bs).value.width == 4
    ensures EncodeChar(DecodeFirst(bs).value.c) == bs[..4]
  {
    var n := DecodeFirst(bs).value.c as int;
    var b0: int := bs[0];
    Split64(n, ((b0 - 0xF0) * 64 + Low(bs[1])) * 64 + Low(bs[2]), Low(bs[3]));
    Split64(n / 64, (b0 - 0xF0) * 64 + Low(bs[1]), Low(bs[2]));
    Split64(n / 64 / 64, b0 - 0xF0, Low(bs[1]));
  }

  /** Every byte string the decoder accepts is the encoding of what it
      returns: the decoder is exactly the inverse of the encoder. */
  lemma {:induction false} EncodeDecode(bs: Bytes)
    requires Decode(bs).Some?
    ensures Encode(Decode(bs).value) == bs
    decreases |bs|
  {
    if |bs| > 0 {
      DecodeCons(bs);
      var d := DecodeFirst(bs).value;
      var rest := Decode(bs[d.width..]).value;
      EncodeDecode(bs[d.width..]);
      EncodeCharDecodeFirst(bs);
      EncodeCons(d.c, rest);
      Glue(bs, d.width);
    }
  }

  lemma Glue(bs: Bytes, w: nat)
    requires w <= |bs|
    ensures bs[..w] + bs[w..] == bs
  {
  }

  /** A non-empty input decodes as its first scalar value followed by the
      rest. */
  lemma DecodeCons(bs: Bytes)
    requires |bs| > 0 && Decode(bs).Some?
    ensures DecodeFirst(bs).Some? && Decode(bs[DecodeFirst(bs).value.width..]).Some?
    ensures Decode(bs) == Some([DecodeFirst(bs).value.c] + Decode(bs[DecodeFirst(bs).value.width..]).value)
  {
  }

  lemma EncodeCons(c: char, s: string)
    ensures Encode([c] + s) == EncodeChar(c) + Encode(s)
  {
    assert ([c] + s)[0] == c && ([c] + s)[1..] == s;
  }

  /** Python `a < b` on `str`: lexicographic by code point, a proper
      prefix first. */
  predicate StrLess(a: string, b: string)
    decreases |a|
  {
    if |a| == 0 then |b| > 0
    else if |b| == 0 then false
    else a[0] < b[0] || (a[0] == b[0] && StrLess(a[1..], b[1..]))
  }

  lemma {:induction false} LessAtFirstDifference(a: Bytes, b: Bytes, i: nat)
    requires i < |a| && i < |b| && a[..i] == b[..i] && a[i] < b[i]
    ensures Less(a, b)
    decreases i
  {
    if i > 0 {
      assert a[1..][..i - 1] == b[1..][..i - 1];
      LessAtFirstDifference(a[1..], b[1..], i - 1);
    }
  }

  lemma {:induction false} LessCommonPrefix(p: Bytes, a: Bytes, b: Bytes)
    ensures Less(p + a, p + b) <==> Less(a, b)
    decreases |p|
  {
    if |p| > 0 {
      var pa, pb := p + a, p + b;
      assert pa[0] == pb[0] && pa[1..] == p[1..] + a && pb[1..] == p[1..] + b;
      assert Less(pa, pb) <==> Less(pa[1..], pb[1..]);
      LessCommonPrefix(p[1..], a, b);
    } else {
      assert p + a == a && p + b == b;
    }
  }

  /** A smaller scalar value has a smaller encoding, whatever follows. */
  lemma EncodeCharLess(a: char, b: char, x: Bytes, y: Bytes)
    requires a < b
    ensures Less(EncodeChar(a) + x, EncodeChar(b) + y)
  {
    var i := EncodeCharFirstDifference(a, b);
    PrefixDifference(EncodeChar(a), EncodeChar(b), x, y, i);
  }

  /** The encodings of two scalar values first differ at a byte where the
      smaller value's is smaller. */
  lemma EncodeCharFirstDifference(a: char, b: char) returns (i: nat)
    requires a < b
    ensures i < |EncodeChar(a)| && i < |EncodeChar(b)|
    ensures EncodeChar(a)[..i] == EncodeChar(b)[..i] && EncodeChar(a)[i] < EncodeChar(b)[i]
  {
    var n, m := a as int, b as int;
    if Width(a) != Width(b) || Width(a) == 1 {
      i := 0;
    } else {
      DigitOrder(n, m);
      if n / 64 == m / 64 {
        i := Width(a) - 1;
      } else if Width(a) == 2 {
        i := 0;
      } else {
        DigitOrder(n / 64, m / 64);
        if n / 64 / 64 == m / 64 / 64 {
          i := Width(a) - 2;
        } else if Width(a) == 3 {
          i := 0;
        } else {
          DigitOrder(n / 64 / 64, m / 64 / 64);
          i := if n / 64 / 64 / 64 == m / 64 / 64 / 64 then 1 else 0;
        }
      }
    }
  }

  /** Comparing two numbers is comparing their base-64 digits, the high
      ones first. */
  lemma DigitOrder(n: int, m: int)
    requires 0 <= n < m
    ensures n / 64 <= m / 64
    ensures n / 64 == m / 64 ==> n % 64 < m % 64
  {
  }

  /** A first difference inside two prefixes decides the order of any
      extensions of them. */
  lemma PrefixDifference(p: Bytes, q: Bytes, x: Bytes, y: Bytes, i: nat)
    requires i < |p| && i < |q| && p[..i] == q[..i] && p[i] < q[i]
    ensures Less(p + x, q + y)
  {
    assert (p + x)[..i] == p[..i] && (q + y)[..i] == q[..i];
    LessAtFirstDifference(p + x, q + y, i);
  }

  /** Encoding preserves order: comparing the UTF-8 bytes is comparing the
      text by code point. */
  lemma {:induction false} EncodeLess(s: string, t: string)
    ensures Less(Encode(s), Encode(t)) <==> StrLess(s, t)
    decreases |s|
  {
    if |s| > 0 && |t| > 0 {
      var es, et := Encode(s[1..]), Encode(t[1..]);
      if s[0] < t[0] {
        EncodeCharLess(s[0], t[0], es, et);
      } else if t[0] < s[0] {
        EncodeCharLess(t[0], s[0], et, es);
        LessAsymmetric(Encode(t), Encode(s));
      } else {
        LessCommonPrefix(EncodeChar(s[0]), es, et);
        EncodeLess(s[1..], t[1..]);
      }
    } else if |t| > 0 {
      assert |Encode(t)| > 0;
    }
  }
}
