/**
 * Percent-encoding as `urllib.parse.quote(s)` does it with its default `safe='/'`:
 * the string is encoded to bytes, each byte that is an ASCII letter, digit,
 * one of `_.-~` or `/` is kept as that character, and every other byte becomes
 * `%XY` with two upper-case hexadecimal digits (RFC 3986, sections 2.1 and 2.3).
 * The conversion of characters to bytes is not modelled here: it takes bytes.
 */
module Quoting {
  import opened Base

  /** Bytes `quote` never escapes: the unreserved set of RFC 3986, section 2.3. */
  predicate IsUnreserved(b: int) {
    (65 <= b <= 90) || (97 <= b <= 122) || (48 <= b <= 57)
    || b == 95 || b == 46 || b == 45 || b == 126
  }

  /** The default `safe` argument of `quote` adds '/'. */
  predicate IsSafeByte(b: int) {
    IsUnreserved(b) || b == 47
  }

  /** A character that may appear in the output of `quote`. */
  predicate IsQuotedChar(c: char) {
    IsSafeByte(c as int) || c == '%'
  }

  predicate IsHexDigit(c: char) {
    ('0' <= c <= '9') || ('A' <= c <= 'F') || ('a' <= c <= 'f')
  }

  /** The digit `quote` writes for `n`: `0`-`9`, then upper-case `A`-`F`. */
  function HexDigit(n: int): (c: char)
    requires 0 <= n < 16
    ensures IsHexDigit(c) && IsSafeByte(c as int)
    ensures n < 10 ==> c as int == '0' as int + n
    ensures 10 <= n ==> c as int == 'A' as int + (n - 10)
  {
    "0123456789ABCDEF"[n]
  }

  function HexValue(c: char): (n: int)
    requires IsHexDigit(c)
    ensures 0 <= n < 16
  {
    if '0' <= c <= '9' then c as int - '0' as int
    else if 'A' <= c <= 'F' then c as int - 'A' as int + 10
    else c as int - 'a' as int + 10
  }

  lemma HexValueOfDigit(n: int)
    requires 0 <= n < 16
    ensures HexValue(HexDigit(n)) == n
  {
  }

  /** One byte outside the safe set, written as `%XY`. */
  function PercentEncode(b: byte): (r: string)
    ensures |r| == 3 && r[0] == '%' && IsHexDigit(r[1]) && IsHexDigit(r[2])
    ensures HexValue(r[1]) * 16 + HexValue(r[2]) == b
  {
    HexValueOfDigit(b / 16);
    HexValueOfDigit(b % 16);
    ['%', HexDigit(b / 16), HexDigit(b % 16)]
  }

  /** `quote_from_bytes(bs, safe='/')`. */
  function QuoteFromBytes(bs: seq<byte>): (r: string)
    ensures forall i :: 0 <= i < |r| ==> IsQuotedChar(r[i])
    ensures |bs| <= |r| <= 3 * |bs|
  {
    if bs == [] then ""
    else QuoteByte(bs[0]) + QuoteFromBytes(bs[1..])
  }

  function QuoteByte(b: byte): (r: string)
    ensures 1 <= |r| <= 3
    ensures forall i :: 0 <= i < |r| ==> IsQuotedChar(r[i])
  {
    if IsSafeByte(b) then [b as char] else PercentEncode(b)
  }

  /**
   * The inverse of QuoteFromBytes: `%XY` with two hexadecimal digits gives one
   * byte, any other ASCII character gives its own code, anything else fails.
   */
  function Unquote(q: string): (r: Option<seq<byte>>)
    decreases |q|
  {
    if q == [] then Some([])
    else if q[0] == '%' then
      if 3 <= |q| && IsHexDigit(q[1]) && IsHexDigit(q[2]) then
        match Unquote(q[3..])
        case None => None
        case Some(rest) => Some([HexValue(q[1]) * 16 + HexValue(q[2])] + rest)
      else None
    else if q[0] as int < 128 then
      match Unquote(q[1..])
      case None => None
      case Some(rest) => Some([q[0] as int as byte] + rest)
    else None
  }

  lemma UnquoteByte(b: byte, rest: string)
    ensures Unquote(QuoteByte(b) + rest) ==
      match Unquote(rest) case None => None case Some(t) => Some([b] + t)
  {
    var q := QuoteByte(b) + rest;
    if IsSafeByte(b) {
      assert q[0] == b as char && q[1..] == rest;
    } else {
      assert q[0] == '%' && q[3..] == rest;
    }
  }

  /** Quoting loses nothing: the quoted text decodes back to the same bytes. */
  lemma {:induction false} QuoteRoundTrip(bs: seq<byte>)
    ensures Unquote(QuoteFromBytes(bs)) == Some(bs)
  {
    if bs != [] {
      QuoteRoundTrip(bs[1..]);
      UnquoteByte(bs[0], QuoteFromBytes(bs[1..]));
      assert [bs[0]] + bs[1..] == bs;
    }
  }

  /** Bytes that are all safe are quoted as the same characters. */
  lemma {:induction false} QuoteSafeUnchanged(bs: seq<byte>)
    requires forall i :: 0 <= i < |bs| ==> IsSafeByte(bs[i])
    ensures |QuoteFromBytes(bs)| == |bs|
    ensures forall i :: 0 <= i < |bs| ==> QuoteFromBytes(bs)[i] as int == bs[i]
  {
    if bs != [] {
      QuoteSafeUnchanged(bs[1..]);
    }
  }

  /** Quoting works byte by byte: the quote of a concatenation is the concatenation of the quotes. */
  lemma {:induction false} QuoteConcat(a: seq<byte>, b: seq<byte>)
    ensures QuoteFromBytes(a + b) == QuoteFromBytes(a) + QuoteFromBytes(b)
  {
    if a == [] {
      assert a + b == b;
    } else {
      assert (a + b)[1..] == a[1..] + b;
      QuoteConcat(a[1..], b);
    }
  }

  /**
   * Whatever surrounds it, a safe byte is kept as its own character and any
   * other byte becomes `%` and two upper-case hexadecimal digits.
   */
  lemma QuoteInContext(pre: seq<byte>, x: byte, post: seq<byte>)
    ensures IsSafeByte(x) ==>
      QuoteFromBytes(pre + [x] + post) == QuoteFromBytes(pre) + [x as char] + QuoteFromBytes(post)
    ensures !IsSafeByte(x) ==>
      QuoteFromBytes(pre + [x] + post)
        == QuoteFromBytes(pre) + ['%', HexDigit(x / 16), HexDigit(x % 16)] + QuoteFromBytes(post)
  {
    QuoteConcat(pre + [x], post);
    QuoteConcat(pre, [x]);
    assert [x][1..] == [];
    assert QuoteFromBytes([x]) == QuoteByte(x);
  }
}
