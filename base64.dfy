/**
 * Base 64 encoding with the standard alphabet (section 4 of RFC 4648), as
 * produced by Node's `buffer.toString('base64')`, and the lenient decoder
 * behind `Buffer.from(str, 'base64')`.
 *
 * Encoding goes through an intermediate sequence of 6-bit groups
 * ("sextets"): every 24-bit input group becomes four sextets, a final group
 * of one or two bytes becomes two or three sextets, and '=' characters pad
 * the text to a multiple of four characters.
 */
module Base64 {
  import opened Wrappers

  type Byte = b: int | 0 <= b < 256

  /** The value of one encoded character. */
  type Sextet = v: int | 0 <= v < 64

  /** Table 1 of RFC 4648: the standard alphabet. */
  function StdChar(v: Sextet): (c: char)
  {
    if v < 26 then ('A' as int + v) as char
    else if v < 52 then ('a' as int + (v - 26)) as char
    else if v < 62 then ('0' as int + (v - 52)) as char
    else if v == 62 then '+'
    else '/'
  }

  /** Node's decoding table: it accepts both the standard alphabet and the
      URL and filename safe one, and knows no other character. */
  function DecodeChar(c: char): (r: Option<Sextet>)
  {
    if 'A' <= c <= 'Z' then Some(c as int - 'A' as int)
    else if 'a' <= c <= 'z' then Some(c as int - 'a' as int + 26)
    else if '0' <= c <= '9' then Some(c as int - '0' as int + 52)
    else if c == '+' || c == '-' then Some(62)
    else if c == '/' || c == '_' then Some(63)
    else None
  }

  /** Splits bytes into sextets, most significant bits first. */
  function ToSextets(b: seq<Byte>): (q: seq<Sextet>)
    ensures |q| == (4 * |b| + 2) / 3
  {
    if |b| == 0 then []
    else if |b| == 1 then [b[0] / 4, b[0] % 4 * 16]
    else if |b| == 2 then [b[0] / 4, b[0] % 4 * 16 + b[1] / 16, b[1] % 16 * 4]
    else [b[0] / 4, b[0] % 4 * 16 + b[1] / 16, b[1] % 16 * 4 + b[2] / 64, b[2] % 64]
         + ToSextets(b[3..])
  }

  /** Joins sextets back into bytes; bits that do not fill a byte are dropped,
      so a lone trailing sextet yields nothing. */
  function FromSextets(q: seq<Sextet>): (b: seq<Byte>)
    ensures |b| == 3 * |q| / 4
  {
    if |q| < 2 then []
    else
      var b0: Byte := q[0] as int * 4 + q[1] / 16;
      if |q| == 2 then [b0]
      else
        var b1: Byte := q[1] as int % 16 * 16 + q[2] / 4;
        if |q| == 3 then [b0, b1]
        else [b0, b1, q[2] as int % 4 * 64 + q[3]] + FromSextets(q[4..])
  }

  function StdChars(q: seq<Sextet>): (s: string)
  {
    seq(|q|, i requires 0 <= i < |q| => StdChar(q[i]))
  }

  /** The '=' characters that complete the final quantum of n input bytes
      (section 3.2 of RFC 4648). */
  function Padding(n: nat): (p: string)
  {
    if n % 3 == 1 then "==" else if n % 3 == 2 then "=" else ""
  }

  /** `buffer.toString('base64')`. */
  function Encode(b: seq<Byte>): (s: string)
    ensures |s| == 4 * ((|b| + 2) / 3)
    ensures |s| % 4 == 0
  {
    var n := |b|;
    assert n == 3 * (n / 3) + n % 3;
    StdChars(ToSextets(b)) + Padding(n)
  }

  /** The sextets Node reads from a string: decoding stops at the first '=',
      and characters outside both alphabets are skipped. */
  function NodeSextets(s: string): (q: seq<Sextet>)
    ensures |q| <= |s|
  {
    if s == [] || s[0] == '=' then []
    else match DecodeChar(s[0])
      case None => NodeSextets(s[1..])
      case Some(v) => [v] + NodeSextets(s[1..])
  }

  /** `Buffer.from(s, 'base64')`. */
  function Decode(s: string): (b: seq<Byte>)
    ensures |b| <= 3 * |s| / 4
  {
    var q := NodeSextets(s);
    assert 3 * |q| <= 3 * |s|;
    FromSextets(q)
  }

  /** Every standard character decodes to its own value. */
  lemma DecodeStdChar(v: Sextet)
    ensures DecodeChar(StdChar(v)) == Some(v)
    ensures StdChar(v) != '='
  {
  }

  /** Joining inverts splitting. */
  lemma {:induction false} FromToSextets(b: seq<Byte>)
    ensures FromSextets(ToSextets(b)) == b
  {
    if |b| >= 3 {
      var g := [b[0] / 4, b[0] % 4 * 16 + b[1] / 16, b[1] % 16 * 4 + b[2] / 64, b[2] % 64];
      var q := g + ToSextets(b[3..]);
      assert ToSextets(b) == q;
      assert q[4..] == ToSextets(b[3..]);
      FromToSextets(b[3..]);
      assert b == b[..3] + b[3..];
    }
  }

  /** Node reads back every sextet of a standard-alphabet text and stops at
      the padding that follows it. */
  lemma {:induction false} NodeSextetsStd(q: seq<Sextet>, p: string)
    requires p == [] || p[0] == '='
    ensures NodeSextets(StdChars(q) + p) == q
  {
    var s := StdChars(q) + p;
    if q != [] {
      DecodeStdChar(q[0]);
      assert s[0] == StdChar(q[0]);
      assert s[1..] == StdChars(q[1..]) + p;
      NodeSextetsStd(q[1..], p);
    } else {
      assert s == p;
    }
  }

  /** Decoding inverts encoding. */
  lemma DecodeEncode(b: seq<Byte>)
    ensures Decode(Encode(b)) == b
  {
    var p := Padding(|b|);
    assert p == [] || p[0] == '=';
    NodeSextetsStd(ToSextets(b), p);
    FromToSextets(b);
  }
}
