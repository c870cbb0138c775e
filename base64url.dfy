/**
 * The two encoding helpers of the server (backend/server.js): base64url as
 * section 5 of RFC 4648 defines it, with the padding dropped on encode
 * (section 3.2) and restored on decode. Both are written as rewrites of
 * standard base 64 text.
 */
module Base64Url {
  import Base64

  /** Table 2 of RFC 4648: the URL and filename safe alphabet. */
  function UrlChar(v: Base64.Sextet): (c: char)
  {
    if v == 62 then '-' else if v == 63 then '_' else Base64.StdChar(v)
  }

  function UrlChars(q: seq<Base64.Sextet>): (s: string)
  {
    seq(|q|, i requires 0 <= i < |q| => UrlChar(q[i]))
  }

  /** A global single-character `replace(/x/g, y)`. */
  function ReplaceAll(s: string, from: char, to: char): (r: string)
    ensures |r| == |s|
    ensures forall i :: 0 <= i < |s| ==> r[i] == (if s[i] == from then to else s[i])
  {
    if s == [] then [] else [if s[0] == from then to else s[0]] + ReplaceAll(s[1..], from, to)
  }

  /** A global single-character `replace(/x/g, '')`. */
  function RemoveAll(s: string, c: char): (r: string)
    ensures |r| <= |s|
    ensures c !in r
    ensures forall x :: x != c ==> (x in r <==> x in s)
  {
    if s == [] then [] else (if s[0] == c then [] else [s[0]]) + RemoveAll(s[1..], c)
  }

  /** `base64urlEncode`: standard base 64, then '+' to '-', '/' to '_', and the
      padding removed. */
  function Encode(b: seq<Base64.Byte>): (r: string)
    ensures '+' !in r && '/' !in r && '=' !in r
  {
    var t1 := ReplaceAll(Base64.Encode(b), '+', '-');
    assert '+' !in t1 by {
      forall i | 0 <= i < |t1| ensures t1[i] != '+' { }
    }
    var t2 := ReplaceAll(t1, '/', '_');
    assert '+' !in t2 && '/' !in t2 by {
      forall i | 0 <= i < |t2| ensures t2[i] != '+' && t2[i] != '/' {
        assert t1[i] != '+';
      }
    }
    RemoveAll(t2, '=')
  }

  /** The first statement of `base64urlDecode`: '-' back to '+', '_' back to '/'. */
  function Unrewrite(s: string): (r: string)
    ensures |r| == |s|
    ensures forall i :: 0 <= i < |s| ==>
              r[i] == (if s[i] == '-' then '+' else if s[i] == '_' then '/' else s[i])
    ensures '-' !in r && '_' !in r
  {
    ReplaceAll(ReplaceAll(s, '-', '+'), '_', '/')
  }

  /** How many '=' the decode loop appends to a text of length n: the one
      count below 4 that brings the length to a multiple of 4. */
  function PadCount(n: nat): (k: nat)
    ensures k < 4 && (n + k) % 4 == 0
  {
    (4 - n % 4) % 4
  }

  /** The text `base64urlDecode` hands to the base 64 decoder: the rewritten
      input followed by just enough '=' to make its length a multiple of 4. */
  function Repadded(s: string): (p: string)
    ensures |p| % 4 == 0
    ensures |s| <= |p| <= |s| + 3
    ensures p[..|s|] == Unrewrite(s)
    ensures forall i :: |s| <= i < |p| ==> p[i] == '='
  {
    Unrewrite(s) + seq(PadCount(|s|), _ => '=')
  }

  /** `base64urlDecode`. */
  method Decode(str: string) returns (bytes: seq<Base64.Byte>)
    ensures bytes == Base64.Decode(Repadded(str))
  {
    var s := ReplaceAll(ReplaceAll(str, '-', '+'), '_', '/');
    while |s| % 4 != 0
      invariant |str| <= |s| <= |str| + PadCount(|str|)
      invariant s == Unrewrite(str) + seq(|s| - |str|, _ => '=')
      decreases |str| + PadCount(|str|) - |s|
    {
      s := s + "=";
    }
    bytes := Base64.Decode(s);
  }

  lemma {:induction false} RemoveAllAppend(s: string, t: string, c: char)
    ensures RemoveAll(s + t, c) == RemoveAll(s, c) + RemoveAll(t, c)
  {
    if s != [] {
      assert (s + t)[1..] == s[1..] + t;
      RemoveAllAppend(s[1..], t, c);
    } else {
      assert s + t == t;
    }
  }

  lemma {:induction false} RemoveAllAbsent(s: string, c: char)
    requires c !in s
    ensures RemoveAll(s, c) == s
  {
    if s != [] {
      RemoveAllAbsent(s[1..], c);
    }
  }

  /** The server's encoding is the URL and filename safe alphabet applied to
      the sextets of the input, with no padding at all. */
  lemma EncodeIsUnpaddedUrl(b: seq<Base64.Byte>)
    ensures Encode(b) == UrlChars(Base64.ToSextets(b))
  {
    var q := Base64.ToSextets(b);
    var pad := Base64.Padding(|b|);
    var e := Base64.Encode(b);
    assert e == Base64.StdChars(q) + pad;
    var t2 := ReplaceAll(ReplaceAll(e, '+', '-'), '/', '_');
    assert t2 == UrlChars(q) + pad;
    RemoveAllAppend(UrlChars(q), pad, '=');
    assert '=' !in UrlChars(q) by {
      forall i | 0 <= i < |q| ensures UrlChars(q)[i] != '=' {
        Base64.DecodeStdChar(q[i]);
      }
    }
    RemoveAllAbsent(UrlChars(q), '=');
    assert RemoveAll(pad, '=') == [];
  }

  /** The unpadded length of section 3.2 of RFC 4648: four characters per
      three bytes, rounded up. */
  lemma EncodeLength(b: seq<Base64.Byte>)
    ensures |Encode(b)| == (4 * |b| + 2) / 3
  {
    EncodeIsUnpaddedUrl(b);
  }

  /** Undoing the rewrites turns URL-safe text back into standard text. */
  lemma UnrewriteUrlChars(q: seq<Base64.Sextet>)
    ensures Unrewrite(UrlChars(q)) == Base64.StdChars(q)
  {
    var u := UrlChars(q);
    var r := Unrewrite(u);
    forall i | 0 <= i < |q| ensures r[i] == Base64.StdChars(q)[i] {
      assert u[i] == UrlChar(q[i]);
    }
  }

  /** Re-padding restores exactly the standard text that encode started from. */
  lemma RepaddedEncode(b: seq<Base64.Byte>)
    ensures Repadded(Encode(b)) == Base64.Encode(b)
  {
    var q := Base64.ToSextets(b);
    EncodeIsUnpaddedUrl(b);
    UnrewriteUrlChars(q);
    var n := |b|;
    assert n == 3 * (n / 3) + n % 3;
    var k := PadCount(|q|);
    if n % 3 == 0 {
      assert k == 0;
    } else if n % 3 == 1 {
      assert k == 2;
      assert seq(k, _ => '=') == "==";
    } else {
      assert k == 1;
      assert seq(k, _ => '=') == "=";
    }
  }

  /** `base64urlDecode(base64urlEncode(b))` yields `b` again. */
  lemma RoundTrip(b: seq<Base64.Byte>)
    ensures Base64.Decode(Repadded(Encode(b))) == b
  {
    RepaddedEncode(b);
    Base64.DecodeEncode(b);
  }
}
