/**
 * Base64url without padding, the encoding of the header and payload segments
 * of a JSON Web Token: each group of three bytes becomes four characters, a
 * final group of one or two bytes becomes two or three.
 */
module Base64Url {

  /** The base64url alphabet: A-Z, a-z, 0-9, '-' and '_'. */
  function Digit(n: int): (c: char)
    requires 0 <= n < 64
    ensures c as int < 128
  {
    if n < 26 then ('A' as int + n) as char
    else if n < 52 then ('a' as int + n - 26) as char
    else if n < 62 then ('0' as int + n - 52) as char
    else if n == 62 then '-'
    else '_'
  }

  predicate IsBytes(bs: seq<int>)
  {
    forall i :: 0 <= i < |bs| ==> 0 <= bs[i] < 256
  }

  /** The bytes of an ASCII string (one byte per character, as UTF-8 encodes ASCII). */
  function AsciiBytes(s: string): (bs: seq<int>)
    ensures |bs| == |s| && IsBytes(bs)
    ensures forall i :: 0 <= i < |s| ==> bs[i] == s[i] as int % 256
  {
    seq(|s|, i requires 0 <= i < |s| => s[i] as int % 256)
  }

  /** The bytes of a concatenation are the concatenation of the bytes. */
  lemma AsciiBytesAppend(a: string, b: string)
    ensures AsciiBytes(a + b) == AsciiBytes(a) + AsciiBytes(b)
  {
  }

  /** The four characters of one full group of three bytes. */
  function Group(b0: int, b1: int, b2: int): (g: string)
    requires 0 <= b0 < 256 && 0 <= b1 < 256 && 0 <= b2 < 256
    ensures |g| == 4
  {
    [Digit(b0 / 4), Digit((b0 % 4) * 16 + b1 / 16), Digit((b1 % 16) * 4 + b2 / 64), Digit(b2 % 64)]
  }

  function Encode(bs: seq<int>): (s: string)
    requires IsBytes(bs)
    ensures |s| == (4 * |bs| + 2) / 3
  {
    if |bs| == 0 then ""
    else if |bs| == 1 then [Digit(bs[0] / 4), Digit((bs[0] % 4) * 16)]
    else if |bs| == 2 then
      [Digit(bs[0] / 4), Digit((bs[0] % 4) * 16 + bs[1] / 16), Digit((bs[1] % 16) * 4)]
    else Group(bs[0], bs[1], bs[2]) + Encode(bs[3..])
  }

  /** The first 4k characters of an encoding depend only on the first 3k bytes. */
  lemma {:induction false} EncodePrefix(a: seq<int>, b: seq<int>, k: nat)
    requires IsBytes(a) && IsBytes(b)
    requires 3 * k <= |a| && 3 * k <= |b| && a[..3 * k] == b[..3 * k]
    ensures 4 * k <= |Encode(a)| && 4 * k <= |Encode(b)|
    ensures Encode(a)[..4 * k] == Encode(b)[..4 * k]
  {
    if k > 0 {
      assert a[0] == a[..3 * k][0] == b[..3 * k][0] == b[0];
      assert a[1] == a[..3 * k][1] == b[..3 * k][1] == b[1];
      assert a[2] == a[..3 * k][2] == b[..3 * k][2] == b[2];
      assert a[3..][..3 * (k - 1)] == a[..3 * k][3..] == b[..3 * k][3..] == b[3..][..3 * (k - 1)];
      EncodePrefix(a[3..], b[3..], k - 1);
      var g := Group(a[0], a[1], a[2]);
      PrefixOfAppend(g, Encode(a[3..]), 4 * (k - 1));
      PrefixOfAppend(g, Encode(b[3..]), 4 * (k - 1));
    }
  }

  lemma PrefixOfAppend(g: string, t: string, n: nat)
    requires n <= |t|
    ensures (g + t)[..|g| + n] == g + t[..n]
  {
  }

  /** Encoding a whole number of groups and then the rest is encoding the concatenation. */
  lemma {:induction false} EncodeAppend(a: seq<int>, b: seq<int>)
    requires IsBytes(a) && IsBytes(b) && |a| % 3 == 0
    ensures Encode(a + b) == Encode(a) + Encode(b)
  {
    if |a| == 0 {
      assert a + b == b;
    } else {
      var ab := a + b;
      assert ab[0] == a[0] && ab[1] == a[1] && ab[2] == a[2];
      assert ab[3..] == a[3..] + b;
      EncodeAppend(a[3..], b);
    }
  }

  /** The bytes of a string split in three. */
  lemma AsciiBytesOfThree(h1: string, h2: string, h3: string)
    ensures AsciiBytes(h1 + h2 + h3) == AsciiBytes(h1) + AsciiBytes(h2) + AsciiBytes(h3)
  {
    AsciiBytesAppend(h1 + h2, h3);
    AsciiBytesAppend(h1, h2);
  }

  /** Encoding three parts, the first two whole groups. */
  lemma EncodeOfThree(b1: seq<int>, b2: seq<int>, b3: seq<int>)
    requires IsBytes(b1) && IsBytes(b2) && IsBytes(b3) && |b1| % 3 == 0 && |b2| % 3 == 0
    ensures IsBytes(b1 + b2 + b3) && Encode(b1 + b2 + b3) == Encode(b1) + Encode(b2) + Encode(b3)
  {
    assert IsBytes(b1 + b2);
    EncodeAppend(b1 + b2, b3);
    EncodeAppend(b1, b2);
  }

  /** The encoding of a string split after 9 and 18 characters, part by part. */
  lemma EncodeStringOfThree(h: string, h1: string, h2: string, h3: string, e1: string, e2: string, e3: string)
    requires h == h1 + h2 + h3 && |h1| == 9 && |h2| == 9
    requires Encode(AsciiBytes(h1)) == e1 && Encode(AsciiBytes(h2)) == e2 && Encode(AsciiBytes(h3)) == e3
    ensures Encode(AsciiBytes(h)) == e1 + e2 + e3
  {
    AsciiBytesOfThree(h1, h2, h3);
    EncodeOfThree(AsciiBytes(h1), AsciiBytes(h2), AsciiBytes(h3));
  }
}
