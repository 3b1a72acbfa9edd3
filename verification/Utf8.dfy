/** UTF-8 as in section 3 of RFC 3629, and the byte-level truncation the storage layer
    applies to a chunk body before it is embedded and tokenized.

    A Dafny `char` is a Unicode scalar value, so a `string` is exactly what a Rust `str`
    denotes and `Encode` gives its bytes. */
module Utf8 {

  type byte = x: int | 0 <= x < 256

  /** Number of bytes of the encoding of `c`. */
  function Width(c: char): (n: nat)
    ensures 1 <= n <= 4
  {
    if c as int < 0x80 then 1
    else if c as int < 0x800 then 2
    else if c as int < 0x1_0000 then 3
    else 4
  }

  function EncodeChar(c: char): seq<byte> {
    var v := c as int;
    if v < 0x80 then [v]
    else if v < 0x800 then [0xC0 + v / 0x40, Tail(v)]
    else if v < 0x1_0000 then [0xE0 + v / 0x1000, Tail(v / 0x40), Tail(v)]
    else [0xF0 + v / 0x4_0000, Tail(v / 0x1000), Tail(v / 0x40), Tail(v)]
  }

  /** The continuation byte that carries the low six bits of `v`. */
  function Tail(v: nat): (b: byte)
    ensures IsContinuation(b)
  {
    0x80 + v % 0x40
  }

  predicate IsContinuation(b: byte) {
    0x80 <= b < 0xC0
  }

  function Encode(s: string): seq<byte> {
    if s == [] then [] else EncodeChar(s[0]) + Encode(s[1..])
  }

  /** The byte length a Rust `str::len` reports. */
  function ByteLen(s: string): nat {
    if s == [] then 0 else Width(s[0]) + ByteLen(s[1..])
  }

  /** `str::is_char_boundary`. */
  predicate IsCharBoundary(bytes: seq<byte>, i: nat) {
    i == 0 || i == |bytes| || (i < |bytes| && !IsContinuation(bytes[i]))
  }

  /** The longest prefix of `s` whose encoding fits in `max` bytes. */
  function LongestPrefix(s: string, max: nat): string {
    if s == [] || Width(s[0]) > max then []
    else [s[0]] + LongestPrefix(s[1..], max - Width(s[0]))
  }

  lemma EncodeCharShape(c: char)
    ensures |EncodeChar(c)| == Width(c)
    ensures !IsContinuation(EncodeChar(c)[0])
    ensures forall i :: 0 < i < Width(c) ==> IsContinuation(EncodeChar(c)[i])
  {
  }

  /** The byte is a lead byte or continuation byte with these high bits, and `low` is what remains. */
  predicate Carries(b: byte, high: int, end: int, low: int) {
    high <= b < end && low == b as int - high
  }

  lemma SixBits(v: nat)
    ensures v == 0x40 * (v / 0x40) + v % 0x40
    ensures v / 0x1000 == (v / 0x40) / 0x40
  {
  }

  /** The bits of a character are spread over its bytes as RFC 3629 says: the lead byte tells the length and
      carries the highest bits, and each continuation byte the next six. */
  lemma EncodeCharBits(c: char) returns (x: nat, y: nat, z: nat, t: nat)
    ensures var v, b := c as int, EncodeChar(c);
            && v == 0x4_0000 * x + 0x1000 * y + 0x40 * z + t
            && y < 0x40 && z < 0x40 && t < 0x40
            && (v < 0x80 ==> b == [v])
            && (0x80 <= v < 0x800 ==>
                  |b| == 2 && x == y == 0 && Carries(b[0], 0xC0, 0xE0, z) && Carries(b[1], 0x80, 0xC0, t))
            && (0x800 <= v < 0x1_0000 ==>
                  && |b| == 3 && x == 0 && Carries(b[0], 0xE0, 0xF0, y)
                  && Carries(b[1], 0x80, 0xC0, z) && Carries(b[2], 0x80, 0xC0, t))
            && (v >= 0x1_0000 ==>
                  && |b| == 4 && Carries(b[0], 0xF0, 0xF8, x)
                  && Carries(b[1], 0x80, 0xC0, y) && Carries(b[2], 0x80, 0xC0, z) && Carries(b[3], 0x80, 0xC0, t))
  {
    var v := c as int;
    t, z, y, x := v % 0x40, v / 0x40 % 0x40, v / 0x1000 % 0x40, v / 0x4_0000;
    SixBits(v);
    SixBits(v / 0x40);
    SixBits(v / 0x1000);
    assert v / 0x4_0000 == v / 0x1000 / 0x40;
  }

  lemma {:induction false} EncodeLength(s: string)
    ensures |Encode(s)| == ByteLen(s)
  {
    if s != [] {
      EncodeCharShape(s[0]);
      EncodeLength(s[1..]);
    }
  }

  lemma {:induction false} ByteLenAppend(a: string, b: string)
    ensures ByteLen(a + b) == ByteLen(a) + ByteLen(b)
  {
    if a == [] {
      assert a + b == b;
    } else {
      assert (a + b)[0] == a[0] && (a + b)[1..] == a[1..] + b;
      ByteLenAppend(a[1..], b);
    }
  }

  /** `LongestPrefix` is a prefix that fits, every longer prefix does not, and at most three
      of the allowed bytes stay unused when anything is cut. */
  lemma {:induction false} LongestPrefixIsLongest(s: string, max: nat)
    ensures LongestPrefix(s, max) <= s
    ensures ByteLen(LongestPrefix(s, max)) <= max
    ensures forall n :: |LongestPrefix(s, max)| < n <= |s| ==> ByteLen(s[..n]) > max
    ensures ByteLen(s) <= max <==> LongestPrefix(s, max) == s
    ensures LongestPrefix(s, max) != s ==> ByteLen(LongestPrefix(s, max)) + 3 >= max
  {
    var r := LongestPrefix(s, max);
    if s != [] {
      if Width(s[0]) <= max {
        LongestPrefixIsLongest(s[1..], max - Width(s[0]));
        assert r[1..] == LongestPrefix(s[1..], max - Width(s[0]));
        assert s == [s[0]] + s[1..];
      }
      forall n | |r| < n <= |s|
        ensures ByteLen(s[..n]) > max
      {
        assert s[..n][0] == s[0] && s[..n][1..] == s[1..][..n - 1];
      }
    }
  }

  /** The encoding of the longest prefix is the matching byte prefix of the encoding. */
  lemma {:induction false} PrefixEncoding(s: string, max: nat)
    ensures var p := LongestPrefix(s, max);
            ByteLen(p) <= |Encode(s)| && Encode(s)[..ByteLen(p)] == Encode(p)
  {
    if s != [] && Width(s[0]) <= max {
      EncodeCharShape(s[0]);
      PrefixEncoding(s[1..], max - Width(s[0]));
      var p := LongestPrefix(s, max);
      assert p[1..] == LongestPrefix(s[1..], max - Width(s[0]));
    }
  }

  /** Where the longest prefix ends is a boundary, and no later index up to `max` is one. */
  lemma {:induction false} LastBoundary(s: string, max: nat, i: nat)
    requires max < |Encode(s)|
    requires ByteLen(LongestPrefix(s, max)) <= i <= max
    ensures IsCharBoundary(Encode(s), i) <==> i == ByteLen(LongestPrefix(s, max))
  {
    EncodeCharShape(s[0]);
    var w := Width(s[0]);
    if w <= max {
      assert LongestPrefix(s, max)[1..] == LongestPrefix(s[1..], max - w);
      LastBoundary(s[1..], max - w, i - w);
      assert Encode(s)[i] == Encode(s[1..])[i - w];
    }
  }

  /** Cuts `s` to at most `max` bytes by stepping back from `max` to a character boundary.
      Working on the bytes, it computes the longest prefix that fits. */
  method TruncateOnCharBoundary(s: string, max: nat) returns (r: seq<byte>)
    ensures r == Encode(LongestPrefix(s, max))
    ensures |r| <= max
    ensures |Encode(s)| > max ==> |r| + 3 >= max
  {
    var bytes := Encode(s);
    LongestPrefixIsLongest(s, max);
    EncodeLength(s);
    EncodeLength(LongestPrefix(s, max));
    if |bytes| <= max {
      return bytes;
    }
    var end := max;
    PrefixEncoding(s, max);
    while end > 0 && !IsCharBoundary(bytes, end)
      invariant ByteLen(LongestPrefix(s, max)) <= end <= max
    {
      LastBoundary(s, max, end);
      end := end - 1;
    }
    LastBoundary(s, max, end);
    r := bytes[..end];
  }
}
