/**
 * Base64 with the standard alphabet of section 4 of RFC 4648.
 *
 * Encode is what `base64.b64encode(frame).decode("ascii")` produces.
 * Decode is what `base64.b64decode(payload)` does with a `str`: Python's
 * default, non-validating decoder (CPython 3.11 and later). It rejects a
 * string holding a non-ASCII character, skips every other character outside
 * the alphabet, stops at the first padding that completes a group, and fails
 * on a group left incomplete.
 */
module Base64 {
  import opened Wrappers
  import opened Bytes

  predicate IsBase64Char(c: char) {
    ('A' <= c <= 'Z') || ('a' <= c <= 'z') || ('0' <= c <= '9') || c == '+' || c == '/'
  }

  predicate IsAscii(s: string) {
    forall i | 0 <= i < |s| :: s[i] as int < 128
  }

  /** The character that encodes the six-bit value v (Table 1 of RFC 4648:
      `A`-`Z`, `a`-`z`, `0`-`9`, `+`, `/`). */
  function CharOf(v: int): (c: char)
    requires 0 <= v < 64
    ensures IsBase64Char(c)
  {
    if v < 26 then ('A' as int + v) as char
    else if v < 52 then ('a' as int + v - 26) as char
    else if v < 62 then ('0' as int + v - 52) as char
    else if v == 62 then '+'
    else '/'
  }

  /** The six-bit value of an alphabet character (the decoder's table). */
  function ValueOf(c: char): (v: int)
    requires IsBase64Char(c)
    ensures 0 <= v < 64
  {
    if 'A' <= c <= 'Z' then c as int - 'A' as int
    else if 'a' <= c <= 'z' then c as int - 'a' as int + 26
    else if '0' <= c <= '9' then c as int - '0' as int + 52
    else if c == '+' then 62
    else 63
  }

  lemma ValueOfCharOf(v: int)
    requires 0 <= v < 64
    ensures ValueOf(CharOf(v)) == v
  {
  }

  /** The four characters of a complete group of three bytes. */
  function Quad(b0: Byte, b1: Byte, b2: Byte): (s: string)
    ensures |s| == 4 && forall i | 0 <= i < 4 :: IsBase64Char(s[i])
  {
    [CharOf(b0 as int / 4), CharOf(b0 as int % 4 * 16 + b1 as int / 16),
     CharOf(b1 as int % 16 * 4 + b2 as int / 64), CharOf(b2 as int % 64)]
  }

  /** A final group of one byte: two characters and two `=`. */
  function QuadOfOne(b0: Byte): (s: string)
    ensures |s| == 4 && IsBase64Char(s[0]) && IsBase64Char(s[1]) && s[2] == s[3] == '='
  {
    [CharOf(b0 as int / 4), CharOf(b0 as int % 4 * 16), '=', '=']
  }

  /** A final group of two bytes: three characters and one `=`. */
  function QuadOfTwo(b0: Byte, b1: Byte): (s: string)
    ensures |s| == 4 && IsBase64Char(s[0]) && IsBase64Char(s[1]) && IsBase64Char(s[2]) && s[3] == '='
  {
    [CharOf(b0 as int / 4), CharOf(b0 as int % 4 * 16 + b1 as int / 16), CharOf(b1 as int % 16 * 4), '=']
  }

  /** Standard encoding: every three bytes become four characters; a final
      group of one or two bytes is completed with `=` padding. */
  function Encode(b: seq<Byte>): (s: string)
    ensures |s| == 4 * ((|b| + 2) / 3)
    decreases |b|
  {
    if |b| == 0 then ""
    else if |b| == 1 then QuadOfOne(b[0])
    else if |b| == 2 then QuadOfTwo(b[0], b[1])
    else Quad(b[0], b[1], b[2]) + Encode(b[3..])
  }

  function Prepend(x: Byte, r: Option<seq<Byte>>): Option<seq<Byte>> {
    match r
    case None => None
    case Some(rest) => Some([x] + rest)
  }

  /**
   * The non-strict decoding loop over the characters left in s.
   * quadPos is the number of sextets already read in the current group,
   * left the bits of the previous sextet not yet emitted, and pads the
   * number of `=` counted since the last alphabet character. The C decoder
   * computes each byte with shifts and masks; on sextets these are the
   * multiplications, divisions and remainders below, and no byte exceeds
   * eight bits.
   */
  function Scan(s: string, quadPos: nat, left: int, pads: nat): (r: Option<seq<Byte>>)
    requires quadPos < 4 && 0 <= left < LeftBound(quadPos)
    decreases |s|
  {
    if |s| == 0 then
      // a group left incomplete is an error ("incorrect padding")
      if quadPos == 0 then Some([]) else None
    else if s[0] == '=' then
      if quadPos >= 2 && quadPos + pads + 1 >= 4 then Some([])
      else Scan(s[1..], quadPos, left, if quadPos >= 2 then pads + 1 else pads)
    else if !IsBase64Char(s[0]) then
      Scan(s[1..], quadPos, left, pads)
    else
      var v := ValueOf(s[0]);
      if quadPos == 0 then Scan(s[1..], 1, v, 0)
      else if quadPos == 1 then Prepend((left * 4 + v / 16) as Byte, Scan(s[1..], 2, v % 16, 0))
      else if quadPos == 2 then Prepend((left * 16 + v / 4) as Byte, Scan(s[1..], 3, v % 4, 0))
      else Prepend((left * 64 + v) as Byte, Scan(s[1..], 0, 0, 0))
  }

  /** The bits the decoder may hold after quadPos sextets of a group. */
  function LeftBound(quadPos: nat): nat {
    if quadPos == 0 then 1 else if quadPos == 1 then 64 else if quadPos == 2 then 16 else 4
  }

  /** `base64.b64decode` of a `str`: None where Python raises. */
  function Decode(s: string): (r: Option<seq<Byte>>)
    ensures !IsAscii(s) ==> r == None
  {
    if IsAscii(s) then Scan(s, 0, 0, 0) else None
  }

  /** The alphabet characters of s, in order: the sextets the decoder reads
      from a string in which it meets no padding. */
  function Sextets(s: string): (t: string)
    ensures |t| <= |s|
  {
    if |s| == 0 then []
    else (if IsBase64Char(s[0]) then [s[0]] else []) + Sextets(s[1..])
  }

  /** The bytes a group has already produced after quadPos sextets. */
  function Produced(quadPos: nat): nat {
    if quadPos == 0 then 0 else quadPos - 1
  }

  /**
   * Without padding, the decoder succeeds exactly when the sextets complete
   * whole groups of four ("incorrect padding" otherwise), and every group
   * of four sextets gives three bytes; characters outside the alphabet are
   * skipped.
   */
  lemma {:induction false} DecodeWithoutPadding(s: string)
    requires IsAscii(s) && '=' !in s
    ensures Decode(s).Some? <==> |Sextets(s)| % 4 == 0
    ensures Decode(s).Some? ==> |Decode(s).value| == |Sextets(s)| / 4 * 3
  {
    ScanWithoutPadding(s, 0, 0, 0);
    var n := |Sextets(s)|;
    if n % 4 == 0 {
      assert n == n / 4 * 4;
    }
  }

  lemma {:induction false} ScanWithoutPadding(s: string, quadPos: nat, left: int, pads: nat)
    requires quadPos < 4 && 0 <= left < LeftBound(quadPos)
    requires '=' !in s
    ensures Scan(s, quadPos, left, pads).Some? <==> (quadPos + |Sextets(s)|) % 4 == 0
    ensures Scan(s, quadPos, left, pads).Some? ==>
      4 * (|Scan(s, quadPos, left, pads).value| + Produced(quadPos)) == 3 * (quadPos + |Sextets(s)|)
    decreases |s|
  {
    if |s| > 0 {
      var rest := s[1..];
      assert '=' !in rest by {
        forall i | 0 <= i < |rest| ensures rest[i] != '=' {
          assert rest[i] == s[i + 1];
        }
      }
      assert s[0] != '=' by { assert s[0] in s; }
      if !IsBase64Char(s[0]) {
        assert Sextets(s) == Sextets(rest);
        ScanWithoutPadding(rest, quadPos, left, pads);
      } else {
        assert |Sextets(s)| == |Sextets(rest)| + 1;
        var v := ValueOf(s[0]);
        if quadPos == 0 {
          ScanWithoutPadding(rest, 1, v, 0);
        } else if quadPos == 1 {
          ScanWithoutPadding(rest, 2, v % 16, 0);
        } else if quadPos == 2 {
          ScanWithoutPadding(rest, 3, v % 4, 0);
        } else {
          ScanWithoutPadding(rest, 0, 0, 0);
        }
      }
    }
  }

  /** Decoding the encoding of any byte string gives back that byte string
      (the round trip of section 4 of RFC 4648). */
  lemma {:induction false} DecodeEncode(b: seq<Byte>)
    ensures Decode(Encode(b)) == Some(b)
  {
    EncodeIsAscii(b);
    ScanEncode(b);
  }

  /** Every character of an encoding is in the alphabet or is `=`, so the
      encoding is ASCII text. */
  lemma {:induction false} EncodeIsAscii(b: seq<Byte>)
    ensures forall i | 0 <= i < |Encode(b)| :: IsBase64Char(Encode(b)[i]) || Encode(b)[i] == '='
    ensures IsAscii(Encode(b))
    decreases |b|
  {
    if |b| >= 3 {
      EncodeIsAscii(b[3..]);
      var s, q, r := Encode(b), Quad(b[0], b[1], b[2]), Encode(b[3..]);
      assert s == q + r;
      forall i | 0 <= i < |s| ensures IsBase64Char(s[i]) || s[i] == '=' {
        if i >= 4 { assert s[i] == r[i - 4]; }
      }
    }
  }

  lemma {:induction false} ScanEncode(b: seq<Byte>)
    ensures Scan(Encode(b), 0, 0, 0) == Some(b)
    decreases |b|
  {
    if |b| < 3 {
      ScanFinal(b);
    } else {
      ScanEncodeStep(b);
      ScanEncode(b[3..]);
      assert [b[0]] + ([b[1]] + ([b[2]] + b[3..])) == b;
    }
  }

  lemma ScanEncodeStep(b: seq<Byte>)
    requires |b| >= 3
    ensures Scan(Encode(b), 0, 0, 0)
         == Prepend(b[0], Prepend(b[1], Prepend(b[2], Scan(Encode(b[3..]), 0, 0, 0))))
  {
    assert Encode(b) == Quad(b[0], b[1], b[2]) + Encode(b[3..]);
    ScanGroup(b[0], b[1], b[2], Encode(b[3..]));
  }

  /** The last group, of fewer than three bytes. */
  lemma ScanFinal(b: seq<Byte>)
    requires |b| < 3
    ensures Scan(Encode(b), 0, 0, 0) == Some(b)
  {
    if |b| == 1 {
      EncodeOne(b);
      ScanOne(b[0]);
    } else if |b| == 2 {
      EncodeTwo(b);
      ScanTwo(b[0], b[1]);
    }
  }

  lemma EncodeOne(b: seq<Byte>)
    requires |b| == 1
    ensures Encode(b) == QuadOfOne(b[0]) && b == [b[0]]
  {
  }

  lemma EncodeTwo(b: seq<Byte>)
    requires |b| == 2
    ensures Encode(b) == QuadOfTwo(b[0], b[1]) && b == [b[0], b[1]]
  {
  }

  /** Reading the alphabet character c, of value v, at each position of a group. */
  lemma ScanFirst(c: char, rest: string, v: int)
    requires 0 <= v < 64 && c == CharOf(v)
    ensures Scan([c] + rest, 0, 0, 0) == Scan(rest, 1, v, 0)
  {
    ValueOfCharOf(v);
    assert ([c] + rest)[1..] == rest;
  }

  lemma ScanSecond(c: char, rest: string, left: int, v: int)
    requires 0 <= left < 64 && 0 <= v < 64 && c == CharOf(v)
    ensures Scan([c] + rest, 1, left, 0) == Prepend((left * 4 + v / 16) as Byte, Scan(rest, 2, v % 16, 0))
  {
    ValueOfCharOf(v);
    assert ([c] + rest)[1..] == rest;
  }

  lemma ScanThird(c: char, rest: string, left: int, v: int)
    requires 0 <= left < 16 && 0 <= v < 64 && c == CharOf(v)
    ensures Scan([c] + rest, 2, left, 0) == Prepend((left * 16 + v / 4) as Byte, Scan(rest, 3, v % 4, 0))
  {
    ValueOfCharOf(v);
    assert ([c] + rest)[1..] == rest;
  }

  lemma ScanFourth(c: char, rest: string, left: int, v: int)
    requires 0 <= left < 4 && 0 <= v < 64 && c == CharOf(v)
    ensures Scan([c] + rest, 3, left, 0) == Prepend((left * 64 + v) as Byte, Scan(rest, 0, 0, 0))
  {
    ValueOfCharOf(v);
    assert ([c] + rest)[1..] == rest;
  }

  /** The padding that ends a one-byte and a two-byte final group. */
  lemma ScanPadding(left: int)
    requires 0 <= left < 4
    ensures Scan(['=', '='], 2, left, 0) == Some([])
    ensures Scan(['='], 3, left, 0) == Some([])
  {
    var pad: string := ['=', '='];
    assert pad[1..] == ['='];
    assert Scan(pad, 2, left, 0) == Scan(['='], 2, left, 1);
  }

  /** Bit-level facts: the sextets of one group put the bytes back together. */
  lemma Regroup(b0: int, b1: int, b2: int)
    requires 0 <= b0 < 256 && 0 <= b1 < 256 && 0 <= b2 < 256
    ensures var v1, v2 := b0 % 4 * 16 + b1 / 16, b1 % 16 * 4 + b2 / 64;
      && b0 / 4 * 4 + v1 / 16 == b0
      && v1 % 16 * 16 + v2 / 4 == b1
      && v2 % 4 * 64 + b2 % 64 == b2
  {
  }

  lemma ScanOne(b0: Byte)
    ensures Scan(QuadOfOne(b0), 0, 0, 0) == Some([b0])
  {
    var v0, v1 := b0 as int / 4, b0 as int % 4 * 16;
    var c0, c1 := CharOf(v0), CharOf(v1);
    var pad: string := ['=', '='];
    assert QuadOfOne(b0) == [c0] + ([c1] + pad);
    Regroup(b0 as int, 0, 0);
    ScanFirst(c0, [c1] + pad, v0);
    ScanSecond(c1, pad, v0, v1);
    ScanPadding(v1 % 16);
    var done: seq<Byte> := [];
    assert [b0] + done == [b0];
  }

  lemma ScanTwo(b0: Byte, b1: Byte)
    ensures Scan(QuadOfTwo(b0, b1), 0, 0, 0) == Some([b0, b1])
  {
    var v0, v1, v2 := b0 as int / 4, b0 as int % 4 * 16 + b1 as int / 16, b1 as int % 16 * 4;
    var c0, c1, c2 := CharOf(v0), CharOf(v1), CharOf(v2);
    var pad: string := ['='];
    assert QuadOfTwo(b0, b1) == [c0] + ([c1] + ([c2] + pad));
    Regroup(b0 as int, b1 as int, 0);
    ScanFirst(c0, [c1] + ([c2] + pad), v0);
    ScanSecond(c1, [c2] + pad, v0, v1);
    ScanThird(c2, pad, v1 % 16, v2);
    ScanPadding(v2 % 4);
    var done: seq<Byte> := [];
    assert [b0] + ([b1] + done) == [b0, b1];
  }

  lemma ScanGroup(b0: Byte, b1: Byte, b2: Byte, rest: string)
    ensures Scan(Quad(b0, b1, b2) + rest, 0, 0, 0)
         == Prepend(b0, Prepend(b1, Prepend(b2, Scan(rest, 0, 0, 0))))
  {
    var v0, v1 := b0 as int / 4, b0 as int % 4 * 16 + b1 as int / 16;
    var v2, v3 := b1 as int % 16 * 4 + b2 as int / 64, b2 as int % 64;
    var c0, c1, c2, c3 := CharOf(v0), CharOf(v1), CharOf(v2), CharOf(v3);
    assert Quad(b0, b1, b2) + rest == [c0] + ([c1] + ([c2] + ([c3] + rest)));
    Regroup(b0 as int, b1 as int, b2 as int);
    ScanFirst(c0, [c1] + ([c2] + ([c3] + rest)), v0);
    ScanSecond(c1, [c2] + ([c3] + rest), v0, v1);
    ScanThird(c2, [c3] + rest, v1 % 16, v2);
    ScanFourth(c3, rest, v2 % 4, v3);
  }
}
