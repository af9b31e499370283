/**
 Base64 as section 4 of RFC 4648 defines the encoding, and the lenient decoder of
 base64.b64decode on strings: a character that is not ASCII is an error, other characters outside the
 alphabet are skipped, and a complete padding ends the data.
 */
module Base64 {
  import opened Common

  type Byte = n: nat | n < 256

  function SextetChar(v: nat): char
    requires v < 64
  {
    if v < 26 then 'A' + v as char
    else if v < 52 then 'a' + (v - 26) as char
    else if v < 62 then '0' + (v - 52) as char
    else if v == 62 then '+'
    else '/'
  }

  function SextetValue(c: char): (v: Option<nat>)
    ensures v.Some? ==> v.value < 64
  {
    if 'A' <= c <= 'Z' then Some((c - 'A') as nat)
    else if 'a' <= c <= 'z' then Some((c - 'a') as nat + 26)
    else if '0' <= c <= '9' then Some((c - '0') as nat + 52)
    else if c == '+' then Some(62)
    else if c == '/' then Some(63)
    else None
  }

  function Encode(b: seq<Byte>): string {
    if |b| == 0 then ""
    else if |b| == 1 then [SextetChar(b[0] / 4), SextetChar(b[0] % 4 * 16), '=', '=']
    else if |b| == 2 then
      [SextetChar(b[0] / 4), SextetChar(b[0] % 4 * 16 + b[1] / 16), SextetChar(b[1] % 16 * 4), '=']
    else
      [SextetChar(b[0] / 4), SextetChar(b[0] % 4 * 16 + b[1] / 16),
       SextetChar(b[1] % 16 * 4 + b[2] / 64), SextetChar(b[2] % 64)] + Encode(b[3..])
  }

  /** What the decoder keeps of the sextets it has not turned into bytes yet. */
  function Bound(quad: nat): nat {
    if quad == 1 then 64 else if quad == 2 then 16 else if quad == 3 then 4 else 1
  }

  /** The decoder at position `quad` of a group of four, with `pads` padding characters seen in a row. */
  function DecodeFrom(s: string, quad: nat, left: nat, pads: nat): Option<seq<Byte>>
    requires quad < 4 && left < Bound(quad)
    decreases |s|
  {
    if s == "" then (if quad == 0 then Some([]) else None)
    else
      var v := SextetValue(s[0]);
      if s[0] == '=' then
        if quad >= 2 && quad + pads + 1 >= 4 then Some([])
        else DecodeFrom(s[1..], quad, left, if quad >= 2 then pads + 1 else pads)
      else if v.None? then DecodeFrom(s[1..], quad, left, pads)
      else if quad == 0 then DecodeFrom(s[1..], 1, v.value, 0)
      else if quad == 1 then Emit(left * 4 + v.value / 16, DecodeFrom(s[1..], 2, v.value % 16, 0))
      else if quad == 2 then Emit(left * 16 + v.value / 4, DecodeFrom(s[1..], 3, v.value % 4, 0))
      else Emit(left * 64 + v.value, DecodeFrom(s[1..], 0, 0, 0))
  }

  function Emit(b: Byte, rest: Option<seq<Byte>>): Option<seq<Byte>> {
    if rest.None? then None else Some([b] + rest.value)
  }

  predicate IsAscii(s: string) {
    forall k | 0 <= k < |s| :: s[k] as int < 128
  }

  function Decode(s: string): Option<seq<Byte>> {
    if IsAscii(s) then DecodeFrom(s, 0, 0, 0) else None
  }

  lemma {:induction false} EncodeIsAscii(b: seq<Byte>)
    ensures IsAscii(Encode(b))
  {
    if |b| >= 3 {
      EncodeIsAscii(b[3..]);
    }
  }

  /** The alphabet of table 1 in section 4 of RFC 4648: A to Z, a to z, 0 to 9, '+' and '/'. */
  lemma Alphabet(v: nat)
    requires v < 64
    ensures SextetChar(0) == 'A' && SextetChar(25) == 'Z' && SextetChar(26) == 'a' && SextetChar(51) == 'z'
    ensures SextetChar(52) == '0' && SextetChar(61) == '9' && SextetChar(62) == '+' && SextetChar(63) == '/'
    ensures v < 61 && v != 25 && v != 51 ==> SextetChar(v + 1) as int == SextetChar(v) as int + 1
  {
  }

  /** Some of the test vectors in section 10 of RFC 4648. */
  lemma TestVectors()
    ensures Encode([]) == "" && Encode([102]) == "Zg==" && Encode([102, 111]) == "Zm8="
    ensures Encode([102, 111, 111]) == "Zm9v" && Encode([102, 111, 111, 98]) == "Zm9vYg=="
  {
  }

  lemma SextetRoundTrip(v: nat)
    requires v < 64
    ensures SextetValue(SextetChar(v)) == Some(v) && SextetChar(v) != '='
  {
  }

  lemma EncodeNonEmpty(b: seq<Byte>)
    requires b != []
    ensures Encode(b) != ""
  {
  }

  /** Four characters give back the three bytes they stand for. */
  lemma GroupRoundTrip(a: Byte, b: Byte, c: Byte, s: string, rest: string)
    requires s == [SextetChar(a / 4), SextetChar(a % 4 * 16 + b / 16),
                   SextetChar(b % 16 * 4 + c / 64), SextetChar(c % 64)] + rest
    ensures DecodeFrom(s, 0, 0, 0) == Emit(a, Emit(b, Emit(c, DecodeFrom(rest, 0, 0, 0))))
  {
    var v0, v1, v2, v3 := a / 4, a % 4 * 16 + b / 16, b % 16 * 4 + c / 64, c % 64;
    SextetRoundTrip(v0);
    SextetRoundTrip(v1);
    SextetRoundTrip(v2);
    SextetRoundTrip(v3);
    var s1, s2, s3 := s[1..], s[1..][1..], s[1..][1..][1..];
    assert s3[1..] == rest;
    assert v0 * 4 + v1 / 16 == a && v1 % 16 == b / 16;
    assert v1 % 16 * 16 + v2 / 4 == b && v2 % 4 == c / 64;
    assert v2 % 4 * 64 + v3 == c;
    assert DecodeFrom(s3, 3, v2 % 4, 0) == Emit(c, DecodeFrom(rest, 0, 0, 0));
    assert DecodeFrom(s2, 2, v1 % 16, 0) == Emit(b, DecodeFrom(s3, 3, v2 % 4, 0));
    assert DecodeFrom(s1, 1, v0, 0) == Emit(a, DecodeFrom(s2, 2, v1 % 16, 0));
  }

  lemma OneByteRoundTrip(a: Byte)
    ensures DecodeFrom(Encode([a]), 0, 0, 0) == Some([a])
  {
    var s := Encode([a]);
    SextetRoundTrip(a / 4);
    SextetRoundTrip(a % 4 * 16);
    var s1, s2, s3 := s[1..], s[1..][1..], s[1..][1..][1..];
    assert DecodeFrom(s3, 2, 0, 1) == Some([]);
    assert DecodeFrom(s2, 2, 0, 0) == Some([]);
    assert a / 4 * 4 + a % 4 * 16 / 16 == a && a % 4 * 16 % 16 == 0;
    assert s2[0] == '=' && s3[0] == '=';
    var none: seq<Byte> := [];
    assert [a] + none == [a];
    assert DecodeFrom(s1, 1, a / 4, 0) == Emit(a, DecodeFrom(s2, 2, 0, 0));
    assert DecodeFrom(s, 0, 0, 0) == DecodeFrom(s1, 1, a / 4, 0);
  }

  lemma TwoBytesRoundTrip(a: Byte, b: Byte)
    ensures DecodeFrom(Encode([a, b]), 0, 0, 0) == Some([a, b])
  {
    var s := Encode([a, b]);
    var v1, v2 := a % 4 * 16 + b / 16, b % 16 * 4;
    SextetRoundTrip(a / 4);
    SextetRoundTrip(v1);
    SextetRoundTrip(v2);
    var s1, s2, s3 := s[1..], s[1..][1..], s[1..][1..][1..];
    assert v1 % 16 * 16 + v2 / 4 == b && v2 % 4 == 0;
    assert a / 4 * 4 + v1 / 16 == a;
    assert s3[0] == '=';
    var none: seq<Byte> := [];
    assert [b] + none == [b] && [a] + [b] == [a, b];
    assert DecodeFrom(s3, 3, 0, 0) == Some([]);
    assert DecodeFrom(s2, 2, v1 % 16, 0) == Emit(b, DecodeFrom(s3, 3, 0, 0));
    assert DecodeFrom(s1, 1, a / 4, 0) == Emit(a, DecodeFrom(s2, 2, v1 % 16, 0));
    assert DecodeFrom(s, 0, 0, 0) == DecodeFrom(s1, 1, a / 4, 0);
  }

  /** Decoding an encoding gives the bytes back. */
  lemma RoundTrip(b: seq<Byte>)
    ensures Decode(Encode(b)) == Some(b)
  {
    EncodeIsAscii(b);
    GroupsRoundTrip(b);
  }

  lemma {:induction false} GroupsRoundTrip(b: seq<Byte>)
    ensures DecodeFrom(Encode(b), 0, 0, 0) == Some(b)
    decreases |b|
  {
    if |b| == 1 {
      OneByteRoundTrip(b[0]);
      assert b == [b[0]];
    } else if |b| == 2 {
      TwoBytesRoundTrip(b[0], b[1]);
      assert b == [b[0], b[1]];
    } else if |b| >= 3 {
      GroupsRoundTrip(b[3..]);
      GroupRoundTrip(b[0], b[1], b[2], Encode(b), Encode(b[3..]));
      assert b == [b[0]] + ([b[1]] + ([b[2]] + b[3..]));
    }
  }
}
