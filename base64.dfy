/** Go's `base64.StdEncoding`: the base 64 encoding of section 4 of RFC 4648,
    standard alphabet, with `=` padding. `DecodeString` ignores carriage returns
    and newlines anywhere in its input and does not check that the unused
    trailing bits of the last quantum are zero. */
module Base64 {
  import opened Results

  type Byte = b: int | 0 <= b < 256

  predicate IsAlphabet(c: char) {
    'A' <= c <= 'Z' || 'a' <= c <= 'z' || '0' <= c <= '9' || c == '+' || c == '/'
  }

  /** The value of one character of the alphabet. */
  function SextetOf(c: char): (v: int)
    requires IsAlphabet(c)
    ensures 0 <= v < 64
  {
    if 'A' <= c <= 'Z' then c as int - 'A' as int
    else if 'a' <= c <= 'z' then c as int - 'a' as int + 26
    else if '0' <= c <= '9' then c as int - '0' as int + 52
    else if c == '+' then 62
    else 63
  }

  /** The character of the alphabet for a 6-bit value. */
  function CharOf(v: int): (c: char)
    requires 0 <= v < 64
    ensures IsAlphabet(c) && SextetOf(c) == v
    ensures c != '\n' && c != '\r' && c != '='
  {
    if v < 26 then ('A' as int + v) as char
    else if v < 52 then ('a' as int + v - 26) as char
    else if v < 62 then ('0' as int + v - 52) as char
    else if v == 62 then '+'
    else '/'
  }

  /** The text without its line breaks, which the decoder skips. */
  function StripNewlines(s: string): (r: string)
    ensures |r| <= |s|
    ensures '\n' !in r && '\r' !in r
    ensures '\n' !in s && '\r' !in s ==> r == s
  {
    if s == [] then []
    else (if s[0] == '\n' || s[0] == '\r' then [] else [s[0]]) + StripNewlines(s[1..])
  }

  /** base64.StdEncoding.DecodeString. */
  function DecodeString(s: string): (r: Result<seq<Byte>>)
    ensures '\n' !in s && '\r' !in s ==> r == DecodeQuanta(s)
    ensures r.Ok? ==> |r.value| <= |s| / 4 * 3
  {
    DecodeQuantaLength(StripNewlines(s));
    DecodeQuanta(StripNewlines(s))
  }

  /** Decodes groups of four characters; only the last group may be padded. */
  function DecodeQuanta(t: string): Result<seq<Byte>>
    decreases |t|
  {
    if |t| == 0 then Ok([])
    else if |t| < 4 then Err("illegal base64 data")
    else
      var a, b, c, d := t[0], t[1], t[2], t[3];
      if IsAlphabet(a) && IsAlphabet(b) && IsAlphabet(c) && IsAlphabet(d) then
        var x, y, z, w := SextetOf(a), SextetOf(b), SextetOf(c), SextetOf(d);
        var head: seq<Byte> := [Octet0(x, y), Octet1(y, z), Octet2(z, w)];
        match DecodeQuanta(t[4..])
        case Ok(rest) => Ok(head + rest)
        case Err(e) => Err(e)
      else if |t| == 4 && IsAlphabet(a) && IsAlphabet(b) && c == '=' && d == '=' then
        Ok([Octet0(SextetOf(a), SextetOf(b))])
      else if |t| == 4 && IsAlphabet(a) && IsAlphabet(b) && IsAlphabet(c) && d == '=' then
        var x, y, z := SextetOf(a), SextetOf(b), SextetOf(c);
        Ok([Octet0(x, y), Octet1(y, z)])
      else Err("illegal base64 data")
  }

  /** Only text made of whole groups of four decodes, to at most three bytes a group. */
  lemma {:induction false} DecodeQuantaLength(t: string)
    ensures DecodeQuanta(t).Ok? ==> |t| % 4 == 0
    ensures DecodeQuanta(t).Ok? ==> |DecodeQuanta(t).value| <= |t| / 4 * 3
    decreases |t|
  {
    if |t| >= 4 {
      DecodeQuantaLength(t[4..]);
      assert |t| / 4 * 3 == |t[4..]| / 4 * 3 + 3;
    }
  }

  /** The three bytes that four 6-bit values make, most significant first. */
  function Octet0(v0: int, v1: int): Byte requires 0 <= v0 < 64 && 0 <= v1 < 64 { v0 * 4 + v1 / 16 }
  function Octet1(v1: int, v2: int): Byte requires 0 <= v1 < 64 && 0 <= v2 < 64 { (v1 % 16) * 16 + v2 / 4 }
  function Octet2(v2: int, v3: int): Byte requires 0 <= v2 < 64 && 0 <= v3 < 64 { (v2 % 4) * 64 + v3 }

  /** The four 6-bit values that three bytes are cut into, most significant first. */
  function Sextet0(b0: Byte): (v: int) ensures 0 <= v < 64 { b0 / 4 }
  function Sextet1(b0: Byte, b1: Byte): (v: int) ensures 0 <= v < 64 { (b0 % 4) * 16 + b1 / 16 }
  function Sextet2(b1: Byte, b2: Byte): (v: int) ensures 0 <= v < 64 { (b1 % 16) * 4 + b2 / 64 }
  function Sextet3(b2: Byte): (v: int) ensures 0 <= v < 64 { b2 % 64 }

  /** base64.StdEncoding.EncodeToString, the partner of DecodeString. A final
      group of one or two bytes is padded with zero bits and then with '='. */
  function Encode(bs: seq<Byte>): (s: string)
    ensures |s| % 4 == 0
    ensures '\n' !in s && '\r' !in s
  {
    if |bs| == 0 then ""
    else if |bs| == 1 then
      [CharOf(Sextet0(bs[0])), CharOf(Sextet1(bs[0], 0)), '=', '=']
    else if |bs| == 2 then
      [CharOf(Sextet0(bs[0])), CharOf(Sextet1(bs[0], bs[1])), CharOf(Sextet2(bs[1], 0)), '=']
    else
      var head := [CharOf(Sextet0(bs[0])), CharOf(Sextet1(bs[0], bs[1])),
                   CharOf(Sextet2(bs[1], bs[2])), CharOf(Sextet3(bs[2]))];
      var rest := Encode(bs[3..]);
      assert '\n' !in head && '\r' !in head;
      assert |head + rest| == |rest| + 4;
      head + rest
  }

  /** Decoding what was encoded gives back the bytes. */
  lemma {:induction false} DecodeEncode(bs: seq<Byte>)
    ensures DecodeString(Encode(bs)) == Ok(bs)
  {
    DecodeQuantaEncode(bs);
  }

  lemma {:induction false} DecodeQuantaEncode(bs: seq<Byte>)
    ensures DecodeQuanta(Encode(bs)) == Ok(bs)
  {
    if |bs| == 1 {
      DecodeOne(bs);
    } else if |bs| == 2 {
      DecodeTwo(bs);
    } else if |bs| >= 3 {
      DecodeQuantaEncode(bs[3..]);
      DecodeThree(bs, Encode(bs[3..]));
    } else {
      assert Encode(bs) == "";
    }
  }

  lemma DecodeOne(bs: seq<Byte>)
    requires |bs| == 1
    ensures DecodeQuanta(Encode(bs)) == Ok(bs)
  {
    var v0, v1 := Sextet0(bs[0]), Sextet1(bs[0], 0);
    var t := Encode(bs);
    assert t == [CharOf(v0), CharOf(v1), '=', '='];
    assert SextetOf(t[0]) == v0 && SextetOf(t[1]) == v1;
    OneByteArithmetic(bs[0], v0, v1);
    assert !IsAlphabet(t[2]);
    assert DecodeQuanta(t) == Ok([Octet0(v0, v1)]);
    assert [Octet0(v0, v1)] == bs;
  }

  lemma DecodeTwo(bs: seq<Byte>)
    requires |bs| == 2
    ensures DecodeQuanta(Encode(bs)) == Ok(bs)
  {
    var v0, v1, v2 := Sextet0(bs[0]), Sextet1(bs[0], bs[1]), Sextet2(bs[1], 0);
    var t := Encode(bs);
    assert t == [CharOf(v0), CharOf(v1), CharOf(v2), '='];
    assert SextetOf(t[0]) == v0 && SextetOf(t[1]) == v1 && SextetOf(t[2]) == v2;
    TwoByteArithmetic(bs[0], bs[1], v0, v1, v2);
    assert !IsAlphabet(t[3]);
    assert DecodeQuanta(t) == Ok([Octet0(v0, v1), Octet1(v1, v2)]);
    assert [Octet0(v0, v1), Octet1(v1, v2)] == bs;
  }

  lemma DecodeThree(bs: seq<Byte>, rest: string)
    requires |bs| >= 3 && DecodeQuanta(rest) == Ok(bs[3..]) && Encode(bs[3..]) == rest
    ensures DecodeQuanta(Encode(bs)) == Ok(bs)
  {
    var v0, v1 := Sextet0(bs[0]), Sextet1(bs[0], bs[1]);
    var v2, v3 := Sextet2(bs[1], bs[2]), Sextet3(bs[2]);
    assert Encode(bs) == [CharOf(v0), CharOf(v1), CharOf(v2), CharOf(v3)] + rest;
    DecodeQuad(v0, v1, v2, v3, rest, bs[3..]);
    QuantumArithmetic(bs[0], bs[1], bs[2], v0, v1, v2, v3);
    assert [Octet0(v0, v1), Octet1(v1, v2), Octet2(v2, v3)] + bs[3..] == bs;
  }

  /** Four characters of the alphabet decode to the three bytes their values make. */
  lemma DecodeQuad(v0: int, v1: int, v2: int, v3: int, rest: string, decoded: seq<Byte>)
    requires 0 <= v0 < 64 && 0 <= v1 < 64 && 0 <= v2 < 64 && 0 <= v3 < 64
    requires DecodeQuanta(rest) == Ok(decoded)
    ensures DecodeQuanta([CharOf(v0), CharOf(v1), CharOf(v2), CharOf(v3)] + rest) ==
      Ok([Octet0(v0, v1), Octet1(v1, v2), Octet2(v2, v3)] + decoded)
  {
    var t := [CharOf(v0), CharOf(v1), CharOf(v2), CharOf(v3)] + rest;
    assert t[4..] == rest;
    assert t[0] == CharOf(v0) && t[1] == CharOf(v1) && t[2] == CharOf(v2) && t[3] == CharOf(v3);
  }

  /** The four 6-bit values of three bytes give back those bytes. */
  lemma QuantumArithmetic(b0: Byte, b1: Byte, b2: Byte, v0: int, v1: int, v2: int, v3: int)
    requires v0 == b0 / 4 && v1 == (b0 % 4) * 16 + b1 / 16
    requires v2 == (b1 % 16) * 4 + b2 / 64 && v3 == b2 % 64
    ensures Octet0(v0, v1) == b0
    ensures Octet1(v1, v2) == b1
    ensures Octet2(v2, v3) == b2
  {
  }

  /** The three 6-bit values of two bytes give back those bytes. */
  lemma TwoByteArithmetic(b0: Byte, b1: Byte, v0: int, v1: int, v2: int)
    requires v0 == b0 / 4 && v1 == (b0 % 4) * 16 + b1 / 16 && v2 == (b1 % 16) * 4
    ensures Octet0(v0, v1) == b0
    ensures Octet1(v1, v2) == b1
  {
  }

  /** The two 6-bit values of one byte give back that byte. */
  lemma OneByteArithmetic(b0: Byte, v0: int, v1: int)
    requires v0 == b0 / 4 && v1 == (b0 % 4) * 16
    ensures Octet0(v0, v1) == b0
  {
  }

  /** "dGVzdA==" decodes to the bytes of "test". */
  lemma DecodeTest()
    ensures DecodeString("dGVzdA==") == Ok([116, 101, 115, 116])
  {
    var s := "dGVzdA==";
    assert s == ['d', 'G', 'V', 'z', 'd', 'A', '=', '='];
    assert '\n' !in s && '\r' !in s;
    DecodeTestQuanta();
  }

  lemma DecodeTestQuanta()
    ensures DecodeQuanta(['d', 'G', 'V', 'z', 'd', 'A', '=', '=']) == Ok([116, 101, 115, 116])
  {
    var s := ['d', 'G', 'V', 'z', 'd', 'A', '=', '='];
    assert DecodeQuanta(s[4..]) == Ok([116]);
    assert IsAlphabet(s[0]) && IsAlphabet(s[1]) && IsAlphabet(s[2]) && IsAlphabet(s[3]);
    var r: seq<Byte> := [116, 101, 115];
    assert DecodeQuanta(s) == Ok(r + [116]);
    assert r + [116] == [116, 101, 115, 116];
  }
}
