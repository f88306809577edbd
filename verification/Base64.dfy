/** Standard base64 with padding (section 4 of RFC 4648), on bytes as small numbers. */
module Base64 {
  import opened Options

  type Byte = n: nat | n < 256

  /** The alphabet of table 1. */
  function Symbol(i: nat): (c: char)
    requires i < 64
    ensures c != '='
  {
    if i < 26 then ('A' as int + i) as char
    else if i < 52 then ('a' as int + (i - 26)) as char
    else if i < 62 then ('0' as int + (i - 52)) as char
    else if i == 62 then '+' else '/'
  }

  function Index(c: char): (i: Option<nat>)
    ensures i.Some? ==> i.value < 64 && Symbol(i.value) == c
  {
    if 'A' <= c <= 'Z' then Some(c as int - 'A' as int)
    else if 'a' <= c <= 'z' then Some(c as int - 'a' as int + 26)
    else if '0' <= c <= '9' then Some(c as int - '0' as int + 52)
    else if c == '+' then Some(62)
    else if c == '/' then Some(63)
    else None
  }

  lemma IndexOfSymbol(i: nat)
    requires i < 64
    ensures Index(Symbol(i)) == Some(i)
  {
  }

  /** `EncodeToString`. */
  function Encode(b: seq<Byte>): string {
    if |b| == 0 then ""
    else if |b| == 1 then
      [Symbol(b[0] / 4), Symbol(b[0] % 4 * 16), '=', '=']
    else if |b| == 2 then
      [Symbol(b[0] / 4), Symbol(b[0] % 4 * 16 + b[1] / 16), Symbol(b[1] % 16 * 4), '=']
    else
      [Symbol(b[0] / 4), Symbol(b[0] % 4 * 16 + b[1] / 16), Symbol(b[1] % 16 * 4 + b[2] / 64), Symbol(b[2] % 64)]
      + Encode(b[3..])
  }

  /** Decoding: padding only in the last group, and only with zero bits under it. */
  function Decode(s: string): Option<seq<Byte>> {
    if |s| == 0 then Some([])
    else if |s| < 4 then None
    else
      match (Index(s[0]), Index(s[1]), Index(s[2]), Index(s[3]))
      case (Some(p), Some(q), Some(r), Some(t)) =>
        (match Decode(s[4..])
         case Some(rest) => Some([p * 4 + q / 16, q % 16 * 16 + r / 4, r % 4 * 64 + t] + rest)
         case None => None)
      case (Some(p), Some(q), Some(r), None) =>
        if s[3..] == "=" && r % 4 == 0 then Some([p * 4 + q / 16, q % 16 * 16 + r / 4]) else None
      case (Some(p), Some(q), None, None) =>
        if s[2..] == "==" && q % 16 == 0 then Some([p * 4 + q / 16]) else None
      case _ => None
  }

  /** Regrouping three bytes as four sextets loses nothing. */
  lemma Sextets(x: Byte, y: Byte, z: Byte)
    ensures var p, q, r, t := x / 4, x % 4 * 16 + y / 16, y % 16 * 4 + z / 64, z % 64;
            && p < 64 && q < 64 && r < 64 && t < 64
            && p * 4 + q / 16 == x && q % 16 * 16 + r / 4 == y && r % 4 * 64 + t == z
  {
  }

  lemma TwoBytes(x: Byte, y: Byte)
    ensures var p, q, r := x / 4, x % 4 * 16 + y / 16, y % 16 * 4;
            && p < 64 && q < 64 && r < 64 && r % 4 == 0
            && p * 4 + q / 16 == x && q % 16 * 16 + r / 4 == y
  {
    Sextets(x, y, 0);
  }

  lemma DecodeTwo(p: nat, q: nat, r: nat)
    requires p < 64 && q < 64 && r < 64 && r % 4 == 0
    ensures Decode([Symbol(p), Symbol(q), Symbol(r), '=']) == Some([p * 4 + q / 16, q % 16 * 16 + r / 4])
  {
    IndexOfSymbol(p);
    IndexOfSymbol(q);
    IndexOfSymbol(r);
    assert [Symbol(p), Symbol(q), Symbol(r), '='][3..] == "=";
  }

  lemma RoundTripOne(x: Byte)
    ensures Decode(Encode([x])) == Some([x])
  {
    Sextets(x, 0, 0);
    IndexOfSymbol(x / 4);
    IndexOfSymbol(x % 4 * 16);
    assert Encode([x])[2..] == "==";
  }

  lemma RoundTripTwo(x: Byte, y: Byte)
    ensures Decode(Encode([x, y])) == Some([x, y])
  {
    TwoBytes(x, y);
    var p, q, r := x / 4, x % 4 * 16 + y / 16, y % 16 * 4;
    var b: seq<Byte> := [x, y];
    assert Encode(b) == [Symbol(p), Symbol(q), Symbol(r), '='];
    DecodeTwo(p, q, r);
  }

  lemma RoundTripThree(x: Byte, y: Byte, z: Byte, rest: seq<Byte>)
    requires Decode(Encode(rest)) == Some(rest)
    ensures Decode(Encode([x, y, z] + rest)) == Some([x, y, z] + rest)
  {
    Sextets(x, y, z);
    var p, q, r, t := x / 4, x % 4 * 16 + y / 16, y % 16 * 4 + z / 64, z % 64;
    var b: seq<Byte> := [x, y, z] + rest;
    assert b[3..] == rest;
    assert Encode(b) == [Symbol(p), Symbol(q), Symbol(r), Symbol(t)] + Encode(rest);
    DecodeThree(p, q, r, t, Encode(rest), rest);
  }

  lemma DecodeThree(p: nat, q: nat, r: nat, t: nat, s: string, rest: seq<Byte>)
    requires p < 64 && q < 64 && r < 64 && t < 64 && Decode(s) == Some(rest)
    ensures Decode([Symbol(p), Symbol(q), Symbol(r), Symbol(t)] + s)
         == Some([p * 4 + q / 16, q % 16 * 16 + r / 4, r % 4 * 64 + t] + rest)
  {
    var e := [Symbol(p), Symbol(q), Symbol(r), Symbol(t)] + s;
    IndexOfSymbol(p);
    IndexOfSymbol(q);
    IndexOfSymbol(r);
    IndexOfSymbol(t);
    assert e[4..] == s;
    assert e[0] == Symbol(p) && e[1] == Symbol(q) && e[2] == Symbol(r) && e[3] == Symbol(t);
  }

  /** Decoding undoes encoding, for every byte sequence. */
  lemma {:induction false} RoundTrip(b: seq<Byte>)
    ensures Decode(Encode(b)) == Some(b)
  {
    if |b| == 0 {
    } else if |b| == 1 {
      assert b == [b[0]];
      RoundTripOne(b[0]);
    } else if |b| == 2 {
      assert b == [b[0], b[1]];
      RoundTripTwo(b[0], b[1]);
    } else {
      assert b == [b[0], b[1], b[2]] + b[3..];
      RoundTrip(b[3..]);
      RoundTripThree(b[0], b[1], b[2], b[3..]);
    }
  }

  lemma {:induction false} EncodedLength(b: seq<Byte>)
    ensures |Encode(b)| == (|b| + 2) / 3 * 4
  {
    if |b| >= 3 {
      EncodedLength(b[3..]);
      var n := |b[3..]|;
      assert |Encode(b)| == 4 + |Encode(b[3..])| && |b| == n + 3;
      assert (n + 3 + 2) / 3 == (n + 2) / 3 + 1;
    } else {
      ShortLength(b);
    }
  }

  lemma ShortLength(b: seq<Byte>)
    requires |b| < 3
    ensures |Encode(b)| == if |b| == 0 then 0 else 4
  {
  }

  /** The number that digits stand for, the most significant first. */
  function Number(digits: seq<nat>, base: nat): nat {
    if digits == [] then 0 else Number(digits[..|digits| - 1], base) * base + digits[|digits| - 1]
  }

  lemma NumberOfThree(a: nat, b: nat, c: nat, base: nat)
    ensures Number([a, b, c], base) == (a * base + b) * base + c
  {
    assert [a, b, c][..2] == [a, b] && [a, b][..1] == [a] && [a][..0] == [];
    assert Number([a], base) == a;
    assert Number([a, b], base) == a * base + b;
  }

  lemma NumberOfFour(a: nat, b: nat, c: nat, d: nat, base: nat)
    ensures Number([a, b, c, d], base) == ((a * base + b) * base + c) * base + d
  {
    NumberOfThree(a, b, c, base);
    assert [a, b, c, d][..3] == [a, b, c];
  }

  lemma GroupNumber(a: Byte, b: Byte, c: Byte)
    ensures Number([a / 4, a % 4 * 16 + b / 16, b % 16 * 4 + c / 64, c % 64], 64) == Number([a, b, c], 256)
  {
    NumberOfThree(a, b, c, 256);
    NumberOfFour(a / 4, a % 4 * 16 + b / 16, b % 16 * 4 + c / 64, c % 64, 64);
  }

  lemma FirstGroup(b: seq<Byte>) returns (digits: seq<nat>)
    requires |b| >= 3
    ensures |Encode(b)| >= 4 && |digits| == 4 && Number(digits, 64) == Number(b[0..3], 256)
    ensures forall i :: 0 <= i < 4 ==> Index(Encode(b)[i]) == Some(digits[i])
  {
    digits := [b[0] / 4, b[0] % 4 * 16 + b[1] / 16, b[1] % 16 * 4 + b[2] / 64, b[2] % 64];
    GroupNumber(b[0], b[1], b[2]);
    assert b[0..3] == [b[0], b[1], b[2]];
    IndexOfSymbol(digits[0]);
    IndexOfSymbol(digits[1]);
    IndexOfSymbol(digits[2]);
    IndexOfSymbol(digits[3]);
  }

  /** Four characters stand for the same 24-bit number as the three bytes they encode. */
  lemma {:induction false} EncodesNumbers(b: seq<Byte>, k: nat) returns (digits: seq<nat>)
    requires 3 * k + 3 <= |b|
    ensures |Encode(b)| >= 4 * k + 4 && |digits| == 4
    ensures forall i :: 0 <= i < 4 ==> Index(Encode(b)[4 * k + i]) == Some(digits[i])
    ensures Number(digits, 64) == Number(b[3 * k..3 * k + 3], 256)
  {
    if k == 0 {
      digits := FirstGroup(b);
    } else {
      digits := EncodesNumbers(b[3..], k - 1);
      assert b[3..][3 * (k - 1)..3 * (k - 1) + 3] == b[3 * k..3 * k + 3];
      forall i | 0 <= i < 4 ensures Index(Encode(b)[4 * k + i]) == Some(digits[i]) {
        assert Encode(b)[4 * k + i] == Encode(b[3..])[4 * (k - 1) + i];
      }
    }
  }

  lemma {:induction false} EncodeInjective(a: seq<Byte>, b: seq<Byte>)
    requires Encode(a) == Encode(b)
    ensures a == b
  {
    RoundTrip(a);
    RoundTrip(b);
  }

  /** Three of the examples in section 10 of RFC 4648: "foob", "fooba" and "foobar". */
  lemma PublishedExamples()
    ensures Encode([102, 111, 111, 98]) == "Zm9vYg=="
    ensures Encode([102, 111, 111, 98, 97]) == "Zm9vYmE="
    ensures Encode([102, 111, 111, 98, 97, 114]) == "Zm9vYmFy"
  {
    assert Encode([98]) == "Yg==" && Encode([98, 97]) == "YmE=";
    assert [98, 97, 114][3..] == [] && Encode([98, 97, 114]) == "YmFy";
    assert [102, 111, 111, 98][3..] == [98];
    assert [102, 111, 111, 98, 97][3..] == [98, 97];
    assert [102, 111, 111, 98, 97, 114][3..] == [98, 97, 114];
  }
}
