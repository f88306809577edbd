/** Block IDs of azure/azure.go: base64 of `BlockID{%07d}`. */
module BlockIds {
  import opened Options
  import opened Decimal
  import opened Base64

  /** The bytes of an ASCII string. */
  function Ascii(s: string): (b: seq<Byte>)
    requires forall i :: 0 <= i < |s| ==> s[i] < 128 as char
    ensures |b| == |s|
    ensures forall i :: 0 <= i < |s| ==> b[i] == s[i] as int
  {
    seq(|s|, i requires 0 <= i < |s| => s[i] as int)
  }

  function BlockName(i: nat): (s: string)
    ensures forall k :: 0 <= k < |s| ==> s[k] < 128 as char
  {
    "BlockID{" + Padded(i, 7) + "}"
  }

  function BlockId(i: nat): string {
    Encode(Ascii(BlockName(i)))
  }

  /** Different blocks have different IDs, for all counters. */
  lemma {:induction false} BlockIdsDistinct(i: nat, j: nat)
    requires BlockId(i) == BlockId(j)
    ensures i == j
  {
    var a, b := BlockName(i), BlockName(j);
    EncodeInjective(Ascii(a), Ascii(b));
    assert |a| == |b|;
    forall k | 0 <= k < |a| ensures a[k] == b[k] {
      assert Ascii(a)[k] == Ascii(b)[k];
    }
    assert Padded(i, 7) == a[8..|a| - 1] == b[8..|b| - 1] == Padded(j, 7);
    PaddedValue(i, 7);
    PaddedValue(j, 7);
  }

  /** An ID decodes to "BlockID{", the counter in digits, and "}". */
  lemma {:induction false} BlockIdReads(i: nat) returns (digits: string)
    ensures AllDigits(digits) && Value(digits) == i && |digits| >= 7
    ensures forall k :: 0 <= k < |digits| ==> digits[k] < 128 as char
    ensures Decode(BlockId(i)) == Some(Ascii("BlockID{" + digits + "}"))
  {
    digits := Padded(i, 7);
    PaddedValue(i, 7);
    PaddedLength(i, 7);
    RoundTrip(Ascii(BlockName(i)));
    forall k | 0 <= k < |digits| ensures digits[k] < 128 as char {
      assert IsDigit(digits[k]);
    }
  }

  /** The store wants IDs of one length: names have 16 characters below 10^7, and the encoded IDs
      have 24 characters exactly below 10^9. */
  lemma {:induction false} BlockIdLength(i: nat)
    ensures |BlockName(i)| == 16 <==> i < 10_000_000
    ensures |BlockId(i)| == 24 <==> i < 1_000_000_000
  {
    PaddedLength(i, 7);
    PrintLength(i, 7);
    PrintLength(i, 9);
    PowersOfTen();
    EncodedLength(Ascii(BlockName(i)));
  }

  lemma PowersOfTen()
    ensures Pow10(7) == 10_000_000 && Pow10(9) == 1_000_000_000
  {
    assert Pow10(3) == 1000;
    assert Pow10(6) == 1_000_000;
    assert Pow10(8) == 100_000_000;
  }
}
