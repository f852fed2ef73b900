/** Texts and byte strings written out, so that no encoder is measured by its own decoder alone. */
module KnownAnswers {
  import opened Bytes
  import opened Wrappers
  import opened Joining
  import Utf8
  import Base64
  import Decimals
  import Ustar
  import HashDescriptor
  import ConnectStream
  import opened CleanupHandle

  /** Section 10 of RFC 4648: "f", "fo", "foo" and "foobar". */
  lemma Base64Vectors()
    ensures Base64.Encode([102]) == [90, 103, 61, 61]
    ensures Base64.Encode([102, 111]) == [90, 109, 56, 61]
    ensures Base64.Encode([102, 111, 111]) == [90, 109, 57, 118]
  {
  }

  lemma Base64LongVector()
    ensures Base64.Encode([102, 111, 111, 98, 97, 114]) == [90, 109, 57, 118, 89, 109, 70, 121]
  {
    Base64Vectors();
    var all := [102, 111, 111, 98, 97, 114];
    assert all[..3] == [102, 111, 111] && all[3..] == [98, 97, 114];
    LastQuantum();
    assert Base64.Encode(all) == Base64.Quantum(all[..3]) + Base64.Encode(all[3..]);
  }

  lemma LastQuantum()
    ensures Base64.Encode([98, 97, 114]) == [89, 109, 70, 121]
  {
  }

  /** Section 7 of RFC 3629: one character of each length. */
  lemma Utf8Examples()
    ensures Utf8.EncodeScalar(0x41) == [0x41] && Utf8.EncodeScalar(0x391) == [0xce, 0x91]
    ensures Utf8.EncodeScalar(0x2262) == [0xe2, 0x89, 0xa2] && Utf8.EncodeScalar(0xd55c) == [0xed, 0x95, 0x9c]
    ensures Utf8.EncodeScalar(0x233b4) == [0xf0, 0xa3, 0x8e, 0xb4]
  {
  }

  /** Two digits for each byte, the high one first. */
  lemma HexText(first: Byte, rest: seq<Byte>)
    ensures HashDescriptor.Hex([]) == ""
    ensures HashDescriptor.Hex([first] + rest) ==
            ["0123456789abcdef"[first / 16], "0123456789abcdef"[first % 16]] + HashDescriptor.Hex(rest)
  {
    assert ([first] + rest)[1..] == rest;
  }

  lemma DigitsText()
    ensures Decimals.Digits(0) == "0" && Decimals.Digits(1024) == "1024"
  {
    assert Decimals.Digits(1) == "1";
    assert Decimals.Digits(10) == "10";
    assert Decimals.Digits(102) == "102";
  }

  /** The mode 0444: a leading zero, six digits and a NUL. */
  lemma OctalText()
    ensures Ustar.OctalField(8, 0x124) == [48, 48, 48, 48, 52, 52, 52, 0]
  {
    assert Ustar.OctalDigits(0, 3) == [48, 48, 48] by {
      assert Ustar.OctalDigits(0, 1) == [48];
      assert Ustar.OctalDigits(0, 2) == [48, 48];
    }
    assert Ustar.OctalDigits(4, 4) == [48, 48, 48, 52];
    assert Ustar.OctalDigits(36, 5) == [48, 48, 48, 52, 52];
    assert Ustar.OctalDigits(0x124, 6) == [48, 48, 48, 52, 52, 52];
  }

  /** The length of an envelope, most significant byte first. */
  lemma EnvelopeHeader(flag: Byte, payload: seq<Byte>)
    requires |payload| == 0x0102_0304
    ensures ConnectStream.Envelope(flag, payload)[..5] == [flag, 1, 2, 3, 4]
  {
  }

  /** A retention handle, written out. */
  lemma HandleText(a: string, b: string, lease: string)
    ensures
      WithLease(VmHandle([a, b]), false, lease) ==
      Some("aen-cleanup:aen-vms:" + Opaque(a) + "," + Opaque(b) + "|aen-lease:" + Opaque(lease))
    ensures WithLease(VmHandle([a]), true, lease) == Some("aen-vms:" + Opaque(a))
    ensures WithLease(VmHandle([]), false, lease) == Some("aen-lease:" + Opaque(lease))
  {
    hide Opaque;
    var x, y, l := Opaque(a), Opaque(b), Opaque(lease);
    assert Rendered([a]) == [x] && Rendered([a, b]) == [x, y];
    TwoJoined(x, y);
    assert VmHandle([a, b]) == Some("aen-vms:" + (x + "," + y));
    HandleParts("aen-cleanup:", "aen-vms:", x, ",", y, "|", "aen-lease:", l);
    assert "aen-cleanup:" + "aen-vms:" == "aen-cleanup:aen-vms:" && "|" + "aen-lease:" == "|aen-lease:";
  }

  lemma TwoJoined(x: string, y: string)
    ensures Join([x, y], ",") == x + "," + y
  {
    assert [x, y][1..] == [y];
    assert Join([y], ",") == y;
  }

  lemma HandleParts(
    a: string, b: string, c: string, d: string, e: string, f: string, g: string, h: string)
    ensures a + (b + (c + d + e)) + f + (g + h) == (a + b) + c + d + e + (f + g) + h
  {
  }
}
