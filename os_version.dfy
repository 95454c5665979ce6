/** Decoding of the packed DeviceFamilyVersion value into the
    "major.minor" systemVersion string. The 64-bit value holds four 16-bit
    fields, most significant first: major, minor, build, revision. */
module OsVersion {
  import opened Wrappers
  import opened Text

  /** Bits 48..63 of the packed value: `(v & 0xFFFF000000000000) >> 48`. */
  function MajorField(v: bv64): bv16
  {
    ((v & 0xFFFF_0000_0000_0000) >> 48) as bv16
  }

  /** Bits 32..47 of the packed value: `(v & 0x0000FFFF00000000) >> 32`. */
  function MinorField(v: bv64): bv16
  {
    ((v & 0x0000_FFFF_0000_0000) >> 32) as bv16
  }

  /** The decoded major version: always a 16-bit number. */
  function Major(v: bv64): (m: nat)
    ensures m < 0x1_0000
  {
    MajorField(v) as nat
  }

  /** The decoded minor version: always a 16-bit number. */
  function Minor(v: bv64): (m: nat)
    ensures m < 0x1_0000
  {
    MinorField(v) as nat
  }

  /** The packed layout: `major` in the top 16 bits, `minor` in the next 16
      and the build and revision fields together in the low 32. */
  function Pack(major: bv16, minor: bv16, low: bv32): bv64
  {
    (major as bv64 << 48) | (minor as bv64 << 32) | low as bv64
  }

  /** Decoding undoes packing: the two fields come back unchanged, whatever
      the low 32 bits hold. */
  lemma DecodePacked(major: bv16, minor: bv16, low: bv32)
    ensures Major(Pack(major, minor, low)) == major as nat
    ensures Minor(Pack(major, minor, low)) == minor as nat
  {
    assert MajorField(Pack(major, minor, low)) == major;
    assert MinorField(Pack(major, minor, low)) == minor;
  }

  /** Every packed value is the packing of its own decoded fields and its
      low 32 bits: no bit is lost or invented by the layout. */
  lemma PackDecoded(v: bv64)
    ensures v == Pack(MajorField(v), MinorField(v), (v & 0xFFFF_FFFF) as bv32)
  {
  }

  /** The build and revision fields (the low 32 bits) never affect the
      decoded major and minor. */
  lemma LowBitsIgnored(v: bv64, w: bv64)
    requires v >> 32 == w >> 32
    ensures Major(v) == Major(w) && Minor(v) == Minor(w)
  {
    assert MajorField(v) == MajorField(w);
    assert MinorField(v) == MinorField(w);
  }

  /** The systemVersion string `$"{major}.{minor}"`: the two decoded fields
      as canonical numerals joined by a dot, so reading it back as a dotted
      version yields exactly those fields. */
  function FormatOsVersion(v: bv64): (s: string)
    ensures s == JoinDotted([Major(v), Minor(v)])
    ensures ParseDotted(s) == Some([Major(v), Minor(v)])
  {
    JoinDottedCons(Major(v), [Minor(v)]);
    assert [Major(v)] + [Minor(v)] == [Major(v), Minor(v)];
    JoinDottedRoundTrip([Major(v), Minor(v)]);
    Decimal(Major(v)) + "." + Decimal(Minor(v))
  }

  /** Windows 10, build 19041, revision 1: DeviceFamilyVersion
      2814751014977537 renders as "10.0". */
  lemma FormatOsVersionExample()
    ensures FormatOsVersion(0x000A_0000_4A61_0001) == "10.0"
  {
    var v: bv64 := 0x000A_0000_4A61_0001;
    assert MajorField(v) == 10;
    assert MinorField(v) == 0;
  }
}
