/** The SSH wire encodings of section 5 of RFC 4251. */
module SshWire {
  import opened Wrappers
  import opened Bytes

  const LENGTH_LIMIT := 0x1_0000_0000

  function SshString(bs: bytes): (s: bytes) {
    UInt32(|bs|) + bs
  }

  function SshMpint(bs: bytes): bytes {
    SshString(Unsigned(bs))
  }

  /** Read a length-prefixed string off the front. */
  function ReadString(s: bytes): (r: Option<(bytes, bytes)>)
    ensures r.Some? ==> |r.value.1| < |s|
  {
    if |s| < 4 then None
    else
      var n := Value(s[..4]);
      if |s| - 4 < n then None else Some((s[4..4 + n], s[4 + n..]))
  }

  lemma ReadSshString(bs: bytes, rest: bytes)
    requires |bs| < LENGTH_LIMIT
    ensures ReadString(SshString(bs) + rest) == Some((bs, rest))
  {
    ValueOfUInt32(|bs|);
    var s := SshString(bs) + rest;
    assert s[..4] == UInt32(|bs|);
    assert s[4..] == bs + rest;
    assert s[4..4 + |bs|] == bs && s[4 + |bs|..] == rest;
  }

  /** Section 5: zero has no bytes, and no byte may only repeat the sign. */
  predicate IsMinimalMpint(bs: bytes) {
    NoRedundantByte(bs) && bs != [0]
  }

  function ReadMpint(s: bytes): Option<(int, bytes)> {
    var r := ReadString(s);
    if r.None? || !IsMinimalMpint(r.value.0) then None else Some((SignedValue(r.value.0), r.value.1))
  }

  /** A strict reader gets the number back exactly when the bytes are not a
      spelled-out zero: zero bytes are written as one zero byte, which the
      standard forbids. */
  lemma ReadSshMpintIff(bs: bytes, rest: bytes)
    requires |bs| + 1 < LENGTH_LIMIT
    ensures ReadMpint(SshMpint(bs) + rest)
         == if bs == [] || Value(bs) > 0 then Some((Value(bs) as int, rest)) else None
  {
    TrimmedKeepsValue(bs);
    UnsignedHasNoRedundantByte(bs);
    UnsignedKeepsValue(bs);
    ReadSshString(Unsigned(bs), rest);
  }

  /** Zero given as one byte is written as one byte, and refused. */
  lemma ZeroMpintIsRefused()
    ensures SshMpint([0]) == [0, 0, 0, 1, 0] && ReadMpint(SshMpint([0])) == None
  {
    assert Trimmed([0]) == [0] && Unsigned([0]) == [0];
    assert UInt32(1) == [0, 0, 0, 1];
    assert Value([0]) == 0 by {
      assert [0][..0] == [];
    }
    hide Trimmed, Unsigned, UInt32, ReadMpint;
    ReadSshMpintIff([0], []);
    assert SshMpint([0]) + [] == SshMpint([0]);
  }
}
