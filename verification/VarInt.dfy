/**
 VarInt framing (src/types.rs). The library codec behind it is unsigned LEB128 of the
 32-bit two's-complement pattern (DWARF 5, section 7.6).
 */
module VarInt {
  import opened Base

  datatype Reading = Read(len: nat, value: I32) | Malformed

  function Pattern(i: I32): nat {
    if i < 0 then i + 0x1_0000_0000 else i
  }

  function Groups(u: nat): (bs: seq<Byte>) {
    if u < 128 then [u] else [u % 128 + 128] + Groups(u / 128)
  }

  function Encode(i: I32): seq<Byte> {
    Groups(Pattern(i))
  }

  /** The number whose base-128 digits are the low seven bits of `bs`, least significant first. */
  function Value(bs: seq<Byte>): nat {
    if bs == [] then 0 else bs[0] % 128 + 128 * Value(bs[1..])
  }

  /** How many bytes precede the first one without a continuation bit. */
  function Continuations(buf: seq<Byte>): (n: nat)
    ensures n <= |buf|
    ensures forall k :: 0 <= k < n ==> buf[k] >= 128
    ensures n < |buf| ==> buf[n] < 128
  {
    if buf == [] || buf[0] < 128 then 0 else 1 + Continuations(buf[1..])
  }

  /** What `read_var_int` returns. */
  function Parse(buf: seq<Byte>): Reading {
    var n := Continuations(buf) + 1;
    if n <= 5 && n <= |buf| then Read(n, AsI32(Value(buf[..n]))) else Malformed
  }

  // ----- the two functions of the source -----

  method ReadVarInt(buf: seq<Byte>) returns (r: Reading)
    ensures r == Parse(buf)
  {
    for len := 1 to (if |buf| < 5 then |buf| else 5) + 1
      invariant forall k :: 0 <= k < len - 1 ==> buf[k] >= 128
    {
      if buf[len - 1] >= 128 {
        continue;
      }
      return Read(len, AsI32(Value(buf[..len])));
    }
    return Malformed;
  }

  method EncodeVarInt(i: I32) returns (buf: seq<Byte>)
    ensures buf == Encode(i)
  {
    var u := Pattern(i);
    buf := [];
    while u >= 128
      invariant buf + Groups(u) == Encode(i)
      decreases u
    {
      Associate(buf, [u % 128 + 128], Groups(u / 128));
      buf := buf + [u % 128 + 128];
      u := u / 128;
    }
    buf := buf + [u];
  }

  // ----- laws -----

  lemma {:induction false} GroupsShape(u: nat)
    ensures var bs := Groups(u);
            && |bs| > 0 && bs[|bs| - 1] < 128 && Value(bs) == u
            && forall k :: 0 <= k < |bs| - 1 ==> bs[k] >= 128
  {
    if u >= 128 {
      GroupsShape(u / 128);
      assert Groups(u)[1..] == Groups(u / 128);
    }
  }

  /** The size of an encoding is decided by the magnitude of the 32-bit pattern. */
  lemma GroupsSize(u: nat)
    requires u < 0x1_0000_0000
    ensures |Groups(u)| ==
            if u < 128 then 1
            else if u < 16384 then 2
            else if u < 2097152 then 3
            else if u < 268435456 then 4 else 5
  {
  }

  lemma EncodeSize(i: I32)
    ensures 1 <= |Encode(i)| <= 5
    ensures |Encode(i)| <= 2 <==> 0 <= i < 16384
  {
    GroupsSize(Pattern(i));
  }

  /** Decoding inverts encoding for every i32, whatever bytes follow. */
  lemma RoundTrip(i: I32, suffix: seq<Byte>)
    ensures Parse(Encode(i) + suffix) == Read(|Encode(i)|, i)
    ensures 1 <= |Encode(i)| <= 5
  {
    var bs := Encode(i);
    GroupsShape(Pattern(i));
    EncodeSize(i);
    var n := Continuations(bs + suffix);
    assert n == |bs| - 1 by {
      assert (bs + suffix)[|bs| - 1] < 128;
      assert forall k :: 0 <= k < |bs| - 1 ==> (bs + suffix)[k] == bs[k];
    }
    assert (bs + suffix)[..|bs|] == bs;
  }

  /** No encoding starts another one, so the split of a stream is unique. */
  lemma PrefixFree(i: I32, j: I32, s: seq<Byte>, t: seq<Byte>)
    requires Encode(i) + s == Encode(j) + t
    ensures i == j && s == t
  {
    RoundTrip(i, s);
    RoundTrip(j, t);
    assert s == (Encode(i) + s)[|Encode(i)|..] == t;
  }

  /** A successful read depends on exactly the bytes it reports consumed: no more, and no fewer. */
  lemma Locality(buf: seq<Byte>, other: seq<Byte>)
    requires Parse(buf).Read?
    requires Parse(buf).len <= |other| && other[..Parse(buf).len] == buf[..Parse(buf).len]
    ensures Parse(other) == Parse(buf)
    ensures forall m :: 0 <= m < Parse(buf).len ==> Parse(buf[..m]) == Malformed
  {
    var n := Parse(buf).len;
    assert Continuations(other) == n - 1 by {
      forall k | 0 <= k < n ensures other[k] == buf[k] {
        assert other[k] == other[..n][k] == buf[..n][k];
      }
    }
    forall m | 0 <= m < n ensures Parse(buf[..m]) == Malformed {
      assert forall k :: 0 <= k < m ==> buf[..m][k] == buf[k] >= 128;
    }
  }

  /** A proper prefix of an encoding cannot be read: this is what the two-byte wait runs into. */
  lemma ProperPrefix(i: I32, suffix: seq<Byte>, buf: seq<Byte>)
    requires |buf| < |Encode(i)| && buf <= Encode(i) + suffix
    ensures Parse(buf) == Malformed
  {
    GroupsShape(Pattern(i));
    forall k | 0 <= k < |buf| ensures buf[k] >= 128 {
      assert buf[k] == (Encode(i) + suffix)[k] == Encode(i)[k];
    }
  }

  /** The examples of unsigned LEB128 in DWARF 5, section 7.6, and the two's-complement pattern of minus one. */
  lemma KnownEncodings()
    ensures Encode(2) == [2] && Encode(127) == [127]
    ensures Encode(128) == [0x80, 1] && Encode(129) == [0x81, 1] && Encode(12857) == [0xB9, 0x64]
    ensures Encode(-1) == [0xFF, 0xFF, 0xFF, 0xFF, 0x0F]
  {
    assert Groups(0xFFFF_FFFF) == [0xFF, 0xFF, 0xFF, 0xFF, 0x0F] by {
      assert Groups(0xF) == [0xF];
      assert Groups(0x7FF) == [0xFF] + Groups(0xF);
      assert Groups(0x3_FFFF) == [0xFF] + Groups(0x7FF);
      assert Groups(0x1FF_FFFF) == [0xFF] + Groups(0x3_FFFF);
      assert Groups(0xFFFF_FFFF) == [0xFF] + Groups(0x1FF_FFFF);
    }
  }

  /** What can be read: one of the first five bytes has no continuation bit, and the first such byte is the last. */
  lemma ReadableIff(buf: seq<Byte>)
    ensures Parse(buf).Read? <==> exists n :: 0 <= n < 5 && n < |buf| && buf[n] < 128
    ensures Parse(buf).Read? ==>
              var n := Parse(buf).len - 1;
              0 <= n < 5 && n < |buf| && buf[n] < 128 && forall k :: 0 <= k < n ==> buf[k] >= 128
  {
  }
}
