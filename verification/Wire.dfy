/** The 16-byte datagram header: codec, flag bits and validation. */
module Wire {
  import opened Prelude

  const HEADER_SIZE: nat := 16
  const MAX_PTS_OFFSET_US: nat := 0x00FF_FFFF

  const FLAG_KEYFRAME: u8 := 1
  const FLAG_FIRST_FRAG: u8 := 2
  const FLAG_LAST_FRAG: u8 := 4

  datatype FrameError =
    | BufferTooShort(expected: nat, got: nat)
    | PtsOffsetOverflow(pts: nat)
    | InvalidFragmentBounds(fragId: nat, fragTotal: nat)
    | FragmentTotalMismatch(frameId: nat, expectedTotal: nat, gotTotal: nat)
    | DuplicateFragment(dupFrame: nat, dupFrag: nat)
    | WindowOverflow(overflowFrame: nat)

  datatype Result<+T> = Ok(value: T) | Err(error: FrameError)

  datatype Header = Header(frameId: u64, fragId: u16, fragTotal: u16, flags: u8, pts: u32)

  /** Whether the single-bit `mask` is set in `bits`. */
  predicate HasFlag(bits: u8, mask: u8)
    requires mask in {FLAG_KEYFRAME, FLAG_FIRST_FRAG, FLAG_LAST_FRAG}
  {
    (bits / mask) % 2 == 1
  }

  predicate IsKeyframe(h: Header) { HasFlag(h.flags, FLAG_KEYFRAME) }
  predicate IsFirst(h: Header) { HasFlag(h.flags, FLAG_FIRST_FRAG) }
  predicate IsLast(h: Header) { HasFlag(h.flags, FLAG_LAST_FRAG) }

  /** The flag byte the sender builds: each bit set independently. */
  function FlagBits(key: bool, first: bool, last: bool): (bits: u8)
    ensures HasFlag(bits, FLAG_KEYFRAME) == key
    ensures HasFlag(bits, FLAG_FIRST_FRAG) == first
    ensures HasFlag(bits, FLAG_LAST_FRAG) == last
  {
    (if key then 1 else 0) + (if first then 2 else 0) + (if last then 4 else 0)
  }

  /** Index bounds and first/last flag consistency of a received header. */
  function Validate(h: Header): (r: Result<()>)
    ensures r.Ok? <==> h.fragId < h.fragTotal
                       && (IsFirst(h) <==> h.fragId == 0)
                       && (IsLast(h) <==> h.fragId + 1 == h.fragTotal)
    ensures r.Err? ==> r.error == InvalidFragmentBounds(h.fragId, h.fragTotal)
  {
    if h.fragTotal == 0 || h.fragId >= h.fragTotal then
      Err(InvalidFragmentBounds(h.fragId, h.fragTotal))
    else if IsFirst(h) != (h.fragId == 0) then
      Err(InvalidFragmentBounds(h.fragId, h.fragTotal))
    else if IsLast(h) != (h.fragId == h.fragTotal - 1) then
      Err(InvalidFragmentBounds(h.fragId, h.fragTotal))
    else
      Ok(())
  }

  function Pow256(n: nat): (p: nat)
    ensures p > 0
  {
    if n == 0 then 1 else 256 * Pow256(n - 1)
  }

  /** The `n` little-endian bytes of `v`. */
  function LittleEndian(v: nat, n: nat): (b: Bytes)
    ensures |b| == n
  {
    if n == 0 then [] else [v % 256] + LittleEndian(v / 256, n - 1)
  }

  function FromLittleEndian(b: Bytes): (v: nat)
    ensures v < Pow256(|b|)
  {
    if b == [] then 0 else b[0] + 256 * FromLittleEndian(b[1..])
  }

  lemma {:induction false} LittleEndianDecodes(v: nat, n: nat)
    requires v < Pow256(n)
    ensures FromLittleEndian(LittleEndian(v, n)) == v
  {
    if n > 0 {
      LittleEndianDecodes(v / 256, n - 1);
      assert LittleEndian(v, n)[1..] == LittleEndian(v / 256, n - 1);
    }
  }

  lemma {:induction false} LittleEndianEncodes(b: Bytes)
    ensures LittleEndian(FromLittleEndian(b), |b|) == b
  {
    if b != [] {
      LittleEndianEncodes(b[1..]);
      var v := FromLittleEndian(b);
      assert v % 256 == b[0] && v / 256 == FromLittleEndian(b[1..]);
    }
  }

  lemma {:induction false} WireWidths()
    ensures Pow256(2) == 0x1_0000
    ensures Pow256(3) == 0x100_0000
    ensures Pow256(8) == 0x1_0000_0000_0000_0000
  {
    assert Pow256(1) == 256;
    assert Pow256(2) == 256 * Pow256(1);
    assert Pow256(3) == 256 * Pow256(2);
    assert Pow256(4) == 256 * Pow256(3);
    assert Pow256(5) == 256 * Pow256(4);
    assert Pow256(6) == 256 * Pow256(5);
    assert Pow256(7) == 256 * Pow256(6);
    assert Pow256(8) == 256 * Pow256(7);
  }

  /** The 16 wire bytes of a header, field after field, little-endian. */
  function HeaderBytes(h: Header): (b: Bytes)
    ensures |b| == HEADER_SIZE
  {
    LittleEndian(h.frameId, 8) + LittleEndian(h.fragId, 2) + LittleEndian(h.fragTotal, 2)
    + [h.flags] + LittleEndian(h.pts, 3)
  }

  /** Reads a header back from the first 16 bytes of a datagram. */
  function Decode(buf: Bytes): (r: Result<Header>)
    ensures r.Ok? <==> |buf| >= HEADER_SIZE
    ensures r.Ok? ==> r.value.pts <= MAX_PTS_OFFSET_US
    ensures r.Err? ==> r.error == BufferTooShort(HEADER_SIZE, |buf|)
  {
    if |buf| < HEADER_SIZE then Err(BufferTooShort(HEADER_SIZE, |buf|)) else
    WireWidths();
    Ok(Header(FromLittleEndian(buf[0..8]), FromLittleEndian(buf[8..10]), FromLittleEndian(buf[10..12]),
              buf[12], buf[13] as int + buf[14] as int * 0x100 + buf[15] as int * 0x1_0000))
  }

  /**
   * Writes a header into the front of `out`. On either error the buffer is left as it was; on
   * success exactly the first 16 bytes change.
   */
  method Encode(h: Header, out: array<u8>) returns (r: Result<()>)
    modifies out
    ensures out.Length < HEADER_SIZE ==> r == Err(BufferTooShort(HEADER_SIZE, out.Length))
    ensures out.Length >= HEADER_SIZE && h.pts > MAX_PTS_OFFSET_US ==> r == Err(PtsOffsetOverflow(h.pts))
    ensures out.Length >= HEADER_SIZE && h.pts <= MAX_PTS_OFFSET_US ==> r.Ok?
    ensures r.Err? ==> out[..] == old(out[..])
    ensures r.Ok? ==> out[..] == HeaderBytes(h) + old(out[HEADER_SIZE..])
  {
    if out.Length < HEADER_SIZE {
      return Err(BufferTooShort(HEADER_SIZE, out.Length));
    }
    if h.pts > MAX_PTS_OFFSET_US {
      return Err(PtsOffsetOverflow(h.pts));
    }
    ghost var was := out[..];
    CopyInto(out, 0, LittleEndian(h.frameId, 8));
    CopyInto(out, 8, LittleEndian(h.fragId, 2));
    CopyInto(out, 10, LittleEndian(h.fragTotal, 2));
    out[12] := h.flags;
    CopyInto(out, 13, LittleEndian(h.pts, 3));
    assert out[0..8] == LittleEndian(h.frameId, 8);
    assert out[8..10] == LittleEndian(h.fragId, 2);
    assert out[10..12] == LittleEndian(h.fragTotal, 2);
    assert out[13..16] == LittleEndian(h.pts, 3);
    assert out[..] == out[0..8] + out[8..10] + out[10..12] + [out[12]] + out[13..16] + out[16..];
    assert out[16..] == was[16..];
    assert was[16..] == old(out[HEADER_SIZE..]);
    return Ok(());
  }

  /** `copy_from_slice` at an offset. */
  method CopyInto(out: array<u8>, at: nat, src: Bytes)
    requires at + |src| <= out.Length
    modifies out
    ensures out[..] == old(out[..at]) + src + old(out[at + |src|..])
    ensures out[at..at + |src|] == src
    ensures forall i :: 0 <= i < out.Length && !(at <= i < at + |src|) ==> out[i] == old(out[i])
  {
    forall i | 0 <= i < |src| {
      out[at + i] := src[i];
    }
  }

  /** Every header whose timestamp fits the wire comes back unchanged, whatever follows it. */
  lemma {:induction false} DecodeAfterEncode(h: Header, payload: Bytes)
    requires h.pts <= MAX_PTS_OFFSET_US
    ensures Decode(HeaderBytes(h) + payload) == Ok(h)
    ensures (HeaderBytes(h) + payload)[HEADER_SIZE..] == payload
  {
    WireWidths();
    var buf := HeaderBytes(h) + payload;
    assert buf[0..8] == LittleEndian(h.frameId, 8);
    assert buf[8..10] == LittleEndian(h.fragId, 2);
    assert buf[10..12] == LittleEndian(h.fragTotal, 2);
    assert buf[12] == h.flags;
    assert buf[13..16] == LittleEndian(h.pts, 3);
    LittleEndianDecodes(h.frameId, 8);
    LittleEndianDecodes(h.fragId, 2);
    LittleEndianDecodes(h.fragTotal, 2);
    LittleEndianDecodes(h.pts, 3);
    ThreeBytes(buf[13..16]);
  }

  /** Every 16-byte buffer is the encoding of the header it decodes to. */
  lemma {:induction false} EncodeAfterDecode(buf: Bytes)
    requires |buf| == HEADER_SIZE
    ensures Decode(buf).Ok? && HeaderBytes(Decode(buf).value) == buf
  {
    WireWidths();
    LittleEndianEncodes(buf[0..8]);
    LittleEndianEncodes(buf[8..10]);
    LittleEndianEncodes(buf[10..12]);
    LittleEndianEncodes(buf[13..16]);
    ThreeBytes(buf[13..16]);
    assert buf == buf[0..8] + buf[8..10] + buf[10..12] + [buf[12]] + buf[13..16];
  }

  /**
   * Where each field lies on the wire, lowest byte first: the frame id in bytes 0 to 7, the fragment index in 8
   * and 9, the total in 10 and 11, the flags in 12 and the timestamp in 13 to 15.
   */
  lemma {:induction false} Layout(h: Header)
    requires h.pts <= MAX_PTS_OFFSET_US
    ensures var b := HeaderBytes(h);
            && |b| == 16
            && h.frameId == Digits(b[0], b[1], b[2], b[3]) + 0x1_0000_0000 * Digits(b[4], b[5], b[6], b[7])
            && h.fragId == b[8] as int + 0x100 * b[9] as int && h.fragTotal == b[10] as int + 0x100 * b[11] as int
            && h.flags == b[12] && h.pts == Digits(b[13], b[14], b[15], 0)
            && (IsKeyframe(h) <==> b[12] % 2 == 1) && (IsFirst(h) <==> b[12] / 2 % 2 == 1)
            && (IsLast(h) <==> b[12] / 4 % 2 == 1)
  {
    DecodeAfterEncode(h, []);
    var b := HeaderBytes(h);
    assert b + [] == b;
    TwoBytes(b[8..10]);
    TwoBytes(b[10..12]);
    EightBytes(b[0..8]);
  }

  function Digits(a: u8, b: u8, c: u8, d: u8): nat {
    a as int + 0x100 * b as int + 0x1_0000 * c as int + 0x100_0000 * d as int
  }

  lemma {:induction false} TwoBytes(b: Bytes)
    requires |b| == 2
    ensures FromLittleEndian(b) == b[0] as int + 0x100 * b[1] as int
  {
    assert b[1..][1..] == [];
    assert FromLittleEndian(b[1..]) == b[1];
  }

  lemma {:induction false} FourOn(b: Bytes)
    requires |b| >= 4
    ensures FromLittleEndian(b) == Digits(b[0], b[1], b[2], b[3]) + 0x1_0000_0000 * FromLittleEndian(b[4..])
  {
    assert b[1..][1..] == b[2..] && b[2..][1..] == b[3..] && b[3..][1..] == b[4..];
    assert FromLittleEndian(b[3..]) == b[3] as int + 256 * FromLittleEndian(b[4..]);
    assert FromLittleEndian(b[2..]) == b[2] as int + 256 * FromLittleEndian(b[3..]);
    assert FromLittleEndian(b[1..]) == b[1] as int + 256 * FromLittleEndian(b[2..]);
  }

  lemma {:induction false} EightBytes(b: Bytes)
    requires |b| == 8
    ensures FromLittleEndian(b) == Digits(b[0], b[1], b[2], b[3]) + 0x1_0000_0000 * Digits(b[4], b[5], b[6], b[7])
  {
    FourOn(b);
    FourOn(b[4..]);
    assert b[4..][4..] == [];
  }

  lemma {:induction false} ThreeBytes(b: Bytes)
    requires |b| == 3
    ensures FromLittleEndian(b) == b[0] as int + b[1] as int * 0x100 + b[2] as int * 0x1_0000
  {
    assert b[1..][1..] == b[2..] && b[2..][1..] == [];
    assert FromLittleEndian(b[2..]) == b[2];
    assert FromLittleEndian(b[1..]) == b[1] as int + 256 * b[2] as int;
  }
}
