/** The host's side of a frame: cutting it into datagrams, and choosing what to keep of a backlog. */
module Sender {
  import opened Prelude
  import opened Wire
  import opened Fragments

  /** Fragment payload used when the caller names none. */
  const DEFAULT_MAX_PAYLOAD_SIZE: nat := 1150

  datatype EncodedFrame = EncodedFrame(id: u64, isKey: bool, data: Bytes, ptsNs: int)

  datatype Sent = Datagrams(datagrams: seq<Bytes>) | TooManyFragments(count: nat)

  function ChunkSize(maxPayload: nat): (c: nat)
    ensures c > 0
  {
    if maxPayload == 0 then DEFAULT_MAX_PAYLOAD_SIZE else maxPayload
  }

  /** The frame's data in pieces of `c` bytes, the last one shorter; an empty frame is one empty piece. */
  function Chunks(data: Bytes, c: nat): (parts: seq<Bytes>)
    requires c > 0
    ensures |parts| > 0
  {
    if |data| <= c then [data] else [data[..c]] + Chunks(data[c..], c)
  }

  /** The presentation time on the wire: microseconds, clamped at zero, wrapped to 24 bits. */
  function WirePts(ptsNs: int): (p: nat)
    ensures p <= MAX_PTS_OFFSET_US
  {
    (Max(ptsNs, 0) / 1000) % (MAX_PTS_OFFSET_US + 1)
  }

  /** How many microseconds the 24 bits of a wire time count before they start again: about 16.7 s. */
  const WRAP := 0x100_0000

  /** A frame's capture time in whole microseconds; times before zero count as zero. */
  function Micros(ptsNs: int): nat { if ptsNs < 0 then 0 else ptsNs / 1000 }

  /** A time before zero goes out as 0; any other as its microseconds less some number of wraps. */
  lemma {:induction false} WirePtsIs(ptsNs: int) returns (k: nat)
    ensures WirePts(ptsNs) < WRAP && (ptsNs < 0 ==> WirePts(ptsNs) == 0)
    ensures ptsNs >= 0 ==> 1000 * (WirePts(ptsNs) + k * WRAP) <= ptsNs < 1000 * (WirePts(ptsNs) + k * WRAP + 1)
    ensures Micros(ptsNs) == WirePts(ptsNs) + k * WRAP
  {
    k := Micros(ptsNs) / WRAP;
  }

  /** The time at or after `last` that goes out as `p`. */
  function Unwrapped(last: nat, p: nat): nat { last + (p - last) % WRAP }

  /** Two capture times differ by what their wire times do, modulo the wrap. */
  lemma {:induction false} WireDifference(a: int, b: int)
    ensures (WirePts(b) - WirePts(a)) % WRAP == (Micros(b) - Micros(a)) % WRAP
  {
    var j: int := WirePtsIs(a);
    var k: int := WirePtsIs(b);
    Congruent(WirePts(b) - WirePts(a), Micros(b) - Micros(a), k - j);
  }

  lemma {:induction false} Congruent(x: int, y: int, k: int)
    requires y == x + k * WRAP
    ensures x % WRAP == y % WRAP
  {
  }

  /** So a receiver that knows a time less than a wrap earlier recovers every capture time. */
  lemma {:induction false} WireTimeIsRecovered(last: nat, ptsNs: int)
    requires last <= Micros(ptsNs) < last + WRAP
    ensures Unwrapped(last, WirePts(ptsNs)) == Micros(ptsNs)
  {
    var k := WirePtsIs(ptsNs);
    Congruent(WirePts(ptsNs) - last, Micros(ptsNs) - last, k);
  }

  function HeaderFor(f: EncodedFrame, i: nat, total: nat): Header
    requires i < total < 0x1_0000
  {
    Header(f.id, i, total, FlagBits(f.isKey, i == 0, i == total - 1), WirePts(f.ptsNs))
  }

  /** The datagrams a frame goes out as. */
  function DatagramsOf(f: EncodedFrame, c: nat): (ds: seq<Bytes>)
    requires c > 0 && |Chunks(f.data, c)| < 0x1_0000
    ensures |ds| == |Chunks(f.data, c)|
  {
    var parts := Chunks(f.data, c);
    seq(|parts|, i requires 0 <= i < |parts| => HeaderBytes(HeaderFor(f, i, |parts|)) + parts[i])
  }

  /** The frame a receiver should hand to the decoder. */
  function Original(f: EncodedFrame): Frame {
    Frame(f.id, f.isKey, WirePts(f.ptsNs), f.data)
  }

  /** The pieces hold the whole frame, in order. */
  lemma {:induction false} ChunksJoin(data: Bytes, c: nat)
    requires c > 0
    ensures Concat(Chunks(data, c)) == data
  {
    if |data| <= c {
      assert Concat([data]) == data + Concat([data][1..]);
    } else {
      ChunksJoin(data[c..], c);
      var rest := Chunks(data[c..], c);
      assert ([data[..c]] + rest)[1..] == rest;
      assert data == data[..c] + data[c..];
    }
  }

  /** There are as many pieces as the length divided by the piece size, rounded up, and at least one. */
  lemma {:induction false} ChunksCount(data: Bytes, c: nat)
    requires c > 0
    ensures |Chunks(data, c)| == if data == [] then 1 else (|data| + c - 1) / c
  {
    if |data| > c {
      ChunksCount(data[c..], c);
      DivStep(|data| - 1, c);
      assert |data| + c - 1 == (|data| - 1) + c && |data[c..]| + c - 1 == |data| - 1;
    } else if data != [] {
      DivOnce(|data| - 1, c);
    }
  }

  lemma {:induction false} Quotient(x: nat, c: nat, q: nat, r: nat)
    requires r < c && x == q * c + r
    ensures x / c == q
  {
    var p := x / c;
    if p < q { Multiply(p, q, c); }
    if q < p { Multiply(q, p, c); }
  }

  lemma {:induction false} DivStep(x: nat, c: nat)
    requires c > 0
    ensures (x + c) / c == x / c + 1
  {
    var q, r := x / c, x % c;
    assert x == q * c + r;
    assert (q + 1) * c == q * c + c;
    Quotient(x + c, c, q + 1, r);
  }

  lemma {:induction false} DivOnce(x: nat, c: nat)
    requires x < c
    ensures (x + c) / c == 1
  {
    DivStep(x, c);
  }

  lemma {:induction false} OneLess(i: nat, c: nat)
    requires i > 0
    ensures i * c == (i - 1) * c + c
  {
  }

  /** Cutting the first piece off moves every later one down by its size. */
  lemma {:induction false} PieceMoves(data: Bytes, c: nat, lo: nat)
    requires c < |data| && c <= lo <= |data|
    ensures data[c..][lo - c..Min(lo, |data| - c)] == data[lo..Min(lo + c, |data|)]
  {
  }

  lemma {:induction false} FirstChunk(data: Bytes, c: nat)
    requires c > 0
    ensures Chunks(data, c)[0] == data[0..Min(c, |data|)]
    ensures 0 < |Chunks(data, c)| - 1 <==> c < |data|
  {
    assert data[0..|data|] == data;
  }

  lemma {:induction false} RestOfChunks(data: Bytes, c: nat, i: nat)
    requires c > 0 && 0 < i < |Chunks(data, c)|
    ensures c < |data| && |Chunks(data, c)| == 1 + |Chunks(data[c..], c)|
    ensures Chunks(data, c)[i] == Chunks(data[c..], c)[i - 1]
  {
  }

  /** Piece `i` starts at `lo`, the pieces before it taking `c` each. */
  lemma {:induction false} ChunkFrom(data: Bytes, c: nat, i: nat, lo: nat)
    requires c > 0 && i < |Chunks(data, c)| && lo == i * c
    ensures lo <= |data| && Chunks(data, c)[i] == data[lo..Min(lo + c, |data|)]
    ensures i < |Chunks(data, c)| - 1 <==> lo + c < |data|
  {
    if i == 0 {
      FirstChunk(data, c);
    } else {
      RestOfChunks(data, c, i);
      OneLess(i, c);
      ChunkFrom(data[c..], c, i - 1, lo - c);
      PieceMoves(data, c, lo);
    }
  }

  /** Where a piece lies in the data. */
  lemma {:induction false} ChunkAt(data: Bytes, c: nat, i: nat)
    requires c > 0 && i < |Chunks(data, c)|
    ensures i * c <= |data| && Chunks(data, c)[i] == data[i * c..Min((i + 1) * c, |data|)]
    ensures i < |Chunks(data, c)| - 1 ==> (i + 1) * c < |data|
    ensures i == |Chunks(data, c)| - 1 ==> (i + 1) * c >= |data|
  {
    OneLess(i + 1, c);
    ChunkFrom(data, c, i, i * c);
  }

  method CountFragments(data: Bytes, c: nat) returns (n: nat)
    requires c > 0
    ensures n == |Chunks(data, c)|
  {
    ChunksCount(data, c);
    n := if |data| == 0 then 1 else (|data| + c - 1) / c;
  }

  method CutChunk(data: Bytes, c: nat, idx: nat) returns (chunk: Bytes)
    requires c > 0 && idx < |Chunks(data, c)|
    ensures chunk == Chunks(data, c)[idx]
  {
    ChunkAt(data, c, idx);
    chunk := data[idx * c..Min((idx + 1) * c, |data|)];
  }

  /** One datagram: the encoded header, then the piece. */
  method MakeDatagram(f: EncodedFrame, idx: nat, total: nat, pts: nat, chunk: Bytes) returns (d: Bytes)
    requires idx < total < 0x1_0000 && pts == WirePts(f.ptsNs)
    ensures d == HeaderBytes(HeaderFor(f, idx, total)) + chunk
  {
    var bits := FlagBits(f.isKey, idx == 0, idx == total - 1);
    var buf := new u8[HEADER_SIZE];
    var encoded := Encode(Header(f.id, idx, total, bits, pts), buf);
    assert buf[..] == HeaderBytes(HeaderFor(f, idx, total));
    d := buf[..] + chunk;
  }

  /**
   * Cuts a frame into datagrams of a 16-byte header and a piece of the data, or refuses a frame
   * whose fragment count does not fit 16 bits.
   */
  method FragmentFrame(f: EncodedFrame, maxPayload: nat) returns (r: Sent)
    ensures var parts := Chunks(f.data, ChunkSize(maxPayload));
            r == if |parts| < 0x1_0000 then Datagrams(DatagramsOf(f, ChunkSize(maxPayload))) else TooManyFragments(|parts|)
  {
    var c := ChunkSize(maxPayload);
    var total := CountFragments(f.data, c);
    if total >= 0x1_0000 {
      return TooManyFragments(total);
    }
    var pts := WirePts(f.ptsNs);
    var datagrams: seq<Bytes> := [];
    while |datagrams| < total
      invariant |datagrams| <= total == |DatagramsOf(f, c)|
      invariant datagrams == DatagramsOf(f, c)[..|datagrams|]
    {
      var chunk := CutChunk(f.data, c, |datagrams|);
      var d := MakeDatagram(f, |datagrams|, total, pts, chunk);
      assert d == DatagramsOf(f, c)[|datagrams|];
      datagrams := datagrams + [d];
    }
    return Datagrams(datagrams);
  }

  /** Every datagram of a frame parses back to its header and piece, and its header is valid. */
  lemma {:induction false} DatagramParses(f: EncodedFrame, c: nat, i: nat)
    requires c > 0 && |Chunks(f.data, c)| < 0x1_0000 && i < |Chunks(f.data, c)|
    ensures var d := DatagramsOf(f, c)[i]; var h := HeaderFor(f, i, |Chunks(f.data, c)|);
            Decode(d) == Ok(h) && d[HEADER_SIZE..] == Chunks(f.data, c)[i] && Validate(h).Ok? && IsKeyframe(h) == f.isKey
  {
    DecodeAfterEncode(HeaderFor(f, i, |Chunks(f.data, c)|), Chunks(f.data, c)[i]);
  }

  /**
   * A datagram is a header and as many bytes as the caller allows, 1150 if it names no number; the last has the
   * rest.
   */
  lemma {:induction false} DatagramSizes(f: EncodedFrame, maxPayload: nat, i: nat)
    requires |Chunks(f.data, ChunkSize(maxPayload))| < 0x1_0000 && i < |Chunks(f.data, ChunkSize(maxPayload))|
    ensures var c := if maxPayload == 0 then 1150 else maxPayload; var ds := DatagramsOf(f, ChunkSize(maxPayload));
            && i * c <= |f.data| && |ds[i]| == 16 + Min(c, |f.data| - i * c)
            && (i < |ds| - 1 ==> |ds[i]| == 16 + c) && (i > 0 ==> |ds[i]| > 16)
  {
    var c := ChunkSize(maxPayload);
    ChunkAt(f.data, c, i);
    assert (i + 1) * c == i * c + c;
    if i > 0 {
      ChunkAt(f.data, c, i - 1);
      assert i - 1 + 1 == i;
    }
  }

  /** A frame is refused exactly when it has more than 65535 such pieces. */
  lemma {:induction false} TooManyIff(data: Bytes, maxPayload: nat)
    ensures var c := if maxPayload == 0 then 1150 else maxPayload;
            |Chunks(data, ChunkSize(maxPayload))| < 0x1_0000 <==> |data| <= 65535 * c
  {
    var c := ChunkSize(maxPayload);
    var n := |Chunks(data, c)|;
    ChunkAt(data, c, n - 1);
    assert n - 1 + 1 == n;
    if n <= 65535 {
      Multiply(n, 65535, c);
    } else {
      ChunkAt(data, c, 65534);
      assert 65534 + 1 == 65535;
    }
  }

  // ---- draining a backlog ----

  /** Which of two frames to keep: a keyframe is never given up for a later non-key frame. */
  function PreferDecodable(current: EncodedFrame, fresher: EncodedFrame): EncodedFrame {
    if fresher.isKey || !current.isKey then fresher else current
  }

  /** What a drain of the backlog behind `current` keeps. */
  function Drain(current: EncodedFrame, backlog: seq<EncodedFrame>): EncodedFrame
    decreases |backlog|
  {
    if backlog == [] then current else Drain(PreferDecodable(current, backlog[0]), backlog[1..])
  }

  /** The frame a drain should keep: the last keyframe, or the last frame when there is none. */
  function Best(all: seq<EncodedFrame>): EncodedFrame
    requires all != []
  {
    var last := all[|all| - 1];
    if |all| == 1 || last.isKey then last
    else
      var earlier := Best(all[..|all| - 1]);
      if earlier.isKey then earlier else last
  }

  lemma {:induction false} DrainKeepsBest(current: EncodedFrame, backlog: seq<EncodedFrame>)
    ensures Drain(current, backlog) == Best([current] + backlog)
    decreases |backlog|
  {
    if backlog != [] {
      var next := PreferDecodable(current, backlog[0]);
      DrainKeepsBest(next, backlog[1..]);
      BestFirstTwo(current, backlog[0], backlog[1..]);
      assert [current] + backlog == [current, backlog[0]] + backlog[1..];
    }
  }

  lemma {:induction false} BestFirstTwo(a: EncodedFrame, b: EncodedFrame, rest: seq<EncodedFrame>)
    ensures Best([a, b] + rest) == Best([PreferDecodable(a, b)] + rest)
  {
    if rest == [] {
      assert [a, b] + rest == [a, b] && [a, b][..1] == [a];
      assert [PreferDecodable(a, b)] + rest == [PreferDecodable(a, b)];
    } else {
      var front := rest[..|rest| - 1];
      BestFirstTwo(a, b, front);
      assert ([a, b] + rest)[..|rest| + 1] == [a, b] + front;
      assert ([PreferDecodable(a, b)] + rest)[..|rest|] == [PreferDecodable(a, b)] + front;
    }
  }

  /** A drain keeps a keyframe exactly when it saw one, and what it keeps it saw. */
  lemma {:induction false} BestIsDecodable(all: seq<EncodedFrame>)
    requires all != []
    ensures Best(all) in all
    ensures Best(all).isKey <==> exists f :: f in all && f.isKey
  {
    var last := all[|all| - 1];
    if |all| > 1 {
      var front := all[..|all| - 1];
      BestIsDecodable(front);
      assert all == front + [last];
      assert forall f :: f in all <==> f in front || f == last;
    }
  }
}
