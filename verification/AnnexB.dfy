/** Length-prefixed NAL units to an Annex B byte stream (section B.1 of ITU-T H.264), and back. */
module AnnexB {
  import opened Prelude
  import Wire

  const START_CODE: Bytes := [0, 0, 0, 1]

  // ---- length prefixes ----

  /** `n` bytes of `v`, the highest first. */
  function BigEndian(v: nat, n: nat): (b: Bytes)
    ensures |b| == n
  {
    if n == 0 then [] else BigEndian(v / 0x100, n - 1) + [v % 0x100]
  }

  function FromBigEndian(b: Bytes): (v: nat) {
    if b == [] then 0 else FromBigEndian(b[..|b| - 1]) * 0x100 + b[|b| - 1]
  }

  lemma {:induction false} BigEndianDecodes(v: nat, n: nat)
    requires v < Wire.Pow256(n)
    ensures FromBigEndian(BigEndian(v, n)) == v
  {
    if n > 0 {
      BigEndianDecodes(v / 0x100, n - 1);
      assert BigEndian(v, n)[..n - 1] == BigEndian(v / 0x100, n - 1);
    }
  }

  lemma {:induction false} BigEndianEncodes(b: Bytes)
    ensures FromBigEndian(b) < Wire.Pow256(|b|)
    ensures BigEndian(FromBigEndian(b), |b|) == b
  {
    if b != [] {
      BigEndianEncodes(b[..|b| - 1]);
      assert b == b[..|b| - 1] + [b[|b| - 1]];
    }
  }

  lemma {:induction false} FourBytes()
    ensures Wire.Pow256(4) == 0x1_0000_0000
  {
    assert Wire.Pow256(2) == 0x1_0000;
    assert Wire.Pow256(3) == 0x100_0000;
  }

  /** A size cast to the 32 bits of a length field: what is left after casting out 2^32. */
  function Cast(n: nat): (r: u32)
    ensures r <= n
    ensures n < 0x1_0000_0000 ==> r == n
  {
    if n < 0x1_0000_0000 then n else Cast(n - 0x1_0000_0000)
  }

  /** The part of a unit that its length field covers. */
  function Fit(nal: Bytes): (b: Bytes)
    ensures |b| < 0x1_0000_0000
  {
    nal[..Cast(|nal|)]
  }

  /** One unit with its length prefix. */
  function Unit(nal: Bytes): (b: Bytes)
    ensures |b| == 4 + |Fit(nal)|
  {
    BigEndian(|Fit(nal)|, 4) + Fit(nal)
  }

  lemma {:induction false} SmallFits(nal: Bytes)
    requires |nal| < 0x1_0000_0000
    ensures Fit(nal) == nal && Unit(nal)[..4] == BigEndian(|nal|, 4) && Unit(nal)[4..] == nal
  {
    assert Fit(nal) == nal;
  }

  /** The units with their length prefixes. */
  function Prefixed(nals: seq<Bytes>): Bytes {
    if nals == [] then [] else Unit(nals[0]) + Prefixed(nals[1..])
  }

  /** No whole unit: too little for a length prefix, or for what the prefix says. */
  predicate CutShort(block: Bytes) {
    |block| < 4 || 4 + FromBigEndian(block[..4]) > |block|
  }

  function UnitBody(block: Bytes): (nal: Bytes)
    requires !CutShort(block)
    ensures |nal| == FromBigEndian(block[..4]) && 4 + |nal| <= |block|
  {
    block[4..4 + FromBigEndian(block[..4])]
  }

  function AfterUnit(block: Bytes): Bytes
    requires !CutShort(block)
  {
    block[4 + |UnitBody(block)|..]
  }

  /** The units of a block, up to the first that is cut short. */
  function Units(block: Bytes): seq<Bytes>
    decreases |block|
  {
    if CutShort(block) then [] else [UnitBody(block)] + Units(AfterUnit(block))
  }

  predicate Small(nals: seq<Bytes>) {
    forall nal :: nal in nals ==> |nal| < 0x1_0000_0000
  }

  lemma {:induction false} FirstUnit(block: Bytes)
    requires !CutShort(block)
    ensures |UnitBody(block)| < 0x1_0000_0000
    ensures block == Unit(UnitBody(block)) + AfterUnit(block)
  {
    FourBytes();
    BigEndianEncodes(block[..4]);
    SmallFits(UnitBody(block));
    assert Unit(UnitBody(block)) == block[..4] + UnitBody(block);
  }

  /** A block is its whole units, prefixed, and a remainder that holds no whole unit. */
  lemma {:induction false} BlockIsUnits(block: Bytes) returns (rest: Bytes)
    ensures block == Prefixed(Units(block)) + rest && CutShort(rest)
    ensures Small(Units(block))
    decreases |block|
  {
    if CutShort(block) {
      rest := block;
    } else {
      rest := BlockIsUnits(AfterUnit(block));
      FirstUnit(block);
      assert Units(block)[1..] == Units(AfterUnit(block));
    }
  }

  lemma {:induction false} UnitLeads(nal: Bytes, rest: Bytes)
    requires |nal| < 0x1_0000_0000
    ensures !CutShort(Unit(nal) + rest)
    ensures UnitBody(Unit(nal) + rest) == nal && AfterUnit(Unit(nal) + rest) == rest
  {
    var b := Unit(nal) + rest;
    SmallFits(nal);
    FourBytes();
    BigEndianDecodes(|nal|, 4);
    assert b[..4] == Unit(nal)[..4];
    assert b[4..4 + |nal|] == Unit(nal)[4..];
  }

  lemma {:induction false} UnitsOfPrefixed(nals: seq<Bytes>)
    requires Small(nals)
    ensures Units(Prefixed(nals)) == nals
  {
    if nals != [] {
      UnitLeads(nals[0], Prefixed(nals[1..]));
      UnitsOfPrefixed(nals[1..]);
    }
  }

  // ---- the byte stream ----

  function Stream(nals: seq<Bytes>): Bytes {
    if nals == [] then [] else START_CODE + nals[0] + Stream(nals[1..])
  }

  lemma {:induction false} StreamAppend(a: seq<Bytes>, b: seq<Bytes>)
    ensures Stream(a + b) == Stream(a) + Stream(b)
  {
    if a == [] {
      assert a + b == b;
    } else {
      assert (a + b)[1..] == a[1..] + b;
      StreamAppend(a[1..], b);
    }
  }

  /** One more unit, if the buffer has room for it. */
  function Emit(out: Bytes, nal: Bytes, capacity: nat): (r: Bytes)
    requires |out| <= capacity
    ensures |r| <= capacity
  {
    if |out| + 4 + |nal| <= capacity then out + START_CODE + nal else out
  }

  function EmitAll(out: Bytes, nals: seq<Bytes>, capacity: nat): (r: Bytes)
    requires |out| <= capacity
    ensures |r| <= capacity
    decreases |nals|
  {
    if nals == [] then out else EmitAll(Emit(out, nals[0], capacity), nals[1..], capacity)
  }

  /** With room for all of them, no unit is skipped. */
  lemma {:induction false} EmitsAll(out: Bytes, nals: seq<Bytes>, capacity: nat)
    requires |out| + |Stream(nals)| <= capacity
    ensures EmitAll(out, nals, capacity) == out + Stream(nals)
    decreases |nals|
  {
    if nals != [] {
      EmitsAll(out + START_CODE + nals[0], nals[1..], capacity);
      assert out + START_CODE + nals[0] + Stream(nals[1..]) == out + Stream(nals);
    }
  }

  datatype Codec = Hevc | H264 | Other

  /** An encoded picture as the platform hands it over; any one parameter set may be unavailable. */
  datatype Sample = Sample(codec: Codec, parameterSets: Option<seq<Option<Bytes>>>, block: Option<Bytes>, isKey: bool)

  /** How many parameter sets a keyframe carries: VPS, SPS and PPS, or SPS and PPS. */
  function Leading(codec: Codec): nat {
    match codec
    case Hevc => 3
    case H264 => 2
    case Other => 0
  }

  /** The parameter sets sent ahead of a keyframe: the leading ones that are not empty. */
  function Headers(s: Sample): seq<Bytes> {
    if !s.isKey || s.parameterSets.None? then []
    else NonEmpty(s.parameterSets.value[..Min(Leading(s.codec), |s.parameterSets.value|)])
  }

  function NonEmpty(sets: seq<Option<Bytes>>): seq<Bytes> {
    if sets == [] then [] else Present(sets[0]) + NonEmpty(sets[1..])
  }

  /** A set that the platform gives, unless it is empty. */
  function Present(o: Option<Bytes>): seq<Bytes> {
    if o.None? || o.value == [] then [] else [o.value]
  }

  /** Positions one further on, after position 0 if that is taken. */
  function After(taken: bool, later: seq<nat>): seq<nat> {
    (if taken then [0] else []) + seq(|later|, k requires 0 <= k < |later| => later[k] + 1)
  }

  predicate Ascending(at: seq<nat>) {
    forall j, k :: 0 <= j < k < |at| ==> at[j] < at[k]
  }

  lemma {:induction false} AfterHas(taken: bool, later: seq<nat>, i: nat)
    ensures i in After(taken, later) <==> if i == 0 then taken else i - 1 in later
  {
    if i > 0 && i - 1 in later {
      var k :| 0 <= k < |later| && later[k] == i - 1;
      assert After(taken, later)[|After(taken, later)| - |later| + k] == i;
    }
  }

  lemma {:induction false} AfterAscends(taken: bool, later: seq<nat>)
    requires Ascending(later)
    ensures Ascending(After(taken, later))
  {
  }

  /** The set at each position of `at` is given and not empty, and is `r` there. */
  predicate Shows(sets: seq<Option<Bytes>>, at: seq<nat>, r: seq<Bytes>) {
    |at| == |r| && forall k :: 0 <= k < |r| ==> at[k] < |sets| && sets[at[k]] == Some(r[k]) && r[k] != []
  }

  /** `r` is what of `sets` is given and not empty, in its order. */
  predicate AreThePresent(sets: seq<Option<Bytes>>, at: seq<nat>, r: seq<Bytes>) {
    && Shows(sets, at, r) && Ascending(at)
    && forall i :: 0 <= i < |sets| && sets[i].Some? && sets[i].value != [] ==> i in at
  }

  lemma {:induction false} ShowsAfter(sets: seq<Option<Bytes>>, later: seq<nat>)
    requires sets != [] && Shows(sets[1..], later, NonEmpty(sets[1..]))
    ensures Shows(sets, After(Present(sets[0]) != [], later), NonEmpty(sets))
  {
    ShowsOneMore(sets, later, Present(sets[0]), NonEmpty(sets[1..]));
  }

  lemma {:induction false} ShowsOneMore(sets: seq<Option<Bytes>>, later: seq<nat>, first: seq<Bytes>, rest: seq<Bytes>)
    requires sets != [] && Shows(sets[1..], later, rest)
    requires first == [] || (|first| == 1 && sets[0] == Some(first[0]) && first[0] != [])
    ensures Shows(sets, After(first != [], later), first + rest)
  {
    var (at, r) := (After(first != [], later), first + rest);
    forall k | 0 <= k < |r| ensures at[k] < |sets| && sets[at[k]] == Some(r[k]) && r[k] != [] {
      if k >= |first| {
        var j := k - |first|;
        assert r[k] == rest[j] && at[k] == later[j] + 1;
        assert sets[1..][later[j]] == sets[later[j] + 1];
      }
    }
  }

  lemma {:induction false} NonEmptyAre(sets: seq<Option<Bytes>>) returns (at: seq<nat>)
    ensures AreThePresent(sets, at, NonEmpty(sets))
  {
    if sets == [] {
      at := [];
    } else {
      var later := NonEmptyAre(sets[1..]);
      var taken := Present(sets[0]) != [];
      at := After(taken, later);
      ShowsAfter(sets, later);
      AfterAscends(taken, later);
      forall i | 0 <= i < |sets| && sets[i].Some? && sets[i].value != [] ensures i in at {
        AfterHas(taken, later, i);
        if i > 0 { assert sets[1..][i - 1] == sets[i]; }
      }
    }
  }

  /**
   * A keyframe carries, ahead of its block, the first three parameter sets of an HEVC stream and the first
   * two of an H.264 stream, in their order, without those not given or empty; nothing else carries any.
   */
  lemma {:induction false} HeadersAre(s: Sample) returns (at: seq<nat>)
    ensures !s.isKey || s.codec == Other || s.parameterSets.None? ==> Headers(s) == []
    ensures s.isKey && s.codec != Other && s.parameterSets.Some? ==>
              var (sets, n) := (s.parameterSets.value, if s.codec == Hevc then 3 else 2);
              AreThePresent(if |sets| <= n then sets else sets[..n], at, Headers(s))
  {
    at := [];
    if s.isKey && s.parameterSets.Some? {
      var sets := s.parameterSets.value;
      var n := Min(Leading(s.codec), |sets|);
      assert |sets| <= n ==> sets[..n] == sets;
      at := NonEmptyAre(sets[..n]);
    }
  }

  function BlockUnits(s: Sample): seq<Bytes> {
    if s.block.None? then [] else Units(s.block.value)
  }

  function Extracted(s: Sample, capacity: nat): (r: Bytes)
    ensures |r| <= capacity
  {
    EmitAll(EmitAll([], Headers(s), capacity), BlockUnits(s), capacity)
  }

  function SetBytes(sets: seq<Option<Bytes>>): nat {
    if sets == [] then 0 else (if sets[0].None? then 0 else 4 + |sets[0].value|) + SetBytes(sets[1..])
  }

  /** The buffer size callers ask for: every parameter set with a start code, keyframe or not, and the block. */
  function EncodedLength(s: Sample): nat {
    (if s.parameterSets.None? || s.codec == Other then 0 else SetBytes(s.parameterSets.value))
    + (if s.block.None? then 0 else |s.block.value|)
  }

  lemma {:induction false} SetBytesSplit(sets: seq<Option<Bytes>>, n: nat)
    requires n <= |sets|
    ensures |Stream(NonEmpty(sets[..n]))| <= SetBytes(sets)
  {
    if n > 0 {
      assert sets[..n][1..] == sets[1..][..n - 1];
      SetBytesSplit(sets[1..], n - 1);
      StreamAppend(Present(sets[0]), NonEmpty(sets[..n][1..]));
      if Present(sets[0]) != [] { assert Stream([sets[0].value]) == START_CODE + sets[0].value; }
    }
  }

  lemma {:induction false} StreamLength(nals: seq<Bytes>)
    requires Small(nals)
    ensures |Stream(nals)| == |Prefixed(nals)|
  {
    if nals != [] {
      SmallFits(nals[0]);
      StreamLength(nals[1..]);
    }
  }

  lemma {:induction false} RoomForAll(s: Sample)
    ensures |Stream(Headers(s))| + |Stream(BlockUnits(s))| <= EncodedLength(s)
  {
    if s.isKey && s.parameterSets.Some? {
      SetBytesSplit(s.parameterSets.value, Min(Leading(s.codec), |s.parameterSets.value|));
    }
    if s.block.Some? {
      var rest := BlockIsUnits(s.block.value);
      StreamLength(Units(s.block.value));
    }
  }

  /** A buffer of the size asked for holds every unit: none is skipped. */
  lemma {:induction false} NothingSkipped(s: Sample, capacity: nat)
    requires capacity >= EncodedLength(s)
    ensures Extracted(s, capacity) == Stream(Headers(s) + BlockUnits(s))
  {
    StreamAppend(Headers(s), BlockUnits(s));
    RoomForAll(s);
    EmitsAll([], Headers(s), capacity);
    assert [] + Stream(Headers(s)) == Stream(Headers(s));
    EmitsAll(Stream(Headers(s)), BlockUnits(s), capacity);
  }

  /** The units at the positions `at`. */
  function Pick(nals: seq<Bytes>, at: seq<nat>): seq<Bytes>
    requires Within(at, |nals|)
  {
    seq(|at|, k requires 0 <= k < |at| => nals[at[k]])
  }

  predicate Within(at: seq<nat>, n: nat) {
    forall k :: 0 <= k < |at| ==> at[k] < n
  }

  /** `out` with the units at `at` after it, in order, is `r`, and no other unit would still fit. */
  predicate FilledWith(out: Bytes, nals: seq<Bytes>, at: seq<nat>, r: Bytes, capacity: nat) {
    && Within(at, |nals|) && Ascending(at)
    && r == out + Stream(Pick(nals, at)) && |r| <= capacity
    && forall i :: 0 <= i < |nals| && i !in at ==> |r| + 4 + |nals[i]| > capacity
  }

  lemma {:induction false} EmitAllFills(out: Bytes, nals: seq<Bytes>, capacity: nat) returns (at: seq<nat>)
    requires |out| <= capacity
    ensures FilledWith(out, nals, at, EmitAll(out, nals, capacity), capacity)
    decreases |nals|
  {
    if nals == [] {
      at := [];
    } else {
      var mid := Emit(out, nals[0], capacity);
      var later := EmitAllFills(mid, nals[1..], capacity);
      var taken := |out| + 4 + |nals[0]| <= capacity;
      at := After(taken, later);
      FillsOne(out, nals, mid, taken, later, EmitAll(out, nals, capacity), capacity);
    }
  }

  lemma {:induction false} FillsOne(out: Bytes, nals: seq<Bytes>, mid: Bytes, taken: bool, later: seq<nat>, r: Bytes,
                                    capacity: nat)
    requires nals != [] && taken == (|out| + 4 + |nals[0]| <= capacity)
    requires mid == (if taken then out + START_CODE + nals[0] else out) && FilledWith(mid, nals[1..], later, r, capacity)
    ensures FilledWith(out, nals, After(taken, later), r, capacity)
  {
    AfterAscends(taken, later);
    PickAfter(nals, taken, later);
    forall i | 0 <= i < |nals| && i !in After(taken, later) ensures |r| + 4 + |nals[i]| > capacity {
      SkippedIsTooBig(nals, taken, later, |r|, capacity, i);
    }
  }

  lemma {:induction false} SkippedIsTooBig(nals: seq<Bytes>, taken: bool, later: seq<nat>, size: nat, capacity: nat, i: nat)
    requires i < |nals| && i !in After(taken, later)
    requires !taken ==> size + 4 + |nals[0]| > capacity
    requires forall k :: 0 <= k < |nals| - 1 && k !in later ==> size + 4 + |nals[1..][k]| > capacity
    ensures size + 4 + |nals[i]| > capacity
  {
    AfterHas(taken, later, i);
    if i > 0 { assert nals[1..][i - 1] == nals[i]; }
  }

  lemma {:induction false} PickAfter(nals: seq<Bytes>, taken: bool, later: seq<nat>)
    requires nals != [] && Within(later, |nals| - 1)
    ensures var at := After(taken, later);
            && Within(at, |nals|)
            && Stream(Pick(nals, at)) == (if taken then START_CODE + nals[0] else []) + Stream(Pick(nals[1..], later))
  {
    var at := After(taken, later);
    var first := if taken then [nals[0]] else [];
    assert Pick(nals, at) == first + Pick(nals[1..], later);
    StreamAppend(first, Pick(nals[1..], later));
    if taken { assert Stream([nals[0]]) == START_CODE + nals[0]; }
  }

  lemma {:induction false} EmitAllJoins(out: Bytes, a: seq<Bytes>, b: seq<Bytes>, capacity: nat)
    requires |out| <= capacity
    ensures EmitAll(EmitAll(out, a, capacity), b, capacity) == EmitAll(out, a + b, capacity)
    decreases |a|
  {
    if a == [] {
      assert a + b == b;
    } else {
      assert (a + b)[1..] == a[1..] + b;
      EmitAllJoins(Emit(out, a[0], capacity), a[1..], b, capacity);
    }
  }

  /** Whatever the buffer's size, it holds whole units, in order, and none that was skipped would still fit. */
  lemma {:induction false} SkipsOnlyForRoom(s: Sample, capacity: nat) returns (at: seq<nat>)
    ensures FilledWith([], Headers(s) + BlockUnits(s), at, Extracted(s, capacity), capacity)
  {
    EmitAllJoins([], Headers(s), BlockUnits(s), capacity);
    at := EmitAllFills([], Headers(s) + BlockUnits(s), capacity);
  }

  /** And the size asked for is exactly enough, when each parameter set is carried and no unit is cut short. */
  lemma {:induction false} SizeIsExact(s: Sample)
    requires s.isKey && s.codec != Other && s.parameterSets.Some? && s.block.Some?
    requires var sets := s.parameterSets.value;
             && |sets| <= (if s.codec == Hevc then 3 else 2)
             && forall i :: 0 <= i < |sets| ==> sets[i].Some? && sets[i].value != []
    requires s.block.value == Prefixed(Units(s.block.value))
    ensures |Extracted(s, EncodedLength(s))| == EncodedLength(s)
  {
    var sets := s.parameterSets.value;
    assert sets[..|sets|] == sets;
    AllSetBytes(sets);
    var rest := BlockIsUnits(s.block.value);
    StreamLength(Units(s.block.value));
    NothingSkipped(s, EncodedLength(s));
    StreamAppend(Headers(s), BlockUnits(s));
  }

  lemma {:induction false} AllSetBytes(sets: seq<Option<Bytes>>)
    requires forall i :: 0 <= i < |sets| ==> sets[i].Some? && sets[i].value != []
    ensures |Stream(NonEmpty(sets))| == SetBytes(sets)
  {
    if sets != [] {
      AllSetBytes(sets[1..]);
      StreamAppend(Present(sets[0]), NonEmpty(sets[1..]));
      assert Stream([sets[0].value]) == START_CODE + sets[0].value;
    }
  }

  // ---- reading the stream back ----

  /** The length of the start code `d` begins with, or 0. */
  function CodeLength(d: Bytes): (n: nat)
    ensures n <= |d|
  {
    if |d| >= 4 && d[0] == 0 && d[1] == 0 && d[2] == 0 && d[3] == 1 then 4
    else if |d| >= 3 && d[0] == 0 && d[1] == 0 && d[2] == 1 then 3
    else 0
  }

  /** How far the next start code is, or the end. */
  function ToNextCode(d: Bytes): (n: nat)
    ensures n <= |d|
    ensures n < |d| ==> CodeLength(d[n..]) > 0
  {
    if d == [] || CodeLength(d) > 0 then 0
    else
      var m := ToNextCode(d[1..]);
      assert d[1..][m..] == d[m + 1..];
      1 + m
  }

  /** What the start code `d` begins with starts, up to the next one. */
  function FirstBody(d: Bytes): (nal: Bytes)
    ensures |nal| + CodeLength(d) <= |d|
  {
    var body := d[CodeLength(d)..];
    body[..ToNextCode(body)]
  }

  function AfterFirst(d: Bytes): Bytes {
    d[CodeLength(d) + |FirstBody(d)|..]
  }

  /** The units of a byte stream; what comes before its first start code is ignored. */
  function Parsed(d: Bytes): seq<Bytes>
    decreases |d|
  {
    if d == [] then []
    else if CodeLength(d) == 0 then Parsed(d[1..])
    else [FirstBody(d)] + Parsed(AfterFirst(d))
  }

  /** Three bytes that no NAL unit may hold (section 7.4.1 of ITU-T H.264). */
  predicate CodeAt(nal: Bytes, i: nat) {
    i + 3 <= |nal| && nal[i] == 0 && nal[i + 1] == 0 && nal[i + 2] == 1
  }

  ghost predicate Clean(nal: Bytes) {
    forall i: nat :: !CodeAt(nal, i)
  }

  ghost predicate AllClean(nals: seq<Bytes>) {
    forall nal :: nal in nals ==> Clean(nal)
  }

  lemma {:induction false} CleanTail(nal: Bytes)
    requires nal != [] && Clean(nal)
    ensures Clean(nal[1..])
  {
    forall i: nat
      ensures !CodeAt(nal[1..], i)
    {
      assert !CodeAt(nal, i + 1);
    }
  }

  lemma {:induction false} NoCodeInside(nal: Bytes, rest: Bytes)
    requires nal != [] && Clean(nal) && (rest == [] || START_CODE <= rest)
    ensures CodeLength(nal + rest) == 0
  {
    assert !CodeAt(nal, 0) && !CodeAt(nal, 1);
    if rest != [] {
      assert forall k :: 0 <= k < 4 ==> rest[k] == START_CODE[k];
    }
  }

  /** A clean unit is read to its end: not into the start code after it, and not short of it. */
  lemma {:induction false} CleanReadsWhole(nal: Bytes, rest: Bytes)
    requires Clean(nal) && (rest == [] || START_CODE <= rest)
    ensures ToNextCode(nal + rest) == |nal|
  {
    if nal == [] {
      assert nal + rest == rest;
      if rest != [] { assert forall k :: 0 <= k < 4 ==> rest[k] == START_CODE[k]; }
    } else {
      NoCodeInside(nal, rest);
      CleanTail(nal);
      assert (nal + rest)[1..] == nal[1..] + rest;
      CleanReadsWhole(nal[1..], rest);
    }
  }

  lemma {:induction false} StreamBegins(nals: seq<Bytes>)
    ensures Stream(nals) == [] || START_CODE <= Stream(nals)
  {
    if nals != [] { assert Stream(nals) == START_CODE + (nals[0] + Stream(nals[1..])); }
  }

  /** The first unit of a stream is read back whole, and the rest after it. */
  lemma {:induction false} FirstOfStream(nal: Bytes, rest: Bytes)
    requires Clean(nal) && (rest == [] || START_CODE <= rest)
    ensures var d := START_CODE + nal + rest;
            CodeLength(d) == 4 && FirstBody(d) == nal && AfterFirst(d) == rest
  {
    var d := START_CODE + nal + rest;
    var body := nal + rest;
    assert d == START_CODE + body;
    assert forall k :: 0 <= k < 4 ==> d[k] == START_CODE[k];
    assert d[4..] == body;
    CleanReadsWhole(nal, rest);
    assert body[..|nal|] == nal && body[|nal|..] == rest;
  }

  lemma {:induction false} ReadsBack(nals: seq<Bytes>)
    requires AllClean(nals)
    ensures Parsed(Stream(nals)) == nals
  {
    if nals != [] {
      StreamBegins(nals[1..]);
      FirstOfStream(nals[0], Stream(nals[1..]));
      ReadsBack(nals[1..]);
    }
  }

  lemma {:induction false} NoCodeBefore(d: Bytes, i: nat)
    requires i < ToNextCode(d)
    ensures CodeLength(d[i..]) == 0
  {
    if i > 0 {
      NoCodeBefore(d[1..], i - 1);
      assert d[1..][i - 1..] == d[i..];
    }
  }

  lemma {:induction false} UpToCodeIsClean(body: Bytes)
    ensures Clean(body[..ToNextCode(body)])
  {
    forall i: nat
      ensures !CodeAt(body[..ToNextCode(body)], i)
    {
      if i < ToNextCode(body) { NoCodeBefore(body, i); }
    }
  }

  /** Whatever the bytes, no unit read from them holds a start code. */
  lemma {:induction false} ParsedIsClean(d: Bytes)
    ensures AllClean(Parsed(d))
    decreases |d|
  {
    if d == [] {
    } else if CodeLength(d) == 0 {
      ParsedIsClean(d[1..]);
    } else {
      var body := d[CodeLength(d)..];
      ParsedIsClean(AfterFirst(d));
      UpToCodeIsClean(body);
    }
  }

  /** Written and read back, the units come out as they went in exactly when none holds a start code. */
  lemma {:induction false} RoundTripIff(nals: seq<Bytes>)
    ensures Parsed(Stream(nals)) == nals <==> AllClean(nals)
  {
    ParsedIsClean(Stream(nals));
    if AllClean(nals) { ReadsBack(nals); }
  }

  lemma {:induction false} PrefixedAppend(a: seq<Bytes>, b: seq<Bytes>)
    ensures Prefixed(a + b) == Prefixed(a) + Prefixed(b)
  {
    if a == [] {
      assert a + b == b;
    } else {
      assert (a + b)[1..] == a[1..] + b;
      PrefixedAppend(a[1..], b);
    }
  }

  /**
   * End to end: a block of whole, clean units, extracted into a buffer of the size asked for and read
   * back by the decoder, is the parameter sets a keyframe carries, prefixed, and then the block itself.
   */
  lemma {:induction false} BlockRoundTrip(s: Sample, nals: seq<Bytes>, capacity: nat)
    requires s.block == Some(Prefixed(nals)) && Small(nals) && AllClean(nals) && AllClean(Headers(s))
    requires capacity >= EncodedLength(s)
    ensures Parsed(Extracted(s, capacity)) == Headers(s) + nals
    ensures Prefixed(Parsed(Extracted(s, capacity))) == Prefixed(Headers(s)) + s.block.value
  {
    UnitsOfPrefixed(nals);
    NothingSkipped(s, capacity);
    ReadsBack(Headers(s) + nals);
    PrefixedAppend(Headers(s), nals);
  }

  // ---- how long the rewritten form is ----

  /** Units that a three-byte start code opens; each grows by a byte when its code becomes a prefix. */
  function ShortCodes(d: Bytes): nat
    decreases |d|
  {
    if d == [] then 0
    else if CodeLength(d) == 0 then ShortCodes(d[1..])
    else (if CodeLength(d) == 3 then 1 else 0) + ShortCodes(AfterFirst(d))
  }

  lemma {:induction false} AfterFirstIsCode(d: Bytes)
    requires CodeLength(d) > 0
    ensures ToNextCode(AfterFirst(d)) == 0
    ensures |AfterFirst(d)| + |FirstBody(d)| + CodeLength(d) == |d|
  {
    var body := d[CodeLength(d)..];
    assert AfterFirst(d) == body[ToNextCode(body)..];
  }

  lemma {:induction false} UnitLength(nal: Bytes)
    ensures |Unit(nal)| <= 4 + |nal|
    ensures |nal| < 0x1_0000_0000 ==> |Unit(nal)| == 4 + |nal|
  {
  }

  /**
   * Rewriting drops what comes before the first start code and adds a byte for every short one; a
   * unit too long for its length field only makes the result shorter.
   */
  lemma {:induction false} RewrittenLength(d: Bytes)
    ensures |Prefixed(Parsed(d))| + ToNextCode(d) <= |d| + ShortCodes(d)
    ensures |d| < 0x1_0000_0000 ==> |Prefixed(Parsed(d))| + ToNextCode(d) == |d| + ShortCodes(d)
    decreases |d|
  {
    if d == [] {
    } else if CodeLength(d) == 0 {
      RewrittenLength(d[1..]);
    } else {
      AfterFirstIsCode(d);
      RewrittenLength(AfterFirst(d));
      PrefixedStep(d);
      UnitLength(FirstBody(d));
    }
  }

  /** What the decoder allocates for the rewritten form of a stream. */
  const SLACK := 64

  predicate FitsDecoderBuffer(d: Bytes) {
    |Prefixed(Parsed(d))| <= |d| + SLACK
  }

  /** The rewritten form fits the buffer exactly when short codes outnumber dropped bytes by no more than the slack. */
  lemma {:induction false} FitsIff(d: Bytes)
    requires |d| < 0x1_0000_0000
    ensures FitsDecoderBuffer(d) <==> ShortCodes(d) <= ToNextCode(d) + SLACK
  {
    RewrittenLength(d);
  }

  /** The length is unchanged exactly when every short code is paid for by a dropped byte. */
  lemma {:induction false} SameLengthIff(d: Bytes)
    requires |d| < 0x1_0000_0000
    ensures |Prefixed(Parsed(d))| == |d| <==> ShortCodes(d) == ToNextCode(d)
  {
    RewrittenLength(d);
  }

  /** Every stream of clean units written with four-byte codes keeps its length, so it fits. */
  lemma {:induction false} SameLength(nals: seq<Bytes>)
    requires Small(nals) && AllClean(nals)
    ensures |Prefixed(Parsed(Stream(nals)))| == |Stream(nals)|
    ensures FitsDecoderBuffer(Stream(nals))
  {
    ReadsBack(nals);
    StreamLength(nals);
  }

  /** `n` empty units, each opened by a short code. */
  function EmptyUnits(n: nat): Bytes {
    if n == 0 then [] else [0, 0, 1] + EmptyUnits(n - 1)
  }

  lemma {:induction false} EmptyUnitLeads(rest: Bytes)
    requires rest == [] || CodeLength(rest) > 0
    ensures var d := [0, 0, 1] + rest;
            CodeLength(d) == 3 && FirstBody(d) == [] && AfterFirst(d) == rest
  {
    assert ([0, 0, 1] + rest)[3..] == rest;
  }

  lemma {:induction false} EmptyUnitsGrow(n: nat)
    ensures |EmptyUnits(n)| == 3 * n && ShortCodes(EmptyUnits(n)) == n
    ensures n > 0 ==> CodeLength(EmptyUnits(n)) > 0
  {
    if n > 0 {
      var rest := EmptyUnits(n - 1);
      EmptyUnitsGrow(n - 1);
      EmptyUnitLeads(rest);
      var d := [0, 0, 1] + rest;
      assert d == EmptyUnits(n) && |d| == 3 + |rest|;
      assert ShortCodes(d) == 1 + ShortCodes(rest);
    }
  }

  /** 195 bytes, 65 empty units with three-byte codes, are one byte too many once rewritten. */
  lemma {:induction false} SixtyFiveDoNotFit()
    ensures |EmptyUnits(65)| == 195
    ensures |Prefixed(Parsed(EmptyUnits(65)))| == 195 + SLACK + 1
  {
    EmptyUnitsGrow(65);
    RewrittenLength(EmptyUnits(65));
  }

  // ---- the two loops ----

  method PutUnit(out: array<u8>, at: nat, nal: Bytes, capacity: nat) returns (total: nat)
    requires at <= capacity <= out.Length
    modifies out
    ensures total <= capacity && out[..total] == Emit(old(out[..at]), nal, capacity)
  {
    total := at;
    if total + 4 + |nal| <= capacity {
      Wire.CopyInto(out, total, START_CODE);
      Wire.CopyInto(out, total + 4, nal);
      total := total + 4 + |nal|;
      assert out[..total] == old(out[..at]) + START_CODE + nal;
    }
  }

  method PutHeaders(s: Sample, out: array<u8>, capacity: nat) returns (total: nat)
    requires s.isKey && capacity <= out.Length
    modifies out
    ensures total <= capacity && out[..total] == EmitAll([], Headers(s), capacity)
  {
    total := 0;
    if s.parameterSets.None? {
      return;
    }
    var sets := s.parameterSets.value;
    var n := Min(Leading(s.codec), |sets|);
    ghost var lead := sets[..n];
    for i := 0 to n
      invariant total <= capacity
      invariant EmitAll(out[..total], NonEmpty(lead[i..]), capacity) == EmitAll([], NonEmpty(lead), capacity)
    {
      assert lead[i..][1..] == lead[i + 1..];
      if sets[i].Some? && |sets[i].value| > 0 {
        assert NonEmpty(lead[i..])[1..] == NonEmpty(lead[i + 1..]);
        total := PutUnit(out, total, sets[i].value, capacity);
      } else {
        assert NonEmpty(lead[i..]) == NonEmpty(lead[i + 1..]);
      }
    }
  }

  method ExtractNals(s: Sample, out: array<u8>, capacity: nat) returns (total: nat)
    requires capacity <= out.Length
    modifies out
    ensures total <= capacity && out[..total] == Extracted(s, capacity)
  {
    total := 0;
    if s.isKey {
      total := PutHeaders(s, out, capacity);
    }
    if s.block.None? {
      return;
    }
    var block := s.block.value;
    ghost var written := out[..total];
    ghost var goal := EmitAll(written, Units(block), capacity);
    var offset := 0;
    assert block[0..] == block;
    while offset + 4 <= |block|
      invariant offset <= |block| && total == |written| <= capacity && out[..total] == written
      invariant EmitsTo(written, block[offset..], capacity, goal)
    {
      ghost var rest := block[offset..];
      EmitStep(written, rest, capacity, goal);
      UnitIsSlice(block, offset);
      var n := FromBigEndian(block[offset..offset + 4]);
      offset := offset + 4;
      if offset + n > |block| {
        return;
      }
      var nal := block[offset..offset + n];
      assert nal == UnitBody(rest) && block[offset + n..] == AfterUnit(rest);
      written := Emit(written, nal, capacity);
      assert EmitsTo(written, AfterUnit(rest), capacity, goal);
      total := PutUnit(out, total, nal, capacity);
      offset := offset + n;
    }
    EmitDone(written, block[offset..], capacity, goal);
  }

  /** Emitting the units of `rest` after what is written gives the whole. */
  predicate EmitsTo(written: Bytes, rest: Bytes, capacity: nat, goal: Bytes) {
    |written| <= capacity && EmitAll(written, Units(rest), capacity) == goal
  }

  lemma {:induction false} EmitStep(written: Bytes, rest: Bytes, capacity: nat, goal: Bytes)
    requires EmitsTo(written, rest, capacity, goal)
    ensures CutShort(rest) ==> written == goal
    ensures !CutShort(rest) ==> EmitsTo(Emit(written, UnitBody(rest), capacity), AfterUnit(rest), capacity, goal)
  {
    if !CutShort(rest) { assert Units(rest)[1..] == Units(AfterUnit(rest)); }
  }

  lemma {:induction false} EmitDone(written: Bytes, rest: Bytes, capacity: nat, goal: Bytes)
    requires EmitsTo(written, rest, capacity, goal) && |rest| < 4
    ensures written == goal
  {
  }

  lemma {:induction false} UnitIsSlice(block: Bytes, offset: nat)
    requires offset + 4 <= |block|
    ensures var (n, at) := (FromBigEndian(block[offset..offset + 4]), offset + 4);
            && (CutShort(block[offset..]) <==> at + n > |block|)
            && (at + n <= |block|
                ==> UnitBody(block[offset..]) == block[at..at + n] && AfterUnit(block[offset..]) == block[at + n..])
  {
    assert block[offset..][..4] == block[offset..offset + 4];
  }

  /** The decoder's buffer is read-only, so it is a value here. */
  method StartCodeLength(data: Bytes, i: nat) returns (n: nat)
    requires i <= |data|
    ensures n == CodeLength(data[i..])
  {
    n := 0;
    if i + 4 <= |data| && data[i] == 0 && data[i + 1] == 0 && data[i + 2] == 0 && data[i + 3] == 1 {
      n := 4;
    } else if i + 3 <= |data| && data[i] == 0 && data[i + 1] == 0 && data[i + 2] == 1 {
      n := 3;
    }
  }

  method NextCode(data: Bytes, start: nat) returns (next: nat)
    requires start <= |data|
    ensures next == start + ToNextCode(data[start..])
  {
    next := start;
    while next < |data|
      invariant start <= next <= |data|
      invariant next + ToNextCode(data[next..]) == start + ToNextCode(data[start..])
    {
      var code := StartCodeLength(data, next);
      NextStep(data, next);
      if code > 0 {
        return;
      }
      next := next + 1;
    }
  }

  lemma {:induction false} NextStep(d: Bytes, i: nat)
    requires i < |d|
    ensures ToNextCode(d[i..]) == if CodeLength(d[i..]) > 0 then 0 else 1 + ToNextCode(d[i + 1..])
  {
    assert d[i..][1..] == d[i + 1..];
  }

  method PutPrefixed(out: array<u8>, at: nat, nal: Bytes, ghost written: Bytes) returns (total: nat)
    requires at + |Unit(nal)| <= out.Length && out[..at] == written
    modifies out
    ensures total == |written + Unit(nal)| <= out.Length
    ensures out[..total] == written + Unit(nal)
  {
    var size := Cast(|nal|);
    Wire.CopyInto(out, at, BigEndian(size, 4));
    Wire.CopyInto(out, at + 4, nal[..size]);
    total := at + 4 + size;
    assert out[..total] == written + BigEndian(|Fit(nal)|, 4) + Fit(nal);
    Regroup(written, BigEndian(|Fit(nal)|, 4), Fit(nal), Unit(nal), written + Unit(nal));
  }

  lemma {:induction false} SliceLeads(d: Bytes, i: nat, start: nat, next: nat, written: Bytes, goal: Bytes)
    requires i < |d| && CodeLength(d[i..]) > 0 && Leads(written, d[i..], goal)
    requires start == i + CodeLength(d[i..]) && next == start + ToNextCode(d[start..])
    ensures i < next <= |d|
    ensures |written| + |Unit(d[start..next])| <= |goal|
    ensures Leads(written + Unit(d[start..next]), d[next..], goal)
  {
    FirstIsSlice(d, i, start, next);
    AdvanceTo(written, d[i..], d[start..next], d[next..], goal);
  }

  lemma {:induction false} AdvanceTo(written: Bytes, rest: Bytes, first: Bytes, after: Bytes, goal: Bytes)
    requires CodeLength(rest) > 0 && Leads(written, rest, goal)
    requires first == FirstBody(rest) && after == AfterFirst(rest)
    ensures |written| + |Unit(first)| <= |goal|
    ensures Leads(written + Unit(first), after, goal)
  {
    Advance(written, rest, goal);
  }

  /** Rewrites one unit, the start code of which is at `i`. */
  method RewriteUnit(data: Bytes, i: nat, code: nat, out: array<u8>, at: nat, ghost written: Bytes, ghost goal: Bytes)
    returns (next: nat, total: nat, ghost now: Bytes)
    requires i < |data| && code == CodeLength(data[i..]) > 0
    requires at <= out.Length && out[..at] == written && |goal| <= out.Length
    requires Leads(written, data[i..], goal)
    modifies out
    ensures i < next <= |data| && total <= out.Length && out[..total] == now
    ensures Leads(now, data[next..], goal)
  {
    next := NextCode(data, i + code);
    SliceLeads(data, i, i + code, next, written, goal);
    var nal := data[i + code..next];
    now := written + Unit(nal);
    total := PutPrefixed(out, at, nal, written);
  }

  /** Rewrites a byte stream with length prefixes, into the buffer the decoder allocates for it. */
  method ToPrefixed(data: Bytes, out: array<u8>) returns (total: nat)
    requires out.Length == |data| + SLACK && ShortCodes(data) <= ToNextCode(data) + SLACK
    modifies out
    ensures total <= out.Length && out[..total] == Prefixed(Parsed(data))
  {
    total := 0;
    var i := 0;
    ghost var goal := Prefixed(Parsed(data));
    RewrittenLength(data);
    ghost var written: Bytes := [];
    assert data[0..] == data;
    while i < |data|
      invariant i <= |data| && total <= out.Length && out[..total] == written
      invariant Leads(written, data[i..], goal)
    {
      var code := StartCodeLength(data, i);
      if code > 0 {
        i, total, written := RewriteUnit(data, i, code, out, total, written, goal);
      } else {
        Advance(written, data[i..], goal);
        assert data[i..][1..] == data[i + 1..];
        i := i + 1;
      }
    }
  }

  /** What is written, with what is still to be read, makes up the whole. */
  predicate Leads(written: Bytes, rest: Bytes, goal: Bytes) {
    written + Prefixed(Parsed(rest)) == goal
  }

  lemma {:induction false} Advance(written: Bytes, rest: Bytes, goal: Bytes)
    requires rest != [] && Leads(written, rest, goal)
    ensures CodeLength(rest) == 0 ==> Leads(written, rest[1..], goal)
    ensures CodeLength(rest) > 0 ==> Leads(written + Unit(FirstBody(rest)), AfterFirst(rest), goal)
    ensures CodeLength(rest) > 0 ==> |written| + |Unit(FirstBody(rest))| <= |goal|
  {
    if CodeLength(rest) > 0 {
      PrefixedStep(rest);
      Regroup(written, Unit(FirstBody(rest)), Prefixed(Parsed(AfterFirst(rest))), Prefixed(Parsed(rest)), goal);
    }
  }

  lemma {:induction false} PrefixedStep(d: Bytes)
    requires CodeLength(d) > 0
    ensures Prefixed(Parsed(d)) == Unit(FirstBody(d)) + Prefixed(Parsed(AfterFirst(d)))
  {
    var units := Parsed(d);
    assert units[0] == FirstBody(d);
    assert units[1..] == Parsed(AfterFirst(d));
  }

  lemma {:induction false} Regroup(a: Bytes, b: Bytes, c: Bytes, bc: Bytes, all: Bytes)
    requires a + bc == all && bc == b + c
    ensures a + b + c == all && |a| + |b| <= |all|
  {
    assert a + b + c == a + (b + c);
  }

  lemma {:induction false} FirstIsSlice(d: Bytes, i: nat, start: nat, next: nat)
    requires i < |d| && CodeLength(d[i..]) > 0
    requires start == i + CodeLength(d[i..]) && next == start + ToNextCode(d[start..])
    ensures next <= |d| && d[start..next] == FirstBody(d[i..]) && d[next..] == AfterFirst(d[i..])
  {
    assert d[i..][CodeLength(d[i..])..] == d[start..];
  }
}
