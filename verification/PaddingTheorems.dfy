/** Round trip, overhead and truncation of the padding codec. */
module PaddingTheorems {
  import opened Net
  import opened Padding

  // ---------- Frames ----------

  lemma {:induction false} FrameShape(data: seq<Byte>, padding: Byte, rest: seq<Byte>)
    requires |data| < BUFFER_SIZE
    ensures var b := Frame(data, padding) + rest;
            |Frame(data, padding)| == 3 + |data| + padding as nat &&
            b[0] as nat * 256 + b[1] as nat == |data| && b[2] == padding &&
            b[3..3 + |data|] == data && b[3 + |data| + padding as nat..] == rest
  {
  }

  lemma {:induction false} DecodeFrame(data: seq<Byte>, padding: Byte, rest: seq<Byte>, end: ReadError, k: nat)
    requires 0 < |data| < BUFFER_SIZE && k < NUM_FIRST_PADDINGS
    ensures Explains(Frame(data, padding) + rest, end, k, data, None, rest)
  {
    FrameShape(data, padding, rest);
    WholePayload(Frame(data, padding) + rest, end, k, |data|, padding as nat);
  }

  lemma {:induction false} RawIsPayload(calls: seq<Read>, k: nat)
    requires Legal(calls) && NUM_FIRST_PADDINGS <= k <= |calls|
    ensures Encoded(calls, k) == Payload(calls, k)
    decreases |calls| - k
  {
    if k < |calls| { RawIsPayload(calls, k + 1); }
  }

  // ---------- Round trip ----------

  /** Some framed read was empty, so the decoder still expects frames when raw bytes arrive. */
  predicate SkipsFrame(calls: seq<Read>) {
    exists i :: 0 <= i < |calls| && i < 8 && calls[i].data == []
  }

  function RawTail(calls: seq<Read>): seq<Byte> {
    if |calls| <= 8 then [] else Payload(calls, 8)
  }

  /** One whole frame: its payload, and whatever the decoder makes of the bytes after the padding. */
  lemma {:induction false} FrameShrinks(bytes: seq<Byte>, end: ReadError, k: nat, n: nat, left: seq<Byte>)
    requires k < NUM_FIRST_PADDINGS && |bytes| >= 3 + n && n == bytes[0] as nat * 256 + bytes[1] as nat
    requires left == bytes[3 + n + (if n == 0 then 0 else Min(bytes[2] as nat, |bytes| - 3 - n))..]
    requires |Decoded(left, end, k + 1).0| <= |left|
    ensures |Decoded(bytes, end, k).0| < |bytes|
  {
    WholePayload(bytes, end, k, n, if n == 0 then 0 else Min(bytes[2] as nat, |bytes| - 3 - n));
  }

  /** The decoder never writes more than it reads, and writes less if it still strips a frame. */
  lemma {:induction false} DecodedShrinks(bytes: seq<Byte>, end: ReadError, k: nat)
    ensures |Decoded(bytes, end, k).0| <= |bytes|
    ensures k < NUM_FIRST_PADDINGS && bytes != [] ==> |Decoded(bytes, end, k).0| < |bytes|
    decreases |bytes|
  {
    if k < NUM_FIRST_PADDINGS && |bytes| >= 3 {
      var n := bytes[0] as nat * 256 + bytes[1] as nat;
      if n <= |bytes| - 3 {
        var left := bytes[3 + n + (if n == 0 then 0 else Min(bytes[2] as nat, |bytes| - 3 - n))..];
        DecodedShrinks(left, end, k + 1);
        FrameShrinks(bytes, end, k, n, left);
      }
    }
  }

  /** Whether decoding from frame count d recovers the reads from the k-th on. */
  predicate Recovers(calls: seq<Read>, k: nat, d: nat, end: ReadError)
    requires Legal(calls) && k <= |calls|
  {
    Decoded(Encoded(calls, k), end, d) == (Payload(calls, k), Reported(end))
  }

  /** In step, or nothing raw left to misread. */
  predicate InStep(calls: seq<Read>, k: nat, d: nat)
    requires k <= |calls|
    decreases |calls| - k
  {
    if k == |calls| then true
    else if k >= NUM_FIRST_PADDINGS then d >= NUM_FIRST_PADDINGS || Payload(calls, k) == []
    else InStep(calls, k + 1, if calls[k].data == [] then d else d + 1)
  }

  lemma {:induction false} RawRecovers(calls: seq<Read>, k: nat, d: nat, end: ReadError)
    requires Legal(calls) && NUM_FIRST_PADDINGS <= k <= |calls|
    ensures Recovers(calls, k, d, end) <==> d >= NUM_FIRST_PADDINGS || Payload(calls, k) == []
  {
    RawIsPayload(calls, k);
    DecodedShrinks(Encoded(calls, k), end, d);
  }

  lemma {:induction false} EmptyReadAddsNothing(calls: seq<Read>, k: nat)
    requires Legal(calls) && k < |calls| && k < NUM_FIRST_PADDINGS && calls[k].data == []
    ensures Encoded(calls, k) == Encoded(calls, k + 1) && Payload(calls, k) == Payload(calls, k + 1)
  {
    assert Encoded(calls, k) == [] + Encoded(calls, k + 1);
    assert Payload(calls, k) == [] + Payload(calls, k + 1);
  }

  lemma {:induction false} EmptyRecovers(calls: seq<Read>, k: nat, d: nat, end: ReadError)
    requires Legal(calls) && k < |calls| && k < NUM_FIRST_PADDINGS && calls[k].data == []
    ensures Recovers(calls, k, d, end) <==> Recovers(calls, k + 1, d, end)
  {
    EmptyReadAddsNothing(calls, k);
  }

  lemma {:induction false} FrameRecovers(calls: seq<Read>, k: nat, d: nat, end: ReadError)
    requires Legal(calls) && k < |calls| && d <= k < NUM_FIRST_PADDINGS && calls[k].data != []
    ensures Recovers(calls, k, d, end) <==> Recovers(calls, k + 1, d + 1, end)
  {
    var data, rest := calls[k].data, Encoded(calls, k + 1);
    DecodeFrame(data, calls[k].padding, rest, end, d);
    PrefixCancels(data, Decoded(rest, end, d + 1).0, Payload(calls, k + 1));
  }

  /** The decoder recovers the reads from the k-th on exactly when it is in step with them. */
  predicate Decided(calls: seq<Read>, k: nat, d: nat, end: ReadError)
    requires Legal(calls) && k <= |calls|
  {
    Recovers(calls, k, d, end) <==> InStep(calls, k, d)
  }

  lemma {:induction false} DecidedAtEnd(calls: seq<Read>, d: nat, end: ReadError)
    requires Legal(calls)
    ensures Decided(calls, |calls|, d, end)
  {
  }

  lemma {:induction false} DecidedInRaw(calls: seq<Read>, k: nat, d: nat, end: ReadError)
    requires Legal(calls) && NUM_FIRST_PADDINGS <= k < |calls|
    ensures Decided(calls, k, d, end)
  {
    RawRecovers(calls, k, d, end);
  }

  lemma {:induction false} DecidedByEmpty(calls: seq<Read>, k: nat, d: nat, end: ReadError)
    requires Legal(calls) && k < |calls| && k < NUM_FIRST_PADDINGS && calls[k].data == [] && Decided(calls, k + 1, d, end)
    ensures Decided(calls, k, d, end)
  {
    EmptyRecovers(calls, k, d, end);
  }

  lemma {:induction false} DecidedByFrame(calls: seq<Read>, k: nat, d: nat, end: ReadError)
    requires Legal(calls) && k < |calls| && d <= k < NUM_FIRST_PADDINGS && calls[k].data != []
    requires Decided(calls, k + 1, d + 1, end)
    ensures Decided(calls, k, d, end)
  {
    FrameRecovers(calls, k, d, end);
  }

  lemma {:induction false} RecoversExactlyInStep(calls: seq<Read>, k: nat, d: nat, end: ReadError)
    requires Legal(calls) && k <= |calls| && d <= k
    ensures Decided(calls, k, d, end)
    decreases |calls| - k
  {
    if k == |calls| {
      DecidedAtEnd(calls, d, end);
    } else if k >= NUM_FIRST_PADDINGS {
      DecidedInRaw(calls, k, d, end);
    } else if calls[k].data == [] {
      RecoversExactlyInStep(calls, k + 1, d, end);
      DecidedByEmpty(calls, k, d, end);
    } else {
      RecoversExactlyInStep(calls, k + 1, d + 1, end);
      DecidedByFrame(calls, k, d, end);
    }
  }

  lemma PrefixCancels(a: seq<Byte>, b: seq<Byte>, c: seq<Byte>)
    ensures a + b == a + c <==> b == c
  {
    if a + b == a + c {
      assert b == (a + b)[|a|..] && c == (a + c)[|a|..];
    }
  }

  /** Frames counted by the decoder after the first k reads. */
  function NonEmpty(calls: seq<Read>, k: nat): nat
    requires k <= |calls|
  {
    if k == 0 then 0 else NonEmpty(calls, k - 1) + (if calls[k - 1].data == [] then 0 else 1)
  }

  lemma {:induction false} NonEmptyBound(calls: seq<Read>, k: nat)
    requires k <= |calls|
    ensures NonEmpty(calls, k) <= k
    ensures NonEmpty(calls, k) == k <==> forall i :: 0 <= i < k ==> calls[i].data != []
  {
    if k > 0 { NonEmptyBound(calls, k - 1); }
  }

  lemma {:induction false} InStepUnrolled(calls: seq<Read>, k: nat)
    requires k <= |calls| && k <= NUM_FIRST_PADDINGS
    ensures InStep(calls, k, NonEmpty(calls, k)) <==>
            |calls| <= NUM_FIRST_PADDINGS || NonEmpty(calls, NUM_FIRST_PADDINGS) >= NUM_FIRST_PADDINGS || RawTail(calls) == []
    decreases NUM_FIRST_PADDINGS - k
  {
    if k < |calls| && k < NUM_FIRST_PADDINGS { InStepUnrolled(calls, k + 1); }
  }

  /** The decoder stays in step exactly when no framed read was empty or nothing was sent raw. */
  lemma {:induction false} InStepExactly(calls: seq<Read>)
    ensures InStep(calls, 0, 0) <==> !SkipsFrame(calls) || RawTail(calls) == []
  {
    InStepUnrolled(calls, 0);
    if |calls| > NUM_FIRST_PADDINGS {
      NonEmptyBound(calls, NUM_FIRST_PADDINGS);
    }
  }

  /** Decoding what the encoder wrote gives back the stream exactly when no framed read was empty or
      nothing was sent raw; an end of file is then a success, any other end is reported. In particular every
      split into non-empty reads, with any padding, round-trips. */
  lemma {:induction false} RoundTrip(calls: seq<Read>, end: ReadError)
    requires Legal(calls)
    ensures Decoded(Encoded(calls, 0), end, 0) == (Payload(calls, 0), if end == Eof then None else Some(end)) <==>
            !SkipsFrame(calls) || RawTail(calls) == []
  {
    RecoversExactlyInStep(calls, 0, 0, end);
    assert Recovers(calls, 0, 0, end) <==> Decoded(Encoded(calls, 0), end, 0) == (Payload(calls, 0), Reported(end));
    InStepExactly(calls);
  }

  /** An empty framed read followed by raw bytes does break the stream. */
  lemma {:induction false} EmptyReadBreaksStream()
    ensures exists calls :: Legal(calls) && Decoded(Encoded(calls, 0), Eof, 0) != (Payload(calls, 0), None)
  {
    var one := Read([7], 0);
    var calls := [Read([], 0), one, one, one, one, one, one, one, one];
    RoundTrip(calls, Eof);
    assert calls[0].data == [] && SkipsFrame(calls);
    assert RawTail(calls) == calls[8].data + Payload(calls, 9);
  }

  // ---------- Overhead ----------

  /** What the first n reads cost: a header and the padding for each that is not empty. */
  function FramingCost(calls: seq<Read>, n: nat): nat
    requires n <= |calls|
  {
    if n == 0 then 0 else FramingCost(calls, n - 1) + (if calls[n - 1].data == [] then 0 else 3 + calls[n - 1].padding as nat)
  }

  lemma {:induction false} CostOfRead(calls: seq<Read>, k: nat)
    requires Legal(calls) && k < |calls| && k < 8
    ensures |Encoded(calls, k)| == |Encoded(calls, k + 1)| + |calls[k].data| + (if calls[k].data == [] then 0 else 3 + calls[k].padding as nat)
    ensures |Payload(calls, k)| == |Payload(calls, k + 1)| + |calls[k].data|
  {
  }

  lemma {:induction false} CostUpTo(calls: seq<Read>, k: nat)
    requires Legal(calls) && k <= |calls| && k <= 8
    ensures |Encoded(calls, 0)| + |Payload(calls, k)| == |Payload(calls, 0)| + FramingCost(calls, k) + |Encoded(calls, k)|
  {
    if k > 0 {
      CostUpTo(calls, k - 1);
      CostOfRead(calls, k - 1);
    }
  }

  /** Exactly the first eight reads are framed: the wire carries the payload plus a header and the padding
      for each of them that is not empty; from the ninth on it carries the bytes as they are. */
  lemma {:induction false} ExactOverhead(calls: seq<Read>)
    requires Legal(calls)
    ensures |Encoded(calls, 0)| == |Payload(calls, 0)| + FramingCost(calls, Min(|calls|, 8))
    ensures |calls| > 8 ==> Encoded(calls, 8) == Payload(calls, 8)
  {
    CostUpTo(calls, Min(|calls|, 8));
    if |calls| > 8 { RawIsPayload(calls, 8); }
  }

  /** What the source may deliver: up to 65530 bytes less the padding while framing, up to 65536 after. */
  lemma {:induction false} RoomForReads(calls: seq<Read>)
    ensures Legal(calls) <==>
            forall i :: 0 <= i < |calls| ==> |calls[i].data| <= (if i < 8 then 65530 - calls[i].padding as int else 65536)
  {
  }

  /** Framing adds at most 3 + 255 bytes to each of the first eight reads. */
  lemma {:induction false} Overhead(calls: seq<Read>, k: nat)
    requires Legal(calls) && k <= |calls|
    ensures |Payload(calls, k)| <= |Encoded(calls, k)|
    ensures |Encoded(calls, k)| <= |Payload(calls, k)| + (8 - Min(k, 8)) * (3 + 255)
    decreases |calls| - k
  {
    if k < |calls| { Overhead(calls, k + 1); }
  }

  // ---------- Truncation ----------

  function WireSize(r: Read, k: nat): nat {
    if k >= NUM_FIRST_PADDINGS || r.data == [] then |r.data| else 3 + |r.data| + r.padding as nat
  }

  lemma {:induction false} FrameSize(calls: seq<Read>, k: nat)
    requires Legal(calls) && k < |calls|
    ensures |Encoded(calls, k)| == WireSize(calls[k], k) + |Encoded(calls, k + 1)|
  {
  }

  /** How many application bytes lie within the first c wire bytes. */
  function Within(calls: seq<Read>, k: nat, c: nat): nat
    requires k <= |calls|
    decreases |calls| - k
  {
    if k == |calls| then 0
    else
      var n, size := |calls[k].data|, WireSize(calls[k], k);
      if c >= size then n + Within(calls, k + 1, c - size)
      else if k >= NUM_FIRST_PADDINGS then c
      else Min(Max(c - 3, 0), n)
  }

  /** The cut leaves part, but not all, of some frame's padding. */
  predicate CutsPadding(calls: seq<Read>, k: nat, c: nat)
    requires k <= |calls|
    decreases |calls| - k
  {
    k < |calls| && k < NUM_FIRST_PADDINGS &&
    var size := WireSize(calls[k], k);
    if c < size then 3 + |calls[k].data| < c else CutsPadding(calls, k + 1, c - size)
  }

  lemma {:induction false} WithinRaw(calls: seq<Read>, k: nat, c: nat)
    requires NUM_FIRST_PADDINGS <= k <= |calls|
    ensures Within(calls, k, c) == Min(c, |Payload(calls, k)|)
    decreases |calls| - k
  {
    if k < |calls| && c >= |calls[k].data| { WithinRaw(calls, k + 1, c - |calls[k].data|); }
  }

  /** The whole stream holds all the bytes and cuts no padding. */
  lemma {:induction false} WithinWhole(calls: seq<Read>, k: nat)
    requires Legal(calls) && k <= |calls|
    ensures Within(calls, k, |Encoded(calls, k)|) == |Payload(calls, k)| && !CutsPadding(calls, k, |Encoded(calls, k)|)
    decreases |calls| - k
  {
    if k < |calls| {
      WithinWhole(calls, k + 1);
      FrameSize(calls, k);
    }
  }

  /** What the copy is to report when its source ends with `end`, inside padding or elsewhere. */
  function CutError(inPadding: bool, end: ReadError): Option<ReadError> {
    if end != Eof then Some(end) else if inPadding then Some(UnexpectedEof) else None
  }

  lemma {:induction false} CutFrame(data: seq<Byte>, padding: Byte, c: nat, d: nat, end: ReadError)
    requires 0 < |data| < BUFFER_SIZE && d < NUM_FIRST_PADDINGS && c < 3 + |data| + padding as nat
    ensures Decoded(Frame(data, padding)[..c], end, d) ==
            (data[..Min(Max(c - 3, 0), |data|)], CutError(3 + |data| < c, end))
  {
    FrameShape(data, padding, []);
    var f := Frame(data, padding);
    assert f + [] == f;
    var b := f[..c];
    if c >= 3 {
      assert b[0] == f[0] && b[1] == f[1] && b[2] == f[2];
      if c - 3 < |data| {
        ShortPayload(b, end, d, Some(end));
        assert b[3..] == f[3..3 + |data|][..c - 3];
      } else {
        WholePayload(b, end, d, |data|, c - 3 - |data|);
        assert b[3..3 + |data|] == f[3..3 + |data|] == data == data[..|data|];
      }
    }
  }

  /** Decoding the reads from the k-th on, cut after c bytes and with d frames already counted, writes
      exactly the application bytes before the cut. An end of file is reported as unexpected exactly when
      the cut leaves part, but not all, of a frame's padding. */
  predicate Truncates(calls: seq<Read>, k: nat, d: nat, c: nat, end: ReadError)
    requires Legal(calls) && k <= |calls| && c <= |Encoded(calls, k)|
  {
    Within(calls, k, c) <= |Payload(calls, k)| &&
    Decoded(Encoded(calls, k)[..c], end, d) == (Payload(calls, k)[..Within(calls, k, c)], CutError(CutsPadding(calls, k, c), end))
  }

  lemma {:induction false} CutInRaw(calls: seq<Read>, k: nat, d: nat, c: nat, end: ReadError)
    requires Legal(calls) && k <= |calls| && c <= |Encoded(calls, k)| && InStep(calls, k, d)
    requires k == |calls| || k >= NUM_FIRST_PADDINGS
    ensures Truncates(calls, k, d, c, end)
  {
    if k < |calls| {
      RawIsPayload(calls, k);
      WithinRaw(calls, k, c);
    }
  }

  lemma {:induction false} CutAfterEmpty(calls: seq<Read>, k: nat, d: nat, c: nat, end: ReadError)
    requires Legal(calls) && k < |calls| && k < NUM_FIRST_PADDINGS && calls[k].data == []
    requires c <= |Encoded(calls, k + 1)| && Truncates(calls, k + 1, d, c, end)
    ensures c <= |Encoded(calls, k)| && Truncates(calls, k, d, c, end)
  {
    EmptyReadAddsNothing(calls, k);
  }

  lemma {:induction false} CutInFrame(calls: seq<Read>, k: nat, d: nat, c: nat, end: ReadError)
    requires Legal(calls) && k < |calls| && d <= k < NUM_FIRST_PADDINGS && calls[k].data != []
    requires c < WireSize(calls[k], k) && c <= |Encoded(calls, k)|
    ensures Truncates(calls, k, d, c, end)
  {
    var data, padding := calls[k].data, calls[k].padding;
    var f, rest := Frame(data, padding), Encoded(calls, k + 1);
    assert (f + rest)[..c] == f[..c];
    CutFrame(data, padding, c, d, end);
    var n := Min(Max(c - 3, 0), |data|);
    assert (data + Payload(calls, k + 1))[..n] == data[..n];
  }

  lemma {:induction false} DecodeAfterFrame(calls: seq<Read>, k: nat, d: nat, c: nat, end: ReadError)
    requires Legal(calls) && k < |calls| && d <= k < NUM_FIRST_PADDINGS && calls[k].data != [] && c <= |Encoded(calls, k + 1)|
    ensures var size, tail := WireSize(calls[k], k), Decoded(Encoded(calls, k + 1)[..c], end, d + 1);
            size + c <= |Encoded(calls, k)| &&
            Decoded(Encoded(calls, k)[..size + c], end, d) == (calls[k].data + tail.0, tail.1)
  {
    var data, padding, rest := calls[k].data, calls[k].padding, Encoded(calls, k + 1);
    var f := Frame(data, padding);
    assert (f + rest)[..|f| + c] == f + rest[..c];
    DecodeFrame(data, padding, rest[..c], end, d);
  }

  lemma {:induction false} WithinAfterFrame(calls: seq<Read>, k: nat, c: nat)
    requires k < |calls| && k < NUM_FIRST_PADDINGS && Within(calls, k + 1, c) <= |Payload(calls, k + 1)|
    ensures var size := WireSize(calls[k], k);
            Within(calls, k, size + c) == |calls[k].data| + Within(calls, k + 1, c) &&
            Within(calls, k, size + c) <= |Payload(calls, k)| &&
            Payload(calls, k)[..Within(calls, k, size + c)] == calls[k].data + Payload(calls, k + 1)[..Within(calls, k + 1, c)] &&
            CutsPadding(calls, k, size + c) == CutsPadding(calls, k + 1, c)
  {
  }

  lemma {:induction false} CutAfterFrame(calls: seq<Read>, k: nat, d: nat, c: nat, end: ReadError)
    requires Legal(calls) && k < |calls| && d <= k < NUM_FIRST_PADDINGS && calls[k].data != []
    requires c <= |Encoded(calls, k + 1)| && Truncates(calls, k + 1, d + 1, c, end)
    ensures var size := WireSize(calls[k], k);
            size + c <= |Encoded(calls, k)| && Truncates(calls, k, d, size + c, end)
  {
    DecodeAfterFrame(calls, k, d, c, end);
    WithinAfterFrame(calls, k, c);
  }

  /** The reads from the k-th on, decoded with d frames counted, are truncated safely at every cut. */
  ghost predicate AllCuts(calls: seq<Read>, k: nat, d: nat, end: ReadError)
    requires Legal(calls) && k <= |calls|
  {
    forall c: nat :: c <= |Encoded(calls, k)| ==> Truncates(calls, k, d, c, end)
  }

  lemma {:induction false} AllCutsInRaw(calls: seq<Read>, k: nat, d: nat, end: ReadError)
    requires Legal(calls) && k <= |calls| && InStep(calls, k, d) && (k == |calls| || k >= NUM_FIRST_PADDINGS)
    ensures AllCuts(calls, k, d, end)
  {
    forall c: nat | c <= |Encoded(calls, k)| ensures Truncates(calls, k, d, c, end) {
      CutInRaw(calls, k, d, c, end);
    }
  }

  lemma {:induction false} AllCutsAfterEmpty(calls: seq<Read>, k: nat, d: nat, end: ReadError)
    requires Legal(calls) && k < |calls| && k < NUM_FIRST_PADDINGS && calls[k].data == [] && AllCuts(calls, k + 1, d, end)
    ensures AllCuts(calls, k, d, end)
  {
    forall c: nat | c <= |Encoded(calls, k)| ensures Truncates(calls, k, d, c, end) {
      assert c <= |Encoded(calls, k + 1)| by { EmptyReadAddsNothing(calls, k); }
      CutAfterEmpty(calls, k, d, c, end);
    }
  }

  lemma {:induction false} AllCutsAfterFrame(calls: seq<Read>, k: nat, d: nat, end: ReadError)
    requires Legal(calls) && k < |calls| && d <= k < NUM_FIRST_PADDINGS && calls[k].data != []
    requires AllCuts(calls, k + 1, d + 1, end)
    ensures AllCuts(calls, k, d, end)
  {
    var size := WireSize(calls[k], k);
    forall c: nat | c <= |Encoded(calls, k)| ensures Truncates(calls, k, d, c, end) {
      if c < size {
        CutInFrame(calls, k, d, c, end);
      } else {
        assert c - size <= |Encoded(calls, k + 1)| by { FrameSize(calls, k); }
        CutAfterFrame(calls, k, d, c - size, end);
      }
    }
  }

  lemma {:induction false} InStepCuts(calls: seq<Read>, k: nat, d: nat, end: ReadError)
    requires Legal(calls) && k <= |calls| && d <= k && InStep(calls, k, d)
    ensures AllCuts(calls, k, d, end)
    decreases |calls| - k
  {
    if k == |calls| || k >= NUM_FIRST_PADDINGS {
      AllCutsInRaw(calls, k, d, end);
    } else if calls[k].data == [] {
      InStepCuts(calls, k + 1, d, end);
      AllCutsAfterEmpty(calls, k, d, end);
    } else {
      InStepCuts(calls, k + 1, d + 1, end);
      AllCutsAfterFrame(calls, k, d, end);
    }
  }

  /** The cut after the last byte is the round trip. */
  lemma {:induction false} WholeCutRecovers(calls: seq<Read>, end: ReadError)
    requires Legal(calls)
    ensures AllCuts(calls, 0, 0, end) ==>
              Decoded(Encoded(calls, 0), end, 0) == (Payload(calls, 0), if end == Eof then None else Some(end))
  {
    var bytes, payload := Encoded(calls, 0), Payload(calls, 0);
    WithinWhole(calls, 0);
    assert bytes[..|bytes|] == bytes && payload[..|payload|] == payload;
    assert AllCuts(calls, 0, 0, end) ==> Truncates(calls, 0, 0, |bytes|, end);
  }

  /** Cutting an encoded stream at any byte, and ending it there in any way, makes the decoder write exactly
      the application bytes before the cut, and report an end of file exactly when part, but not all, of a
      frame's padding is left. That holds of every cut exactly when the stream round-trips. */
  lemma {:induction false} Truncation(calls: seq<Read>, end: ReadError)
    requires Legal(calls)
    ensures AllCuts(calls, 0, 0, end) <==> !SkipsFrame(calls) || RawTail(calls) == []
  {
    InStepExactly(calls);
    if InStep(calls, 0, 0) {
      InStepCuts(calls, 0, 0, end);
    } else {
      WholeCutRecovers(calls, end);
      RoundTrip(calls, end);
    }
  }
}
