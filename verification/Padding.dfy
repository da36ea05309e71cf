/** The Naive padding stream codec (flushingIoCopy in forwardproxy.go): the first eight reads are framed
    with a three-byte header and zero padding, later reads are raw. */
module Padding {
  import opened Net

  newtype Byte = x: int | 0 <= x < 256

  const NUM_FIRST_PADDINGS := 8
  const BUFFER_SIZE := 65536

  /** One call of src.Read on the sending side, with the padding size drawn for it. */
  datatype Read = Read(data: seq<Byte>, padding: Byte)

  /** How a source ends, and what a read of it can report. */
  datatype ReadError = Eof | UnexpectedEof | Broken(code: nat)

  /** Room offered to the k-th read: `buf[3:65536-3-padding]` while framing, the whole buffer after. */
  function Capacity(k: nat, padding: Byte): nat {
    if k < NUM_FIRST_PADDINGS then BUFFER_SIZE - 6 - padding as int else BUFFER_SIZE
  }

  /** The io.Reader contract: no read delivers more than it was offered room for. */
  predicate Legal(calls: seq<Read>) {
    forall i :: 0 <= i < |calls| ==> |calls[i].data| <= Capacity(i, calls[i].padding)
  }

  function Zeros(n: nat): (r: seq<Byte>)
    ensures |r| == n && forall i :: 0 <= i < n ==> r[i] == 0
  {
    if n == 0 then [] else Zeros(n - 1) + [0]
  }

  function Header(n: nat, padding: Byte): seq<Byte>
    requires n < BUFFER_SIZE
  {
    [(n / 256) as Byte, (n % 256) as Byte, padding]
  }

  function Frame(data: seq<Byte>, padding: Byte): seq<Byte>
    requires |data| < BUFFER_SIZE
  {
    Header(|data|, padding) + data + Zeros(padding as nat)
  }

  /** What one read puts on the wire; an empty read puts nothing but still counts. */
  function Wire(r: Read, k: nat): seq<Byte>
    requires |r.data| <= Capacity(k, r.padding)
  {
    if k >= NUM_FIRST_PADDINGS || r.data == [] then r.data else Frame(r.data, r.padding)
  }

  /** The wire bytes of the reads from the k-th on. */
  function Encoded(calls: seq<Read>, k: nat): seq<Byte>
    requires Legal(calls) && k <= |calls|
    decreases |calls| - k
  {
    if k == |calls| then [] else Wire(calls[k], k) + Encoded(calls, k + 1)
  }

  /** The application bytes of the reads from the k-th on. */
  function Payload(calls: seq<Read>, k: nat): seq<Byte>
    requires k <= |calls|
    decreases |calls| - k
  {
    if k == |calls| then [] else calls[k].data + Payload(calls, k + 1)
  }

  /** The error the copy returns when its source ends: EOF is success. */
  function Reported(e: ReadError): Option<ReadError> {
    if e.Eof? then None else Some(e)
  }

  /** What io.ReadFull reports after delivering `got` of `want` bytes. */
  function FullError(want: nat, got: nat, end: ReadError): Option<ReadError> {
    if got == want then None else if got > 0 && end.Eof? then Some(UnexpectedEof) else Some(end)
  }

  function Min(a: int, b: int): int {
    if a < b then a else b
  }

  /** The decoder's output and error on `bytes` followed by `end`, with k frames already consumed.
      A short header, and a short payload, end the copy as if the source had ended there. */
  function Decoded(bytes: seq<Byte>, end: ReadError, k: nat): (seq<Byte>, Option<ReadError>)
    decreases |bytes|, NUM_FIRST_PADDINGS - k
  {
    if k >= NUM_FIRST_PADDINGS then (bytes, Reported(end))
    else if |bytes| < 3 then ([], Reported(end))
    else
      var n, padding, rest := bytes[0] as nat * 256 + bytes[1] as nat, bytes[2] as nat, bytes[3..];
      if n == 0 then Decoded(rest, end, k + 1)
      else if |rest| < n then (rest, Reported(end))
      else
        var junk := Min(padding, |rest| - n);
        var tail := Decoded(rest[n + junk..], end, k + 1);
        if junk == padding then (rest[..n] + tail.0, tail.1)
        else (rest[..n], Reported(FullError(padding, junk, end).value))
  }

  /** The bytes stop after some, but not all, of the padding of one of the first eight frames. */
  predicate EndsInPadding(bytes: seq<Byte>, k: nat)
    decreases |bytes|
  {
    k < 8 && |bytes| >= 3 &&
    var n, padding, rest := bytes[0] as nat * 256 + bytes[1] as nat, bytes[2] as nat, bytes[3..];
    if n == 0 then EndsInPadding(rest, k + 1)
    else |rest| > n && (if |rest| < n + padding then true else EndsInPadding(rest[n + padding..], k + 1))
  }

  /** Whatever the bytes: a source that breaks is reported as it broke; an end of file is a success, unless it
      comes inside padding. */
  lemma {:induction false} DecodedError(bytes: seq<Byte>, end: ReadError, k: nat)
    ensures end != Eof ==> Decoded(bytes, end, k).1 == Some(end)
    ensures end == Eof ==> Decoded(bytes, end, k).1 == if EndsInPadding(bytes, k) then Some(UnexpectedEof) else None
    decreases |bytes|
  {
    if k < NUM_FIRST_PADDINGS && |bytes| >= 3 {
      var n, padding, rest := bytes[0] as nat * 256 + bytes[1] as nat, bytes[2] as nat, bytes[3..];
      if n == 0 {
        DecodedError(rest, end, k + 1);
      } else if n + padding <= |rest| {
        DecodedError(rest[n + padding..], end, k + 1);
      }
    }
  }

  // ---------- The loops ----------

  /** One read into buf[lo..]; the rest of the buffer keeps its stale contents. */
  method Fill(buf: array<Byte>, lo: nat, data: seq<Byte>)
    requires lo + |data| <= buf.Length
    modifies buf
    ensures buf[lo..lo + |data|] == data
    ensures buf[..lo] == old(buf[..lo]) && buf[lo + |data|..] == old(buf[lo + |data|..])
  {
    for i := 0 to |data|
      invariant buf[lo..lo + i] == data[..i]
      invariant buf[..lo] == old(buf[..lo]) && buf[lo + |data|..] == old(buf[lo + |data|..])
    {
      buf[lo + i] := data[i];
      assert buf[lo..lo + i + 1] == buf[lo..lo + i] + [data[i]];
      assert data[..i + 1] == data[..i] + [data[i]];
    }
    assert data[..|data|] == data;
  }

  /** Build one frame in place around the payload read at offset 3. */
  method FrameInPlace(buf: array<Byte>, r: Read) returns (nr: nat)
    requires buf.Length == BUFFER_SIZE && 0 < |r.data| <= Capacity(0, r.padding)
    modifies buf
    ensures nr <= BUFFER_SIZE - 3 && buf[..nr] == Frame(r.data, r.padding)
  {
    Fill(buf, 3, r.data);
    nr := |r.data|;
    buf[0] := (nr / 256) as Byte;
    buf[1] := (nr % 256) as Byte;
    buf[2] := r.padding;
    assert buf[3..3 + nr] == r.data;
    ghost var head := buf[..3 + nr];
    for i := 0 to r.padding as int
      invariant buf[..3 + nr] == head
      invariant forall j :: 3 + nr <= j < 3 + nr + i ==> buf[j] == 0
    {
      buf[3 + nr + i] := 0;
    }
    assert head == Header(nr, r.padding) + r.data;
    assert buf[3 + nr..3 + nr + r.padding as int] == Zeros(r.padding as nat);
    nr := nr + 3 + r.padding as int;
    assert buf[..nr] == head + Zeros(r.padding as nat);
  }

  /** The AddPadding copy; `calls` is everything the source delivers, up to its end. */
  method AddPadding(calls: seq<Read>, buf: array<Byte>) returns (out: seq<Byte>)
    requires buf.Length == BUFFER_SIZE && Legal(calls)
    modifies buf
    ensures out == Encoded(calls, 0)
  {
    out := [];
    var numPadding := 0;
    for i := 0 to |calls|
      invariant numPadding == Min(i, NUM_FIRST_PADDINGS)
      invariant out + Encoded(calls, i) == Encoded(calls, 0)
    {
      ghost var before := out;
      if numPadding < NUM_FIRST_PADDINGS {
        numPadding := numPadding + 1;
        if |calls[i].data| > 0 {
          var nr := FrameInPlace(buf, calls[i]);
          out := out + buf[..nr];
        }
      } else {
        Fill(buf, 0, calls[i].data);
        out := out + buf[0..|calls[i].data|];
      }
      assert out == before + Wire(calls[i], i);
      Associate(before, Wire(calls[i], i), Encoded(calls, i + 1));
    }
  }

  lemma Associate(a: seq<Byte>, b: seq<Byte>, c: seq<Byte>)
    ensures (a + b) + c == a + (b + c)
  {
  }

  /** io.ReadFull(src, dst[:want]) at position pos of a source that ends with `end`. */
  method ReadFull(stream: seq<Byte>, pos: nat, end: ReadError, dst: array<Byte>, want: nat) returns (got: nat, er: Option<ReadError>)
    requires pos <= |stream| && want <= dst.Length
    modifies dst
    ensures got == Min(want, |stream| - pos) && er == FullError(want, got, end)
    ensures dst[..got] == stream[pos..pos + got] && dst[got..] == old(dst[got..])
  {
    got := Min(want, |stream| - pos);
    Fill(dst, 0, stream[pos..pos + got]);
    er := FullError(want, got, end);
  }

  /** One framed read explains the decoder's view of the remaining bytes: what was written, and
      either the reported error or the bytes left for the next read. */
  predicate Explains(bytes: seq<Byte>, end: ReadError, k: nat, written: seq<Byte>, er: Option<ReadError>, left: seq<Byte>) {
    Decoded(bytes, end, k) ==
      if er.Some? then (written, Reported(er.value)) else (written + Decoded(left, end, k + 1).0, Decoded(left, end, k + 1).1)
  }

  lemma {:induction false} ShortHeader(bytes: seq<Byte>, end: ReadError, k: nat, er: Option<ReadError>)
    requires k < NUM_FIRST_PADDINGS && |bytes| < 3 && (er.None? || er == Some(end))
    ensures Explains(bytes, end, k, [], er, [])
  {
    assert [] + Decoded([], end, k + 1).0 == Decoded([], end, k + 1).0;
  }

  lemma {:induction false} ShortPayload(bytes: seq<Byte>, end: ReadError, k: nat, er: Option<ReadError>)
    requires k < NUM_FIRST_PADDINGS && |bytes| >= 3 && (er.None? || er == Some(end))
    requires |bytes| - 3 < bytes[0] as nat * 256 + bytes[1] as nat
    ensures Explains(bytes, end, k, bytes[3..], er, [])
  {
    assert bytes[3..] + Decoded([], end, k + 1).0 == bytes[3..];
  }

  lemma {:induction false} WholePayload(bytes: seq<Byte>, end: ReadError, k: nat, n: nat, junk: nat)
    requires k < NUM_FIRST_PADDINGS && |bytes| >= 3 + n && n == bytes[0] as nat * 256 + bytes[1] as nat
    requires junk == if n == 0 then 0 else Min(bytes[2] as nat, |bytes| - 3 - n)
    ensures Explains(bytes, end, k, bytes[3..3 + n],
                     if n == 0 then None else FullError(bytes[2] as nat, junk, end), bytes[3 + n + junk..])
  {
    var rest := bytes[3..];
    assert rest[..n] == bytes[3..3 + n] && rest[n + junk..] == bytes[3 + n + junk..];
    if n == 0 { assert [] + Decoded(rest, end, k + 1).0 == Decoded(rest, end, k + 1).0; }
  }

  /** The payload, and the padding unless the payload is empty. */
  method ReadPayload(stream: seq<Byte>, at: nat, end: ReadError, buf: array<Byte>, want: nat, padding: nat)
    returns (nr: nat, er: Option<ReadError>, next: nat)
    requires at <= |stream| && want <= buf.Length && padding <= 256
    modifies buf
    ensures nr == Min(want, |stream| - at) && buf[..nr] == stream[at..at + nr]
    ensures nr > 0 ==> next == at + nr + Min(padding, |stream| - at - nr) && er == FullError(padding, next - at - nr, end)
    ensures nr == 0 ==> next == at && er == FullError(want, 0, end)
  {
    nr, er := ReadFull(stream, at, end, buf, want);
    next := at + nr;
    if nr > 0 {
      var junk := new Byte[256];
      var skipped: nat;
      skipped, er := ReadFull(stream, next, end, junk, padding);
      next := next + skipped;
    }
  }

  lemma {:induction false} PayloadExplains(bytes: seq<Byte>, end: ReadError, k: nat, nr: nat, er: Option<ReadError>, used: nat)
    requires k < NUM_FIRST_PADDINGS && |bytes| >= 3
    requires nr == Min(bytes[0] as nat * 256 + bytes[1] as nat, |bytes| - 3)
    requires nr > 0 ==> used == 3 + nr + Min(bytes[2] as nat, |bytes| - 3 - nr) && er == FullError(bytes[2] as nat, used - 3 - nr, end)
    requires nr == 0 ==> used == 3 && er == FullError(bytes[0] as nat * 256 + bytes[1] as nat, 0, end)
    ensures Explains(bytes, end, k, bytes[3..3 + nr], er, bytes[used..])
  {
    if nr == bytes[0] as nat * 256 + bytes[1] as nat {
      WholePayload(bytes, end, k, nr, used - 3 - nr);
    } else {
      assert bytes[used..] == [] && bytes[3..] == bytes[3..3 + nr];
      ShortPayload(bytes, end, k, er);
    }
  }

  method Unframe(stream: seq<Byte>, pos: nat, end: ReadError, buf: array<Byte>, ghost k: nat)
    returns (nr: nat, er: Option<ReadError>, next: nat)
    requires buf.Length == BUFFER_SIZE && pos <= |stream| && k < NUM_FIRST_PADDINGS
    modifies buf
    ensures pos <= next <= |stream| && nr <= BUFFER_SIZE
    ensures Explains(stream[pos..], end, k, buf[..nr], er, stream[next..])
  {
    ghost var bytes := stream[pos..];
    nr, er := ReadFull(stream, pos, end, buf, 3);
    next := pos + nr;
    if nr == 0 {
      ShortHeader(bytes, end, k, er);
      return;
    }
    var want, padding := buf[0] as nat * 256 + buf[1] as nat, buf[2] as nat;
    if nr < 3 {
      nr, er := ReadFull(stream, next, end, buf, want);
      ShortHeader(bytes, end, k, er);
      return;
    }
    assert buf[0] == buf[..3][0] == bytes[0] && buf[1] == buf[..3][1] == bytes[1] && buf[2] == buf[..3][2] == bytes[2];
    nr, er, next := ReadPayload(stream, next, end, buf, want, padding);
    assert buf[..nr] == bytes[3..3 + nr] && stream[next..] == bytes[next - pos..];
    PayloadExplains(bytes, end, k, nr, er, next - pos);
  }

  /** One read of the RemovePadding copy: framed for the first eight, raw after. A raw read delivers
      any number of bytes that fit. */
  method ReadOnce(stream: seq<Byte>, pos: nat, end: ReadError, buf: array<Byte>, numPadding: nat)
    returns (nr: nat, er: Option<ReadError>, next: nat)
    requires buf.Length == BUFFER_SIZE && pos <= |stream|
    modifies buf
    ensures pos <= next <= |stream| && nr <= BUFFER_SIZE
    ensures numPadding >= NUM_FIRST_PADDINGS && er.None? ==> pos < next
    ensures Explains(stream[pos..], end, numPadding, buf[..nr], er, stream[next..])
  {
    if numPadding < NUM_FIRST_PADDINGS {
      nr, er, next := Unframe(stream, pos, end, buf, numPadding);
    } else if pos == |stream| {
      nr, er, next := 0, Some(end), pos;
      assert stream[pos..] == buf[..nr];
    } else {
      nr :| 0 < nr <= BUFFER_SIZE && pos + nr <= |stream|;
      Fill(buf, 0, stream[pos..pos + nr]);
      er, next := None, pos + nr;
      assert stream[pos..] == buf[..nr] + stream[next..];
    }
  }

  /** Writing `out` and decoding `left` amounts to `goal`. */
  predicate Completes(out: seq<Byte>, left: seq<Byte>, end: ReadError, k: nat, goal: (seq<Byte>, Option<ReadError>)) {
    (out + Decoded(left, end, k).0, Decoded(left, end, k).1) == goal
  }

  lemma {:induction false} ReadCompletes(out: seq<Byte>, bytes: seq<Byte>, end: ReadError, k: nat,
      written: seq<Byte>, er: Option<ReadError>, left: seq<Byte>, goal: (seq<Byte>, Option<ReadError>))
    requires k <= NUM_FIRST_PADDINGS && Completes(out, bytes, end, k, goal) && Explains(bytes, end, k, written, er, left)
    ensures er.None? ==> Completes(out + written, left, end, Min(k + 1, NUM_FIRST_PADDINGS), goal)
    ensures er.Some? ==> (out + written, Reported(er.value)) == goal
  {
    Associate(out, written, Decoded(left, end, k + 1).0);
    if k == NUM_FIRST_PADDINGS { assert Decoded(left, end, k) == Decoded(left, end, k + 1); }
  }

  /** The RemovePadding copy, from a buffer with arbitrary stale contents. */
  method RemovePadding(stream: seq<Byte>, end: ReadError, buf: array<Byte>) returns (out: seq<Byte>, err: Option<ReadError>)
    requires buf.Length == BUFFER_SIZE
    modifies buf
    ensures (out, err) == Decoded(stream, end, 0)
    ensures end != Eof ==> err == Some(end)
    ensures end == Eof ==> err == if EndsInPadding(stream, 0) then Some(UnexpectedEof) else None
  {
    out, err := [], None;
    var pos, numPadding: nat := 0, 0;
    ghost var goal := Decoded(stream, end, 0);
    assert stream[0..] == stream && [] + goal.0 == goal.0;
    while true
      invariant 0 <= pos <= |stream| && 0 <= numPadding <= NUM_FIRST_PADDINGS
      invariant Completes(out, stream[pos..], end, numPadding, goal)
      decreases NUM_FIRST_PADDINGS - numPadding, |stream| - pos
    {
      var nr, er, next := ReadOnce(stream, pos, end, buf, numPadding);
      ReadCompletes(out, stream[pos..], end, numPadding, buf[..nr], er, stream[next..], goal);
      if numPadding < NUM_FIRST_PADDINGS { numPadding := numPadding + 1; }
      assert out + buf[..0] == out;
      if nr > 0 { out := out + buf[..nr]; }
      pos := next;
      if er.Some? {
        err := Reported(er.value);
        break;
      }
    }
    DecodedError(stream, end, 0);
  }
}
