/** The two datagram pumps of a CONNECT-UDP association (native_udp_association.go). What the sockets and the
    stream deliver and report is given as sequences; a pump that has used up its input is still blocked. */
module Pumps {
  import opened Net
  import opened Padding
  import opened Datagram

  datatype Counters = Counters(
    malformed: nat, oversize: nat, udpRead: nat, udpWrite: nat, h3Read: nat, h3Write: nat)

  const NO_EVENTS := Counters(0, 0, 0, 0, 0, 0)

  datatype PumpError = Reported(code: nat) | ShortWrite | ContextDone

  // ---------- From the stream to the socket ----------

  datatype Receive = Datagram(bytes: seq<Byte>) | ReceiveFailed(code: nat)

  datatype WriteResult = Wrote(n: nat) | WriteFailed(code: nat)

  predicate Accepts(datagram: seq<Byte>) {
    Decode(datagram).Some? && |Decode(datagram).value| <= MAX_UDP_PAYLOAD
  }

  /** Payloads of the accepted datagrams among the first n, in order of arrival. */
  function Accepted(received: seq<Receive>, n: nat): seq<seq<Byte>>
    requires n <= |received|
  {
    if n == 0 then []
    else if received[n - 1].Datagram? && Accepts(received[n - 1].bytes)
    then Accepted(received, n - 1) + [Decode(received[n - 1].bytes).value]
    else Accepted(received, n - 1)
  }

  function DatagramCount(received: seq<Receive>, n: nat): nat
    requires n <= |received|
  {
    if n == 0 then 0 else DatagramCount(received, n - 1) + (if received[n - 1].Datagram? then 1 else 0)
  }

  lemma AcceptsExactlyCanonical(datagram: seq<Byte>)
    ensures Accepts(datagram) <==> exists p :: datagram == Encode(p) && |p| <= MAX_UDP_PAYLOAD
    ensures Accepts(datagram) <==> 1 <= |datagram| <= 65536 && datagram[0] == 0
  {
    if Decode(datagram).Some? { AcceptedExactlyCanonical(datagram, Decode(datagram).value); }
    if p :| datagram == Encode(p) && |p| <= MAX_UDP_PAYLOAD { AcceptedExactlyCanonical(datagram, p); }
    if datagram != [] && datagram[0] == 0 {
      assert datagram == [0] + datagram[1..];
      AcceptedExactlyCanonical(datagram, datagram[1..]);
    }
  }

  /** `pumpH3ToUDP`: `tried` are the writes in order, the first `delivered` of which succeeded. */
  method PumpH3ToUDP(received: seq<Receive>, writes: seq<WriteResult>)
    returns (tried: seq<seq<Byte>>, delivered: nat, c: Counters, consumed: nat, result: Option<PumpError>)
    requires |writes| >= |received|
    ensures |tried| <= consumed <= |received| && tried == Accepted(received, consumed)
    ensures DatagramCount(received, consumed) == delivered + c.malformed + c.udpWrite
    ensures |tried| == delivered + c.udpWrite && c.udpWrite <= 1
    ensures c.h3Read <= 1 && c.oversize == c.udpRead == c.h3Write == 0
    ensures forall j :: 0 <= j < |tried| ==> (writes[j] == Wrote(|tried[j]|) <==> j < delivered)
    ensures result.None? <==> c.udpWrite == 0 && c.h3Read == 0
    ensures result.None? ==> consumed == |received|
    ensures c.h3Read == 1 <==> consumed > 0 && received[consumed - 1].ReceiveFailed?
    ensures c.h3Read == 1 ==> result == Some(Reported(received[consumed - 1].code))
    ensures c.udpWrite == 1 ==> result == Some(if writes[delivered].Wrote? then ShortWrite else Reported(writes[delivered].code))
  {
    tried, delivered, c, consumed, result := [], 0, NO_EVENTS, 0, None;
    while consumed < |received|
      invariant consumed <= |received| && tried == Accepted(received, consumed) && result.None?
      invariant DatagramCount(received, consumed) == delivered + c.malformed
      invariant |tried| == delivered <= consumed && c == NO_EVENTS.(malformed := c.malformed)
      invariant forall j :: 0 <= j < |tried| ==> writes[j] == Wrote(|tried[j]|)
      invariant consumed > 0 ==> received[consumed - 1].Datagram?
    {
      var next := received[consumed];
      consumed := consumed + 1;
      if next.ReceiveFailed? {
        c := c.(h3Read := c.h3Read + 1);
        return tried, delivered, c, consumed, Some(Reported(next.code));
      }
      var payload := Decode(next.bytes);
      if payload.None? || |payload.value| > MAX_UDP_PAYLOAD {
        c := c.(malformed := c.malformed + 1);
        continue;
      }
      var written := writes[|tried|];
      tried := tried + [payload.value];
      if written.WriteFailed? {
        c := c.(udpWrite := c.udpWrite + 1);
        return tried, delivered, c, consumed, Some(Reported(written.code));
      }
      if written.n != |payload.value| {
        c := c.(udpWrite := c.udpWrite + 1);
        return tried, delivered, c, consumed, Some(ShortWrite);
      }
      delivered := delivered + 1;
    }
  }

  // ---------- From the socket to the stream ----------

  datatype UdpRead = Packet(bytes: seq<Byte>) | ReadFailed(code: nat)

  datatype SendResult = Sent | TooLarge | SendFailed(code: nat)

  /** The packets among the first n reads. */
  function Packets(arrivals: seq<UdpRead>, n: nat): seq<seq<Byte>>
    requires n <= |arrivals|
  {
    if n == 0 then []
    else if arrivals[n - 1].Packet? then Packets(arrivals, n - 1) + [arrivals[n - 1].bytes]
    else Packets(arrivals, n - 1)
  }

  /** Their encodings. */
  function Encodings(arrivals: seq<UdpRead>, n: nat): seq<seq<Byte>>
    requires n <= |arrivals|
  {
    if n == 0 then []
    else if arrivals[n - 1].Packet? then Encodings(arrivals, n - 1) + [Encode(arrivals[n - 1].bytes)]
    else Encodings(arrivals, n - 1)
  }

  function CountSent(sends: seq<SendResult>, n: nat): nat
    requires n <= |sends|
  {
    if n == 0 then 0 else CountSent(sends, n - 1) + (if sends[n - 1].Sent? then 1 else 0)
  }

  /** A read never fills more than the 65535-byte buffer. */
  predicate FitBuffer(arrivals: seq<UdpRead>) {
    forall i :: 0 <= i < |arrivals| && arrivals[i].Packet? ==> |arrivals[i].bytes| <= MAX_UDP_PAYLOAD
  }

  /** A packet is read into the reused buffer and copied out behind the context ID. */
  method ReadAndEncode(buffer: array<Byte>, packet: seq<Byte>) returns (datagram: seq<Byte>)
    requires |packet| <= buffer.Length
    modifies buffer
    ensures datagram == Encode(packet)
  {
    Fill(buffer, 0, packet);
    datagram := Encode(buffer[..|packet|]);
    assert buffer[..|packet|] == packet;
  }

  /** `pumpUDPToH3`: `tried` are the sends in order; `ended[j]` is whether the context was done after the j-th send. */
  method PumpUDPToH3(arrivals: seq<UdpRead>, sends: seq<SendResult>, ended: seq<bool>, buffer: array<Byte>)
    returns (tried: seq<seq<Byte>>, delivered: nat, c: Counters, consumed: nat, result: Option<PumpError>)
    requires |sends| >= |arrivals| && |ended| >= |arrivals| && FitBuffer(arrivals) && buffer.Length == MAX_UDP_PAYLOAD
    modifies buffer
    ensures |tried| <= consumed <= |arrivals| && tried == Encodings(arrivals, consumed)
    ensures |tried| == delivered + c.oversize + c.h3Write && c.h3Write <= 1
    ensures c.udpRead <= 1 && c.malformed == c.udpWrite == c.h3Read == 0
    ensures delivered == CountSent(sends, |tried|)
    ensures forall j :: 0 <= j < |tried| ==> (sends[j].SendFailed? <==> c.h3Write == 1 && j == |tried| - 1)
    ensures result.None? ==> consumed == |arrivals| && c.h3Write == 0 && c.udpRead == 0
    ensures c.udpRead == 1 <==> consumed > 0 && arrivals[consumed - 1].ReadFailed?
    ensures c.udpRead == 1 ==> result == Some(Reported(arrivals[consumed - 1].code))
    ensures c.h3Write == 1 ==> result == Some(Reported(sends[|tried| - 1].code))
    ensures forall j :: 0 <= j < |tried| && sends[j].Sent? && ended[j] ==> j == |tried| - 1 && result == Some(ContextDone)
    ensures result == Some(ContextDone) ==> tried != [] && sends[|tried| - 1].Sent? && ended[|tried| - 1]
  {
    tried, delivered, c, consumed, result := [], 0, NO_EVENTS, 0, None;
    while consumed < |arrivals|
      invariant consumed <= |arrivals| && tried == Encodings(arrivals, consumed) && result.None?
      invariant |tried| == delivered + c.oversize <= consumed && c == NO_EVENTS.(oversize := c.oversize)
      invariant delivered == CountSent(sends, |tried|)
      invariant forall j :: 0 <= j < |tried| ==> !sends[j].SendFailed? && !(sends[j].Sent? && ended[j])
      invariant consumed > 0 ==> arrivals[consumed - 1].Packet?
    {
      var next := arrivals[consumed];
      consumed := consumed + 1;
      if next.ReadFailed? {
        c := c.(udpRead := c.udpRead + 1);
        return tried, delivered, c, consumed, Some(Reported(next.code));
      }
      var datagram := ReadAndEncode(buffer, next.bytes);
      var j := |tried|;
      tried := tried + [datagram];
      if sends[j].TooLarge? {
        c := c.(oversize := c.oversize + 1);
        continue;
      }
      if sends[j].SendFailed? {
        c := c.(h3Write := c.h3Write + 1);
        return tried, delivered, c, consumed, Some(Reported(sends[j].code));
      }
      delivered := delivered + 1;
      if ended[j] { return tried, delivered, c, consumed, Some(ContextDone); }
    }
  }

  // ---------- End to end ----------

  function Arriving(datagrams: seq<seq<Byte>>): (r: seq<Receive>)
    ensures |r| == |datagrams| && forall i :: 0 <= i < |r| ==> r[i] == Datagram(datagrams[i])
  {
    seq(|datagrams|, i requires 0 <= i < |datagrams| => Datagram(datagrams[i]))
  }

  lemma {:induction false} AcceptedPrefix(received: seq<Receive>, more: seq<Receive>, n: nat)
    requires n <= |received| && received <= more
    ensures Accepted(more, n) == Accepted(received, n)
  {
    if n > 0 { AcceptedPrefix(received, more, n - 1); }
  }

  lemma {:induction false} AcceptedAppend(datagrams: seq<seq<Byte>>, packet: seq<Byte>)
    requires |packet| <= MAX_UDP_PAYLOAD
    ensures var more := datagrams + [Encode(packet)];
            Accepted(Arriving(more), |more|) == Accepted(Arriving(datagrams), |datagrams|) + [packet]
  {
    var more := datagrams + [Encode(packet)];
    AcceptedPrefix(Arriving(datagrams), Arriving(more), |datagrams|);
    assert Accepts(Encode(packet)) && Decode(Encode(packet)).value == packet by {
      AcceptedExactlyCanonical(Encode(packet), packet);
    }
    assert Arriving(more)[|more| - 1] == Datagram(Encode(packet));
  }

  /** The items whose datagram was sent, and not lost on the way. */
  function GotThrough(items: seq<seq<Byte>>, sends: seq<SendResult>, lost: seq<bool>): seq<seq<Byte>>
    requires |items| <= |sends| && |items| <= |lost|
  {
    if items == [] then []
    else
      var n := |items| - 1;
      if sends[n].Sent? && !lost[n] then GotThrough(items[..n], sends, lost) + [items[n]] else GotThrough(items[..n], sends, lost)
  }

  /** Encodings are tried packet by packet. */
  lemma {:induction false} EncodingsOfPackets(arrivals: seq<UdpRead>, n: nat)
    requires n <= |arrivals|
    ensures |Encodings(arrivals, n)| == |Packets(arrivals, n)| <= n
  {
    if n > 0 { EncodingsOfPackets(arrivals, n - 1); }
  }

  lemma {:induction false} GotThroughSnoc(items: seq<seq<Byte>>, item: seq<Byte>, sends: seq<SendResult>, lost: seq<bool>)
    requires |items| < |sends| && |items| < |lost|
    ensures GotThrough(items + [item], sends, lost) ==
            GotThrough(items, sends, lost) + (if sends[|items|].Sent? && !lost[|items|] then [item] else [])
  {
    assert (items + [item])[..|items|] == items;
  }

  /** One more packet and its encoding get through together, or not at all. */
  lemma {:induction false} OneMoreRelayed(datagrams: seq<seq<Byte>>, packets: seq<seq<Byte>>, packet: seq<Byte>,
                                          sends: seq<SendResult>, lost: seq<bool>)
    requires |datagrams| == |packets| < |sends| && |packets| < |lost| && |packet| <= MAX_UDP_PAYLOAD
    requires var d := GotThrough(datagrams, sends, lost); Accepted(Arriving(d), |d|) == GotThrough(packets, sends, lost)
    ensures var d := GotThrough(datagrams + [Encode(packet)], sends, lost);
            Accepted(Arriving(d), |d|) == GotThrough(packets + [packet], sends, lost)
  {
    GotThroughSnoc(datagrams, Encode(packet), sends, lost);
    GotThroughSnoc(packets, packet, sends, lost);
    AcceptedAppend(GotThrough(datagrams, sends, lost), packet);
  }

  /** The packets one side reads from its socket, except those too large to send, failed or lost, are in
      order exactly what the other side writes to its own. */
  lemma {:induction false} RelayIsFaithful(arrivals: seq<UdpRead>, n: nat, sends: seq<SendResult>, lost: seq<bool>)
    requires FitBuffer(arrivals) && n <= |arrivals| <= |sends| && |arrivals| <= |lost|
    ensures |Encodings(arrivals, n)| == |Packets(arrivals, n)| <= n
    ensures var datagrams := GotThrough(Encodings(arrivals, n), sends, lost);
            Accepted(Arriving(datagrams), |datagrams|) == GotThrough(Packets(arrivals, n), sends, lost)
  {
    EncodingsOfPackets(arrivals, n);
    if n > 0 {
      RelayIsFaithful(arrivals, n - 1, sends, lost);
      if arrivals[n - 1].Packet? {
        OneMoreRelayed(Encodings(arrivals, n - 1), Packets(arrivals, n - 1), arrivals[n - 1].bytes, sends, lost);
      }
    }
  }

  /** With no loss, as many get through as the sending pump counts as delivered. */
  lemma {:induction false} SentGetThrough(items: seq<seq<Byte>>, sends: seq<SendResult>, lost: seq<bool>)
    requires |items| <= |sends| && |items| <= |lost| && forall j :: 0 <= j < |items| ==> !lost[j]
    ensures |GotThrough(items, sends, lost)| == CountSent(sends, |items|)
  {
    if items != [] { SentGetThrough(items[..|items| - 1], sends, lost); }
  }
}
