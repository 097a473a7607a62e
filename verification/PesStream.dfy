// Transport packets and the PES packets carried in them, as the filters of Filter.cpp see them
// (sections 2.4.3.2 and 2.4.3.6 of ISO/IEC 13818-1).
module PesStream {

  type Byte = x: int | 0 <= x < 256

  const PACKET_SIZE := 188
  const PAYLOAD := 184            // after a header of 4 bytes

  type Packet = s: seq<Byte> | |s| == 188 witness seq(188, i => 0)

  // A big-endian number of two bytes.
  function Word(high: int, low: int): int {
    high * 256 + low
  }

  function Pid(p: Packet): int {
    Word(p[1] % 32, p[2])
  }

  // The low 13 bits of the second and third byte.
  lemma PidIs(p: Packet)
    ensures Pid(p) == (256 * (p[1] as int) + (p[2] as int)) % 0x2000
  {
    var high: int := p[1];
    assert 256 * high + p[2] as int == high / 32 * 0x2000 + Pid(p);
  }

  function Payload(p: Packet): (s: seq<Byte>)
    ensures |s| == PAYLOAD
  {
    p[4..]
  }

  lemma PayloadAt(bytes: seq<Byte>, i: nat, n: nat)
    requires i + PACKET_SIZE <= |bytes| && n <= PAYLOAD
    ensures bytes[i + 4..i + 4 + n] == Payload(bytes[i..i + PACKET_SIZE])[..n]
  {
  }

  predicate StartsPes(p: Packet) {
    p[4] == 0 && p[5] == 0 && p[6] == 1
  }

  // Of the whole PES packet, header included.
  function PesSize(p: Packet): nat {
    Word(p[8], p[9]) + 6
  }

  // How much of the PES packet under assembly is missing, and what is there.
  datatype Pes = Pes(left: nat, out: seq<Byte>)

  const IDLE := Pes(0, [])

  // One packet.  A PES packet is complete when nothing is left afterwards and Skips did not hold.
  predicate Skips(s: Pes, p: Packet) {
    s.left == 0 && !StartsPes(p)
  }

  function Feed(s: Pes, p: Packet): Pes {
    if Skips(s, p) then s
    else
      var left := if s.left == 0 then PesSize(p) else s.left;
      var n := if left < PAYLOAD then left else PAYLOAD;
      Pes(left - n, s.out + Payload(p)[..n])
  }

  // All packets, when the filter queue takes everything: the state afterwards and the PES packets
  // that were completed.
  function Assemble(s: Pes, packets: seq<Packet>): (Pes, seq<seq<Byte>>)
    decreases |packets|
  {
    if packets == [] then (s, [])
    else
      var s' := Feed(s, packets[0]);
      if Skips(s, packets[0]) || s'.left > 0 then Assemble(s', packets[1..])
      else
        var (end, more) := Assemble(IDLE, packets[1..]);
        (end, [s'.out] + more)
  }

  lemma {:induction false} AssembleBoth(s: Pes, a: seq<Packet>, b: seq<Packet>)
    ensures var (mid, first) := Assemble(s, a);
            var (end, second) := Assemble(mid, b);
            Assemble(s, a + b) == (end, first + second)
    decreases |a|
  {
    if a == [] {
      assert a + b == b && [] + Assemble(s, b).1 == Assemble(s, b).1;
    } else {
      assert (a + b)[1..] == a[1..] + b;
      var s' := Feed(s, a[0]);
      var next := if Skips(s, a[0]) || s'.left > 0 then s' else IDLE;
      AssembleBoth(next, a[1..], b);
      var (mid, first) := Assemble(next, a[1..]);
      assert [s'.out] + first + Assemble(mid, b).1 == [s'.out] + (first + Assemble(mid, b).1);
    }
  }

  function Payloads(packets: seq<Packet>): (s: seq<Byte>)
    ensures |s| == PAYLOAD * |packets|
  {
    if packets == [] then [] else Payload(packets[0]) + Payloads(packets[1..])
  }

  // As many packets as the bytes need, the last one stuffed with anything.
  predicate Carries(packets: seq<Packet>, bytes: seq<Byte>) {
    && |packets| == (|bytes| + PAYLOAD - 1) / PAYLOAD
    && bytes <= Payloads(packets)
  }

  predicate IsPes(pes: seq<Byte>) {
    && 6 <= |pes| && pes[0] == 0 && pes[1] == 0 && pes[2] == 1
    && 256 * (pes[4] as int) + (pes[5] as int) + 6 == |pes|
  }

  // A packet outside any PES packet, or the packets of a whole PES packet.
  datatype Segment = Junk(packet: Packet) | Whole(pes: seq<Byte>, packets: seq<Packet>)

  predicate SegmentOk(g: Segment) {
    match g
    case Junk(p) => !StartsPes(p)
    case Whole(pes, packets) => IsPes(pes) && Carries(packets, pes)
  }

  function SegmentPackets(g: Segment): seq<Packet> {
    if g.Junk? then [g.packet] else g.packets
  }

  function StreamPackets(stream: seq<Segment>): seq<Packet> {
    if stream == [] then [] else SegmentPackets(stream[0]) + StreamPackets(stream[1..])
  }

  function StreamPes(stream: seq<Segment>): seq<seq<Byte>> {
    if stream == [] then []
    else (if stream[0].Whole? then [stream[0].pes] else []) + StreamPes(stream[1..])
  }

  // Inside a PES packet, exactly the missing bytes are taken, wherever the packets end.
  lemma {:induction false} RestIsTaken(s: Pes, rest: seq<Byte>, packets: seq<Packet>)
    requires 0 < s.left == |rest| && Carries(packets, rest)
    ensures Assemble(s, packets) == (IDLE, [s.out + rest])
    decreases |packets|
  {
    var p, n := packets[0], if s.left < PAYLOAD then s.left else PAYLOAD;
    assert Payloads(packets)[..n] == Payload(p)[..n] == rest[..n];
    if s.left <= PAYLOAD {
      assert packets[1..] == [] && rest[..n] == rest;
      assert Feed(s, p) == Pes(0, s.out + rest);
      assert Assemble(IDLE, packets[1..]) == (IDLE, []) && [s.out + rest] + [] == [s.out + rest];
    } else {
      assert Payloads(packets)[n..] == Payloads(packets[1..]);
      RestIsTaken(Feed(s, p), rest[n..], packets[1..]);
      assert s.out + rest[..n] + rest[n..] == s.out + rest;
    }
  }

  // A whole PES packet comes out behind whatever was left over before.
  lemma {:induction false} PesIsTaken(stale: seq<Byte>, pes: seq<Byte>, packets: seq<Packet>)
    requires IsPes(pes) && Carries(packets, pes)
    ensures Assemble(Pes(0, stale), packets) == (IDLE, [stale + pes])
  {
    var p := packets[0];
    assert forall i :: 0 <= i < 6 ==> Payloads(packets)[i] == Payload(p)[i] == pes[i];
    assert StartsPes(p) && PesSize(p) == |pes|;
    var begun := Pes(|pes|, stale);
    assert Feed(Pes(0, stale), p) == Feed(begun, p) && !Skips(begun, p);
    assert Assemble(Pes(0, stale), packets) == Assemble(begun, packets);
    RestIsTaken(begun, pes, packets);
  }

  // Round trip: the PES packets of a stream come out whole, in order, and nothing else does.
  lemma {:induction false} StreamRoundTrip(stream: seq<Segment>)
    requires forall i :: 0 <= i < |stream| ==> SegmentOk(stream[i])
    ensures Assemble(IDLE, StreamPackets(stream)) == (IDLE, StreamPes(stream))
  {
    if stream == [] {
    } else {
      var g := stream[0];
      StreamRoundTrip(stream[1..]);
      AssembleBoth(IDLE, SegmentPackets(g), StreamPackets(stream[1..]));
      match g
      case Junk(p) =>
        assert Assemble(IDLE, [p]) == (IDLE, []);
      case Whole(pes, packets) =>
        PesIsTaken([], pes, packets);
        assert [] + pes == pes;
    }
  }

  // Conversely nothing but PES packets with a matching length comes out, whatever comes in.
  ghost predicate Assembling(s: Pes) {
    && (s.left == 0 ==> s.out == [])
    && (s.left > 0 ==> PAYLOAD <= |s.out| && s.out[0] == 0 && s.out[1] == 0 && s.out[2] == 1
                       && Word(s.out[4], s.out[5]) + 6 == |s.out| + s.left)
  }

  // One packet either completes a PES packet or goes on assembling one.
  lemma {:induction false} StepAssembles(s: Pes, p: Packet)
    requires Assembling(s)
    ensures var s' := Feed(s, p);
            if Skips(s, p) || s'.left > 0 then Assembling(s') else IsPes(s'.out)
  {
    assert Payload(p)[0] == p[4] && Payload(p)[1] == p[5] && Payload(p)[2] == p[6];
    assert Payload(p)[4] == p[8] && Payload(p)[5] == p[9];
  }

  lemma {:induction false} OnlyPesComesOut(s: Pes, packets: seq<Packet>)
    requires Assembling(s)
    ensures Assembling(Assemble(s, packets).0)
    ensures forall i :: 0 <= i < |Assemble(s, packets).1| ==> IsPes(Assemble(s, packets).1[i])
    decreases |packets|
  {
    if packets == [] {
    } else {
      var p, s' := packets[0], Feed(s, packets[0]);
      StepAssembles(s, p);
      OnlyPesComesOut(if Skips(s, p) || s'.left > 0 then s' else IDLE, packets[1..]);
    }
  }

  // Cutting bytes into packets; what does not fill one remains.
  function Blocks(bytes: seq<Byte>): (r: seq<Packet>)
    ensures |r| == |bytes| / PACKET_SIZE
  {
    if |bytes| < PACKET_SIZE then [] else [bytes[..PACKET_SIZE]] + Blocks(bytes[PACKET_SIZE..])
  }

  lemma {:induction false} BlocksBoth(a: seq<Byte>, b: seq<Byte>)
    requires |a| % PACKET_SIZE == 0
    ensures Blocks(a + b) == Blocks(a) + Blocks(b)
  {
    if a == [] {
      assert a + b == b;
    } else {
      assert (a + b)[..PACKET_SIZE] == a[..PACKET_SIZE];
      assert (a + b)[PACKET_SIZE..] == a[PACKET_SIZE..] + b;
      BlocksBoth(a[PACKET_SIZE..], b);
    }
  }

  lemma {:induction false} BlocksOne(p: Packet)
    ensures Blocks(p) == [p]
  {
    assert p[..PACKET_SIZE] == p && Blocks(p[PACKET_SIZE..]) == [];
  }

  function OfPid(packets: seq<Packet>, pid: int): seq<Packet> {
    if packets == [] then []
    else (if Pid(packets[0]) == pid then [packets[0]] else []) + OfPid(packets[1..], pid)
  }

  lemma {:induction false} OfPidBoth(a: seq<Packet>, b: seq<Packet>, pid: int)
    ensures OfPid(a + b, pid) == OfPid(a, pid) + OfPid(b, pid)
  {
    if a == [] {
      assert a + b == b;
    } else {
      assert (a + b)[1..] == a[1..] + b;
      OfPidBoth(a[1..], b, pid);
    }
  }
}
