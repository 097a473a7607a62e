// What the playback path of Dvr.cpp, Demux.cpp and Filter.cpp does to its state, as functions, and
// what every run of it keeps.
module DemuxSpec {
  import opened Wrappers
  import opened PesStream

  // A message queue: a write that does not fit changes nothing.
  datatype Fmq = Fmq(data: seq<Byte>, size: nat) {
    predicate Fits(bytes: seq<Byte>) {
      |data| + |bytes| <= size
    }

    function Write(bytes: seq<Byte>): Fmq {
      if Fits(bytes) then this.(data := data + bytes) else this
    }
  }

  datatype FilterType = PES | TS

  // dataLength keeps the low 16 bits.
  datatype PesEvent = PesEvent(streamId: Byte, dataLength: int)

  function EventOf(pes: seq<Byte>): PesEvent
    requires 6 <= |pes|
  {
    PesEvent(pes[3], |pes| % 0x1_0000)
  }

  // mFilterOutput, mPesSizeLeft with mPesOutput, mFilterMQ and the events of mFilterEvent; and as
  // history what the handler was given, what the queue took, what its reader took out of it, and
  // how many writes failed.
  datatype FilterState = FilterState(
    output: seq<Byte>, pes: Pes, queue: Fmq, events: seq<PesEvent>,
    handled: seq<Packet>, written: seq<seq<Byte>>, drained: seq<Byte>, failures: nat)

  predicate FilterOk(f: FilterState) {
    && |f.output| % PACKET_SIZE == 0
    && (f.pes.left > 0 ==> 6 <= f.pes.left + |f.pes.out|)
  }

  // A complete PES packet is written and announced.  A failed write keeps the assembled bytes.
  function Finish(f: FilterState): (r: FilterState)
    requires f.pes.left == 0 && 6 <= |f.pes.out|
  {
    var out := f.pes.out;
    if f.queue.Fits(out) then
      f.(pes := IDLE, queue := f.queue.Write(out), events := f.events + [EventOf(out)], written := f.written + [out])
    else f.(failures := f.failures + 1)
  }

  // One packet in startPesFilterHandler.
  function HandlePacket(f: FilterState, p: Packet): (r: FilterState)
    requires f.pes.left > 0 ==> 6 <= f.pes.left + |f.pes.out|
    ensures r.pes.left > 0 ==> 6 <= r.pes.left + |r.pes.out|
    ensures r.output == f.output && r.handled == f.handled && r.queue.size == f.queue.size
  {
    var s := Feed(f.pes, p);
    if Skips(f.pes, p) || s.left > 0 then f.(pes := s) else Finish(f.(pes := s))
  }

  // The whole loop: it ends at the first failed write, and drops the packets behind it.
  function HandleFrom(f: FilterState, packets: seq<Packet>): (r: FilterState)
    requires f.pes.left > 0 ==> 6 <= f.pes.left + |f.pes.out|
    ensures r.pes.left > 0 ==> 6 <= r.pes.left + |r.pes.out|
    ensures f.failures <= r.failures <= f.failures + 1 && r.queue.size == f.queue.size
    decreases |packets|
  {
    if packets == [] then f
    else
      var f' := HandlePacket(f, packets[0]);
      if f'.failures > f.failures then f' else HandleFrom(f', packets[1..])
  }

  function HandlePes(f: FilterState): FilterState
    requires FilterOk(f)
  {
    HandleFrom(f, Blocks(f.output)).(output := [], handled := f.handled + Blocks(f.output))
  }

  // startFilterHandler.  The handler of plain TS filters does nothing.
  function Handle(f: FilterState, kind: FilterType): FilterState
    requires FilterOk(f)
  {
    if kind == PES then HandlePes(f) else f
  }

  // Without failures the handler does what Assemble does.
  lemma {:induction false} HandleAssembles(f: FilterState, packets: seq<Packet>)
    requires f.pes.left > 0 ==> 6 <= f.pes.left + |f.pes.out|
    requires HandleFrom(f, packets).failures == f.failures
    ensures var r := HandleFrom(f, packets);
            var (end, out) := Assemble(f.pes, packets);
            && r.pes == end && r.written == f.written + out
            && r.output == f.output && r.handled == f.handled && r.drained == f.drained && r.queue.size == f.queue.size
    decreases |packets|
  {
    if packets == [] {
    } else {
      var f' := HandlePacket(f, packets[0]);
      HandleAssembles(f', packets[1..]);
      var s := Feed(f.pes, packets[0]);
      if !(Skips(f.pes, packets[0]) || s.left > 0) {
        var out := Assemble(IDLE, packets[1..]).1;
        assert f.written + [s.out] + out == f.written + ([s.out] + out);
      }
    }
  }

  function Flat(parts: seq<seq<Byte>>): seq<Byte> {
    if parts == [] then [] else Flat(parts[..|parts| - 1]) + parts[|parts| - 1]
  }

  // The event of a PES packet: its stream id, and its length modulo 65536.
  predicate Announces(e: PesEvent, pes: seq<Byte>) {
    6 <= |pes| && e.streamId == pes[3] && 0 <= e.dataLength < 65536 && (|pes| - e.dataLength) % 65536 == 0
  }

  // Everything the queue took is in it or was read from it, and has its event.
  ghost predicate Delivered(f: FilterState) {
    && f.drained + f.queue.data == Flat(f.written)
    && |f.events| == |f.written|
    && (forall i :: 0 <= i < |f.written| ==> Announces(f.events[i], f.written[i]))
  }

  lemma {:induction false} DeliverFinished(f: FilterState)
    requires f.pes.left == 0 && 6 <= |f.pes.out| && Delivered(f)
    ensures Delivered(Finish(f))
  {
    var w := f.written + [f.pes.out];
    assert w[..|w| - 1] == f.written;
    Regroup(f.drained, f.queue.data, f.pes.out);
  }

  lemma {:induction false} DeliverOne(f: FilterState, p: Packet)
    requires f.pes.left > 0 ==> 6 <= f.pes.left + |f.pes.out|
    requires Delivered(f)
    ensures Delivered(HandlePacket(f, p))
  {
    var s := Feed(f.pes, p);
    if !Skips(f.pes, p) && s.left == 0 {
      DeliverFinished(f.(pes := s));
    }
  }

  lemma {:induction false} DeliverAll(f: FilterState, packets: seq<Packet>)
    requires f.pes.left > 0 ==> 6 <= f.pes.left + |f.pes.out|
    requires Delivered(f)
    ensures Delivered(HandleFrom(f, packets))
    decreases |packets|
  {
    if packets == [] {
    } else {
      DeliverOne(f, packets[0]);
      var f' := HandlePacket(f, packets[0]);
      if f'.failures <= f.failures {
        DeliverAll(f', packets[1..]);
      }
    }
  }

  // More bytes than the first PES packet of them announces: a PES packet whose write failed.
  predicate Stale(p: Pes) {
    6 <= |p.out| && Word(p.out[4], p.out[5]) + 6 <= |p.out|
  }

  // Something in it is no PES packet.
  predicate Spoiled(written: seq<seq<Byte>>) {
    written != [] && (!IsPes(written[|written| - 1]) || Spoiled(written[..|written| - 1]))
  }

  lemma {:induction false} SpoiledIff(written: seq<seq<Byte>>)
    ensures Spoiled(written) <==> exists i :: 0 <= i < |written| && !IsPes(written[i])
  {
    if written == [] {
    } else {
      SpoiledIff(written[..|written| - 1]);
    }
  }

  // The mark of a failure: something that is no PES packet was written, or fewer PES packets than
  // were completed, with the bytes of a lost one still there.
  predicate Failed(f: FilterState, completed: nat) {
    Spoiled(f.written) || (|f.written| < completed && Stale(f.pes))
  }

  lemma StaleStays(s: Pes, p: Packet)
    requires Stale(s)
    ensures Stale(Feed(s, p))
    ensures !Skips(s, p) ==> !IsPes(Feed(s, p).out)
  {
    if !Skips(s, p) {
      var s' := Feed(s, p);
      assert |s'.out| > |s.out| && s'.out[4] == s.out[4] && s'.out[5] == s.out[5];
    }
  }

  lemma FailedStays(f: FilterState, p: Packet, completed: nat)
    requires f.pes.left > 0 ==> 6 <= f.pes.left + |f.pes.out|
    requires Failed(f, completed)
    ensures Failed(HandlePacket(f, p), completed)
  {
    var f', s := HandlePacket(f, p), Feed(f.pes, p);
    if f'.written != f.written {
      assert f'.written[..|f'.written| - 1] == f.written;
    }
    if !Spoiled(f.written) {
      StaleStays(f.pes, p);
    }
  }

  lemma {:induction false} FailedForGood(f: FilterState, packets: seq<Packet>, completed: nat)
    requires f.pes.left > 0 ==> 6 <= f.pes.left + |f.pes.out|
    requires Failed(f, completed)
    ensures Failed(HandleFrom(f, packets), completed)
    decreases |packets|
  {
    if packets == [] {
    } else {
      FailedStays(f, packets[0], completed);
      var f' := HandlePacket(f, packets[0]);
      if f'.failures <= f.failures {
        FailedForGood(f', packets[1..], completed);
      }
    }
  }

  lemma {:induction false} FlatBoth(a: seq<seq<Byte>>, b: seq<seq<Byte>>)
    ensures |Flat(a + b)| == |Flat(a)| + |Flat(b)|
  {
    if b == [] {
      assert a + b == a;
    } else {
      assert (a + b)[..|a + b| - 1] == a + b[..|b| - 1];
      FlatBoth(a, b[..|b| - 1]);
    }
  }

  // A first failure: some PES packet was completed that is not written, and the queue has no room
  // for all that were completed.
  lemma {:induction false} FirstFailure(f: FilterState, packets: seq<Packet>)
    requires f.pes.left > 0 ==> 6 <= f.pes.left + |f.pes.out|
    requires Assembling(f.pes) && HandleFrom(f, packets).failures > f.failures
    ensures var r, out := HandleFrom(f, packets), Assemble(f.pes, packets).1;
            && |r.written| < |f.written| + |out| && Stale(r.pes)
            && f.queue.size < |f.queue.data| + |Flat(out)|
    decreases |packets|
  {
    var f', s, rest := HandlePacket(f, packets[0]), Feed(f.pes, packets[0]), packets[1..];
    StepAssembles(f.pes, packets[0]);
    if Skips(f.pes, packets[0]) || s.left > 0 {
      FirstFailure(f', rest);
    } else {
      var more := Assemble(IDLE, rest).1;
      FlatBoth([s.out], more);
      assert Flat([s.out]) == s.out;
      if f'.failures == f.failures {
        FirstFailure(f', rest);
      }
    }
  }

  // All filters with their PIDs and types, and the ids of the playback filters in the order of
  // the set.
  datatype Config = Config(ids: seq<nat>, tpid: map<nat, int>, kind: map<nat, FilterType>) {
    ghost predicate Ok() {
      && tpid.Keys == kind.Keys && (forall i :: 0 <= i < |ids| ==> ids[i] in tpid)
      && (forall i, j :: 0 <= i < j < |ids| ==> ids[i] < ids[j])
    }
  }

  // Of the playback filters with the PID, id is the first in the order of the set: it alone gets
  // the packet.
  predicate FirstWith(c: Config, id: nat, pid: int)
    requires c.Ok()
  {
    id in c.ids && c.tpid[id] == pid && forall j :: j in c.ids && j < id ==> c.tpid[j] != pid
  }

  // startBroadcastTsFilter on one packet, for filter id.
  function Route(c: Config, id: nat, f: FilterState, p: Packet): FilterState
    requires c.Ok()
  {
    if FirstWith(c, id, Pid(p)) then f.(output := f.output + p) else f
  }

  // readPlaybackFMQ on several packets.
  function RouteAll(c: Config, id: nat, f: FilterState, packets: seq<Packet>): FilterState
    requires c.Ok()
    decreases |packets|
  {
    if packets == [] then f else RouteAll(c, id, Route(c, id, f, packets[0]), packets[1..])
  }

  // startBroadcastFilterDispatcher.
  function Dispatch(c: Config, id: nat, f: FilterState): FilterState
    requires c.Ok() && id in c.kind && FilterOk(f)
  {
    if id in c.ids then Handle(f, c.kind[id]) else f
  }
}
