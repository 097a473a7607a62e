// The objects of the playback path: Filter (Filter.cpp), Demux (Demux.cpp) and the playback Dvr
// (Dvr.cpp).  Each method is proved against the functions of DemuxSpec.
module TsDemux {
  import opened Wrappers
  import opened PesStream
  import opened DemuxSpec

  datatype Result = Success | InvalidState

  lemma {:induction false} HandleStep(f: FilterState, bytes: seq<Byte>, i: nat)
    requires f.pes.left > 0 ==> 6 <= f.pes.left + |f.pes.out|
    requires i + PACKET_SIZE <= |bytes|
    ensures var f' := HandlePacket(f, bytes[i..i + PACKET_SIZE]);
            HandleFrom(f, Blocks(bytes[i..])) ==
              if f'.failures > f.failures then f' else HandleFrom(f', Blocks(bytes[i + PACKET_SIZE..]))
  {
    assert bytes[i..][..PACKET_SIZE] == bytes[i..i + PACKET_SIZE];
    assert bytes[i..][PACKET_SIZE..] == bytes[i + PACKET_SIZE..];
    var rest := Blocks(bytes[i + PACKET_SIZE..]);
    assert Blocks(bytes[i..]) == [bytes[i..i + PACKET_SIZE]] + rest;
    assert Blocks(bytes[i..])[1..] == rest;
  }

  lemma {:induction false} HandleFromKeeps(f: FilterState, packets: seq<Packet>)
    requires f.pes.left > 0 ==> 6 <= f.pes.left + |f.pes.out|
    ensures HandleFrom(f, packets).output == f.output && HandleFrom(f, packets).handled == f.handled
    decreases |packets|
  {
    if packets == [] {
    } else {
      HandleFromKeeps(HandlePacket(f, packets[0]), packets[1..]);
    }
  }

  lemma DropMore(bytes: seq<Byte>, a: nat, b: nat, c: nat)
    requires a + b == c <= |bytes|
    ensures bytes[a..][b..] == bytes[c..]
  {
  }

  // The first of the packets in the queue may be routed at once.
  lemma {:induction false} RouteFirst(c: Config, id: nat, f: FilterState, bytes: seq<Byte>)
    requires c.Ok() && PACKET_SIZE <= |bytes|
    ensures RouteAll(c, id, f, Blocks(bytes))
            == RouteAll(c, id, Route(c, id, f, bytes[..PACKET_SIZE]), Blocks(bytes[PACKET_SIZE..]))
  {
  }

  class Filter {
    const tpid: int
    const kind: FilterType
    var filterOutput: seq<Byte>
    var pesSizeLeft: nat
    var pesOutput: seq<Byte>
    var filterMQ: Fmq
    var events: seq<PesEvent>
    ghost var state: FilterState

    ghost predicate Valid()
      reads this
    {
      && state.output == filterOutput && state.pes == Pes(pesSizeLeft, pesOutput)
      && state.queue == filterMQ && state.events == events && FilterOk(state)
    }

    constructor (tpid: int, kind: FilterType, bufferSize: nat)
      ensures Valid() && state == FilterState([], IDLE, Fmq([], bufferSize), [], [], [], [], 0)
      ensures this.tpid == tpid && this.kind == kind
    {
      this.tpid, this.kind := tpid, kind;
      filterOutput, pesSizeLeft, pesOutput := [], 0, [];
      filterMQ, events := Fmq([], bufferSize), [];
      state := FilterState([], IDLE, Fmq([], bufferSize), [], [], [], [], 0);
    }

    method UpdateFilterOutput(data: Packet)
      requires Valid()
      modifies this
      ensures Valid() && state == old(state).(output := old(state.output) + data)
    {
      filterOutput := filterOutput + data;
      state := state.(output := filterOutput);
    }

    // The end of a round of the loop of startPesFilterHandler: write and announce.
    method FinishPes() returns (ok: bool)
      requires Valid() && pesSizeLeft == 0 && 6 <= |pesOutput|
      modifies this
      ensures Valid() && state == Finish(old(state))
      ensures ok <==> state.failures == old(state.failures)
    {
      state := Finish(state);
      ok := filterMQ.Fits(pesOutput);
      if !ok {
        return;
      }
      filterMQ := filterMQ.Write(pesOutput);
      events := events + [PesEvent(pesOutput[3], |pesOutput| % 0x1_0000)];
      pesOutput := [];
    }

    // One round, on the packet at i.
    method HandlePesPacket(i: nat) returns (ok: bool)
      requires Valid() && i + PACKET_SIZE <= |filterOutput|
      modifies this
      ensures Valid() && state == HandlePacket(old(state), old(filterOutput)[i..i + PACKET_SIZE])
      ensures ok <==> state.failures == old(state.failures)
    {
      if pesSizeLeft == 0 {
        if filterOutput[i + 4] == 0 && filterOutput[i + 5] == 0 && filterOutput[i + 6] == 1 {
          pesSizeLeft := Word(filterOutput[i + 8], filterOutput[i + 9]) + 6;
        } else {
          return true;
        }
      }
      var endPoint := if PAYLOAD < pesSizeLeft then PAYLOAD else pesSizeLeft;
      PayloadAt(filterOutput, i, endPoint);
      pesOutput := pesOutput + filterOutput[i + 4..i + 4 + endPoint];
      pesSizeLeft := pesSizeLeft - endPoint;
      state := state.(pes := Pes(pesSizeLeft, pesOutput));
      if pesSizeLeft > 0 {
        return true;
      }
      ok := FinishPes();
    }

    method ClearFilterOutput()
      requires Valid()
      modifies this
      ensures Valid()
      ensures state == old(state).(output := [], handled := old(state.handled) + Blocks(old(state.output)))
    {
      state := state.(output := [], handled := state.handled + Blocks(state.output));
      filterOutput := [];
    }

    // With the packets of bytes from i on, the filter will be in the goal state.
    ghost predicate Heading(bytes: seq<Byte>, i: nat, goal: FilterState)
      reads this
    {
      && Valid() && filterOutput == bytes && i <= |bytes| && |bytes[i..]| % PACKET_SIZE == 0
      && HandleFrom(state, Blocks(bytes[i..])) == goal
    }

    method HandleNextPacket(i: nat, ghost bytes: seq<Byte>, ghost goal: FilterState) returns (ok: bool)
      requires i < |filterOutput| && Heading(bytes, i, goal)
      modifies this
      ensures ok <==> state.failures == old(state.failures)
      ensures ok ==> Heading(bytes, i + PACKET_SIZE, goal)
      ensures !ok ==> Valid() && filterOutput == bytes && state == goal
    {
      HandleStep(state, bytes, i);
      ok := HandlePesPacket(i);
    }

    // The loop of startPesFilterHandler.
    method HandlePesPackets() returns (ok: bool)
      requires Valid()
      modifies this
      ensures Valid() && state == HandleFrom(old(state), Blocks(old(filterOutput)))
      ensures ok <==> state.failures == old(state.failures)
    {
      ghost var bytes, goal := filterOutput, HandleFrom(state, Blocks(filterOutput));
      var i := 0;
      assert bytes[0..] == bytes;
      while i < |filterOutput|
        invariant Heading(bytes, i, goal) && state.failures == old(state.failures)
        decreases |bytes| - i
      {
        ok := HandleNextPacket(i, bytes, goal);
        if !ok {
          return;
        }
        i := i + PACKET_SIZE;
      }
      assert bytes[i..] == [];
      return true;
    }

    method StartPesFilterHandler() returns (r: Result)
      requires Valid()
      modifies this
      ensures Valid() && state == HandlePes(old(state))
      ensures r == Success <==> state.failures == old(state.failures)
    {
      var ok := HandlePesPackets();
      HandleFromKeeps(old(state), Blocks(old(filterOutput)));
      ClearFilterOutput();
      return if ok then Success else InvalidState;
    }

    // The result of the handler is dropped.
    method StartFilterHandler() returns (r: Result)
      requires Valid()
      modifies this
      ensures Valid() && state == Handle(old(state), kind)
      ensures r == Success
    {
      match kind {
        case PES =>
          var ignored := StartPesFilterHandler();
        case TS =>
      }
      r := Success;
    }
  }

  class Demux {
    var filters: map<nat, Filter>
    var playbackFilterIds: seq<nat>     // a set, in the order of iteration
    ghost var config: Config

    ghost predicate Valid()
      reads this, filters.Values
    {
      && config.Ok() && config.ids == playbackFilterIds && config.tpid.Keys == filters.Keys
      && (forall id :: id in filters ==> config.tpid[id] == filters[id].tpid && config.kind[id] == filters[id].kind)
      && (forall i, j :: i in filters && j in filters && i != j ==> filters[i] != filters[j])
      && (forall id :: id in filters ==> filters[id].Valid())
    }

    // The first filter with the PID; the loop ends there.
    method FindFilter(pid: int) returns (found: Option<nat>)
      requires Valid()
      ensures found.Some? ==> found.value in filters && FirstWith(config, found.value, pid)
      ensures found.None? ==> forall id :: id in playbackFilterIds ==> filters[id].tpid != pid
    {
      var i := 0;
      while i < |playbackFilterIds|
        invariant i <= |playbackFilterIds| && forall j :: 0 <= j < i ==> filters[playbackFilterIds[j]].tpid != pid
      {
        if filters[playbackFilterIds[i]].tpid == pid {
          return Some(playbackFilterIds[i]);
        }
        i := i + 1;
      }
      return None;
    }

    lemma OneIsFirst(pid: int, id: nat, found: Option<nat>)
      requires Valid() && (found.Some? ==> FirstWith(config, found.value, pid))
      requires found.None? ==> forall j :: j in playbackFilterIds ==> filters[j].tpid != pid
      ensures FirstWith(config, id, pid) <==> found == Some(id)
    {
    }

    method StartBroadcastTsFilter(data: Packet)
      requires Valid()
      modifies filters.Values
      ensures Valid() && unchanged(this)
      ensures forall id :: id in filters ==> filters[id].state == Route(config, id, old(filters[id].state), data)
    {
      var found := FindFilter(Word(data[1] % 32, data[2]));
      forall id | id in filters ensures FirstWith(config, id, Pid(data)) <==> found == Some(id) {
        OneIsFirst(Pid(data), id, found);
      }
      if found.Some? {
        filters[found.value].UpdateFilterOutput(data);
      }
    }

    method HandleFilter(id: nat) returns (r: Result)
      requires Valid() && id in filters
      modifies filters[id]
      ensures Valid() && unchanged(this) && r == Success
      ensures filters[id].state == Handle(old(filters[id].state), config.kind[id])
      ensures forall j :: j in filters && j != id ==> filters[j].state == old(filters[j].state)
    {
      r := filters[id].StartFilterHandler();
    }

    // The first i playback filters have handled what they got, in the states d before.
    ghost predicate Handled(d: map<nat, FilterState>, i: nat)
      reads this, filters.Values
    {
      && d.Keys == filters.Keys && i <= |playbackFilterIds| && Valid()
      && (forall id :: id in filters ==> FilterOk(d[id]))
      && (forall id :: id in filters ==>
            filters[id].state == if id in playbackFilterIds[..i] then Handle(d[id], config.kind[id]) else d[id])
    }

    lemma NextIsNew(i: nat, id: nat)
      requires Valid() && i < |playbackFilterIds|
      ensures playbackFilterIds[i] !in playbackFilterIds[..i]
      ensures id in playbackFilterIds[..i + 1] <==> id in playbackFilterIds[..i] || id == playbackFilterIds[i]
    {
      assert playbackFilterIds[..i + 1] == playbackFilterIds[..i] + [playbackFilterIds[i]];
    }

    method HandleNext(i: nat, ghost d: map<nat, FilterState>) returns (r: Result)
      requires i < |playbackFilterIds| && Handled(d, i)
      modifies filters.Values
      ensures unchanged(this) && r == Success && Handled(d, i + 1)
    {
      var next := playbackFilterIds[i];
      NextIsNew(i, next);
      r := HandleFilter(next);
      forall id | id in filters
        ensures filters[id].state == if id in playbackFilterIds[..i + 1] then Handle(d[id], config.kind[id]) else d[id]
      {
        NextIsNew(i, id);
      }
    }

    lemma AllHandled(d: map<nat, FilterState>)
      requires Handled(d, |playbackFilterIds|)
      ensures forall id :: id in filters ==> filters[id].state == Dispatch(config, id, d[id])
    {
      assert playbackFilterIds[..|playbackFilterIds|] == playbackFilterIds;
    }

    // All playback filters handle what they got.
    method StartBroadcastFilterDispatcher() returns (ok: bool)
      requires Valid()
      modifies filters.Values
      ensures Valid() && unchanged(this) && ok
      ensures forall id :: id in filters ==> filters[id].state == Dispatch(config, id, old(filters[id].state))
    {
      ghost var d := map id | id in filters :: filters[id].state;
      var i := 0;
      while i < |playbackFilterIds|
        invariant unchanged(this) && Handled(d, i)
      {
        var r := HandleNext(i, d);
        if r != Success {
          return false;
        }
        i := i + 1;
      }
      AllHandled(d);
      return true;
    }
  }

  // The playback side of a DVR.
  class PlaybackDvr {
    var dvrMQ: Fmq
    const demux: Demux

    constructor (bufferSize: nat, demux: Demux)
      ensures dvrMQ == Fmq([], bufferSize) && this.demux == demux
    {
      dvrMQ := Fmq([], bufferSize);
      this.demux := demux;
    }

    // With the packets still in the queue, each filter will be in its goal state.
    ghost predicate Reaches(goal: map<nat, FilterState>)
      requires demux.config.Ok()
      reads this, demux, demux.filters.Values
    {
      && goal.Keys == demux.filters.Keys
      && forall id :: id in demux.filters ==>
           RouteAll(demux.config, id, demux.filters[id].state, Blocks(dvrMQ.data)) == goal[id]
    }

    // The same, once the given packet was routed.
    ghost predicate ReachesAfter(data: Packet, goal: map<nat, FilterState>)
      requires demux.config.Ok()
      reads this, demux, demux.filters.Values
    {
      && goal.Keys == demux.filters.Keys
      && forall id :: id in demux.filters ==>
           RouteAll(demux.config, id, Route(demux.config, id, demux.filters[id].state, data), Blocks(dvrMQ.data))
           == goal[id]
    }

    method ReadPacket(ghost goal: map<nat, FilterState>) returns (data: Packet)
      requires demux.config.Ok() && PACKET_SIZE <= |dvrMQ.data| && Reaches(goal)
      modifies this
      ensures dvrMQ.size == old(dvrMQ.size) && dvrMQ.data == old(dvrMQ.data)[PACKET_SIZE..]
      ensures ReachesAfter(data, goal)
    {
      data := dvrMQ.data[..PACKET_SIZE];
      forall id | id in demux.filters
        ensures RouteAll(demux.config, id, Route(demux.config, id, demux.filters[id].state, data),
                         Blocks(dvrMQ.data[PACKET_SIZE..])) == goal[id]
      {
        RouteFirst(demux.config, id, demux.filters[id].state, dvrMQ.data);
      }
      dvrMQ := dvrMQ.(data := dvrMQ.data[PACKET_SIZE..]);
    }

    method RoutePacket(data: Packet, ghost goal: map<nat, FilterState>)
      requires demux.Valid() && ReachesAfter(data, goal)
      modifies demux.filters.Values
      ensures unchanged(this, demux) && demux.Valid() && Reaches(goal)
    {
      demux.StartBroadcastTsFilter(data);
    }

    // One round of the loop of readPlaybackFMQ.
    method MovePacket(ghost goal: map<nat, FilterState>)
      requires demux.Valid() && PACKET_SIZE <= |dvrMQ.data| && Reaches(goal)
      modifies this, demux.filters.Values
      ensures unchanged(demux) && demux.Valid() && Reaches(goal)
      ensures dvrMQ.size == old(dvrMQ.size) && dvrMQ.data == old(dvrMQ.data)[PACKET_SIZE..]
    {
      var dataOutputBuffer := ReadPacket(goal);
      RoutePacket(dataOutputBuffer, goal);
    }

    // i packets of the bytes were moved.
    ghost predicate Moving(bytes: seq<Byte>, i: nat, goal: map<nat, FilterState>)
      reads this, demux, demux.filters.Values
    {
      demux.Valid() && Reaches(goal) && PACKET_SIZE * i <= |bytes| && dvrMQ.data == bytes[PACKET_SIZE * i..]
    }

    method MoveNext(ghost bytes: seq<Byte>, ghost i: nat, ghost goal: map<nat, FilterState>)
      requires Moving(bytes, i, goal) && PACKET_SIZE * (i + 1) <= |bytes|
      modifies this, demux.filters.Values
      ensures unchanged(demux) && dvrMQ.size == old(dvrMQ.size) && Moving(bytes, i + 1, goal)
    {
      DropMore(bytes, PACKET_SIZE * i, PACKET_SIZE, PACKET_SIZE * (i + 1));
      MovePacket(goal);
    }

    // All whole packets; the rest stays in the queue.
    method ReadPlaybackFMQ() returns (ok: bool)
      requires demux.Valid()
      modifies this, demux.filters.Values
      ensures unchanged(demux) && demux.Valid() && ok && dvrMQ.size == old(dvrMQ.size)
      ensures dvrMQ.data == old(dvrMQ.data)[|old(dvrMQ.data)| / PACKET_SIZE * PACKET_SIZE..]
      ensures forall id :: id in demux.filters ==>
                demux.filters[id].state
                == RouteAll(demux.config, id, old(demux.filters[id].state), Blocks(old(dvrMQ.data)))
    {
      var count := |dvrMQ.data| / PACKET_SIZE;
      ghost var bytes := dvrMQ.data;
      ghost var goal := map id | id in demux.filters ::
        RouteAll(demux.config, id, demux.filters[id].state, Blocks(dvrMQ.data));
      for i := 0 to count
        invariant unchanged(demux) && dvrMQ.size == old(dvrMQ.size) && Moving(bytes, i, goal)
      {
        MoveNext(bytes, i, goal);
      }
      Reached(goal);
      return true;
    }

    lemma Reached(goal: map<nat, FilterState>)
      requires demux.config.Ok() && |dvrMQ.data| < PACKET_SIZE && Reaches(goal)
      ensures forall id :: id in demux.filters ==> demux.filters[id].state == goal[id]
    {
    }
  }
}
