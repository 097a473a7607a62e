// Runs of the playback path: a client that writes bytes in any chunks and reads the filter
// queues, and the two threads that read packets, in any order.
module DemuxRuns {
  import opened Wrappers
  import opened PesStream
  import opened DemuxSpec

  // accepted is all that the playback queue took, arrived the packets read from it.
  datatype System = System(input: Fmq, filters: map<nat, FilterState>, accepted: seq<Byte>, arrived: seq<Packet>)

  datatype Action =
    | Supply(bytes: seq<Byte>)      // the client writes to the playback queue
    | Read                          // a round of Dvr::playbackThreadLoop
    | ReadAndDispatch               // a round of Demux::frontendInputThreadLoop
    | Drain(id: nat, n: nat)        // the client reads from the queue of a filter

  // readPlaybackFMQ: all whole packets.
  function ReadPlayback(c: Config, s: System): System
    requires c.Ok()
  {
    var n := |s.input.data| / PACKET_SIZE * PACKET_SIZE;
    var packets := Blocks(s.input.data);
    s.(input := s.input.(data := s.input.data[n..]), arrived := s.arrived + packets,
       filters := map id | id in s.filters :: RouteAll(c, id, s.filters[id], packets))
  }

  ghost predicate FiltersOk(c: Config, fs: map<nat, FilterState>) {
    fs.Keys == c.kind.Keys && forall id :: id in fs ==> FilterOk(fs[id])
  }

  function DispatchAll(c: Config, fs: map<nat, FilterState>): map<nat, FilterState>
    requires c.Ok() && fs.Keys == c.kind.Keys && forall id :: id in fs ==> FilterOk(fs[id])
  {
    map id | id in fs :: Dispatch(c, id, fs[id])
  }

  function DrainFilter(f: FilterState, n: nat): FilterState {
    if n <= |f.queue.data|
    then f.(queue := f.queue.(data := f.queue.data[n..]), drained := f.drained + f.queue.data[..n])
    else f
  }

  ghost function Step(c: Config, s: System, a: Action): System
    requires c.Ok() && FiltersOk(c, s.filters)
  {
    match a
    case Supply(bytes) =>
      if s.input.Fits(bytes) then s.(input := s.input.Write(bytes), accepted := s.accepted + bytes) else s
    case Read => ReadPlayback(c, s)
    case ReadAndDispatch =>
      var s' := ReadPlayback(c, s);
      if FiltersOk(c, s'.filters) then s'.(filters := DispatchAll(c, s'.filters)) else s'
    case Drain(id, n) =>
      if id in s.filters then s.(filters := s.filters[id := DrainFilter(s.filters[id], n)]) else s
  }

  function Unused(size: nat): FilterState {
    FilterState([], IDLE, Fmq([], size), [], [], [], [], 0)
  }

  // Everything is empty; the queues have any sizes.
  ghost predicate Start(c: Config, s: System) {
    && c.Ok() && s.input.data == [] && s.accepted == [] && s.arrived == []
    && s.filters.Keys == c.kind.Keys
    && (forall id :: id in s.filters ==> s.filters[id] == Unused(s.filters[id].queue.size))
  }

  // The accepted bytes are the packets that arrived and what is still to be read.
  ghost predicate Split(accepted: seq<Byte>, input: seq<Byte>, arrived: seq<Packet>) {
    var m := |accepted| - |input|;
    0 <= m && m % PACKET_SIZE == 0 && input == accepted[m..] && arrived == Blocks(accepted[..m])
  }

  // What filter id gets of them: all with its PID, if it is the first filter with that PID.
  function Share(c: Config, packets: seq<Packet>, id: nat): seq<Packet>
    requires c.Ok() && id in c.tpid
  {
    if FirstWith(c, id, c.tpid[id]) then OfPid(packets, c.tpid[id]) else []
  }

  // After a failed write, when out is what should have been put out.
  predicate Lost(f: FilterState, out: seq<seq<Byte>>) {
    Failed(f, |out|) && f.queue.size < |Flat(out)|
  }

  ghost predicate FilterInv(c: Config, arrived: seq<Packet>, f: FilterState, id: nat)
    requires c.Ok() && id in c.tpid
  {
    && FilterOk(f) && Delivered(f)
    && f.handled + Blocks(f.output) == Share(c, arrived, id)
    && (f.failures == 0 ==> Assemble(IDLE, f.handled) == (f.pes, f.written))
    && (f.failures > 0 ==> Lost(f, Assemble(IDLE, f.handled).1))
  }

  ghost predicate Inv(c: Config, s: System) {
    c.Ok() && Split(s.accepted, s.input.data, s.arrived) && FiltersOk(c, s.filters)
  }

  lemma {:induction false} ShareOne(c: Config, p: Packet, id: nat)
    requires c.Ok() && id in c.tpid
    ensures Share(c, [p], id) == if FirstWith(c, id, Pid(p)) then [p] else []
  {
    assert OfPid([p], c.tpid[id]) == if Pid(p) == c.tpid[id] then [p] else [];
  }

  lemma {:induction false} ShareBoth(c: Config, a: seq<Packet>, b: seq<Packet>, id: nat)
    requires c.Ok() && id in c.tpid
    ensures Share(c, a + b, id) == Share(c, a, id) + Share(c, b, id)
  {
    OfPidBoth(a, b, c.tpid[id]);
  }

  lemma {:induction false} RoutedOne(c: Config, id: nat, f: FilterState, p: Packet)
    requires c.Ok() && id in c.tpid && |f.output| % PACKET_SIZE == 0
    ensures var r := Route(c, id, f, p);
            && r == f.(output := r.output) && |r.output| % PACKET_SIZE == 0
            && Blocks(r.output) == Blocks(f.output) + Share(c, [p], id)
  {
    BlocksBoth(f.output, p);
    BlocksOne(p);
    ShareOne(c, p, id);
  }

  // Routing adds to every filter's input exactly its share.
  lemma {:induction false} RoutedShare(c: Config, id: nat, f: FilterState, packets: seq<Packet>)
    requires c.Ok() && id in c.tpid && |f.output| % PACKET_SIZE == 0
    ensures var r := RouteAll(c, id, f, packets);
            && r == f.(output := r.output) && |r.output| % PACKET_SIZE == 0
            && Blocks(r.output) == Blocks(f.output) + Share(c, packets, id)
    decreases |packets|
  {
    if packets == [] {
      assert Share(c, [], id) == [];
    } else {
      var p, rest := packets[0], packets[1..];
      RoutedOne(c, id, f, p);
      RoutedShare(c, id, Route(c, id, f, p), rest);
      assert packets == [p] + rest;
      ShareBoth(c, [p], rest, id);
    }
  }

  lemma {:induction false} HandledShare(c: Config, arrived: seq<Packet>, f: FilterState, id: nat)
    requires c.Ok() && id in c.tpid && FilterInv(c, arrived, f, id)
    ensures FilterInv(c, arrived, HandlePes(f), id)
  {
    var packets := Blocks(f.output);
    DeliverAll(f, packets);
    AssembleBoth(IDLE, f.handled, packets);
    if HandlePes(f).failures == 0 {
      HandleAssembles(f, packets);
    } else if f.failures == 0 {
      FirstLoss(f, packets);
    } else {
      LostForGood(f, packets);
    }
  }

  lemma {:induction false} FirstLoss(f: FilterState, packets: seq<Packet>)
    requires f.pes.left > 0 ==> 6 <= f.pes.left + |f.pes.out|
    requires Delivered(f) && Assemble(IDLE, f.handled) == (f.pes, f.written)
    requires HandleFrom(f, packets).failures > f.failures
    ensures Lost(HandleFrom(f, packets), f.written + Assemble(f.pes, packets).1)
  {
    OnlyPesComesOut(IDLE, f.handled);
    FirstFailure(f, packets);
    FlatBoth(f.written, Assemble(f.pes, packets).1);
    assert |f.queue.data| <= |Flat(f.written)|;
  }

  lemma {:induction false} LostForGood(f: FilterState, packets: seq<Packet>)
    requires f.pes.left > 0 ==> 6 <= f.pes.left + |f.pes.out|
    requires Lost(f, Assemble(IDLE, f.handled).1)
    ensures Lost(HandleFrom(f, packets), Assemble(IDLE, f.handled + packets).1)
  {
    var out := Assemble(IDLE, f.handled).1;
    var more := Assemble(Assemble(IDLE, f.handled).0, packets).1;
    AssembleBoth(IDLE, f.handled, packets);
    FailedForGood(f, packets, |out|);
    FlatBoth(out, more);
  }

  lemma {:induction false} DrainedInv(c: Config, arrived: seq<Packet>, f: FilterState, id: nat, n: nat)
    requires c.Ok() && id in c.tpid && FilterInv(c, arrived, f, id)
    ensures FilterInv(c, arrived, DrainFilter(f, n), id)
  {
  }

  lemma WholePackets(size: nat) returns (n: nat)
    ensures n == size / PACKET_SIZE * PACKET_SIZE && n % PACKET_SIZE == 0 && n <= size < n + PACKET_SIZE
  {
    n := size / PACKET_SIZE * PACKET_SIZE;
  }

  lemma ReadSlices(accepted: seq<Byte>, m: nat, n: nat)
    requires m + n <= |accepted|
    ensures accepted[..m + n] == accepted[..m] + accepted[m..][..n] && accepted[m..][n..] == accepted[m + n..]
  {
  }

  // What does not fill a packet yields none.
  lemma {:induction false} BlocksOfWhole(input: seq<Byte>, n: nat)
    requires n % PACKET_SIZE == 0 && n <= |input| < n + PACKET_SIZE
    ensures Blocks(input) == Blocks(input[..n])
  {
    assert input == input[..n] + input[n..];
    BlocksBoth(input[..n], input[n..]);
  }

  lemma {:induction false} SplitRead(accepted: seq<Byte>, input: seq<Byte>, arrived: seq<Packet>)
    requires Split(accepted, input, arrived)
    ensures Split(accepted, input[|input| / PACKET_SIZE * PACKET_SIZE..], arrived + Blocks(input))
  {
    var m := |accepted| - |input|;
    var n := WholePackets(|input|);
    ReadSlices(accepted, m, n);
    BlocksBoth(accepted[..m], input[..n]);
    BlocksOfWhole(input, n);
  }

  lemma {:induction false} SplitSupplied(accepted: seq<Byte>, input: seq<Byte>, arrived: seq<Packet>, bytes: seq<Byte>)
    requires Split(accepted, input, arrived)
    ensures Split(accepted + bytes, input + bytes, arrived)
  {
    var m := |accepted| - |input|;
    assert (accepted + bytes)[..m] == accepted[..m];
  }

  lemma {:induction false} SplitBlocks(accepted: seq<Byte>, input: seq<Byte>, arrived: seq<Packet>)
    requires Split(accepted, input, arrived)
    ensures Blocks(accepted) == arrived + Blocks(input)
  {
    var m := |accepted| - |input|;
    assert accepted == accepted[..m] + input;
    BlocksBoth(accepted[..m], input);
  }

  // What a step does to filter id.
  function FilterStep(c: Config, input: seq<Byte>, f: FilterState, a: Action, id: nat): FilterState
    requires c.Ok() && id in c.kind && FilterOk(f)
  {
    match a
    case Supply(_) => f
    case Read => RouteAll(c, id, f, Blocks(input))
    case ReadAndDispatch =>
      RoutedShare(c, id, f, Blocks(input));
      Dispatch(c, id, RouteAll(c, id, f, Blocks(input)))
    case Drain(j, n) => if j == id then DrainFilter(f, n) else f
  }

  lemma {:induction false} ReadKeeps(c: Config, s: System)
    requires Inv(c, s)
    ensures Inv(c, ReadPlayback(c, s))
  {
    SplitRead(s.accepted, s.input.data, s.arrived);
    forall id | id in s.filters ensures FilterOk(RouteAll(c, id, s.filters[id], Blocks(s.input.data))) {
      RoutedShare(c, id, s.filters[id], Blocks(s.input.data));
    }
  }

  lemma {:induction false} StepKeeps(c: Config, s: System, a: Action)
    requires Inv(c, s)
    ensures Inv(c, Step(c, s, a)) && Step(c, s, a).filters.Keys == s.filters.Keys
    ensures forall id :: id in s.filters ==>
              Step(c, s, a).filters[id] == FilterStep(c, s.input.data, s.filters[id], a, id)
  {
    match a
    case Supply(bytes) =>
      SplitSupplied(s.accepted, s.input.data, s.arrived, bytes);
    case Read =>
      ReadKeeps(c, s);
    case ReadAndDispatch =>
      ReadKeeps(c, s);
    case Drain(id, n) =>
  }

  // The state after a run; every step is possible.
  ghost function Run(c: Config, s: System, run: seq<Action>): (r: System)
    requires Start(c, s)
    ensures Inv(c, r) && r.filters.Keys == s.filters.Keys
    decreases |run|
  {
    if run == [] then s
    else
      var mid := Run(c, s, run[..|run| - 1]);
      StepKeeps(c, mid, run[|run| - 1]);
      Step(c, mid, run[|run| - 1])
  }

  // A step keeps the account of filter id.
  lemma {:induction false} FilterStepKeeps(c: Config, arrived: seq<Packet>, input: seq<Byte>, f: FilterState,
                                           a: Action, id: nat)
    requires c.Ok() && id in c.tpid && FilterInv(c, arrived, f, id)
    ensures var read := if a.Read? || a.ReadAndDispatch? then Blocks(input) else [];
            var f' := FilterStep(c, input, f, a, id);
            FilterInv(c, arrived + read, f', id) && f'.queue.size == f.queue.size
  {
    assert arrived + [] == arrived;
    match a
    case Supply(_) =>
    case Read => ReadFilter(c, arrived, f, Blocks(input), id);
    case ReadAndDispatch =>
      ReadFilter(c, arrived, f, Blocks(input), id);
      HandledShare(c, arrived + Blocks(input), RouteAll(c, id, f, Blocks(input)), id);
    case Drain(j, n) =>
      DrainedInv(c, arrived, f, id, n);
  }

  lemma {:induction false} ReadFilter(c: Config, arrived: seq<Packet>, f: FilterState, packets: seq<Packet>, id: nat)
    requires c.Ok() && id in c.tpid && FilterInv(c, arrived, f, id)
    ensures var f' := RouteAll(c, id, f, packets);
            FilterInv(c, arrived + packets, f', id) && f'.queue.size == f.queue.size
  {
    RoutedShare(c, id, f, packets);
    ShareBoth(c, arrived, packets, id);
  }

  lemma {:induction false} Arrivals(c: Config, s: System, a: Action)
    requires Inv(c, s)
    ensures Step(c, s, a).arrived == s.arrived + if a.Read? || a.ReadAndDispatch? then Blocks(s.input.data) else []
  {
  }

  // The account of every filter holds after every run.
  lemma {:induction false} RunAccounts(c: Config, s: System, run: seq<Action>, id: nat)
    requires Start(c, s) && id in s.filters
    ensures var r := Run(c, s, run);
            FilterInv(c, r.arrived, r.filters[id], id) && r.filters[id].queue.size == s.filters[id].queue.size
    decreases |run|
  {
    if run == [] {
      assert Share(c, [], id) == [];
    } else {
      var mid, a := Run(c, s, run[..|run| - 1]), run[|run| - 1];
      RunAccounts(c, s, run[..|run| - 1], id);
      StepKeeps(c, mid, a);
      Arrivals(c, mid, a);
      FilterStepKeeps(c, mid.arrived, mid.input.data, mid.filters[id], a, id);
    }
  }

  lemma {:induction false} StreamSoFar(stream: seq<Segment>, handled: seq<Packet>, later: seq<Packet>)
    requires forall i :: 0 <= i < |stream| ==> SegmentOk(stream[i])
    requires StreamPackets(stream) == handled + later
    ensures Assemble(IDLE, handled).1 <= StreamPes(stream)
    ensures later == [] ==> Assemble(IDLE, handled).1 == StreamPes(stream)
  {
    AssembleBoth(IDLE, handled, later);
    StreamRoundTrip(stream);
    if later == [] {
      assert handled + later == handled;
    }
  }

  // What a filter was given and what it still will be given.
  lemma {:induction false} FilterHas(c: Config, s: System, id: nat) returns (later: seq<Packet>)
    requires Inv(c, s) && id in s.filters && FirstWith(c, id, c.tpid[id])
    requires FilterInv(c, s.arrived, s.filters[id], id)
    ensures OfPid(Blocks(s.accepted), c.tpid[id]) == s.filters[id].handled + later
    ensures |s.input.data| < PACKET_SIZE && s.filters[id].output == [] ==> later == []
  {
    var f, pid, rest := s.filters[id], c.tpid[id], Blocks(s.input.data);
    later := Blocks(f.output) + OfPid(rest, pid);
    SplitBlocks(s.accepted, s.input.data, s.arrived);
    OfPidBoth(s.arrived, rest, pid);
    Regroup(f.handled, Blocks(f.output), OfPid(rest, pid));
  }

  lemma {:induction false} StreamPesOk(stream: seq<Segment>)
    requires forall i :: 0 <= i < |stream| ==> SegmentOk(stream[i])
    ensures forall i :: 0 <= i < |StreamPes(stream)| ==> IsPes(StreamPes(stream)[i])
  {
    if stream == [] {
    } else {
      StreamPesOk(stream[1..]);
    }
  }

  // After a failure the output is not that of the stream, which is more than the queue can hold.
  lemma {:induction false} LostFromStream(f: FilterState, out: seq<seq<Byte>>, stream: seq<Segment>)
    requires forall i :: 0 <= i < |stream| ==> SegmentOk(stream[i])
    requires Lost(f, out) && out <= StreamPes(stream)
    ensures f.written != StreamPes(stream) && f.queue.size < |Flat(StreamPes(stream))|
  {
    StreamPesOk(stream);
    SpoiledIff(f.written);
    FlatBoth(out, StreamPes(stream)[|out|..]);
    assert StreamPes(stream) == out + StreamPes(stream)[|out|..];
  }

  // The packets with the PID of filter id carry the stream.
  ghost predicate Carried(c: Config, s: System, id: nat, stream: seq<Segment>)
    requires id in c.tpid
  {
    && (forall i :: 0 <= i < |stream| ==> SegmentOk(stream[i]))
    && OfPid(Blocks(s.accepted), c.tpid[id]) == StreamPackets(stream)
  }

  // Everything was read and dispatched to filter id.
  ghost predicate Done(s: System, id: nat)
    requires id in s.filters
  {
    |s.input.data| < PACKET_SIZE && s.filters[id].output == []
  }

  // Round trip through the demultiplexer.  If the accepted bytes are whole packets, and those with
  // the PID of a PES filter carry a stream of PES packets, then however the stream is interleaved
  // with others, cut into chunks and read, once everything was read and dispatched the filter has
  // put out exactly the PES packets, in order, if and only if none of its writes failed.  At any
  // earlier point without a failure it has put out the first few of them.  Whatever was put out
  // is in the queue or was read from it, each with its event.
  lemma {:induction false} DemuxRoundTrip(c: Config, s: System, run: seq<Action>, id: nat, stream: seq<Segment>)
    requires Start(c, s) && id in s.filters && c.kind[id] == PES && FirstWith(c, id, c.tpid[id])
    ensures var r, f := Run(c, s, run), Run(c, s, run).filters[id];
            && Delivered(f)
            && (Carried(c, r, id, stream) && f.failures == 0 ==> f.written <= StreamPes(stream))
            && (Carried(c, r, id, stream) && Done(r, id) ==> (f.written == StreamPes(stream) <==> f.failures == 0))
  {
    var r := Run(c, s, run);
    var f := r.filters[id];
    RunAccounts(c, s, run, id);
    if Carried(c, r, id, stream) {
      var later := FilterHas(c, r, id);
      StreamSoFar(stream, f.handled, later);
      if f.failures > 0 {
        LostFromStream(f, Assemble(IDLE, f.handled).1, stream);
      }
    }
  }

  // No write fails in a queue that has room for the PES packets of the whole stream.
  lemma {:induction false} RoomSuffices(c: Config, s: System, run: seq<Action>, id: nat, stream: seq<Segment>)
    requires Start(c, s) && id in s.filters && c.kind[id] == PES && FirstWith(c, id, c.tpid[id])
    requires |Flat(StreamPes(stream))| <= s.filters[id].queue.size
    ensures var r := Run(c, s, run);
            Carried(c, r, id, stream) ==>
              r.filters[id].failures == 0 && (Done(r, id) ==> r.filters[id].written == StreamPes(stream))
  {
    var r := Run(c, s, run);
    var f := r.filters[id];
    if Carried(c, r, id, stream) {
      RunAccounts(c, s, run, id);
      DemuxRoundTrip(c, s, run, id, stream);
      var later := FilterHas(c, r, id);
      StreamSoFar(stream, f.handled, later);
      if f.failures > 0 {
        LostFromStream(f, Assemble(IDLE, f.handled).1, stream);
      }
    }
  }

  lemma {:induction false} OneMore(c: Config, s: System, run: seq<Action>, a: Action)
    requires Start(c, s)
    ensures Run(c, s, run + [a]) == Step(c, Run(c, s, run), a)
  {
    assert (run + [a])[..|run + [a]| - 1] == run;
  }

  // After a round of the demultiplexer's thread nothing waits to be handled.
  lemma {:induction false} DispatchFinishes(c: Config, s: System, run: seq<Action>, id: nat)
    requires Start(c, s) && id in c.ids && c.kind[id] == PES
    ensures var r := Run(c, s, run + [ReadAndDispatch]);
            id in r.filters && Done(r, id) && r.accepted == Run(c, s, run).accepted
  {
    OneMore(c, s, run, ReadAndDispatch);
    StepKeeps(c, Run(c, s, run), ReadAndDispatch);
  }

  // What the queue has can be read.
  lemma {:induction false} DrainsAll(c: Config, s: System, id: nat)
    requires c.Ok() && FiltersOk(c, s.filters) && id in s.filters && Delivered(s.filters[id])
    ensures var end := Step(c, s, Drain(id, |s.filters[id].queue.data|));
            && id in end.filters && end.filters[id].queue.data == []
            && end.filters[id].drained == Flat(s.filters[id].written)
  {
    var data := s.filters[id].queue.data;
    assert data[..|data|] == data;
  }

  // Once the rest of a stream is supplied and the demultiplexer's thread has run once more, all of
  // it is put out.
  lemma {:induction false} PutsOutAll(c: Config, s: System, run: seq<Action>, id: nat, stream: seq<Segment>)
    requires Start(c, s) && id in c.ids && c.kind[id] == PES && FirstWith(c, id, c.tpid[id])
    requires |Flat(StreamPes(stream))| <= s.filters[id].queue.size && Carried(c, Run(c, s, run), id, stream)
    ensures var f := Run(c, s, run + [ReadAndDispatch]).filters[id];
            Delivered(f) && f.failures == 0 && f.written == StreamPes(stream)
  {
    DispatchFinishes(c, s, run, id);
    RoomSuffices(c, s, run + [ReadAndDispatch], id, stream);
    DemuxRoundTrip(c, s, run + [ReadAndDispatch], id, stream);
  }

  // So whatever happened before, the client can then read the rest of the PES packets, if the filter
  // queue has room for those of the whole stream.
  lemma {:induction false} DeliversAll(c: Config, s: System, run: seq<Action>, bytes: seq<Byte>, id: nat,
                                       stream: seq<Segment>)
    requires Start(c, s) && id in c.ids && c.kind[id] == PES && FirstWith(c, id, c.tpid[id])
    requires |Flat(StreamPes(stream))| <= s.filters[id].queue.size
    requires forall i :: 0 <= i < |stream| ==> SegmentOk(stream[i])
    requires var r := Run(c, s, run);
             && |r.input.data| + |bytes| <= r.input.size
             && OfPid(Blocks(r.accepted + bytes), c.tpid[id]) == StreamPackets(stream)
    ensures var fed := Step(c, Step(c, Run(c, s, run), Supply(bytes)), ReadAndDispatch);
            FiltersOk(c, fed.filters) && id in fed.filters
            && var end := Step(c, fed, Drain(id, |fed.filters[id].queue.data|));
               && id in end.filters && end.filters[id].queue.data == []
               && end.filters[id].drained == Flat(StreamPes(stream))
  {
    var given := run + [Supply(bytes)];
    OneMore(c, s, run, Supply(bytes));
    OneMore(c, s, given, ReadAndDispatch);
    PutsOutAll(c, s, given, id, stream);
    DrainsAll(c, Run(c, s, given + [ReadAndDispatch]), id);
  }

  lemma {:induction false} PlainStep(c: Config, input: seq<Byte>, f: FilterState, a: Action, id: nat)
    requires c.Ok() && id in c.kind && FilterOk(f) && c.kind[id] == TS
    ensures var f' := FilterStep(c, input, f, a, id);
            f'.handled == f.handled && f'.written == f.written && f'.events == f.events
  {
    RoutedShare(c, id, f, Blocks(input));
  }

  // A filter for plain TS is given its share, and handles none of it.
  lemma {:induction false} PlainFilterWaits(c: Config, s: System, run: seq<Action>, id: nat)
    requires Start(c, s) && id in s.filters && c.kind[id] == TS
    ensures var r := Run(c, s, run);
            var f := r.filters[id];
            Blocks(f.output) == Share(c, r.arrived, id) && f.handled == [] && f.written == [] && f.events == []
    decreases |run|
  {
    RunAccounts(c, s, run, id);
    if run == [] {
    } else {
      var front, a := run[..|run| - 1], run[|run| - 1];
      var mid := Run(c, s, front);
      PlainFilterWaits(c, s, front, id);
      StepKeeps(c, mid, a);
      PlainStep(c, mid.input.data, mid.filters[id], a, id);
    }
  }

  // A filter behind another one with the same PID never puts out anything.
  lemma {:induction false} SecondFilterStarves(c: Config, s: System, run: seq<Action>, id: nat)
    requires Start(c, s) && id in s.filters
    requires id !in c.ids || exists j :: j in c.ids && j < id && c.tpid[j] == c.tpid[id]
    ensures var f := Run(c, s, run).filters[id];
            f.handled == [] && f.output == [] && f.failures == 0 && f.written == []
  {
    RunAccounts(c, s, run, id);
    assert Assemble(IDLE, []) == (IDLE, []) && Flat([]) == [];
  }

  // What a failed write does: the bytes stay, and the next PES packet comes out behind them.
  lemma {:induction false} StaleAfterFailure(f: FilterState, p: Packet, pes: seq<Byte>, packets: seq<Packet>)
    requires FilterOk(f) && HandlePacket(f, p).failures > f.failures
    requires IsPes(pes) && Carries(packets, pes)
    ensures var f' := HandlePacket(f, p);
            && f'.pes.left == 0 && f'.pes.out != []
            && Assemble(f'.pes, packets) == (IDLE, [f'.pes.out + pes])
            && f'.pes.out + pes != pes
  {
    PesIsTaken(HandlePacket(f, p).pes.out, pes, packets);
  }
}
