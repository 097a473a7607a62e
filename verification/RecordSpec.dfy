// The record path of Filter.cpp and Dvr.cpp: bytes wait in the filter, and are written to the
// record queue in whole blocks, or dropped while the queue is in the overflow state.
module RecordSpec {
  import opened PesStream
  import opened DemuxSpec

  datatype RecordStatus = DataReady | LowWater | HighWater | Overflow

  datatype Result = Success | UnknownError

  // checkRecordStatusChange.
  function NewStatus(status: RecordStatus, queue: Fmq, high: nat, low: nat): RecordStatus
    requires |queue.data| <= queue.size
  {
    if |queue.data| == queue.size then Overflow
    else if |queue.data| > high then HighWater
    else if |queue.data| < low then LowWater
    else status
  }

  // What became of the bytes of one successful call of the handler.
  datatype Block = Written(bytes: seq<Byte>) | Dropped(bytes: seq<Byte>)

  // mRecordFilterOutput, mDvr, the queue and mRecordStatus; and as history the input, the blocks,
  // what the client read, the status callbacks and the byte counts of the record events.
  datatype Record = Record(
    output: seq<Byte>, attached: bool, queue: Fmq, status: RecordStatus,
    input: seq<Byte>, blocks: seq<Block>, drained: seq<Byte>, callbacks: seq<RecordStatus>, events: seq<nat>)

  // maySendRecordStatusCallback.
  function UpdateStatus(r: Record, high: nat, low: nat): Record
    requires |r.queue.data| <= r.queue.size
  {
    var s := NewStatus(r.status, r.queue, high, low);
    if s != r.status then r.(status := s, callbacks := r.callbacks + [s]) else r
  }

  // writeRecordFMQ, and whether it returns true.
  function WriteRecord(r: Record, data: seq<Byte>, high: nat, low: nat): (Record, bool)
    requires |r.queue.data| <= r.queue.size
  {
    if r.status == Overflow then (r, true)
    else (UpdateStatus(r.(queue := r.queue.Write(data)), high, low), r.queue.Fits(data))
  }

  // startRecordFilterHandler.
  function Handle(r: Record, high: nat, low: nat): (Record, Result)
    requires |r.queue.data| <= r.queue.size
  {
    if r.output == [] then (r, Success)
    else if !r.attached then (r, UnknownError)
    else
      var (w, ok) := WriteRecord(r, r.output, high, low);
      if !ok then (w, UnknownError)
      else
        var b := if r.status == Overflow then Dropped(r.output) else Written(r.output);
        (w.(output := [], blocks := w.blocks + [b], events := w.events + [|r.output|]), Success)
  }

  datatype Action =
    | Input(bytes: seq<Byte>)       // updateRecordOutput
    | DoHandle
    | Flush                         // Dvr::flush or Dvr::start
    | Attach(on: bool)
    | Drain(n: nat)                 // the client reads

  function Step(r: Record, a: Action, high: nat, low: nat): Record
    requires |r.queue.data| <= r.queue.size
  {
    match a
    case Input(bytes) => r.(output := r.output + bytes, input := r.input + bytes)
    case DoHandle => Handle(r, high, low).0
    case Flush => r.(status := DataReady)
    case Attach(on) => r.(attached := on)
    case Drain(n) =>
      if n <= |r.queue.data|
      then r.(queue := r.queue.(data := r.queue.data[n..]), drained := r.drained + r.queue.data[..n])
      else r
  }

  function AllBytes(blocks: seq<Block>): seq<Byte> {
    if blocks == [] then [] else AllBytes(blocks[..|blocks| - 1]) + blocks[|blocks| - 1].bytes
  }

  function WrittenBytes(blocks: seq<Block>): seq<Byte> {
    if blocks == [] then []
    else WrittenBytes(blocks[..|blocks| - 1]) +
         if blocks[|blocks| - 1].Written? then blocks[|blocks| - 1].bytes else []
  }

  function Sizes(blocks: seq<Block>): seq<nat> {
    if blocks == [] then [] else Sizes(blocks[..|blocks| - 1]) + [|blocks[|blocks| - 1].bytes|]
  }

  // Nothing is lost: the input is the blocks and what is still waiting, and the written blocks are
  // what the client read and what is still in the queue.
  ghost predicate Inv(r: Record) {
    && |r.queue.data| <= r.queue.size
    && r.input == AllBytes(r.blocks) + r.output
    && WrittenBytes(r.blocks) == r.drained + r.queue.data
    && r.events == Sizes(r.blocks)
  }

  lemma {:induction false} HandleKeeps(r: Record, high: nat, low: nat)
    requires Inv(r)
    ensures Inv(Handle(r, high, low).0)
  {
  }

  lemma {:induction false} StepKeeps(r: Record, a: Action, high: nat, low: nat)
    requires Inv(r)
    ensures Inv(Step(r, a, high, low))
  {
    match a
    case Input(bytes) =>
      assert AllBytes(r.blocks) + r.output + bytes == AllBytes(r.blocks) + (r.output + bytes);
    case DoHandle => HandleKeeps(r, high, low);
    case Drain(n) =>
      if n <= |r.queue.data| {
        assert r.drained + r.queue.data[..n] + r.queue.data[n..] == r.drained + r.queue.data;
      }
    case _ =>
  }

  function Start(size: nat): Record {
    Record([], false, Fmq([], size), DataReady, [], [], [], [], [])
  }

  ghost function Run(size: nat, run: seq<Action>, high: nat, low: nat): (r: Record)
    ensures Inv(r)
  {
    if run == [] then Start(size)
    else
      var mid := Run(size, run[..|run| - 1], high, low);
      StepKeeps(mid, run[|run| - 1], high, low);
      Step(mid, run[|run| - 1], high, low)
  }

  // Recording conserves bytes over any run.
  lemma RecordingConserves(size: nat, run: seq<Action>, high: nat, low: nat)
    ensures var r := Run(size, run, high, low);
            && r.input == AllBytes(r.blocks) + r.output
            && WrittenBytes(r.blocks) == r.drained + r.queue.data
            && r.events == Sizes(r.blocks) && |r.queue.data| <= size
  {
    SizeStays(size, run, high, low);
    assert Inv(Run(size, run, high, low));
  }

  lemma {:induction false} SizeStays(size: nat, run: seq<Action>, high: nat, low: nat)
    ensures Run(size, run, high, low).queue.size == size
  {
    if run == [] {
    } else {
      SizeStays(size, run[..|run| - 1], high, low);
    }
  }

  // Only flush and start end the overflow state, and while it lasts nothing is written.
  lemma OverflowStays(r: Record, a: Action, high: nat, low: nat)
    requires Inv(r) && r.status == Overflow
    ensures var r' := Step(r, a, high, low);
            && (a != Flush ==> r'.status == Overflow && r'.callbacks == r.callbacks)
            && r'.drained + r'.queue.data == r.drained + r.queue.data
            && (r'.blocks != r.blocks ==> r'.blocks == r.blocks + [Dropped(r.output)] && r'.output == [])
  {
  }

  // Flush and start return to DATA_READY and change nothing else.  Whatever the state was, what is
  // pending is then written by the next handling, if it fits.
  lemma FlushResumes(r: Record, high: nat, low: nat)
    requires Inv(r)
    ensures var f := Step(r, Flush, high, low);
            && f.status == DataReady && f == r.(status := f.status)
            && (r.attached && r.output != [] && |r.queue.data| + |r.output| <= r.queue.size ==>
                  var (w, result) := Handle(f, high, low);
                  && result == Success && w.output == [] && w.blocks == r.blocks + [Written(r.output)]
                  && w.queue == r.queue.(data := r.queue.data + r.output))
  {
  }

  // With nothing pending, or no DVR, the handler changes nothing; the latter is an error.
  lemma NothingWithoutDvr(r: Record, high: nat, low: nat)
    requires Inv(r) && (r.output == [] || !r.attached)
    ensures Handle(r, high, low).0 == r
    ensures Handle(r, high, low).1 == UnknownError <==> r.output != []
  {
  }

  // Unless in overflow, input that fits reaches the client, behind everything before it.
  lemma {:induction false} InputReachesClient(r: Record, bytes: seq<Byte>, high: nat, low: nat)
    requires Inv(r) && r.attached && r.status != Overflow && bytes != []
    requires |r.queue.data| + |r.output| + |bytes| <= r.queue.size
    ensures var handled := Step(Step(r, Input(bytes), high, low), DoHandle, high, low);
            Inv(handled)
            && var r' := Step(handled, Drain(|handled.queue.data|), high, low);
               && r'.input == r.input + bytes && r'.output == [] && r'.queue.data == []
               && r'.drained == r.drained + (r.queue.data + (r.output + bytes))
  {
    StepKeeps(r, Input(bytes), high, low);
    var given := Step(r, Input(bytes), high, low);
    StepKeeps(given, DoHandle, high, low);
    var handled := Step(given, DoHandle, high, low);
    StepKeeps(handled, Drain(|handled.queue.data|), high, low);
    assert handled.queue.data == r.queue.data + (r.output + bytes);
  }

  // A block is dropped only in the overflow state; a failed write loses nothing.
  lemma DroppedIffOverflow(r: Record, high: nat, low: nat)
    requires Inv(r) && r.output != [] && r.attached
    ensures var (r', result) := Handle(r, high, low);
            && (r'.blocks == r.blocks + [Dropped(r.output)] <==> r.status == Overflow)
            && (r'.blocks == r.blocks + [Written(r.output)] <==> r.status != Overflow && r.queue.Fits(r.output))
            && (result == UnknownError <==> r.status != Overflow && !r.queue.Fits(r.output))
            && (result == UnknownError ==> r'.output == r.output && r'.queue == r.queue && r'.blocks == r.blocks)
  {
    var n, d, w := |r.blocks|, r.blocks + [Dropped(r.output)], r.blocks + [Written(r.output)];
    assert |d| == |w| == n + 1 && d[n] == Dropped(r.output) && w[n] == Written(r.output);
  }

  // In the write path a callback is sent exactly when the status changes, with the new status;
  // a write that fills the queue to the last byte ends in overflow, and between the thresholds the
  // status stays what it was.
  lemma CallbackIffChange(r: Record, high: nat, low: nat)
    requires Inv(r)
    ensures var r' := Handle(r, high, low).0;
            && r'.callbacks == r.callbacks + (if r'.status != r.status then [r'.status] else [])
            && (r.output != [] && r.attached && r.status != Overflow ==>
                  var n := |r'.queue.data|;
                  && (n == r'.queue.size <==> r'.status == Overflow)
                  && (n < r'.queue.size && high < n ==> r'.status == HighWater)
                  && (n < r'.queue.size && n <= high && n < low ==> r'.status == LowWater)
                  && (n < r'.queue.size && low <= n <= high ==> r'.status == r.status))
  {
  }
}
