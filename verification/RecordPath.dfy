// The objects of the record path: the record side of Dvr (Dvr.cpp), Filter (Filter.cpp) and Demux
// (Demux.cpp).  Each step of them is proved to be a step of RecordSpec, whatever the history was.
module RecordPath {
  import opened PesStream
  import opened DemuxSpec
  import opened RecordSpec

  datatype StartResult = Started | NotInitialized | InvalidState

  class RecordDvr {
    const highThreshold: nat
    const lowThreshold: nat
    var dvrMQ: Fmq
    var recordStatus: RecordStatus
    var callbacks: seq<RecordStatus>

    // The queue, the status and the callbacks are those of the record r.
    ghost predicate Stands(r: Record)
      reads this
    {
      && |dvrMQ.data| <= dvrMQ.size
      && dvrMQ == r.queue && recordStatus == r.status && callbacks == r.callbacks
    }

    constructor (bufferSize: nat, highThreshold: nat, lowThreshold: nat)
      ensures Stands(RecordSpec.Start(bufferSize))
      ensures this.highThreshold == highThreshold && this.lowThreshold == lowThreshold
    {
      this.highThreshold, this.lowThreshold := highThreshold, lowThreshold;
      dvrMQ, recordStatus, callbacks := Fmq([], bufferSize), DataReady, [];
    }

    method MaySendRecordStatusCallback(ghost r: Record)
      requires Stands(r)
      modifies this
      ensures Stands(UpdateStatus(r, highThreshold, lowThreshold)) && dvrMQ == old(dvrMQ)
    {
      var newStatus := NewStatus(recordStatus, dvrMQ, highThreshold, lowThreshold);
      if recordStatus != newStatus {
        callbacks := callbacks + [newStatus];
        recordStatus := newStatus;
      }
    }

    method WriteRecordFMQ(data: seq<Byte>, ghost r: Record) returns (ok: bool)
      requires Stands(r)
      modifies this
      ensures Stands(WriteRecord(r, data, highThreshold, lowThreshold).0)
      ensures ok == WriteRecord(r, data, highThreshold, lowThreshold).1
    {
      if recordStatus == Overflow {
        return true;
      }
      if dvrMQ.Fits(data) {
        dvrMQ := dvrMQ.Write(data);
        MaySendRecordStatusCallback(r.(queue := dvrMQ));
        return true;
      }
      MaySendRecordStatusCallback(r);
      return false;
    }

    method Flush(ghost r: Record)
      requires Stands(r)
      modifies this
      ensures Stands(Step(r, Action.Flush, highThreshold, lowThreshold))
      ensures recordStatus == DataReady && dvrMQ == old(dvrMQ) && callbacks == old(callbacks)
    {
      recordStatus := DataReady;
    }

    // start of a record DVR: with a callback and once configured.
    method Start(hasCallback: bool, configured: bool, ghost r: Record) returns (result: StartResult)
      requires Stands(r)
      modifies this
      ensures result == if !hasCallback then NotInitialized else if !configured then InvalidState else Started
      ensures Stands(if result == Started then Step(r, Action.Flush, highThreshold, lowThreshold) else r)
      ensures recordStatus == (if result == Started then DataReady else old(recordStatus))
      ensures dvrMQ == old(dvrMQ) && callbacks == old(callbacks)
    {
      if !hasCallback {
        return NotInitialized;
      }
      if !configured {
        return InvalidState;
      }
      recordStatus := DataReady;
      return Started;
    }
  }

  class RecordFilter {
    var recordFilterOutput: seq<Byte>
    var dvr: RecordDvr?
    var events: seq<nat>

    // With d as the DVR it may be attached to, the filter is in the state r.
    ghost predicate Stands(d: RecordDvr, r: Record)
      reads this, d
    {
      && d.Stands(r) && (dvr == null || dvr == d)
      && recordFilterOutput == r.output && events == r.events && r.attached == (dvr != null)
    }

    constructor (ghost d: RecordDvr, ghost size: nat)
      requires d.Stands(RecordSpec.Start(size))
      ensures Stands(d, RecordSpec.Start(size))
    {
      recordFilterOutput, dvr, events := [], null, [];
    }

    method AttachFilterToRecord(d: RecordDvr, ghost r: Record)
      requires Stands(d, r)
      modifies this
      ensures Stands(d, Step(r, Attach(true), d.highThreshold, d.lowThreshold)) && dvr == d
    {
      dvr := d;
    }

    method DetachFilterFromRecord(ghost d: RecordDvr, ghost r: Record)
      requires Stands(d, r)
      modifies this
      ensures Stands(d, Step(r, Attach(false), d.highThreshold, d.lowThreshold)) && dvr == null
    {
      dvr := null;
    }

    method UpdateRecordOutput(data: seq<Byte>, ghost d: RecordDvr, ghost r: Record)
      requires Stands(d, r)
      modifies this
      ensures Stands(d, Step(r, Input(data), d.highThreshold, d.lowThreshold))
      ensures recordFilterOutput == old(recordFilterOutput) + data && dvr == old(dvr) && events == old(events)
    {
      recordFilterOutput := recordFilterOutput + data;
    }

    method StartRecordFilterHandler(ghost d: RecordDvr, ghost r: Record) returns (result: Result)
      requires Stands(d, r)
      modifies this, dvr
      ensures Stands(d, Step(r, DoHandle, d.highThreshold, d.lowThreshold)) && dvr == old(dvr)
      ensures result == RecordSpec.Handle(r, d.highThreshold, d.lowThreshold).1
    {
      if recordFilterOutput == [] {
        return Success;
      }
      if dvr == null {
        return UnknownError;
      }
      var ok := dvr.WriteRecordFMQ(recordFilterOutput, r);
      if !ok {
        return UnknownError;
      }
      events := events + [|recordFilterOutput|];
      recordFilterOutput := [];
      return Success;
    }
  }

  class RecordDemux {
    var filters: map<nat, RecordFilter>
    var recordFilterIds: seq<nat>     // a set, in the order of iteration

    ghost predicate Valid()
      reads this
    {
      && (forall id :: id in recordFilterIds ==> id in filters)
      && (forall i, j :: i in filters && j in filters && i != j ==> filters[i] != filters[j])
    }

    // Only the first record filter gets the input.
    method SendFrontendInputToRecord(data: seq<Byte>, ghost d: RecordDvr, ghost r: Record)
      requires Valid() && (recordFilterIds != [] ==> filters[recordFilterIds[0]].Stands(d, r))
      modifies if recordFilterIds == [] then {} else {filters[recordFilterIds[0]]}
      ensures Valid() && unchanged(this, d)
      ensures recordFilterIds != [] ==>
                filters[recordFilterIds[0]].Stands(d, Step(r, Input(data), d.highThreshold, d.lowThreshold))
      ensures forall id :: id in filters && (recordFilterIds == [] || id != recordFilterIds[0])
                ==> unchanged(filters[id])
    {
      if |recordFilterIds| == 0 {
        return;
      }
      filters[recordFilterIds[0]].UpdateRecordOutput(data, d, r);
    }

    // And only that one is handled; with none there is nothing to record to.
    method StartRecordFilterDispatcher(ghost d: RecordDvr, ghost r: Record) returns (ok: bool)
      requires Valid() && (recordFilterIds != [] ==> filters[recordFilterIds[0]].Stands(d, r))
      modifies if recordFilterIds == [] then {} else {filters[recordFilterIds[0]], d}
      ensures Valid() && unchanged(this)
      ensures ok <==> recordFilterIds != [] && RecordSpec.Handle(r, d.highThreshold, d.lowThreshold).1 == Success
      ensures recordFilterIds != [] ==>
                filters[recordFilterIds[0]].Stands(d, Step(r, DoHandle, d.highThreshold, d.lowThreshold))
      ensures forall id :: id in filters && (recordFilterIds == [] || id != recordFilterIds[0])
                ==> unchanged(filters[id])
    {
      if |recordFilterIds| == 0 {
        return false;
      }
      var result := filters[recordFilterIds[0]].StartRecordFilterHandler(d, r);
      ok := result == Success;
    }
  }
}
