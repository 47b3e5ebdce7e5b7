/** `Conveyor`, `Connector` and the stream indices by which frames find their conveyor. */
module Connectors {

  const UINT64: nat := 0x1_0000_0000_0000_0000

  /** A bounded queue.  Everything that was accepted is either still queued or was taken out, in order. */
  class Conveyor<T> {
    const maxSize: nat
    var dataq: seq<T>
    var failTime: nat
    ghost var accepted: seq<T>
    ghost var removed: seq<T>

    ghost predicate Valid()
      reads this
    {
      accepted == removed + dataq && |dataq| <= maxSize && failTime < UINT64
    }

    constructor (maxSize: nat)
      ensures Valid() && this.maxSize == maxSize && dataq == [] && accepted == []
    {
      this.maxSize := maxSize;
      dataq, failTime, accepted, removed := [], 0, [], [];
    }

    /** Refuses when full, and counts the refusals in a row. */
    method PushDataBuffer(data: T) returns (ok: bool)
      requires Valid()
      modifies this
      ensures Valid() && removed == old(removed)
      ensures ok <==> |old(dataq)| < maxSize
      ensures ok ==> dataq == old(dataq) + [data] && accepted == old(accepted) + [data] && failTime == 0
      ensures !ok ==> dataq == old(dataq) && accepted == old(accepted) && failTime == (old(failTime) + 1) % UINT64
    {
      if |dataq| < maxSize {
        dataq := dataq + [data];
        accepted := accepted + [data];
        failTime := 0;
        return true;
      }
      failTime := (failTime + 1) % UINT64;
      ok := false;
    }

    /** Nothing when the wait for data has run out. */
    method PopDataBuffer() returns (got: bool, data: seq<T>)
      requires Valid()
      modifies this
      ensures Valid() && accepted == old(accepted) && failTime == old(failTime)
      ensures got <==> old(dataq) != []
      ensures data == (if got then [old(dataq)[0]] else []) && data + dataq == old(dataq)
      ensures removed == old(removed) + data
    {
      data := [];
      if dataq == [] { return false, data; }
      data := [dataq[0]];
      removed := removed + [dataq[0]];
      dataq := dataq[1..];
      got := true;
    }

    method PopAllDataBuffer() returns (vec: seq<T>)
      requires Valid()
      modifies this
      ensures Valid() && vec == old(dataq) && dataq == [] && removed == old(accepted) && accepted == old(accepted)
    {
      vec := [];
      while dataq != []
        invariant Valid() && vec + dataq == old(dataq) && accepted == old(accepted)
        decreases |dataq|
      {
        var _, data := PopDataBuffer();
        vec := vec + data;
      }
    }
  }

  class Connector<T> {
    const conveyors: seq<Conveyor<T>>
    const capacity: nat
    var stop: bool

    ghost predicate Valid()
      reads this, conveyors
    {
      && (forall i :: 0 <= i < |conveyors| ==> conveyors[i].Valid() && conveyors[i].maxSize == capacity)
      && (forall i, j :: 0 <= i < j < |conveyors| ==> conveyors[i] != conveyors[j])
    }

    /** The conveyors that `made` holds, all new and empty. */
    constructor (made: seq<Conveyor<T>>, capacity: nat)
      requires forall i :: 0 <= i < |made| ==> made[i].Valid() && made[i].maxSize == capacity
      requires forall i, j :: 0 <= i < j < |made| ==> made[i] != made[j]
      ensures Valid() && conveyors == made && this.capacity == capacity
    {
      conveyors, this.capacity, stop := made, capacity, false;
    }

    method PushDataBufferToConveyor(idx: nat, data: T) returns (ok: bool)
      requires Valid() && idx < |conveyors|
      modifies conveyors[idx]
      ensures Valid() && (ok <==> |old(conveyors[idx].dataq)| < capacity)
      ensures conveyors[idx].dataq == if ok then old(conveyors[idx].dataq) + [data] else old(conveyors[idx].dataq)
    {
      ok := conveyors[idx].PushDataBuffer(data);
    }

    /** Drains every conveyor, and changes nothing else. */
    method EmptyDataQueue()
      requires Valid()
      modifies conveyors
      ensures Valid() && stop == old(stop)
      ensures forall i :: 0 <= i < |conveyors| ==>
                conveyors[i].dataq == [] && conveyors[i].removed == conveyors[i].accepted == old(conveyors[i].accepted)
    {
      for i := 0 to |conveyors|
        invariant Valid()
        invariant forall k :: 0 <= k < |conveyors| ==> conveyors[k].accepted == old(conveyors[k].accepted)
        invariant forall k :: 0 <= k < i ==> conveyors[k].dataq == [] && conveyors[k].removed == conveyors[k].accepted
      {
        var _ := conveyors[i].PopAllDataBuffer();
      }
    }
  }

  // ----- Stream indices -----

  const MAX_STREAMS: nat := 128
  const INVALID_STREAM: nat := 0xFFFF_FFFF

  /** The part of `IdxManager` that numbers streams. */
  class StreamIdx {
    var bits: seq<bool>
    var index: map<string, nat>

    /** Streams have different indices, and the bits say which are taken. */
    ghost predicate Valid()
      reads this
    {
      && |bits| == MAX_STREAMS
      && (forall s :: s in index ==> index[s] < MAX_STREAMS && bits[index[s]])
      && (forall s, t :: s in index && t in index && s != t ==> index[s] != index[t])
      && (forall i :: 0 <= i < MAX_STREAMS && bits[i] ==> exists s :: s in index && index[s] == i)
    }

    constructor ()
      ensures Valid() && index == map[]
    {
      bits, index := seq(MAX_STREAMS, _ => false), map[];
    }

    /** A stream that has an index keeps it; a new one gets the lowest that is free, if any is. */
    method GetStreamIndex(stream: string) returns (i: nat)
      requires Valid()
      modifies this
      ensures Valid()
      ensures stream in old(index) ==> i == old(index)[stream] && index == old(index)
      ensures stream !in old(index) && i < MAX_STREAMS ==>
                index == old(index)[stream := i] && !old(bits)[i] && forall k :: 0 <= k < i ==> old(bits)[k]
      ensures i >= MAX_STREAMS ==>
        i == INVALID_STREAM && index == old(index) && forall k :: 0 <= k < MAX_STREAMS ==> bits[k]
    {
      if stream in index { return index[stream]; }
      for k := 0 to MAX_STREAMS
        invariant Valid() && index == old(index) && bits == old(bits)
        invariant forall j :: 0 <= j < k ==> bits[j]
      {
        if !bits[k] {
          ghost var before := index;
          bits := bits[k := true];
          index := index[stream := k];
          forall j | 0 <= j < MAX_STREAMS && bits[j] ensures exists s :: s in index && index[s] == j {
            if j == k {
              assert stream in index && index[stream] == j;
            } else {
              var s :| s in before && before[s] == j;
              assert s in index && index[s] == j;
            }
          }
          return k;
        }
      }
      i := INVALID_STREAM;
    }

    method ReturnStreamIndex(stream: string)
      requires Valid()
      modifies this
      ensures Valid() && index == old(index) - {stream}
    {
      if stream !in index { return; }
      ghost var before := index;
      bits := bits[index[stream] := false];
      index := index - {stream};
      forall j | 0 <= j < MAX_STREAMS && bits[j] ensures exists s :: s in index && index[s] == j {
        var s :| s in before && before[s] == j;
        assert s in index && index[s] == j;
      }
    }
  }
}
