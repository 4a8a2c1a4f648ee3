/** The history reader of server/collectors/starlink_stub.py: a nested message whose
    field 7 holds four packed lists of floats. */
module Starlink {
  import opened Text
  import opened Wire

  /** A float as its four bytes, least significant first. */
  datatype Float32 = Float32(b0: Byte, b1: Byte, b2: Byte, b3: Byte)

  function Floats(packed: Bytes): seq<Float32>
    decreases |packed|
  {
    if |packed| < 4 then []
    else [Float32(packed[0], packed[1], packed[2], packed[3])] + Floats(packed[4..])
  }

  function Pack(floats: seq<Float32>): Bytes {
    if floats == [] then []
    else [floats[0].b0, floats[0].b1, floats[0].b2, floats[0].b3] + Pack(floats[1..])
  }

  lemma {:induction false} PackRoundTrip(floats: seq<Float32>)
    ensures Floats(Pack(floats)) == floats
  {
    if floats != [] {
      PackRoundTrip(floats[1..]);
      assert Pack(floats)[4..] == Pack(floats[1..]);
      assert floats == [floats[0]] + floats[1..];
    }
  }

  datatype History = History(
    popPingLatencyMs: seq<Float32>,
    popPingDropRate: seq<Float32>,
    downlinkThroughputBps: seq<Float32>,
    uplinkThroughputBps: seq<Float32>)
  {
    function List(num: nat): seq<Float32>
      requires 1 <= num <= 4
    {
      match num
      case 1 => popPingLatencyMs
      case 2 => popPingDropRate
      case 3 => downlinkThroughputBps
      case 4 => uplinkThroughputBps
    }

    function Stored(num: nat, floats: seq<Float32>): History {
      match num
      case 1 => this.(popPingLatencyMs := floats)
      case 2 => this.(popPingDropRate := floats)
      case 3 => this.(downlinkThroughputBps := floats)
      case 4 => this.(uplinkThroughputBps := floats)
      case _ => this
    }
  }

  const EMPTY := History([], [], [], [])

  function InnerField(h: History, f: Field): History {
    if f.LengthDelimited? then h.Stored(f.num, Floats(f.payload)) else h
  }

  function Inner(h: History, fields: seq<Field>): History
    decreases fields
  {
    if fields == [] then h else Inner(InnerField(h, fields[0]), fields[1..])
  }

  /** One turn of the inner loop. */
  lemma InnerAt(h: History, data: Bytes, i: nat)
    requires i < |data|
    ensures var read := ReadField(data[i], Drop(data, i + 1));
            Inner(h, ReadFields(Drop(data, i))) ==
            if read.Next? then Inner(InnerField(h, read.field), ReadFields(read.rest)) else h
  {
    FieldsAt(data, i);
    var read := ReadField(data[i], Drop(data, i + 1));
    if read.Next? {
      assert ([read.field] + ReadFields(read.rest))[1..] == ReadFields(read.rest);
    }
  }

  function OuterField(h: History, f: Field): History {
    if f.LengthDelimited? && f.num == 7 then Inner(h, ReadFields(f.payload)) else h
  }

  function Outer(h: History, fields: seq<Field>): History
    decreases fields
  {
    if fields == [] then h else Outer(OuterField(h, fields[0]), fields[1..])
  }

  /** One turn of the outer loop. */
  lemma OuterAt(h: History, data: Bytes, i: nat)
    requires i < |data|
    ensures var read := ReadField(data[i], Drop(data, i + 1));
            Outer(h, ReadFields(Drop(data, i))) ==
            if read.Next? then Outer(OuterField(h, read.field), ReadFields(read.rest)) else h
  {
    FieldsAt(data, i);
    var read := ReadField(data[i], Drop(data, i + 1));
    if read.Next? {
      assert ([read.field] + ReadFields(read.rest))[1..] == ReadFields(read.rest);
    }
  }

  method UnpackFloats(packed: Bytes) returns (floats: seq<Float32>)
    ensures floats == Floats(packed)
  {
    floats := [];
    var k := 0;
    while k < |packed| - 3
      invariant 0 <= k <= |packed| && floats + Floats(packed[k..]) == Floats(packed)
    {
      assert packed[k..][4..] == packed[k + 4..];
      floats := floats + [Float32(packed[k], packed[k + 1], packed[k + 2], packed[k + 3])];
      k := k + 4;
    }
  }

  /** The inner loop. */
  method ParseInner(sub: Bytes, start: History) returns (history: History)
    ensures history == Inner(start, ReadFields(sub))
  {
    history := start;
    var j := 0;
    while j < |sub|
      invariant Inner(history, ReadFields(Drop(sub, j))) == Inner(start, ReadFields(sub))
      decreases |sub| - j
    {
      InnerAt(history, sub, j);
      var read, next := ReadNext(sub, j);
      if read.Stop? {
        break;
      }
      j := next;
      if read.field.LengthDelimited? {
        var floats := UnpackFloats(read.field.payload);
        history := history.Stored(read.field.num, floats);
      }
    }
  }

  /** Total on every byte string. */
  method ParseHistoryResponse(data: Bytes) returns (result: Option<History>)
    ensures result == Parsed(data)
  {
    ShortDataIsEmpty(data);
    if |data| < 4 {
      return None;
    }
    var history := EMPTY;
    var i := 0;
    while i < |data|
      invariant Outer(history, ReadFields(Drop(data, i))) == Outer(EMPTY, ReadFields(data))
      decreases |data| - i
    {
      OuterAt(history, data, i);
      var read, next := ReadNext(data, i);
      if read.Stop? {
        break;
      }
      i := next;
      if read.field.LengthDelimited? && read.field.num == 7 {
        history := ParseInner(read.field.payload, history);
      }
    }
    if history.popPingLatencyMs != [] {
      return Some(history);
    }
    return None;
  }

  /** What a response means: the history its fields describe, if it has latencies. */
  function Parsed(data: Bytes): Option<History> {
    var history := Outer(EMPTY, ReadFields(data));
    if history.popPingLatencyMs != [] then Some(history) else None
  }

  // ----- the early return for short responses changes nothing -----

  lemma {:induction false} ShortPayloads(data: Bytes)
    ensures forall f | f in ReadFields(data) && f.LengthDelimited? :: |f.payload| < |data|
    decreases |data|
  {
    if data != [] {
      var read := ReadField(data[0], data[1..]);
      if read.Next? {
        ShortPayloads(read.rest);
      }
    }
  }

  lemma {:induction false} InnerNothing(h: History, fields: seq<Field>)
    requires h.popPingLatencyMs == []
    requires forall f | f in fields && f.LengthDelimited? :: |f.payload| < 4
    ensures Inner(h, fields).popPingLatencyMs == []
    decreases fields
  {
    if fields != [] {
      assert fields[0] in fields;
      InnerNothing(InnerField(h, fields[0]), fields[1..]);
    }
  }

  lemma {:induction false} OuterNothing(h: History, fields: seq<Field>)
    requires h.popPingLatencyMs == []
    requires forall f | f in fields && f.LengthDelimited? :: |f.payload| < 4
    ensures Outer(h, fields).popPingLatencyMs == []
    decreases fields
  {
    if fields != [] {
      var f := fields[0];
      assert f in fields;
      if f.LengthDelimited? && f.num == 7 {
        ShortPayloads(f.payload);
        InnerNothing(h, ReadFields(f.payload));
      }
      OuterNothing(OuterField(h, f), fields[1..]);
    }
  }

  lemma ShortDataIsEmpty(data: Bytes)
    ensures |data| < 4 ==> Parsed(data) == None
  {
    if |data| < 4 {
      ShortPayloads(data);
      OuterNothing(EMPTY, ReadFields(data));
    }
  }

  // ----- round trip -----

  predicate Carries(f: Field, num: nat) {
    f.LengthDelimited? && f.num == num
  }

  /** Field number num occurs once, at index k. */
  ghost predicate OnlyAt(fields: seq<Field>, num: nat, k: int) {
    0 <= k < |fields| && forall i | 0 <= i < |fields| :: Carries(fields[i], num) <==> i == k
  }

  lemma {:induction false} InnerUntouched(h: History, fields: seq<Field>, num: nat)
    requires 1 <= num <= 4 && forall f | f in fields :: !Carries(f, num)
    ensures Inner(h, fields).List(num) == h.List(num)
    decreases fields
  {
    if fields != [] {
      assert fields[0] in fields;
      InnerUntouched(InnerField(h, fields[0]), fields[1..], num);
    }
  }

  lemma {:induction false} InnerReads(h: History, fields: seq<Field>, num: nat, k: nat)
    requires 1 <= num <= 4 && OnlyAt(fields, num, k)
    ensures Inner(h, fields).List(num) == Floats(fields[k].payload)
    decreases fields
  {
    assert Carries(fields[k], num);
    if k == 0 {
      forall f | f in fields[1..] ensures !Carries(f, num) {
        var i :| 0 <= i < |fields| - 1 && fields[1..][i] == f;
        assert fields[i + 1] == f;
      }
      InnerUntouched(InnerField(h, fields[0]), fields[1..], num);
    } else {
      assert forall i | 0 <= i < |fields| - 1 :: fields[1..][i] == fields[i + 1];
      InnerReads(InnerField(h, fields[0]), fields[1..], num, k - 1);
    }
  }

  lemma {:induction false} OuterUntouched(h: History, fields: seq<Field>)
    requires forall f | f in fields :: !Carries(f, 7)
    ensures Outer(h, fields) == h
  {
    if fields != [] {
      assert fields[0] in fields;
      OuterUntouched(h, fields[1..]);
    }
  }

  lemma {:induction false} OuterReads(h: History, fields: seq<Field>, k: nat)
    requires OnlyAt(fields, 7, k)
    ensures Outer(h, fields) == Inner(h, ReadFields(fields[k].payload))
  {
    assert Carries(fields[k], 7);
    if k == 0 {
      forall f | f in fields[1..] ensures !Carries(f, 7) {
        var i :| 0 <= i < |fields| - 1 && fields[1..][i] == f;
        assert fields[i + 1] == f;
      }
      OuterUntouched(OuterField(h, fields[0]), fields[1..]);
    } else {
      assert forall i | 0 <= i < |fields| - 1 :: fields[1..][i] == fields[i + 1];
      OuterReads(h, fields[1..], k - 1);
    }
  }

  /** inner holds the four packed lists of h, in any order, among other fields. */
  ghost predicate Holds(inner: seq<Field>, h: History) {
    && HoldsList(inner, 1, h.popPingLatencyMs) && HoldsList(inner, 2, h.popPingDropRate)
    && HoldsList(inner, 3, h.downlinkThroughputBps) && HoldsList(inner, 4, h.uplinkThroughputBps)
  }

  ghost predicate HoldsList(inner: seq<Field>, num: nat, floats: seq<Float32>) {
    exists k :: OnlyAt(inner, num, k) && inner[k].payload == Pack(floats)
  }

  lemma ListRead(inner: seq<Field>, num: nat, floats: seq<Float32>)
    requires 1 <= num <= 4 && HoldsList(inner, num, floats)
    ensures Inner(EMPTY, inner).List(num) == floats
  {
    var i :| OnlyAt(inner, num, i) && inner[i].payload == Pack(floats);
    InnerReads(EMPTY, inner, num, i);
    PackRoundTrip(floats);
  }

  lemma InnerIs(inner: seq<Field>, h: History)
    requires Holds(inner, h)
    ensures Inner(EMPTY, inner) == h
  {
    ListRead(inner, 1, h.popPingLatencyMs);
    ListRead(inner, 2, h.popPingDropRate);
    ListRead(inner, 3, h.downlinkThroughputBps);
    ListRead(inner, 4, h.uplinkThroughputBps);
  }

  /** A printed response is read back exactly: its field 7 holds the four lists, and
      both levels may carry any other one-byte-tag fields anywhere. */
  lemma HistoryRoundTrip(outer: seq<Field>, k: nat, inner: seq<Field>, h: History)
    requires AllWellFormed(outer) && AllWellFormed(inner)
    requires OnlyAt(outer, 7, k) && outer[k].payload == WriteFields(inner)
    requires Holds(inner, h) && h.popPingLatencyMs != []
    ensures Parsed(WriteFields(outer)) == Some(h)
  {
    FieldsRoundTrip(outer);
    FieldsRoundTrip(inner);
    OuterReads(EMPTY, outer, k);
    InnerIs(inner, h);
  }
}
