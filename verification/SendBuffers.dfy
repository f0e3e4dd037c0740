/**
  `SendBuffer` of src/tcp/send_buffer.cpp over the ring buffer, proved to refine the
  sender of SenderModel step by step.

  The IP layer's answers are a parameter: `budget` packets are accepted during a
  call, the next one is refused.  The code's DCHECKs are a precondition (line 31),
  asserts (lines 21, 79 and 141) and a postcondition of Settle (line 97); what becomes of the
  one of line 84 is SenderNumbers.AckOrderCheck.
 */
module SendBuffers {
  import opened Machine
  import opened SequenceOrder
  import opened SenderModel
  import opened SenderInvariant
  import opened SenderFields
  import opened Segments
  import opened RingBuffers
  import Deadline

  class SendBuffer {
    const buffer: RingBuffer
    var connection: Connection        // addresses, and tcb_->send.initial
    var SYN: Ctl
    var FIN: Ctl
    var unack: u32
    var next: u32
    var bytesInFlight: u64
    var deadline: nat
    var rcvNext: u32
    var synReceived: bool
    var wire: seq<Segment>
    ghost var model: Sender

    ghost function Value(): Fields
      requires buffer.Valid()
      reads this, buffer, buffer.data
    {
      Fields(SYN, FIN, unack, next, bytesInFlight, buffer.contents, deadline, rcvNext, synReceived, wire)
    }

    /** The fields represent the model. */
    ghost predicate Represents()
      reads this, buffer, buffer.data
    {
      && buffer.Valid() && buffer.data.Length == CAPACITY
      && InRange(model) && Value() == FieldsOf(connection, model)
    }

    ghost predicate Valid()
      reads this, buffer, buffer.data
    {
      Represents() && Inv(model)
    }

    constructor (local: SocketAddress, remote: SocketAddress, now: nat)
      ensures Valid() && fresh(buffer) && fresh(buffer.data)
      ensures model == Init(now)
    {
      buffer := new RingBuffer(CAPACITY);
      connection := Connection(local, remote, 0);
      SYN, FIN, unack, next, bytesInFlight := Idle, Idle, 0, 0, 0;
      deadline := now + SECOND;
      rcvNext, synReceived, wire := 0, false, [];
      model := Init(now);
    }

    // -------------------------------------------------------------- transmit

    method TransmitSyn(budget: nat)
      requires Represents() && SYN == Sent
      modifies `wire, `model
      ensures Represents() && model == SenderModel.Transmit(old(model), budget)
    {
      if budget != 0 {
        OnWireAppend(connection, model.log, Syn(synReceived, if synReceived then rcvNext else 0));
        if synReceived {
          wire := wire + [CreateSegment(connection, connection.initial, rcvNext, Segments.SYN + ACK, [])];
        } else {
          wire := wire + [CreateSegment(connection, connection.initial, 0, Segments.SYN, [])];
        }
        model := SenderModel.Transmit(model, budget);
      }
    }

    /** Line 120: the next bytes, none when the queue ends here; the read never leaves the queue. */
    method ReadNext() returns (data: seq<byte>)
      requires buffer.Valid() && buffer.data.Length == CAPACITY && bytesInFlight <= |buffer.contents|
      ensures data == buffer.contents[bytesInFlight..bytesInFlight + Min(MSS, |buffer.contents| - bytesInFlight)]
    {
      var read := buffer.ReadOffset(bytesInFlight, MSS);
      data := read.bytes;
    }

    /** Lines 120-136: read at the current position and build the segment. */
    method BuildNext() returns (g: Segment, fin: bool)
      requires Represents() && Sendable(model) && SYN == Acked && bytesInFlight < WINDOW
      ensures InWindow(model) && model.ahead == bytesInFlight
      ensures g == OnWire(connection, NextPacket(model)) && fin == NextPacket(model).fin
    {
      var data := ReadNext();
      var seqno := Wrap(unack + bytesInFlight);
      fin := FIN == Sent && Equal(connection.initial, Wrap(seqno + |data| + 1), next);
      BuildsNextPacket(connection, model, |data|);
      g := CreateSegment(connection, seqno, rcvNext, if fin then ACK + Segments.FIN else ACK, data);
    }

    /** The body of the loop of `transmit`; `accept` is the IP layer's answer. */
    method SendNext(accept: bool) returns (more: bool)
      requires Represents() && Sendable(model) && SYN == Acked && bytesInFlight < WINDOW
      modifies `bytesInFlight, `wire, `model
      ensures Represents() && Sendable(model) && old(InWindow(model))
      ensures model == old(Turn(model, accept))
      ensures more <==> accept && old(NextPacket(model).data) != []
      ensures more ==> bytesInFlight > old(bytesInFlight)
    {
      var g, fin := BuildNext();
      ghost var f, after := Value(), Turn(model, accept);
      TurnFields(connection, model, accept);
      bytesInFlight := bytesInFlight + |g.data|;
      if (fin || |g.data| != 0) && accept {
        wire := wire + [g];
      }
      assert fin && |g.data| == 0 ==> FIN == Sent;
      model := after;
      assert Value() == f.(flight := bytesInFlight, wire := wire);
      more := accept && |g.data| != 0;
    }

    /** The loop of `transmit`. */
    method TransmitData(budget: nat)
      requires Represents() && Sendable(model) && SYN == Acked
      modifies `bytesInFlight, `wire, `model
      ensures Represents() && model == TransmitLoop(old(model), budget)
    {
      var accepts := budget;
      while bytesInFlight < WINDOW
        invariant Represents() && Sendable(model)
        invariant TransmitLoop(model, accepts) == TransmitLoop(old(model), budget)
        decreases WINDOW - bytesInFlight
      {
        var more := SendNext(accepts > 0);
        if !more {
          return;
        }
        accepts := accepts - 1;
      }
    }

    /** `transmit` sends what the model sends, segment by segment. */
    method Transmit(budget: nat)
      requires Represents() && Sendable(model)
      modifies `bytesInFlight, `wire, `model
      ensures Represents() && model == SenderModel.Transmit(old(model), budget)
    {
      if SYN == Idle {
        return;
      }
      if SYN == Sent {
        TransmitSyn(budget);
        return;
      }
      TransmitData(budget);
    }

    // ----------------------------------------------------------------- steps

    /** Lines 23-26. */
    method BeginSyn(initial: u32)
      requires Represents() && SYN == Idle && FIN == Idle && model.stream == [] && model.log == []
      modifies `connection, `next, `unack, `SYN, `model
      ensures Represents() && model == old(model).(syn := Sent)
      ensures connection == old(connection).(initial := initial)
    {
      connection := connection.(initial := initial);
      next := Wrap(initial + 1);
      unack := initial;
      SYN := Sent;
      model := model.(syn := Sent);
    }

    method SendSYN(initial: u32, budget: nat)
      requires Valid() && SYN == Idle
      modifies this
      ensures Valid() && model == SenderModel.SendSyn(old(model), budget)
      ensures connection == old(connection).(initial := initial)
    {
      StepKeeps(model, DoSendSyn(budget));
      assert FIN == Idle;
      BeginSyn(initial);
      Transmit(budget);
    }

    /** Lines 36-37. */
    method Enqueue(data: seq<byte>) returns (consumed: nat)
      requires buffer.Valid()
      modifies `next, buffer, buffer.data
      ensures buffer.Valid() && consumed == Min(|data|, buffer.data.Length - |old(Value()).queue|)
      ensures var f := old(Value());
              Value() == f.(queue := f.queue + data[..consumed], next := Wrap(f.next + consumed))
    {
      consumed := buffer.Write(data);
      next := Wrap(next + consumed);
    }

    method Append(data: seq<byte>) returns (consumed: nat)
      requires Represents() && model.una <= |model.stream| && SYN != Idle && FIN == Idle
      modifies `next, `model, buffer, buffer.data
      ensures Represents() && consumed == Accepted(old(model), data)
      ensures model == old(model).(stream := old(model).stream + data[..consumed])
    {
      consumed := Enqueue(data);
      AppendFields(connection, model, data[..consumed]);
      model := model.(stream := model.stream + data[..consumed]);
    }

    /** `sendData`: the bytes that fit are appended to the stream. */
    method SendData(data: seq<byte>, budget: nat) returns (consumed: nat)
      requires Valid() && SYN != Idle && FIN == Idle
      modifies this, buffer, buffer.data
      ensures Valid() && model == SenderModel.SendData(old(model), data, budget)
      ensures consumed == Accepted(old(model), data) && connection == old(connection)
    {
      if buffer.IsFull() {
        return 0;
      }
      StepKeeps(model, DoSendData(data, budget));
      consumed := Append(data);
      if SYN == Acked {
        Transmit(budget);
      }
    }

    /** Lines 47-48. */
    method RequestFin()
      requires Represents() && SYN != Idle && FIN == Idle
      modifies `next, `FIN, `model
      ensures Represents() && model == old(model).(fin := Sent)
    {
      RequestFinFields(connection, model);
      FIN := Sent;
      next := Wrap(next + 1);
      model := model.(fin := Sent);
    }

    method SendFIN(budget: nat)
      requires Valid() && SYN != Idle && FIN == Idle
      modifies this
      ensures Valid() && model == SenderModel.SendFin(old(model), budget) && connection == old(connection)
    {
      StepKeeps(model, DoSendFin(budget));
      RequestFin();
      if buffer.IsEmpty() {
        Transmit(budget);
      }
    }

    /** Lines 78-82: the first acknowledgement moves past the SYN. */
    method AckSyn(ghost ack: u32)
      requires Represents() && SYN != Idle
      requires SYN == Sent ==> model.una == 0 && ack == Number(connection, 0)
      modifies `SYN, `unack, `model
      ensures Represents() && model == old(model).(syn := Acked)
    {
      if SYN == Sent {
        assert GreaterThan(connection.initial, ack, connection.initial);
        SYN := Acked;
        unack := Wrap(connection.initial + 1);
        model := model.(syn := Acked);
      }
    }

    /** Lines 86-93. */
    method ConsumeAcked(consumed: u32, now: nat)
      requires buffer.Valid()
      modifies `unack, `bytesInFlight, `deadline, buffer
      ensures buffer.Valid() && Value() == ConsumedFields(old(Value()), consumed, now)
    {
      ghost var f := ConsumedFields(Value(), consumed, now);
      var n := buffer.Consume(consumed);
      unack := Wrap(unack + n);
      bytesInFlight := Minus64(bytesInFlight, consumed);
      if bytesInFlight == 0 {
        deadline := Deadline.Updated(deadline, now + SECOND, Deadline.GRANULARITY);
      }
      assert buffer.contents == f.queue && unack == f.unack && bytesInFlight == f.flight;
    }

    /** Lines 95-102. */
    method AckFin(ack: u32)
      requires buffer.Valid()
      modifies `unack, `FIN, `deadline
      ensures Value() == FinAckedFields(old(Value()), ack)
    {
      if FIN == Sent && Equal(connection.initial, ack, next) {
        FIN := Acked;
        deadline := 0;
        unack := Wrap(unack + 1);
      }
    }

    /** Lines 84-102 on the fields. */
    method SettleFields(ack: u32, now: nat) returns (consumed: u32)
      requires buffer.Valid()
      modifies `unack, `bytesInFlight, `FIN, `deadline, buffer
      ensures buffer.Valid() && Value() == SettledFields(old(Value()), ack, now)
      ensures consumed == Minus(ack, old(unack))
    {
      consumed := Minus(ack, unack);
      ConsumeAcked(consumed, now);
      AckFin(ack);
    }

    /** Lines 84-102 on the model. */
    method Settle(ack: u32, now: nat, ghost position: nat) returns (consumed: u32)
      requires Represents() && Bookkeeping(model) && Zones(model) && SYN == Acked
      requires position == AckPosition(connection, model.una, ack) && position <= HighestSent(model.log)
      modifies `unack, `bytesInFlight, `FIN, `deadline, `model, buffer
      ensures Represents() && model == SenderModel.Settle(old(model), position, now)
      ensures consumed == position - old(model.una)
      ensures FIN == Acked ==> buffer.IsEmpty()
    {
      SettleRepresents(connection, model, ack, now, position);
      model := SenderModel.Settle(model, position, now);
      consumed := SettleFields(ack, now);
      assert Value() == FieldsOf(connection, model);
    }

    /** All of `acknowledge`, once its number is known to stand for `position`. */
    method SettleAndTransmit(ack: u32, now: nat, budget: nat, ghost position: nat)
      requires Represents() && Bookkeeping(model) && Zones(model) && SYN != Idle
      requires SYN == Sent ==> model.una == 0 && ack == Number(connection, 0)
      requires position == AckPosition(connection, model.una, ack) && position <= HighestSent(model.log)
      requires Sendable(SenderModel.Settle(model, position, now))
      modifies this, buffer
      ensures Represents() && connection == old(connection)
      ensures model == SenderModel.Acknowledge(old(model), position, now, budget)
    {
      AckSyn(ack);
      var consumed := Settle(ack, now, position);
      if consumed > 0 {
        Transmit(budget);
      }
    }

    /** `acknowledge`, for any acknowledgement of something sent. */
    method Acknowledge(ack: u32, now: nat, budget: nat)
      requires Valid() && SYN != Idle
      requires AckPosition(connection, model.una, ack) <= HighestSent(model.log)
      modifies this, buffer
      ensures Valid() && connection == old(connection) && unack == ack
      ensures model == SenderModel.Acknowledge(old(model), old(AckPosition(connection, model.una, ack)), now, budget)
    {
      ghost var position := AckPosition(connection, model.una, ack);
      AckNumbers(connection, model, ack, position);
      AcknowledgeKeeps(model, position, now, budget);
      SettleKeeps(model, position, now);
      TransmitLoopFrame(SenderModel.Settle(model, position, now), budget);
      SettleAndTransmit(ack, now, budget, position);
    }

    /** The alarm is cleared before its callback runs, and the callback restarts the counter. */
    method Restart()
      requires Represents()
      modifies `deadline, `bytesInFlight, `model
      ensures Represents() && model == old(model).(ahead := 0, deadline := 0)
    {
      deadline := 0;
      bytesInFlight := 0;
      model := model.(ahead := 0, deadline := 0);
    }

    /** Alarm::set, which DCHECKs that the alarm is not set. */
    method SetAlarm(at: nat)
      requires Represents() && deadline == 0
      modifies `deadline, `model
      ensures Represents() && model == old(model).(deadline := at)
    {
      deadline := at;
      model := model.(deadline := at);
    }

    /** The alarm fires and runs `retransmit`. */
    method OnAlarm(now: nat, budget: nat)
      requires Valid() && deadline != 0
      modifies this
      ensures Valid() && model == SenderModel.Retransmit(old(model), now, budget) && connection == old(connection)
    {
      RetransmitKeeps(model, now, budget);
      Restart();
      Transmit(budget);
      SetAlarm(now + SECOND);
    }

    method NotePeer(receiveNext: u32, received: bool)
      requires Represents()
      modifies `rcvNext, `synReceived, `model
      ensures Represents() && model == old(model).(rcvNext := receiveNext, synReceived := received)
    {
      rcvNext, synReceived := receiveNext, received;
      model := model.(rcvNext := receiveNext, synReceived := received);
    }

    /** The receiving half of the TCB moves on. */
    method OnPeer(receiveNext: u32, received: bool)
      requires Valid()
      modifies `rcvNext, `synReceived, `model
      ensures Valid() && model == old(model).(rcvNext := receiveNext, synReceived := received)
    {
      StepKeeps(model, DoPeer(receiveNext, received));
      NotePeer(receiveNext, received);
    }
  }
}
