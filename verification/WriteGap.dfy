/**
  What the ring buffer's write as written does to the sender: exactly when `sendData`
  keeps the TCB relation of SenderFields.TcbBookkeeping.
 */
module WriteGap {
  import opened Machine
  import opened Modular
  import opened Rings

  /**
    Let `next` be `unack` plus the queued bytes.  After `sendData` with the write as
    written it still is exactly when the write does not meet the gap: it is empty, the
    buffer is full, or `end_` has not reached the array's end.
   */
  lemma AsWrittenKeepsTcbIff(unack: u32, next: u32, r: Ring, data: seq<byte>)
    requires r.Valid() && r.Size() < U32 && next == Wrap(unack + |r.Contents()|)
    ensures Wrap(next + Taken(r, data)) == Wrap(unack + |WriteAsWritten(r, data).Contents()|)
            <==> !Gap(r, Put(data))
  {
    QueuedAsWritten(r, data);
    SumOff(unack, |r.Contents()|, Taken(r, data), next);
  }

  lemma SumOff(unack: u32, queued: nat, n: nat, next: u32)
    requires next == Wrap(unack + queued) && n < U32
    ensures Wrap(next + n) == Wrap(unack + (queued + n))
    ensures Wrap(next + n) == Wrap(unack + queued) <==> n == 0
  {
    WrapAdd(unack + queued, n);
    WrapInjective(unack + queued + n, unack + queued);
  }
}
