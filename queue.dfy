/**
 * The command-buffer lifecycle of the Vulkan back end. A queue owns the
 * command buffers it made (one command pool each) and the set of buffers
 * waiting for submission; a buffer is begun by its first encode, becomes
 * pending when enqueued and stops being pending once its queue has
 * submitted it. Every driver call is an external step whose success is a
 * parameter, and a call to `abort` is an `Aborted` failure that changes
 * nothing.
 */
module CgQueue {
  import opened Wrappers
  import CgEncoder

  type PoolHandle = nat

  datatype Error =
    | PendingBuffer   // encode, enqueue or reset of a pending buffer
    | EmptyBuffer     // enqueue of a buffer never begun
    | DeviceFailed    // a driver call reported failure
    | Aborted         // the process aborts

  class QueueVK {
    /** Buffers enqueued and not yet submitted. */
    var pending: set<CmdBufferVK>
    /** Every live buffer made by this queue, with its command pool. */
    var pools: map<CmdBufferVK, PoolHandle>
    /** The next command-pool handle the device hands out. */
    var nextPool: PoolHandle

    /** The queue and its buffers agree: pending buffers are live, and a
        live buffer is pending exactly when it is in the pending set. */
    ghost predicate Valid()
      reads this, pools.Keys
    {
      && pending <= pools.Keys
      && (forall cb :: cb in pools ==> cb.queue == this && (cb.pending <==> cb in pending))
    }

    constructor ()
      ensures Valid() && pending == {} && pools == map[]
    {
      pending, pools, nextPool := {}, map[], 0;
    }

    /** `makeCmdBuffer`: creates a command pool and allocates one buffer
        from it; the new buffer is registered in `pools`. */
    method MakeCmdBuffer(poolOk: bool, allocOk: bool) returns (r: Result<CmdBufferVK, Error>)
      requires Valid()
      modifies this
      ensures Valid() && pending == old(pending)
      ensures r.Success? <==> poolOk && allocOk
      ensures r.Failure? ==> r.error == DeviceFailed && pools == old(pools)
      ensures r.Success? ==> fresh(r.value) && r.value.queue == this
                             && !r.value.pending && !r.value.begun
                             && pools.Keys == old(pools.Keys) + {r.value}
                             && forall cb :: cb in old(pools) ==> pools[cb] == old(pools)[cb]
    {
      if !poolOk {
        return Failure(DeviceFailed);
      }
      var pool := nextPool;
      nextPool := nextPool + 1;
      if !allocOk {
        return Failure(DeviceFailed);
      }
      var cb := new CmdBufferVK(this);
      pools := pools[cb := pool];
      return Success(cb);
    }

    /** `enqueue(CmdBufferVK*)`: the buffer must not already be pending
        here; it joins the pending set. */
    method Enqueue(cb: CmdBufferVK)
      requires cb !in pending
      modifies this
      ensures pending == old(pending) + {cb} && pools == old(pools)
    {
      pending := pending + {cb};
    }

    /** Tells every pending buffer it has executed and empties the set. */
    method NotifyAndClear()
      requires Valid()
      modifies this, pending
      ensures Valid() && pending == {} && pools == old(pools)
      ensures forall cb :: cb in old(pending) ==> !cb.pending && cb.begun == old(cb.begun)
    {
      var todo := pending;
      while todo != {}
        invariant todo <= old(pending) && pending == old(pending) && pools == old(pools)
        invariant forall cb :: cb in old(pending) ==> (cb.pending <==> cb in todo) && cb.begun == old(cb.begun)
        decreases todo
      {
        var cb :| cb in todo;
        cb.DidExecute();
        todo := todo - {cb};
      }
      pending := {};
    }

    /** `submit`: nothing to do for an empty pending set; otherwise submits
        and waits, and whether that succeeds or not, every pending buffer
        stops being pending and the set is emptied. */
    method Submit(submitOk: bool, waitOk: bool) returns (r: Outcome<Error>)
      requires Valid()
      modifies this, pending
      ensures Valid() && pending == {} && pools == old(pools)
      ensures forall cb :: cb in old(pending) ==> !cb.pending && cb.begun == old(cb.begun)
      ensures r.Fail? <==> old(pending) != {} && !(submitOk && waitOk)
      ensures r.Fail? ==> r.error == DeviceFailed
    {
      if pending == {} {
        return Pass;
      }
      if !submitOk {
        NotifyAndClear();
        return Fail(DeviceFailed);
      }
      if !waitOk {
        NotifyAndClear();
        return Fail(DeviceFailed);
      }
      NotifyAndClear();
      return Pass;
    }

    /** `unmake`, run by a buffer's destructor: aborts for a pending buffer,
        otherwise destroys its pool and forgets it. */
    method Unmake(cb: CmdBufferVK) returns (r: Outcome<Error>)
      requires Valid() && cb in pools
      modifies this
      ensures Valid() && pending == old(pending)
      ensures r.Fail? <==> cb.pending
      ensures r.Fail? ==> r.error == Aborted && pools == old(pools)
      ensures r.Pass? ==> pools == old(pools) - {cb}
    {
      if cb.pending {
        return Fail(Aborted);
      }
      pools := pools - {cb};
      return Pass;
    }

    /** The destructor: aborts while any buffer made here is alive. */
    method Destroy() returns (r: Outcome<Error>)
      ensures r.Fail? <==> pools != map[]
      ensures r.Fail? ==> r.error == Aborted
    {
      if pools != map[] {
        return Fail(Aborted);
      }
      return Pass;
    }
  }

  class CmdBufferVK {
    const queue: QueueVK
    var pending: bool
    var begun: bool

    /** A new buffer is neither pending nor begun. */
    constructor (queue: QueueVK)
      ensures this.queue == queue && !pending && !begun
    {
      this.queue := queue;
      pending, begun := false, false;
    }

    function IsPending(): bool
      reads this
    {
      pending
    }

    /** `encode`: refused while pending; begins recording on first use.
        Translating a recorded command is not implemented by the back end
        and aborts, so only an empty encoding is accepted. */
    method Encode(encoding: seq<CgEncoder.Cmd>, beginOk: bool) returns (r: Outcome<Error>)
      modifies this
      ensures pending == old(pending)
      ensures old(pending) ==> r == Fail(PendingBuffer) && begun == old(begun)
      ensures !old(pending) && !old(begun) && !beginOk ==> r == Fail(DeviceFailed) && !begun
      ensures !old(pending) && (old(begun) || beginOk) ==>
        begun && (r.Pass? <==> encoding == []) && (r.Fail? ==> r.error == Aborted)
    {
      if pending {
        return Fail(PendingBuffer);
      }
      if !begun {
        if !beginOk {
          return Fail(DeviceFailed);
        }
        begun := true;
      }
      if encoding != [] {
        return Fail(Aborted);
      }
      return Pass;
    }

    /** `enqueue`: refused while pending or before anything was begun;
        otherwise ends recording and, if that succeeds, becomes pending and
        joins its queue's pending set. */
    method Enqueue(endOk: bool) returns (r: Outcome<Error>)
      requires queue.Valid() && this in queue.pools
      modifies this, queue
      ensures queue.Valid() && queue.pools == old(queue.pools)
      ensures old(pending) ==> r == Fail(PendingBuffer) && pending && begun == old(begun)
      ensures !old(pending) && !old(begun) ==> r == Fail(EmptyBuffer) && !pending && !begun
      ensures !old(pending) && old(begun) ==> !begun && (r.Pass? <==> endOk)
      ensures !old(pending) && old(begun) && !endOk ==> r == Fail(DeviceFailed) && !pending
      ensures r.Pass? ==> pending && queue.pending == old(queue.pending) + {this}
      ensures r.Fail? ==> queue.pending == old(queue.pending)
    {
      if pending {
        return Fail(PendingBuffer);
      }
      if !begun {
        return Fail(EmptyBuffer);
      }
      begun := false;
      if !endOk {
        return Fail(DeviceFailed);
      }
      pending := true;
      queue.Enqueue(this);
      return Pass;
    }

    /** `reset`: refused while pending; it does not touch `begun`. */
    method Reset() returns (r: Outcome<Error>)
      ensures r.Fail? <==> pending
      ensures r.Fail? ==> r.error == PendingBuffer
    {
      if pending {
        return Fail(PendingBuffer);
      }
      return Pass;
    }

    /** `didExecute`: only for a pending buffer, which stops being pending. */
    method DidExecute()
      requires pending
      modifies this
      ensures !pending && begun == old(begun)
    {
      pending := false;
    }
  }

  /** One buffer through its whole life: made, begun by an empty encode,
      enqueued, submitted, and finally unmade so the queue can go. */
  method Lifecycle() returns (q: QueueVK, cb: CmdBufferVK)
    ensures q.Valid() && q.pools == map[] && q.pending == {} && !cb.pending
  {
    q := new QueueVK();
    var made := q.MakeCmdBuffer(true, true);
    cb := made.value;
    var enc := cb.Encode([], true);
    assert cb.begun && enc.Pass?;
    var again := cb.Enqueue(true);
    assert again.Pass? && cb.pending && q.pending == {cb};
    var refused := cb.Encode([], true);
    assert refused == Fail(PendingBuffer);
    var early := q.Unmake(cb);
    assert early == Fail(Aborted);
    var sub := q.Submit(true, true);
    assert sub.Pass? && !cb.pending;
    var gone := q.Unmake(cb);
    assert gone.Pass?;
    var fine := q.Destroy();
    assert fine.Pass?;
  }
}
