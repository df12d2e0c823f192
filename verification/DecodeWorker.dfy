/** The worker structure, and the sections that its functions run under the lock. */
module DecodeWorkers {
  import opened Options
  import opened WorkerProtocol

  class DecodeWorker {
    const iqQueue: array<Chunk>
    const iqQueueLen: array<int>
    var queueRead: int
    var queueWrite: int
    var queueCount: int
    var stop: bool
    var active: bool
    var birdie: bool
    var threadRunning: bool
    var thread: nat
    var decoder: Option<nat>

    ghost function View(): Shared
      reads this, iqQueue, iqQueueLen
    {
      Shared(iqQueue[..], iqQueueLen[..], queueRead, queueWrite, queueCount, stop, active, birdie, threadRunning, thread, decoder)
    }

    ghost predicate Valid()
      reads this, iqQueue, iqQueueLen
    {
      Shaped(View())
    }

    /** `decode_worker_init`; `silence` fills the slots. */
    constructor (silence: Chunk)
      requires |silence| == CHUNK
      ensures Valid() && fresh(iqQueue) && fresh(iqQueueLen)
      ensures IsInit(System(View(), Idle, [], {}, 0, {}, [], [], []))
    {
      iqQueue := new Chunk[DEPTH](i => silence);
      iqQueueLen := new int[DEPTH](i => 0);
      queueRead, queueWrite, queueCount, thread, decoder := 0, 0, 0, 0, None;
      stop, active, birdie, threadRunning := false, false, false, false;
    }

    /** `decode_worker_submit_iq` */
    method SubmitIq(samples: Chunk) returns (rc: int)
      requires Valid()
      modifies iqQueue, iqQueueLen, `queueWrite, `queueCount
      ensures Valid() && (rc == 0 <==> Accepts(old(View()), samples)) && (rc != 0 ==> rc == -1)
      ensures View() == if rc == 0 then Enqueued(old(View()), samples) else old(View())
    {
      if samples == [] || !active || birdie || queueCount >= DEPTH {
        return -1;
      }
      var slot := queueWrite;
      var copyN := if |samples| > CHUNK then CHUNK else |samples|;
      iqQueue[slot] := samples[..copyN] + iqQueue[slot][copyN..];
      iqQueueLen[slot] := copyN;
      queueWrite := (queueWrite + 1) % DEPTH;
      queueCount := queueCount + 1;
      assert samples[..copyN] == Truncated(samples);
      rc := 0;
    }

    /** The section at the top of the thread's loop, where it does not wait: `leave` ends the
        thread, `chunk` is what it takes. */
    method TakeWork() returns (leave: bool, chunk: Option<Chunk>)
      requires Valid() && (stop || !active || 0 < queueCount)
      modifies `queueRead, `queueCount
      ensures leave == stop
      ensures chunk == if !stop && active && decoder.Some? then Some(ChunkIn(old(View()), old(queueRead))) else None
      ensures View() == if chunk.Some? then Dequeued(old(View())) else old(View())
    {
      leave, chunk := stop, None;
      if stop || !active || decoder.None? {
        return;
      }
      if queueCount > 0 {
        var slot := queueRead;
        var localLen := iqQueueLen[slot];
        if localLen > CHUNK {
          localLen := CHUNK;
        }
        chunk := Some(iqQueue[slot][..localLen]);
        queueRead := (queueRead + 1) % DEPTH;
        queueCount := queueCount - 1;
      }
    }

    /** The section that follows a steady carrier. */
    method MarkBirdie()
      modifies `birdie, `active
      ensures View() == WorkerProtocol.Birdie(old(View()))
    {
      birdie := true;
      active := false;
    }

    /** The first section of `decode_worker_stop`. */
    method BeginStop() returns (needJoin: bool, tid: nat)
      modifies `stop, `active, `threadRunning
      ensures needJoin == old(threadRunning) && (needJoin ==> tid == thread)
      ensures View() == Stopped(old(View()))
    {
      needJoin, tid := false, 0;
      stop := true;
      active := false;
      if threadRunning {
        tid := thread;
        threadRunning := false;
        needJoin := true;
      }
    }

    /** The last section of `decode_worker_stop`. */
    method FinishStop() returns (destroyed: Option<nat>)
      modifies `decoder, `stop, `birdie, `queueWrite, `queueRead, `queueCount, `thread
      ensures destroyed == old(decoder)
      ensures View() == Cleared(old(View()))
    {
      destroyed := decoder;
      if decoder.Some? {
        decoder := None;
      }
      stop, birdie := false, false;
      queueWrite, queueRead, queueCount, thread := 0, 0, 0, 0;
    }

    /** The section of `decode_worker_start`, with what creating the decoder and the thread gave. */
    method Start(newDecoder: Option<nat>, newThread: Option<nat>) returns (rc: int)
      requires decoder == None
      modifies this
      ensures rc == (if newDecoder.Some? && newThread.Some? then 0 else -1)
      ensures View() == if newDecoder.None? then old(View())
                        else if newThread.None? then NotStarted(old(View()))
                        else Started(old(View()), newDecoder.value, newThread.value)
    {
      decoder := newDecoder;
      if decoder.None? {
        return -1;
      }
      birdie, stop, active := false, false, true;
      queueWrite, queueRead, queueCount := 0, 0, 0;
      threadRunning := false;
      if newThread.None? {
        decoder, active := None, false;
        return -1;
      }
      thread := newThread.value;
      threadRunning := true;
      rc := 0;
    }
  }
}
