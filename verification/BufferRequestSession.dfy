/** The buffer request thread as code. Every method is one critical section, or one call with
    the steps of the other thread wherever the lock is dropped. */
module BufferRequestSession {
  import opened BufferRequest

  /** What the worker alone may have done: it leaves a batch in the thread's hands alone. */
  ghost predicate WorkerMoved(s: State, t: State) {
    && t.thread == s.thread && t.halReqs == s.halReqs
    && (s.bufferReqs != [] ==>
          t.bufferReqs == s.bufferReqs && t.started == s.started && t.granted == s.granted
          && t.requesting)
    && t.fooled == s.fooled
  }

  /** What the thread alone may have done: it fills in the batch, and hands it over. */
  ghost predicate ThreadMoved(s: State, t: State) {
    && t.requesting == s.requesting && t.started == s.started
    && t.worker.Blocked? == s.worker.Blocked? && t.fooled == s.fooled && t.returned == s.returned
  }

  /** A reply that ends the thread: not one buffer, or one whose import fails. */
  predicate Refused(ret: Ret, imported: bool) {
    ret == Malformed || (ret.Buffer? && !imported)
  }

  class BufferRequestThread {
    var mRequestingBuffer: bool
    var mBufferReqs: seq<Buf>
    var mPendingReturnBufferReqs: seq<Buf>
    var mHalBufferReqs: seq<StreamId>
    var mThread: Thread  // where threadLoop stands
    var mWorker: Worker  // where the output worker stands
    ghost var state: State

    ghost predicate Valid()
      reads this
    {
      && mRequestingBuffer == state.requesting
      && mBufferReqs == state.bufferReqs
      && mPendingReturnBufferReqs == state.pending
      && mHalBufferReqs == state.halReqs
      && mThread == state.thread
      && mWorker == state.worker
      && Kept(state)
    }

    constructor ()
      ensures Valid() && state == Init
    {
      mRequestingBuffer, mBufferReqs, mPendingReturnBufferReqs := false, [], [];
      mHalBufferReqs, mThread, mWorker := [], Waiting, Idle;
      state := Init;
    }

    // -------------------------------------------------------------- the output worker

    /** 0 exactly if the batch is taken. */
    method RequestBufferStart(bufReqs: seq<Buf>) returns (res: int)
      requires Valid() && !state.fooled && Enabled(state, Start(bufReqs))
      modifies this
      ensures Valid() && WorkerMoved(old(state), state)
      ensures res == if bufReqs != [] && !old(mRequestingBuffer) then 0 else -1
      ensures res == 0 ==>
                && old(mBufferReqs) == [] && old(mPendingReturnBufferReqs) == []
                && state == old(state).(bufferReqs := bufReqs, requesting := true,
                                        started := bufReqs, granted := [])
      ensures res != 0 ==> state == old(state)
    {
      KeptStep(state, Start(bufReqs));
      state := Apply(state, Start(bufReqs));
      if bufReqs == [] { return -1; }
      if mRequestingBuffer { return -1; }
      mBufferReqs := bufReqs;
      mRequestingBuffer := true;
      res := 0;
    }

    /** The part of the wait before it blocks. */
    method WaitBegins() returns (res: int, out: seq<Buf>)
      requires Valid() && !state.fooled && Enabled(state, WaitBegin)
      modifies this
      ensures Valid() && WorkerMoved(old(state), state) && state.started == old(state.started)
      ensures state.granted == old(state.granted)
      ensures mWorker.Blocked? <==> old(mRequestingBuffer) && old(mPendingReturnBufferReqs) == []
      ensures res == (if old(mPendingReturnBufferReqs) != [] then 0 else -1)
      ensures res == 0 ==>
                && out != [] && Right(Return(out, state.started, state.granted))
                && !mRequestingBuffer && mBufferReqs == [] && mPendingReturnBufferReqs == []
      ensures res != 0 ==> mRequestingBuffer == old(mRequestingBuffer)
    {
      NowIsRightExactly(state);
      KeptStep(state, WaitBegin);
      state := Apply(state, WaitBegin);
      out := [];
      if !mRequestingBuffer { return -1, out; }
      if mPendingReturnBufferReqs == [] {
        mWorker := Blocked(false);
        return -1, out;
      }
      mRequestingBuffer := false;
      res, out, mPendingReturnBufferReqs := 0, mPendingReturnBufferReqs, [];
    }

    /** The part after it, when the wait has ended by the time limit, or by a wake-up. The wait
        then succeeds, with what there is: the batch, or nothing, and then the rendezvous is no
        longer sound. */
    method WaitEnds(timeout: bool, spurious: bool) returns (res: int, out: seq<Buf>)
      requires Valid() && !state.fooled
      requires Enabled(state, if timeout then Timeout else Wake(spurious))
      modifies this
      ensures Valid() && mWorker.Idle? && state.started == old(state.started)
      ensures state.granted == old(state.granted) && mThread == old(mThread)
      ensures res == if timeout then -1 else 0
      ensures state.fooled <==> res == 0 && out == []
      ensures res == 0 && out != [] ==>
                && Right(Return(out, state.started, state.granted))
                && !mRequestingBuffer && mBufferReqs == [] && mPendingReturnBufferReqs == []
      ensures timeout ==> mRequestingBuffer && WorkerMoved(old(state), state)
                          && mPendingReturnBufferReqs == old(mPendingReturnBufferReqs)
    {
      var step := if timeout then Timeout else Wake(spurious);
      NowIsRightExactly(state);
      KeptStep(state, step);
      state := Apply(state, step);
      mWorker := Idle;
      if timeout { return -1, []; }
      mRequestingBuffer := false;
      res, out, mPendingReturnBufferReqs := 0, mPendingReturnBufferReqs, [];
    }

    /** The whole wait, the thread moving all the while, wake-ups being spurious or late as they
        may. When it succeeds it returns the batch last started, as its replies have filled it in,
        and nothing is outstanding any more, unless a wake-up has found no batch: then it returns
        none. When it fails, nothing changes of that. */
    method WaitForBufferRequestDone(timeLimit: nat) returns (res: int, out: seq<Buf>)
      requires Valid() && !state.fooled && Enabled(state, WaitBegin)
      modifies this
      ensures Valid() && state.started == old(state.started) && mWorker.Idle?
      ensures state.fooled <==> res == 0 && out == []
      ensures res == 0 ==> old(mRequestingBuffer)
      ensures res == 0 && out != [] ==>
                && Right(Return(out, state.started, state.granted))
                && !mRequestingBuffer && mBufferReqs == [] && mPendingReturnBufferReqs == []
      ensures res != 0 ==> mRequestingBuffer == old(mRequestingBuffer)
    {
      res, out := WaitBegins();
      if mWorker.Idle? { return; }
      var left, spurious := timeLimit, false;
      while mWorker == Blocked(false) && left > 0 && !spurious
        invariant Valid() && state.started == old(state.started) && mWorker.Blocked?
        invariant mRequestingBuffer && old(mRequestingBuffer) && !state.fooled
      {
        ThreadStep();
        left := left - 1;
        spurious := *;
      }
      while mThread.Filling?
        invariant Valid() && state.started == old(state.started) && mWorker.Blocked?
        invariant mRequestingBuffer && old(mRequestingBuffer) && !state.fooled
        decreases if mThread.Filling? then 1 + |mThread.rets| - mThread.i else 0
      {
        FillOne();
      }
      res, out := WaitEnds(mWorker == Blocked(false) && !spurious, spurious);
    }

    // -------------------------------------------------------------- the thread

    /** The worker's batch is read under the lock, if there is one. */
    method WaitForNextRequest() returns (found: bool)
      requires Valid() && !state.fooled && mThread.Waiting?
      modifies this
      ensures Valid() && found == (old(mBufferReqs) != [])
      ensures !found ==> state == old(state)
      ensures found ==>
                state == old(state).(halReqs := Streams(old(mBufferReqs)), thread := Calling)
    {
      if mBufferReqs == [] { return false; }
      KeptStep(state, Fetch);
      state := Apply(state, Fetch);
      var streams: seq<StreamId> := [];
      for i := 0 to |mBufferReqs|
        invariant |streams| == i && state == Apply(old(state), Fetch) && Inv(state)
        invariant mBufferReqs == old(mBufferReqs) && mWorker == old(mWorker)
        invariant mRequestingBuffer == old(mRequestingBuffer)
        invariant mPendingReturnBufferReqs == old(mPendingReturnBufferReqs)
        invariant forall k :: 0 <= k < i ==> streams[k] == mBufferReqs[k].stream
      {
        streams := streams + [mBufferReqs[i].stream];
      }
      assert streams == Streams(mBufferReqs);
      mHalBufferReqs := streams;
      mThread := Calling;
      found := true;
    }

    /** One turn of the fill loop, or the end of it: the batch is handed over. */
    method FillOne()
      requires Valid() && !state.fooled && mThread.Filling?
      modifies this
      ensures Valid() && state == Apply(old(state), Fill) && ThreadMoved(old(state), state)
      ensures old(mThread).i == |old(mThread).rets| ==>
                mPendingReturnBufferReqs == old(mBufferReqs) && mBufferReqs == []
      ensures mThread.Filling? ==> mThread == Filling(old(mThread).rets, old(mThread).i + 1)
    {
      KeptStep(state, Fill);
      state := Apply(state, Fill);
      var rets, i := mThread.rets, mThread.i;
      if i == |rets| {
        mPendingReturnBufferReqs := mBufferReqs;
        mBufferReqs := [];
        mThread := Notifying;
        return;
      }
      match rets[i]
      case Error => mThread := Filling(rets, i + 1);
      case Malformed => mThread := Exited;
      case Buffer(id, fence) =>
        mBufferReqs := mBufferReqs[i := mBufferReqs[i].(id := id)];
        mThread := Importing(rets, i);
    }

    /** The lock is taken again after an import. */
    method ImportDone(ok: bool)
      requires Valid() && !state.fooled && mThread.Importing?
      modifies this
      ensures Valid() && state == Apply(old(state), Imported(ok)) && ThreadMoved(old(state), state)
      ensures mThread == if ok then Filling(old(mThread).rets, old(mThread).i + 1) else Exited
    {
      KeptStep(state, Imported(ok));
      state := Apply(state, Imported(ok));
      var rets, i := mThread.rets, mThread.i;
      if ok {
        mBufferReqs := mBufferReqs[i := Granted(mBufferReqs[i], rets[i])];
        mThread := Filling(rets, i + 1);
      } else {
        mThread := Exited;
      }
    }

    /** The reply of requestStreamBuffers, read under the lock. */
    method ReplyArrives(ok: bool, bufRets: seq<Ret>)
      requires Valid() && !state.fooled && mThread.Calling?
      modifies this
      ensures Valid() && state == Apply(old(state), Reply(ok, bufRets))
      ensures ThreadMoved(old(state), state)
      ensures mThread == if ok && |bufRets| != |mHalBufferReqs| then Exited
                         else Filling(if ok then bufRets else [], 0)
    {
      KeptStep(state, Reply(ok, bufRets));
      state := Apply(state, Reply(ok, bufRets));
      mThread := if ok && |bufRets| != |mHalBufferReqs| then Exited
                 else Filling(if ok then bufRets else [], 0);
    }

    method NotifyDone()
      requires Valid() && !state.fooled && mThread.Notifying?
      modifies this
      ensures Valid() && state == Apply(old(state), Notify) && ThreadMoved(old(state), state)
    {
      KeptStep(state, Notify);
      state := Apply(state, Notify);
      mThread := Waiting;
      if mWorker.Blocked? { mWorker := Blocked(true); }
    }

    method GiveUp()
      requires Valid() && !state.fooled && (mThread.Waiting? || mThread.Calling?)
      modifies this
      ensures Valid() && state == Apply(old(state), Leave) && ThreadMoved(old(state), state)
    {
      KeptStep(state, Leave);
      state := Apply(state, Leave);
      mThread := Exited;
    }

    /** One turn of the thread on its own lock: with an exit pending, or an error on the way, it
        gives up, and only then; otherwise the batch it read comes back filled in by the replies,
        however the worker moves in between, and is published in one piece. */
    method ThreadLoop(exitPending: bool, transactionOk: bool, ok: bool, bufRets: seq<Ret>,
                      imports: seq<bool>)
      returns (again: bool)
      requires Valid() && !state.fooled && mThread.Waiting? && mBufferReqs != []
      requires |imports| == |bufRets|
      modifies this
      ensures Valid()
      ensures again ==> mThread.Notifying? && !exitPending && transactionOk
      ensures !again ==> mThread.Exited? && mBufferReqs != [] && mPendingReturnBufferReqs == []
      ensures again ==>
                var rets := if ok then bufRets else [];
                && (ok ==> |bufRets| == |old(mBufferReqs)|)
                && (rets == [] || |rets| == |old(mBufferReqs)|)
                && mPendingReturnBufferReqs == Filled(old(mBufferReqs), rets, |rets|)
                && mBufferReqs == []
                && Right(Return(mPendingReturnBufferReqs, old(mBufferReqs), rets))
      ensures again <==>
                && !exitPending && transactionOk
                && (ok ==> |bufRets| == |old(mBufferReqs)|
                           && forall k :: 0 <= k < |bufRets| ==> !Refused(bufRets[k], imports[k]))
    {
      ghost var batch := mBufferReqs;
      var found := WaitForNextRequest();
      if exitPending {
        GiveUp();
        return false;
      }
      WorkerInterference();
      if !transactionOk {
        GiveUp();
        return false;
      }
      ReplyArrives(ok, bufRets);
      if mThread.Exited? { return false; }
      again := FillAll(imports);
    }

    /** Every reply in turn, then the hand-over, unless one of them fails. */
    method FillAll(imports: seq<bool>) returns (done: bool)
      requires Valid() && !state.fooled
      requires mThread.Filling? && mThread.i == 0 && |mThread.rets| <= |imports|
      modifies this
      ensures Valid()
      ensures !done ==> mThread.Exited? && mBufferReqs != [] && mPendingReturnBufferReqs == []
      ensures done <==> forall k :: 0 <= k < |old(mThread).rets| ==>
                          !Refused(old(mThread).rets[k], imports[k])
      ensures done ==>
                var batch, rets := old(state.started), old(mThread).rets;
                && mThread.Notifying? && mBufferReqs == []
                && (rets == [] || |rets| == |batch|)
                && mPendingReturnBufferReqs == Filled(batch, rets, |rets|)
                && Right(Return(mPendingReturnBufferReqs, batch, rets))
    {
      var rets := mThread.rets;
      while mThread.Filling? && mThread.i < |rets|
        invariant Valid() && !state.fooled
        invariant state.started == old(state.started) && mBufferReqs != []
        invariant if mThread.Filling? then
                    && mThread.rets == rets && mThread.i <= |rets|
                    && forall k :: 0 <= k < mThread.i ==> !Refused(rets[k], imports[k])
                  else
                    mThread.Exited? && exists k :: 0 <= k < |rets| && Refused(rets[k], imports[k])
        decreases if mThread.Filling? then |rets| - mThread.i else -1
      {
        HandleReply(imports[mThread.i]);
      }
      done := mThread.Filling?;
      if done {
        FillOne();
        NowIsRightExactly(state);
      }
    }

    /** One reply, the lock dropped while its buffer is imported. */
    method HandleReply(imported: bool)
      requires Valid() && !state.fooled && mThread.Filling? && mThread.i < |mThread.rets|
      modifies this
      ensures Valid() && !state.fooled
      ensures state.started == old(state.started) && mBufferReqs != []
      ensures mThread == if Refused(old(mThread).rets[old(mThread).i], imported) then Exited
                         else Filling(old(mThread).rets, old(mThread).i + 1)
    {
      FillOne();
      if mThread.Importing? {
        WorkerInterference();
        ImportDone(imported);
      }
    }

    // -------------------------------------------------------------- what the other side does

    /** Any step of the worker while the lock is free and the batch with the thread, but a wake-up:
        FooledExactly and BatchStaysPut say what that would do. */
    method WorkerStep()
      requires Valid() && !state.fooled && LockFree(state) && mBufferReqs != []
      modifies this
      ensures Valid() && WorkerMoved(old(state), state)
    {
      var pick: nat := *;
      var batch: seq<Buf> := *;
      if mWorker.Idle? {
        if pick == 0 {
          var _ := RequestBufferStart(batch);
        } else {
          var _, _ := WaitBegins();
        }
      } else if pick == 0 {
        var _, _ := WaitEnds(true, false);
      }
    }

    method WorkerInterference()
      requires Valid() && !state.fooled && LockFree(state) && mBufferReqs != []
      modifies this
      ensures Valid() && WorkerMoved(old(state), state)
    {
      var steps: nat := *;
      while steps > 0
        invariant Valid() && WorkerMoved(old(state), state)
      {
        WorkerStep();
        steps := steps - 1;
      }
    }

    /** Any step of the thread, if it has one; its notification may come late. */
    method ThreadStep()
      requires Valid() && !state.fooled
      modifies this
      ensures Valid() && ThreadMoved(old(state), state)
    {
      var yes: bool := *;
      var rets: seq<Ret> := *;
      match mThread
      case Waiting =>
        if yes {
          GiveUp();
        } else {
          var _ := WaitForNextRequest();
        }
      case Calling =>
        if yes { GiveUp(); } else { ReplyArrives(rets != [], rets); }
      case Filling(_, _) => FillOne();
      case Importing(_, _) => ImportDone(yes);
      case Notifying => NotifyDone();
      case Exited =>
    }
  }
}
