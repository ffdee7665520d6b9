/**
 * The Client object with the fields its methods update. A method runs here without interruption;
 * the ghost trace shows that what it does, in the order it does it, is a run of the protocol.
 */
module ClientObject {
  import opened Bytes
  import opened Values
  import opened Client
  import opened ClientRuns

  /** What the codec returns for one response: a header, then the outcome of reading the body. */
  datatype Event = Event(resp: Response, body: Result)
  datatype Result = Good(reply: Value) | Bad(err: Failure)

  /** How a waiting call is completed by a response. */
  function Answer(c: CallId, e: Event): Completion {
    if e.resp.error != [] then Completion(c, Some(ServerError(e.resp.error)), None, ByResponse)
    else
      match e.body
      case Good(reply) => Completion(c, None, Some(reply), ByResponse)
      case Bad(err) => Completion(c, Some(ReadingBody(err)), None, ByResponse)
  }

  /** The error that ends the input loop: wrapped unless the body was meant for a reply. */
  function LoopError(call: Option<CallId>, e: Event): Option<Failure> {
    match e.body
    case Good(_) => None
    case Bad(err) => Some(if call.None? || e.resp.error != [] then ReadingErrorBody(err) else err)
  }

  /** One completion for each pending entry, each once, with the same error. */
  ghost predicate SweepsAll(added: seq<Completion>, pending: map<nat, CallId>, order: seq<nat>, e: Failure) {
    && |order| == |added|
    && (forall n :: n in order <==> n in pending)
    && (forall i, j :: 0 <= i < j < |order| ==> order[i] != order[j])
    && (forall i :: 0 <= i < |added| ==> order[i] in pending && added[i] == Completion(pending[order[i]], Some(e), None, BySweep))
  }

  ghost predicate SweepsEach(added: seq<Completion>, pending: map<nat, CallId>, e: Failure) {
    exists order :: SweepsAll(added, pending, order, e)
  }

  lemma {:induction false} NoneSwept(e: Failure)
    ensures SweepsAll([], map[], [], e)
  {
  }

  lemma {:induction false} OneMoreSwept(added: seq<Completion>, pending: map<nat, CallId>, todo: set<nat>, order: seq<nat>, e: Failure, n: nat)
    requires n in todo && todo <= pending.Keys && SweepsAll(added, pending - todo, order, e)
    ensures SweepsAll(added + [Completion(pending[n], Some(e), None, BySweep)], pending - (todo - {n}), order + [n], e)
  {
  }

  class ClientObject {
    var seqno: nat
    var pending: map<nat, CallId>
    var closing: bool
    var shutdown: bool
    /** The notifications sent so far. */
    var log: seq<Completion>
    ghost var st: State
    ghost var trace: seq<Action>

    ghost predicate Valid()
      reads this
    {
      st.shared == Shared(seqno, pending, closing, shutdown) && log == st.log && Runs(INIT, trace, st)
    }

    constructor ()
      ensures Valid() && st == INIT
    {
      seqno, pending, closing, shutdown, log := 0, map[], false, false, [];
      st, trace := INIT, [];
    }

    ghost method Step(a: Action)
      requires Runs(INIT, trace, st) && Enabled(st, a)
      modifies `st, `trace
      ensures st == Apply(old(st), a) && trace == old(trace) + [a] && Runs(INIT, trace, st)
    {
      hide Enabled, Apply;
      OneStep(st, a);
      RunsConcat(INIT, trace, st, [a], Apply(st, a));
      st, trace := Apply(st, a), trace + [a];
    }

    /** The part of send under mutex: the number given to the call, or None when the client is going away. */
    method Register(c: CallId) returns (n: Option<nat>)
      modifies `seqno, `pending
      ensures n.None? <==> old(shutdown || closing)
      ensures n.None? ==> seqno == old(seqno) && pending == old(pending)
      ensures n.Some? ==> n.value == old(seqno) && Shared(seqno, pending, closing, shutdown) == Number(old(Shared(seqno, pending, closing, shutdown)), c)
    {
      if shutdown || closing {
        return None;
      }
      n := Some(seqno);
      pending := pending[seqno := c];
      seqno := (seqno + 1) % TWO64;
    }

    /** The part of send, and of input, that takes a call out of pending. */
    method Remove(n: nat) returns (found: Option<CallId>)
      modifies `pending
      ensures found == Lookup(old(pending), n) && pending == old(pending) - {n}
    {
      found := if n in pending then Some(pending[n]) else None;
      pending := pending - {n};
    }

    /** Nobody holds a lock. */
    ghost predicate Free()
      reads this
    {
      st.reqMutex.None? && st.mutex.None?
    }

    /** send up to the registration: both locks are taken. */
    ghost method Acquire(c: CallId, ci: CallInfo)
      requires Valid() && Free() && c !in st.pcs && ci.capacity >= 1
      modifies `st, `trace
      ensures Valid()
      ensures st == old(st).(reqMutex := Some(Sender(c)), mutex := Some(Sender(c)), pcs := old(st.pcs)[c := Registering],
                             info := st.info, chans := st.chans)
    {
      hide Runs, ApplyInput, ApplyOther, DoRegister, DoDelete, DoFailDone;
      Step(Go(c, ci));
      Step(LockReq(c));
      Step(Lock(c));
      assert st.pcs == old(st.pcs)[c := Registering];
    }

    /** send after a failed write: the call is taken out of pending. */
    method TakeBack(c: CallId, n: nat, err: Failure) returns (found: Option<CallId>)
      requires Valid() && st.mutex.None? && c in st.pcs && st.pcs[c] == WriteFailed(n, err)
      modifies this
      ensures Valid() && found == Lookup(old(pending), n) && pending == old(pending) - {n} && log == old(log)
      ensures st == old(st).(shared := st.shared, pcs := old(st.pcs)[c := Deleted(found, err)])
    {
      hide Runs, ApplyInput, ApplyOther, DoRegister, DoFailDone;
      Step(Lock(c));
      found := Remove(n);
      Step(Delete(c));
      assert st.pcs == old(st.pcs)[c := Deleted(found, err)];
    }

    /** send after a failed write: the call is completed if it was still pending. */
    method FailWrite(c: CallId, n: nat, err: Failure)
      requires Valid() && st.mutex.None? && c in st.pcs && st.pcs[c] == WriteFailed(n, err)
      modifies this
      ensures Valid() && pending == old(pending) - {n}
      ensures log == old(log) + (if n in old(pending) then [Completion(old(pending)[n], Some(err), None, ByWriteFailure)] else [])
      ensures st == old(st).(shared := st.shared, pcs := old(st.pcs)[c := Leaving], log := st.log, chans := st.chans, dropped := st.dropped)
    {
      hide Runs, ApplyInput, ApplyOther, DoRegister, DoDelete;
      var found := TakeBack(c, n, err);
      if found.Some? {
        log := log + [Completion(found.value, Some(err), None, ByWriteFailure)];
      }
      Step(FailDone(c));
      assert st.pcs == old(st.pcs)[c := Leaving];
    }

    /** send for a call that got a number. */
    method WriteOut(c: CallId, n: nat, result: Option<Failure>)
      requires Valid() && st.mutex.None? && c in st.pcs && st.pcs[c] == Writing(n) && n in pending
      modifies this
      ensures Valid() && st.mutex.None? && st.input == old(st.input) && st.pcs == old(st.pcs)[c := Leaving]
      ensures result.None? ==> pending == old(pending) && log == old(log)
      ensures result.Some? ==> pending == old(pending) - {n} && log == old(log) + [Completion(old(pending)[n], result, None, ByWriteFailure)]
    {
      hide Runs, ApplyInput, ApplyOther, DoRegister, DoDelete, DoFailDone;
      Step(Write(c, result));
      if result.Some? {
        FailWrite(c, n, result.value);
      }
      assert st.pcs == old(st.pcs)[c := Leaving];
    }

    /** send as far as the end of its first critical section. */
    method Enter(c: CallId, ci: CallInfo) returns (n: Option<nat>)
      requires Valid() && Free() && c !in st.pcs && ci.capacity >= 1
      modifies this
      ensures Valid() && st.mutex.None? && st.input == old(st.input) && st.writes == old(st.writes)
      ensures st.pcs == old(st.pcs)[c := if n.None? then Rejected else Writing(n.value)]
      ensures log == old(log) && (n.None? <==> old(shutdown || closing))
      ensures pending == if n.None? then old(pending) else old(pending)[n.value := c]
      ensures n.Some? ==> n.value == old(seqno)
    {
      hide Runs, ApplyInput, ApplyOther, DoDelete, DoFailDone;
      Acquire(c, ci);
      n := Register(c);
      Step(Action.Register(c));
      assert st.pcs == old(st.pcs)[c := if n.None? then Rejected else Writing(n.value)];
    }

    method Refuse(c: CallId)
      requires Valid() && st.mutex.None? && c in st.pcs && st.pcs[c] == Rejected
      modifies this
      ensures Valid() && st.mutex.None? && st.input == old(st.input) && st.writes == old(st.writes) && pending == old(pending)
      ensures st.pcs == old(st.pcs)[c := Leaving] && log == old(log) + [Completion(c, Some(Shutdown), None, ByReject)]
    {
      hide Runs, ApplyInput, ApplyOther, DoRegister, DoDelete, DoFailDone;
      log := log + [Completion(c, Some(Shutdown), None, ByReject)];
      Step(RejectDone(c));
    }

    /** The deferred unlock of reqMutex. */
    ghost method Release(c: CallId)
      requires Valid() && st.mutex.None? && c in st.pcs && st.pcs[c] == Leaving
      modifies `st, `trace
      ensures Valid() && Free() && st == old(st).(reqMutex := None, pcs := old(st.pcs)[c := Finished])
    {
      hide Runs, ApplyInput, ApplyOther, DoRegister, DoDelete, DoFailDone;
      Step(Unlock(c));
    }

    /** The call is refused, or written, or failed and taken back; in each case send returns. */
    method Send(c: CallId, ci: CallInfo, result: Option<Failure>)
      requires Valid() && Free() && c !in st.pcs && ci.capacity >= 1
      modifies this
      ensures Valid() && Free() && st.pcs == old(st.pcs)[c := Finished] && st.input == old(st.input)
      ensures old(shutdown || closing) ==>
                pending == old(pending) && st.writes == old(st.writes) && log == old(log) + [Completion(c, Some(Shutdown), None, ByReject)]
      ensures old(!shutdown && !closing) && result.None? ==> pending == old(pending)[old(seqno) := c] && log == old(log)
      ensures old(!shutdown && !closing) && result.Some? ==>
                pending == old(pending) - {old(seqno)} && log == old(log) + [Completion(c, result, None, ByWriteFailure)]
    {
      hide Runs, Apply, Enabled;
      var n := Enter(c, ci);
      if n.None? {
        Refuse(c);
      } else {
        WriteOut(c, n.value, result);
      }
      Release(c);
      assert st.pcs == old(st.pcs)[c := Finished];
    }

    // ----------------------------------------------------------------
    // input and Close

    ghost method HeaderArrives(resp: Response)
      requires Valid() && Free() && st.input.ReadHeader?
      modifies `st, `trace
      ensures Valid() && st == old(st).(mutex := Some(Thread.Input), input := Taking(resp))
    {
      hide Runs, ApplySender, ApplyOther, DoDeliver, DoSweep, DoTerminate;
      Step(Header(resp));
      Step(LockTake);
    }

    ghost method BodyArrives(e: Event)
      requires Valid() && st.input.ReadBody? && st.input.resp == e.resp
      modifies `st, `trace
      ensures Valid()
      ensures var call := old(st.input.call); var err := LoopError(call, e);
              st == old(st).(input := if call.None? then (if err.None? then ReadHeader else WantReq(err.value))
                                      else var x := Answer(call.value, e); Deliver(call.value, x.err, x.reply, err))
    {
      hide Runs, ApplySender, ApplyOther, DoDeliver, DoSweep, DoTerminate;
      if e.body.Good? {
        Step(Action.Body(e.body.reply));
      } else {
        Step(BodyFails(e.body.err));
      }
    }

    /** The critical section of the input loop. */
    method TakeCall(resp: Response) returns (call: Option<CallId>)
      requires Valid() && Free() && st.input.ReadHeader?
      modifies this
      ensures Valid() && call == Lookup(old(pending), resp.seqno) && pending == old(pending) - {resp.seqno} && log == old(log)
      ensures st == old(st).(shared := st.shared, input := ReadBody(call, resp))
    {
      hide Runs, ApplySender, ApplyOther, DoDeliver, DoSweep, DoTerminate;
      HeaderArrives(resp);
      call := Remove(resp.seqno);
      Step(Take);
    }

    /** One response: the waiting call, if any, is taken out of pending and completed; err ends the loop. */
    method HandleResponse(e: Event) returns (err: Option<Failure>)
      requires Valid() && Free() && st.input.ReadHeader?
      modifies this
      ensures Valid() && Free() && st.pcs == old(st.pcs) && st.registered == old(st.registered)
      ensures st.input == (if err.None? then ReadHeader else WantReq(err.value))
      ensures pending == old(pending) - {e.resp.seqno}
      ensures log == old(log) + (if e.resp.seqno in old(pending) then [Answer(old(pending)[e.resp.seqno], e)] else [])
      ensures err == LoopError(Lookup(old(pending), e.resp.seqno), e)
    {
      hide Runs, ApplySender, ApplyOther, DoTake, DoSweep, DoTerminate;
      var call := TakeCall(e.resp);
      BodyArrives(e);
      err := LoopError(call, e);
      if call.Some? {
        log := log + [Answer(call.value, e)];
        Step(DeliverDone);
      }
    }

    ghost method InputAcquires(err: Failure)
      requires Valid() && Free() && st.input == WantReq(err)
      modifies `st, `trace
      ensures Valid() && st == old(st).(reqMutex := Some(Thread.Input), mutex := Some(Thread.Input), input := Terminating(err))
    {
      hide Runs, ApplySender, ApplyOther, DoDeliver, DoTake, DoTerminate, DoSweep;
      Step(InputLockReq);
      Step(InputLock);
    }

    /** Both locks are taken and the shutdown is announced; err becomes what the waiting calls will see. */
    method BeginSweep(err: Failure) returns (e: Failure)
      requires Valid() && Free() && st.input == WantReq(err)
      modifies this
      ensures Valid() && shutdown && closing == old(closing) && pending == old(pending) && log == old(log)
      ensures e == if !err.EOF? then err else if old(closing) then Shutdown else UnexpectedEOF
      ensures st == old(st).(reqMutex := Some(Thread.Input), mutex := Some(Thread.Input), shared := st.shared, input := Sweeping(e, pending.Keys))
    {
      hide Runs, ApplySender, ApplyOther, DoDeliver, DoTake, DoSweep;
      InputAcquires(err);
      shutdown := true;
      e := if err.EOF? then (if closing then Shutdown else UnexpectedEOF) else err;
      Step(Action.Terminate);
    }

    ghost method EndOfInput()
      requires Valid() && st.input.Sweeping? && st.input.todo == {}
      modifies `st, `trace
      ensures Valid() && st == old(st).(reqMutex := None, mutex := None, input := Exited)
    {
      hide Runs, ApplySender, ApplyOther, DoDeliver, DoTake, DoTerminate;
      Step(EndSweep);
      Step(InputUnlock);
    }

    method SweepOne(n: nat, e: Failure)
      requires Valid() && st.input.Sweeping? && st.input.err == e && n in st.input.todo && n in pending
      modifies `log, `st, `trace
      ensures Valid() && log == old(log) + [Completion(pending[n], Some(e), None, BySweep)]
      ensures st.registered == old(st.registered) && st.input == Sweeping(e, old(st.input.todo) - {n})
    {
      hide Runs, ApplySender, ApplyOther, DoDeliver, DoTake, DoTerminate;
      log := log + [Completion(pending[n], Some(e), None, BySweep)];
      Step(Sweep(n));
    }

    /**
     * What the input thread does once the loop has ended on err: every call still pending is completed, once; with
     * err itself, or for an EOF with ErrShutdown if the user has called Close and io.ErrUnexpectedEOF if not.
     */
    method Terminate(err: Failure)
      requires Valid() && Free() && st.input == WantReq(err)
      modifies this
      ensures Valid() && Free() && st.input.Exited? && shutdown && st.registered == old(st.registered)
      ensures pending == old(pending) && closing == old(closing) && old(log) <= log
      ensures SweepsEach(log[|old(log)|..], old(pending), if !err.EOF? then err else if old(closing) then Shutdown else UnexpectedEOF)
    {
      hide Runs, Apply, SweepsEach;
      var e := BeginSweep(err);
      SweepPending(e);
      EndOfInput();
    }

    /** The loop over the pending calls. */
    method SweepPending(e: Failure)
      requires Valid() && st.input == Sweeping(e, pending.Keys)
      modifies `log, `st, `trace
      ensures Valid() && st.input == Sweeping(e, {}) && st.registered == old(st.registered)
      ensures old(log) <= log && SweepsEach(log[|old(log)|..], pending, e)
    {
      hide Runs, Apply, Enabled, SweepsAll;
      var todo := pending.Keys;
      ghost var order: seq<nat> := [];
      ghost var added: seq<Completion> := [];
      NoneSwept(e);
      assert pending - todo == map[];
      while todo != {}
        invariant Valid() && st.input == Sweeping(e, todo) && todo <= pending.Keys && st.registered == old(st.registered)
        invariant log == old(log) + added
        invariant SweepsAll(added, pending - todo, order, e)
        decreases |todo|
      {
        var n :| n in todo;
        OneMoreSwept(added, pending, todo, order, e, n);
        SweepOne(n, e);
        todo := todo - {n};
        order, added := order + [n], added + [Completion(pending[n], Some(e), None, BySweep)];
      }
      assert pending - {} == pending;
      assert log[|old(log)|..] == added;
    }

    /**
     * input, for the responses the codec delivers before it fails: the loop stops at the first error,
     * and when it returns every call ever registered has completed exactly once.
     */
    method Input(events: seq<Event>, last: Failure)
      requires Valid() && Free() && st.input.ReadHeader? && |st.registered| <= TWO64
      modifies this
      ensures Valid() && Free() && st.input.Exited? && shutdown
      ensures forall c :: c in st.registered ==> Times(log, c) == 1
    {
      hide Runs, Times;
      var err: Option<Failure> := None;
      var i := 0;
      while err.None?
        invariant Valid() && Free() && i <= |events| && st.registered == old(st.registered)
        invariant st.input == if err.None? then ReadHeader else WantReq(err.value)
        decreases err.None?, |events| - i
      {
        if i == |events| {
          Step(HeaderFails(last));
          err := Some(last);
        } else {
          err := HandleResponse(events[i]);
          i := i + 1;
        }
      }
      Terminate(err.value);
      Completed();
    }

    lemma {:induction false} Completed()
      requires Valid() && st.input.Exited? && |st.registered| <= TWO64
      ensures forall c :: c in st.registered ==> Times(log, c) == 1
    {
      hide Runs, Inv, Times;
      ReachableInv(st);
      forall c | c in st.registered ensures Times(log, c) == 1 {
        ExitedTimes(st, c);
      }
    }

    ghost method EnterClose(k: nat)
      requires Valid() && Free() && k !in st.closers
      modifies `st, `trace
      ensures Valid() && st == old(st).(mutex := Some(Closer(k)), closers := old(st.closers)[k := CloseHolding])
    {
      hide Runs, ApplySender, ApplyInput;
      Step(Action.Close(k));
      Step(CloseLock(k));
      assert st.closers == old(st.closers)[k := CloseHolding];
    }

    /** The critical section of Close; the result says whether this is the first one. */
    method MarkClosing(k: nat) returns (first: bool)
      requires Valid() && Free() && k !in st.closers
      modifies this
      ensures Valid() && closing && first == old(!closing) && pending == old(pending) && log == old(log)
      ensures st == old(st).(shared := st.shared, closers := old(st.closers)[k := if first then ClosingCodec else CloseReturned(Some(Shutdown))])
    {
      hide Runs, ApplySender, ApplyInput;
      EnterClose(k);
      first := !closing;
      closing := true;
      Step(CloseMark(k));
      assert st.closers == old(st.closers)[k := if first then ClosingCodec else CloseReturned(Some(Shutdown))];
    }

    /** Only the first Close reaches the codec; the others get ErrShutdown. */
    method Close(k: nat, codecResult: Option<Failure>) returns (r: Option<Failure>)
      requires Valid() && Free() && k !in st.closers
      modifies this
      ensures Valid() && Free() && closing && pending == old(pending) && log == old(log) && st.input == old(st.input)
      ensures r == if old(closing) then Some(Shutdown) else codecResult
      ensures st.closers == old(st.closers)[k := CloseReturned(r)]
    {
      hide Runs;
      var first := MarkClosing(k);
      if !first {
        return Some(Shutdown);
      }
      Step(CodecClose(k, codecResult));
      return codecResult;
    }
  }
}
