/** What holds of every run of the client: completion, termination of the input loop, progress. */
module ClientRuns {
  import opened Bytes
  import opened Values
  import opened Client

  // ------------------------------------------------------------------
  // Every reachable state satisfies the invariant

  lemma {:induction false} InitInv()
    ensures Inv(INIT)
  {
  }

  lemma {:induction false} StepGrows(s: State, a: Action)
    requires Enabled(s, a)
    ensures s.registered <= Apply(s, a).registered
  {
    if BySender(a) {
      SenderGrows(s, a);
    } else {
      hide ApplySender;
    }
  }

  lemma {:induction false} SenderGrows(s: State, a: Action)
    requires Enabled(s, a) && BySender(a)
    ensures s.registered <= Apply(s, a).registered
  {
    hide ApplyInput, ApplyOther;
  }

  lemma {:induction false} RunGrows(s: State, actions: seq<Action>, t: State)
    requires Runs(s, actions, t)
    ensures s.registered <= t.registered
    decreases |actions|
  {
    hide Enabled, Apply;
    if actions != [] {
      StepGrows(s, actions[0]);
      RunGrows(Apply(s, actions[0]), actions[1..], t);
    }
  }

  lemma {:induction false} InvRun(s: State, actions: seq<Action>, t: State)
    requires Inv(s) && Runs(s, actions, t) && |t.registered| <= TWO64
    ensures Inv(t)
    decreases |actions|
  {
    hide Inv, Enabled, Apply;
    if actions != [] {
      var m := Apply(s, actions[0]);
      RunGrows(m, actions[1..], t);
      InvStep(s, actions[0]);
      InvRun(m, actions[1..], t);
    }
  }

  /** A state some run from the start reaches, with at most 2^64 calls numbered on the way. */
  ghost predicate Reachable(t: State) {
    |t.registered| <= TWO64 && exists actions :: Runs(INIT, actions, t)
  }

  lemma {:induction false} ReachableInv(t: State)
    requires Reachable(t)
    ensures Inv(t)
  {
    hide Inv;
    var actions :| Runs(INIT, actions, t);
    InitInv();
    InvRun(INIT, actions, t);
  }

  // ------------------------------------------------------------------
  // Completion

  /** done() runs at most once for a call, so a private channel with any capacity never drops it. */
  lemma {:induction false} AtMostOnce(t: State, c: CallId)
    requires Reachable(t)
    ensures Times(t.log, c) <= 1 && t.dropped == {}
  {
    hide Times, Live, InputOk, Closers, Owners, Reports;
    ReachableInv(t);
    if c in t.registered {
      var n :| 0 <= n < |t.registered| && t.registered[n] == c;
      assert Places(t, n) == 1;
    } else if c in t.pcs {
      SenderAt(t, c);
    }
  }

  /** Before shutdown a registered call not completed is pending, with input, or with its failing sender: in one of them. */
  lemma {:induction false} OneHolder(t: State, n: nat)
    requires Reachable(t) && n < |t.registered| && !t.shared.shutdown
    ensures var c := t.registered[n];
            var pending := n in t.shared.pending;
            var input := HeldBy(t.input) == Some(c);
            var sender := c in t.pcs && HasCall(t.pcs[c]);
            && (Times(t.log, c) == 0 <==> pending || input || sender)
            && !(pending && input) && !(pending && sender) && !(input && sender)
            && (pending ==> t.shared.pending[n] == c)
  {
    hide Times;
    ReachableInv(t);
    assert Places(t, n) == 1;
  }

  /** No call ended by the termination sweep, or by a refused send, carries a bare io.EOF. */
  lemma {:induction false} SweepReports(t: State, i: nat)
    requires Reachable(t) && i < |t.log|
    ensures t.log[i].how.BySweep? ==> t.log[i].err.Some? && !t.log[i].err.value.EOF?
    ensures t.log[i].how.ByReject? ==> t.log[i].err == Some(Shutdown)
  {
    hide Times;
    ReachableInv(t);
    assert Reported(t.log[i]);
  }

  // ------------------------------------------------------------------
  // After the input loop has exited

  /** What later runs leave alone, and what they may add to the log. */
  ghost predicate Frozen(s: State, t: State) {
    && t.input.Exited? && t.registered == s.registered && t.shared.pending == s.shared.pending && t.writes == s.writes
    && s.log <= t.log
    && forall i :: |s.log| <= i < |t.log| ==> t.log[i].how.ByReject? && t.log[i].err == Some(Shutdown) && t.log[i].call !in s.registered
  }

  lemma {:induction false} FrozenSend(s: State, a: Action)
    requires Inv(s) && s.input.Exited? && Enabled(s, a)
    requires a.Register? || a.RejectDone? || a.Write? || a.Delete? || a.FailDone?
    ensures Frozen(s, Apply(s, a))
  {
    hide Times, OnePlace, Numbers, Channels, Reports, Closers, Owners, ApplyInput, ApplyOther;
    SenderAt(s, a.c);
  }

  lemma {:induction false} FrozenStep(s: State, a: Action)
    requires Inv(s) && s.input.Exited? && Enabled(s, a)
    ensures Frozen(s, Apply(s, a))
  {
    hide Inv, DoRegister, DoWrite, DoDelete, DoFailDone;
    if a.Register? || a.RejectDone? || a.Write? || a.Delete? || a.FailDone? {
      FrozenSend(s, a);
    }
  }

  lemma {:induction false} FrozenTrans(s: State, m: State, t: State)
    requires Frozen(s, m) && Frozen(m, t)
    ensures Frozen(s, t)
  {
    forall i | |s.log| <= i < |t.log|
      ensures t.log[i].how.ByReject? && t.log[i].err == Some(Shutdown) && t.log[i].call !in s.registered
    {
      if i < |m.log| { assert t.log[i] == m.log[i]; }
    }
  }

  lemma {:induction false} FrozenRun(s: State, actions: seq<Action>, t: State)
    requires Inv(s) && s.input.Exited? && Runs(s, actions, t)
    ensures Inv(t) && Frozen(s, t)
    decreases |actions|
  {
    hide Inv, Enabled, Apply;
    if actions != [] {
      var m := Apply(s, actions[0]);
      FrozenStep(s, actions[0]);
      InvBound(s);
      InvStep(s, actions[0]);
      FrozenRun(m, actions[1..], t);
      FrozenTrans(s, m, t);
    }
  }

  lemma {:induction false} InvBound(s: State)
    requires Inv(s)
    ensures |s.registered| <= TWO64
  {
  }

  lemma {:induction false} ExitedTimes(s: State, c: CallId)
    requires Inv(s) && s.input.Exited?
    ensures c in s.registered || (c in s.pcs && s.pcs[c].Finished?) ==> Times(s.log, c) == 1
  {
    hide Times, Closers, Owners, Channels, Reports;
    if c in s.pcs { SenderAt(s, c); }
    if c in s.registered {
      var n :| 0 <= n < |s.registered| && s.registered[n] == c;
      SenderAt(s, c);
      assert Places(s, n) == 1;
    }
  }

  /**
   * Once the input loop has exited, in every later run: every call ever registered has completed exactly
   * once, and no entry left in pending is completed again; nothing is numbered, removed or written any
   * more; every send that returns has completed its call, with ErrShutdown.
   */
  lemma {:induction false} AfterExit(s: State, actions: seq<Action>, t: State)
    requires Reachable(s) && s.input.Exited? && Runs(s, actions, t)
    ensures Frozen(s, t)
    ensures forall c :: c in s.registered ==> Times(s.log, c) == 1 && Times(t.log, c) == 1
    ensures forall c :: c in t.pcs && t.pcs[c].Finished? ==> Times(t.log, c) == 1
  {
    hide Inv, Times, Frozen, Runs;
    ReachableInv(s);
    FrozenRun(s, actions, t);
    assert Frozen(s, t) ==> t.input.Exited? && t.registered == s.registered by { FrozenFacts(s, t); }
    forall c ensures c in s.registered ==> Times(s.log, c) == 1 && Times(t.log, c) == 1 {
      ExitedTimes(s, c);
      ExitedTimes(t, c);
    }
    forall c ensures c in t.pcs && t.pcs[c].Finished? ==> Times(t.log, c) == 1 {
      ExitedTimes(t, c);
    }
  }

  lemma {:induction false} FrozenFacts(s: State, t: State)
    ensures Frozen(s, t) ==> t.input.Exited? && t.registered == s.registered
  {
  }

  // ------------------------------------------------------------------
  // Progress

  predicate Exists(s: State, th: Thread) {
    match th
    case Sender(c) => c in s.pcs
    case Input => true
    case Closer(k) => k in s.closers
  }

  predicate Over(s: State, th: Thread)
    requires Exists(s, th)
  {
    match th
    case Sender(c) => s.pcs[c].Finished?
    case Input => s.input.Exited?
    case Closer(k) => s.closers[k].CloseReturned?
  }

  function NextOfSender(c: CallId, pc: SenderPC): Action {
    match pc
    case Start => LockReq(c)
    case HasReq => Lock(c)
    case Registering => Register(c)
    case Rejected => RejectDone(c)
    case Writing(_) => Write(c, None)
    case WriteFailed(_, _) => Lock(c)
    case Deleting(_, _) => Delete(c)
    case Deleted(_, _) => FailDone(c)
    case Leaving => Unlock(c)
    case Finished => Unlock(c)
  }

  ghost function NextOfInput(i: InputPC): Action {
    match i
    case ReadHeader => HeaderFails(Failure.EOF)
    case WantTake(_) => LockTake
    case Taking(_) => Take
    case ReadBody(_, _) => Action.Body(Nil)
    case Deliver(_, _, _, _) => DeliverDone
    case WantReq(_) => InputLockReq
    case WantMutex(_) => InputLock
    case Terminating(_) => Terminate
    case Sweeping(_, todo) => if todo == {} then EndSweep else var n :| n in todo; Sweep(n)
    case UnlockReq => InputUnlock
    case Exited => InputUnlock
  }

  function NextOfCloser(k: nat, pc: CloserPC): Action {
    match pc
    case CloseStart => CloseLock(k)
    case CloseHolding => CloseMark(k)
    case ClosingCodec => CodecClose(k, None)
    case CloseReturned(_) => CloseLock(k)
  }

  /** What a thread does next, with one of the results its codec call could return. */
  ghost function Next(s: State, th: Thread): Action
    requires Exists(s, th)
  {
    match th
    case Sender(c) => NextOfSender(c, s.pcs[c])
    case Input => NextOfInput(s.input)
    case Closer(k) => NextOfCloser(k, s.closers[k])
  }

  ghost predicate CanStep(s: State, th: Thread) {
    Exists(s, th) && !Over(s, th) && Enabled(s, Next(s, th))
  }

  predicate IsCodecCall(a: Action) {
    a.Write? || a.Header? || a.HeaderFails? || a.Body? || a.BodyFails? || a.CodecClose?
  }

  /** The holder of mutex waits neither for a lock nor for the codec. */
  lemma {:induction false} MutexHolderRuns(s: State)
    requires Inv(s) && s.mutex.Some?
    ensures CanStep(s, s.mutex.value) && !IsCodecCall(Next(s, s.mutex.value))
  {
    hide Times, OnePlace, Channels, Reports, Numbers;
    match s.mutex.value {
      case Sender(c) => SenderAt(s, c);
      case Input =>
      case Closer(k) => assert k in s.closers;
    }
  }

  /** When mutex is free, the holder of reqMutex can step: it waits for no lock but mutex. */
  lemma {:induction false} ReqHolderRuns(s: State)
    requires Inv(s) && s.reqMutex.Some? && s.mutex.None?
    ensures CanStep(s, s.reqMutex.value)
  {
    hide Times, OnePlace, Channels, Reports, Numbers;
    match s.reqMutex.value {
      case Sender(c) => SenderAt(s, c);
      case Input =>
      case Closer(k) =>
    }
  }

  /** When both locks are free, every thread that is not over can step. */
  lemma {:induction false} FreeRuns(s: State, th: Thread)
    requires Inv(s) && s.reqMutex.None? && s.mutex.None? && Exists(s, th) && !Over(s, th)
    ensures CanStep(s, th)
  {
    hide Times, OnePlace, Channels, Reports, Numbers;
    match th {
      case Sender(c) => SenderAt(s, c);
      case Input =>
      case Closer(k) => assert k in s.closers;
    }
  }

  /** The thread at the end of the chain of waits: the holder of mutex, or of reqMutex, or th itself. */
  function Front(s: State, th: Thread): Thread {
    if s.mutex.Some? then s.mutex.value else if s.reqMutex.Some? then s.reqMutex.value else th
  }

  /** No deadlock: in every reachable state with a thread that is not over, some thread can step. */
  lemma {:induction false} NoDeadlock(s: State, th: Thread)
    requires Reachable(s) && Exists(s, th) && !Over(s, th)
    ensures CanStep(s, Front(s, th))
  {
    hide Inv, CanStep;
    ReachableInv(s);
    FrontRuns(s, th);
  }

  lemma {:induction false} FrontRuns(s: State, th: Thread)
    requires Inv(s) && Exists(s, th) && !Over(s, th)
    ensures CanStep(s, Front(s, th))
  {
    hide Inv, CanStep;
    if s.mutex.Some? {
      MutexHolderRuns(s);
    } else if s.reqMutex.Some? {
      ReqHolderRuns(s);
    } else {
      FreeRuns(s, th);
    }
  }
}
