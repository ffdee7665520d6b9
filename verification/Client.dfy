/**
 * The RPC client as a concurrent protocol. Any number of send threads, one input thread and any
 * number of Close callers interleave; every lock operation, every critical section and every
 * codec call is a step, and a codec call may return anything.
 */
module Client {
  import opened Bytes
  import opened Values

  // ------------------------------------------------------------------
  // The state

  /** A *Call, and the thread that runs send for it: Go makes one of each. */
  type CallId = nat

  datatype Failure =
    | EOF | UnexpectedEOF | Shutdown
    | ServerError(msg: Text)
    | ReadingBody(cause: Failure)
    | ReadingErrorBody(cause: Failure)
    | Codec(code: nat)

  datatype CallInfo = CallInfo(serviceMethod: Text, args: Value, capacity: nat)

  datatype Response = Response(seqno: nat, serviceMethod: Text, error: Text)

  datatype Thread = Sender(c: CallId) | Input | Closer(t: nat)

  /** What `mutex` protects. */
  datatype Shared = Shared(seqno: nat, pending: map<nat, CallId>, closing: bool, shutdown: bool)

  /** Where a send thread is; all points but the first and the last hold reqMutex. */
  datatype SenderPC =
    | Start
    | HasReq
    | Registering
    | Rejected
    | Writing(n: nat)
    | WriteFailed(n: nat, err: Failure)
    | Deleting(n: nat, err: Failure)
    | Deleted(found: Option<CallId>, err: Failure)
    | Leaving
    | Finished

  datatype InputPC =
    | ReadHeader
    | WantTake(resp: Response)
    | Taking(resp: Response)
    | ReadBody(call: Option<CallId>, resp: Response)
    | Deliver(waiter: CallId, callErr: Option<Failure>, reply: Option<Value>, loopErr: Option<Failure>)
    | WantReq(err: Failure)
    | WantMutex(err: Failure)
    | Terminating(err: Failure)
    | Sweeping(err: Failure, todo: set<nat>)
    | UnlockReq
    | Exited

  datatype CloserPC = CloseStart | CloseHolding | ClosingCodec | CloseReturned(result: Option<Failure>)

  datatype Chan = Chan(capacity: nat, queued: nat)

  datatype How = ByReject | ByWriteFailure | ByResponse | BySweep

  /** One run of done(), with the call's Error and, when its body was read, its Reply. */
  datatype Completion = Completion(call: CallId, err: Option<Failure>, reply: Option<Value>, how: How)

  /**
   * The whole client. The last three are histories: the calls in the order they were numbered,
   * the sequence numbers handed to WriteRequest, and the runs of done().
   */
  datatype State = State(
    reqMutex: Option<Thread>, mutex: Option<Thread>, shared: Shared,
    info: map<CallId, CallInfo>, pcs: map<CallId, SenderPC>, input: InputPC, closers: map<nat, CloserPC>,
    chans: map<CallId, Chan>, dropped: set<CallId>,
    registered: seq<CallId>, writes: seq<nat>, log: seq<Completion>)

  const INIT := State(None, None, Shared(0, map[], false, false), map[], map[], ReadHeader, map[], map[], {}, [], [], [])

  // ------------------------------------------------------------------
  // The critical sections of `mutex`

  function Lookup(m: map<nat, CallId>, n: nat): Option<CallId> {
    if n in m then Some(m[n]) else None
  }

  predicate Refuses(sh: Shared) {
    sh.shutdown || sh.closing
  }

  /** The counter is a uint64; a number still in use is overwritten. */
  function Number(sh: Shared, c: CallId): Shared {
    sh.(seqno := (sh.seqno + 1) % TWO64, pending := sh.pending[sh.seqno := c])
  }

  function Remove(sh: Shared, n: nat): Shared {
    sh.(pending := sh.pending - {n})
  }

  /** The error the terminated calls get. */
  function FinalError(sh: Shared, err: Failure): Failure {
    if err.EOF? then (if sh.closing then Shutdown else UnexpectedEOF) else err
  }

  // ------------------------------------------------------------------
  // Steps

  datatype Action =
    | Go(c: CallId, ci: CallInfo)
    | LockReq(c: CallId)
    | Lock(c: CallId)
    | Register(c: CallId)
    | RejectDone(c: CallId)
    | Write(c: CallId, result: Option<Failure>)
    | Delete(c: CallId)
    | FailDone(c: CallId)
    | Unlock(c: CallId)
    | Header(resp: Response)
    | HeaderFails(err: Failure)
    | LockTake
    | Take
    | Body(reply: Value)
    | BodyFails(err: Failure)
    | DeliverDone
    | InputLockReq
    | InputLock
    | Terminate
    | Sweep(n: nat)
    | EndSweep
    | InputUnlock
    | Close(t: nat)
    | CloseLock(t: nat)
    | CloseMark(t: nat)
    | CodecClose(t: nat, closed: Option<Failure>)
    | Receive(c: CallId)

  predicate Enabled(s: State, a: Action) {
    match a
    case Go(c, ci) => c !in s.pcs && ci.capacity >= 1
    case LockReq(c) => c in s.pcs && s.pcs[c].Start? && s.reqMutex.None?
    case Lock(c) => c in s.pcs && (s.pcs[c].HasReq? || s.pcs[c].WriteFailed?) && s.mutex.None?
    case Register(c) => c in s.pcs && s.pcs[c].Registering?
    case RejectDone(c) => c in s.pcs && s.pcs[c].Rejected?
    case Write(c, _) => c in s.pcs && s.pcs[c].Writing?
    case Delete(c) => c in s.pcs && s.pcs[c].Deleting?
    case FailDone(c) => c in s.pcs && s.pcs[c].Deleted?
    case Unlock(c) => c in s.pcs && s.pcs[c].Leaving?
    case Header(_) => s.input.ReadHeader?
    case HeaderFails(_) => s.input.ReadHeader?
    case LockTake => s.input.WantTake? && s.mutex.None?
    case Take => s.input.Taking?
    case Body(_) => s.input.ReadBody?
    case BodyFails(_) => s.input.ReadBody?
    case DeliverDone => s.input.Deliver?
    case InputLockReq => s.input.WantReq? && s.reqMutex.None?
    case InputLock => s.input.WantMutex? && s.mutex.None?
    case Terminate => s.input.Terminating?
    case Sweep(n) => s.input.Sweeping? && n in s.input.todo && n in s.shared.pending
    case EndSweep => s.input.Sweeping? && s.input.todo == {}
    case InputUnlock => s.input.UnlockReq?
    case Close(t) => t !in s.closers
    case CloseLock(t) => t in s.closers && s.closers[t].CloseStart? && s.mutex.None?
    case CloseMark(t) => t in s.closers && s.closers[t].CloseHolding?
    case CodecClose(t, _) => t in s.closers && s.closers[t].ClosingCodec?
    case Receive(c) => c in s.chans && s.chans[c].queued > 0
  }

  predicate BySender(a: Action) {
    a.Go? || a.LockReq? || a.Lock? || a.Register? || a.RejectDone? || a.Write? || a.Delete? || a.FailDone? || a.Unlock?
  }

  predicate ByInput(a: Action) {
    a.Header? || a.HeaderFails? || a.LockTake? || a.Take? || a.Body? || a.BodyFails? || a.DeliverDone?
    || a.InputLockReq? || a.InputLock? || a.Terminate? || a.Sweep? || a.EndSweep? || a.InputUnlock?
  }

  function Move(s: State, c: CallId, pc: SenderPC): State {
    s.(pcs := s.pcs[c := pc])
  }

  /** done(): a notification that does not wait, and is dropped when the channel is full. */
  function Done(s: State, x: Completion): State {
    var t := s.(log := s.log + [x]);
    if x.call in s.chans && s.chans[x.call].queued < s.chans[x.call].capacity then
      t.(chans := s.chans[x.call := s.chans[x.call].(queued := s.chans[x.call].queued + 1)])
    else
      t.(dropped := s.dropped + {x.call})
  }

  function DoGo(s: State, c: CallId, ci: CallInfo): State {
    s.(pcs := s.pcs[c := Start], info := s.info[c := ci], chans := s.chans[c := Chan(ci.capacity, 0)])
  }

  function DoLock(s: State, c: CallId): State
    requires c in s.pcs
  {
    var pc := s.pcs[c];
    Move(s, c, if pc.WriteFailed? then Deleting(pc.n, pc.err) else Registering).(mutex := Some(Sender(c)))
  }

  function DoRegister(s: State, c: CallId): State {
    if Refuses(s.shared) then Move(s, c, Rejected).(mutex := None)
    else Move(s, c, Writing(s.shared.seqno)).(mutex := None, shared := Number(s.shared, c), registered := s.registered + [c])
  }

  function DoWrite(s: State, c: CallId, result: Option<Failure>): State
    requires c in s.pcs && s.pcs[c].Writing?
  {
    var n := s.pcs[c].n;
    Move(s, c, if result.None? then Leaving else WriteFailed(n, result.value)).(writes := s.writes + [n])
  }

  function DoDelete(s: State, c: CallId): State
    requires c in s.pcs && s.pcs[c].Deleting?
  {
    var pc := s.pcs[c];
    Move(s, c, Deleted(Lookup(s.shared.pending, pc.n), pc.err)).(mutex := None, shared := Remove(s.shared, pc.n))
  }

  function DoFailDone(s: State, c: CallId): State
    requires c in s.pcs && s.pcs[c].Deleted?
  {
    var pc := s.pcs[c];
    var t := Move(s, c, Leaving);
    if pc.found.Some? then Done(t, Completion(pc.found.value, Some(pc.err), None, ByWriteFailure)) else t
  }

  function DoReject(s: State, c: CallId): State {
    Done(Move(s, c, Leaving), Completion(c, Some(Shutdown), None, ByReject))
  }

  function DoTake(s: State): State
    requires s.input.Taking?
  {
    var r := s.input.resp;
    s.(mutex := None, input := ReadBody(Lookup(s.shared.pending, r.seqno), r), shared := Remove(s.shared, r.seqno))
  }

  /** The three cases of a response: nobody waits, an error, or a reply; the body is read in each. */
  function AfterBody(call: Option<CallId>, resp: Response, result: Option<Failure>, reply: Option<Value>): InputPC {
    if call.None? then
      if result.None? then ReadHeader else WantReq(ReadingErrorBody(result.value))
    else if resp.error != [] then
      Deliver(call.value, Some(ServerError(resp.error)), None, if result.None? then None else Some(ReadingErrorBody(result.value)))
    else
      Deliver(call.value, if result.None? then None else Some(ReadingBody(result.value)), reply, result)
  }

  function DoDeliver(s: State): State
    requires s.input.Deliver?
  {
    var i := s.input;
    Done(s.(input := if i.loopErr.None? then ReadHeader else WantReq(i.loopErr.value)),
         Completion(i.waiter, i.callErr, i.reply, ByResponse))
  }

  function DoTerminate(s: State): State
    requires s.input.Terminating?
  {
    s.(shared := s.shared.(shutdown := true), input := Sweeping(FinalError(s.shared, s.input.err), s.shared.pending.Keys))
  }

  function DoSweep(s: State, n: nat): State
    requires s.input.Sweeping? && n in s.shared.pending
  {
    Done(s.(input := s.input.(todo := s.input.todo - {n})),
         Completion(s.shared.pending[n], Some(s.input.err), None, BySweep))
  }

  function DoCloseMark(s: State, t: nat): State {
    if s.shared.closing then s.(mutex := None, closers := s.closers[t := CloseReturned(Some(Shutdown))])
    else s.(mutex := None, shared := s.shared.(closing := true), closers := s.closers[t := ClosingCodec])
  }

  function ApplySender(s: State, a: Action): State
    requires Enabled(s, a) && BySender(a)
  {
    match a
    case Go(c, ci) => DoGo(s, c, ci)
    case LockReq(c) => Move(s, c, HasReq).(reqMutex := Some(Sender(c)))
    case Lock(c) => DoLock(s, c)
    case Register(c) => DoRegister(s, c)
    case RejectDone(c) => DoReject(s, c)
    case Write(c, result) => DoWrite(s, c, result)
    case Delete(c) => DoDelete(s, c)
    case FailDone(c) => DoFailDone(s, c)
    case Unlock(c) => Move(s, c, Finished).(reqMutex := None)
  }

  function ApplyInput(s: State, a: Action): State
    requires Enabled(s, a) && ByInput(a)
  {
    match a
    case Header(r) => s.(input := WantTake(r))
    case HeaderFails(e) => s.(input := WantReq(e))
    case LockTake => s.(mutex := Some(Input), input := Taking(s.input.resp))
    case Take => DoTake(s)
    case Body(v) => s.(input := AfterBody(s.input.call, s.input.resp, None, Some(v)))
    case BodyFails(e) => s.(input := AfterBody(s.input.call, s.input.resp, Some(e), None))
    case DeliverDone => DoDeliver(s)
    case InputLockReq => s.(reqMutex := Some(Input), input := WantMutex(s.input.err))
    case InputLock => s.(mutex := Some(Input), input := Terminating(s.input.err))
    case Terminate => DoTerminate(s)
    case Sweep(n) => DoSweep(s, n)
    case EndSweep => s.(mutex := None, input := UnlockReq)
    case InputUnlock => s.(reqMutex := None, input := Exited)
  }

  /** Close, and a caller that receives from its channel. */
  function ApplyOther(s: State, a: Action): State
    requires Enabled(s, a) && !BySender(a) && !ByInput(a)
  {
    match a
    case Close(t) => s.(closers := s.closers[t := CloseStart])
    case CloseLock(t) => s.(mutex := Some(Closer(t)), closers := s.closers[t := CloseHolding])
    case CloseMark(t) => DoCloseMark(s, t)
    case CodecClose(t, e) => s.(closers := s.closers[t := CloseReturned(e)])
    case Receive(c) => s.(chans := s.chans[c := s.chans[c].(queued := s.chans[c].queued - 1)])
  }

  function Apply(s: State, a: Action): State
    requires Enabled(s, a)
  {
    if BySender(a) then ApplySender(s, a) else if ByInput(a) then ApplyInput(s, a) else ApplyOther(s, a)
  }

  /** The actions are a run from s to t. */
  ghost predicate Runs(s: State, actions: seq<Action>, t: State)
    decreases |actions|
  {
    if actions == [] then s == t
    else Enabled(s, actions[0]) && Runs(Apply(s, actions[0]), actions[1..], t)
  }

  lemma {:induction false} RunsConcat(s: State, xs: seq<Action>, m: State, ys: seq<Action>, t: State)
    requires Runs(s, xs, m) && Runs(m, ys, t)
    ensures Runs(s, xs + ys, t)
    decreases |xs|
  {
    hide Enabled, Apply;
    if xs == [] {
      assert xs + ys == ys;
    } else {
      RunsConcat(Apply(s, xs[0]), xs[1..], m, ys, t);
      assert (xs + ys)[1..] == xs[1..] + ys;
    }
  }

  lemma {:induction false} OneStep(s: State, a: Action)
    requires Enabled(s, a)
    ensures Runs(s, [a], Apply(s, a))
  {
    hide Enabled, Apply;
    assert Runs(Apply(s, a), [], Apply(s, a));
  }

  // ------------------------------------------------------------------
  // What every step keeps

  /** How often done() has run for a call. */
  function Times(log: seq<Completion>, c: CallId): nat {
    if log == [] then 0 else Times(log[..|log| - 1], c) + (if log[|log| - 1].call == c then 1 else 0)
  }

  predicate HoldsReq(pc: SenderPC) {
    !pc.Start? && !pc.Finished?
  }

  predicate HoldsMutex(pc: SenderPC) {
    pc.Registering? || pc.Deleting?
  }

  predicate InputHoldsReq(i: InputPC) {
    i.WantMutex? || i.Terminating? || i.Sweeping? || i.UnlockReq?
  }

  predicate InputHoldsMutex(i: InputPC) {
    i.Taking? || i.Terminating? || i.Sweeping?
  }

  /** A sender that has numbered its call and may still find it in pending. */
  predicate InFlight(pc: SenderPC) {
    pc.Writing? || pc.WriteFailed? || pc.Deleting? || pc.Deleted?
  }

  predicate Past(pc: SenderPC) {
    pc.Leaving? || pc.Finished?
  }

  /** The call the input thread has taken out of pending and not completed yet. */
  function HeldBy(i: InputPC): Option<CallId> {
    if i.ReadBody? then i.call else if i.Deliver? then Some(i.waiter) else None
  }

  /** The sender has taken its own call out of pending and not completed it yet. */
  predicate HasCall(pc: SenderPC) {
    pc.Deleted? && pc.found.Some?
  }

  predicate Ending(i: InputPC) {
    i.Sweeping? || i.UnlockReq? || i.Exited?
  }

  /**
   * One sender: it owns the locks its program point says, it works on its own number, no number is
   * in use once the client is shut down, and an unregistered call is completed exactly by its rejection.
   */
  ghost predicate SenderOk(s: State, c: CallId)
    requires c in s.pcs
  {
    var pc := s.pcs[c];
    && (HoldsReq(pc) <==> s.reqMutex == Some(Sender(c)))
    && (HoldsMutex(pc) <==> s.mutex == Some(Sender(c)))
    && (c in s.registered ==> InFlight(pc) || Past(pc))
    && (InFlight(pc) ==> c in s.registered && !s.shared.shutdown)
    && (InFlight(pc) && !pc.Deleted? ==> pc.n < |s.registered| && s.registered[pc.n] == c)
    && (HasCall(pc) ==> pc.found.value == c)
    && (c !in s.registered ==> Times(s.log, c) == (if Past(pc) then 1 else 0))
  }

  ghost predicate Senders(s: State) {
    forall c :: c in s.pcs ==> SenderOk(s, c)
  }

  ghost predicate InputOk(s: State) {
    var i := s.input;
    && (InputHoldsReq(i) <==> s.reqMutex == Some(Input))
    && (InputHoldsMutex(i) <==> s.mutex == Some(Input))
    && (HeldBy(i).Some? ==> HeldBy(i).value in s.registered)
    && (s.shared.shutdown <==> Ending(i))
    && (i.Sweeping? ==> i.todo <= s.shared.pending.Keys && !i.err.EOF?)
    && (i.Deliver? && i.callErr.None? ==> i.reply.Some?)
  }

  ghost predicate Closers(s: State) {
    forall t :: t in s.closers ==> (s.closers[t].CloseHolding? <==> s.mutex == Some(Closer(t)))
  }

  /** Whoever owns a lock exists. */
  ghost predicate Owners(s: State) {
    && (s.reqMutex.Some? ==> !s.reqMutex.value.Closer? && (s.reqMutex.value.Sender? ==> s.reqMutex.value.c in s.pcs))
    && (s.mutex.Some? && s.mutex.value.Sender? ==> s.mutex.value.c in s.pcs)
    && (s.mutex.Some? && s.mutex.value.Closer? ==> s.mutex.value.t in s.closers)
  }

  /** The index of a call in the order of registration is its sequence number, while there are at most 2^64. */
  ghost predicate Numbers(s: State) {
    && |s.registered| <= TWO64
    && s.shared.seqno == |s.registered| % TWO64
    && (forall n :: n in s.shared.pending ==> n < |s.registered| && s.shared.pending[n] == s.registered[n])
    && (forall n :: 0 <= n < |s.registered| ==> s.registered[n] in s.pcs)
    && (forall m, n :: 0 <= m < n < |s.registered| ==> s.registered[m] != s.registered[n])
    && (forall c :: c !in s.pcs ==> Times(s.log, c) == 0)
  }

  /** The pending entries that are still to be completed: after shutdown only those not swept yet. */
  function Live(s: State): set<nat> {
    if !s.shared.shutdown then s.shared.pending.Keys else if s.input.Sweeping? then s.input.todo else {}
  }

  /** The places a registered call can be in: pending, with input, with its failing sender, or completed. */
  function Places(s: State, n: nat): nat
    requires n < |s.registered|
  {
    var c := s.registered[n];
    (if n in Live(s) then 1 else 0) + (if HeldBy(s.input) == Some(c) then 1 else 0)
    + (if c in s.pcs && HasCall(s.pcs[c]) then 1 else 0) + Times(s.log, c)
  }

  ghost predicate OnePlace(s: State) {
    forall n :: 0 <= n < |s.registered| ==> Places(s, n) == 1
  }

  /** A channel with room for one notification has room when it comes. */
  ghost predicate Channels(s: State) {
    && s.chans.Keys == s.pcs.Keys
    && s.info.Keys == s.pcs.Keys
    && s.dropped == {}
    && (forall c :: c in s.chans ==> s.chans[c].capacity >= 1 && s.chans[c].queued <= Times(s.log, c))
  }

  /** What each way of completing a call reports. */
  predicate Reported(x: Completion) {
    match x.how
    case ByReject => x.err == Some(Shutdown)
    case ByWriteFailure => x.err.Some?
    case ByResponse => x.err.None? ==> x.reply.Some?
    case BySweep => x.err.Some? && !x.err.value.EOF?
  }

  ghost predicate Reports(log: seq<Completion>) {
    forall i :: 0 <= i < |log| ==> Reported(log[i])
  }

  ghost predicate Inv(s: State) {
    Senders(s) && InputOk(s) && Closers(s) && Owners(s) && Numbers(s) && OnePlace(s) && Channels(s) && Reports(s.log)
  }

  lemma {:induction false} SenderAt(s: State, c: CallId)
    requires Senders(s) && c in s.pcs
    ensures SenderOk(s, c)
  {
  }

  lemma {:induction false} TimesSnoc(log: seq<Completion>, x: Completion)
    ensures forall c :: Times(log + [x], c) == Times(log, c) + (if x.call == c then 1 else 0)
  {
    assert (log + [x])[..|log|] == log;
  }

  // ------------------------------------------------------------------
  // Steps that complete nothing and leave pending alone

  /** The lock changes hands only between thread and nobody, as the thread's program point says. */
  predicate Handed(before: Option<Thread>, after: Option<Thread>, th: Thread, held: bool, holds: bool) {
    || (after == before && held == holds)
    || (before == None && after == Some(th) && !held && holds)
    || (before == Some(th) && after == None && held && !holds)
  }

  lemma {:induction false} SameSenders(s: State, t: State)
    requires Senders(s) && t.pcs == s.pcs && t.registered == s.registered && t.log == s.log
    requires t.shared.shutdown == s.shared.shutdown
    requires forall c :: t.reqMutex == Some(Sender(c)) <==> s.reqMutex == Some(Sender(c))
    requires forall c :: t.mutex == Some(Sender(c)) <==> s.mutex == Some(Sender(c))
    ensures Senders(t)
  {
    hide Times;
    forall d | d in t.pcs ensures SenderOk(t, d) {
      assert SenderOk(s, d);
    }
  }

  lemma {:induction false} SamePlaces(s: State, t: State)
    requires OnePlace(s) && t.registered == s.registered && t.log == s.log && Live(t) == Live(s)
    requires HeldBy(t.input) == HeldBy(s.input) && t.pcs.Keys == s.pcs.Keys
    requires forall c :: c in s.pcs ==> HasCall(t.pcs[c]) == HasCall(s.pcs[c])
    ensures OnePlace(t)
  {
    hide Times, Live;
    forall n | 0 <= n < |t.registered| ensures Places(t, n) == 1 {
      assert Places(s, n) == 1;
    }
  }

  predicate QuietMove(s: State, c: CallId, pc: SenderPC, t: State) {
    && c in s.pcs && t == s.(pcs := s.pcs[c := pc], reqMutex := t.reqMutex, mutex := t.mutex, writes := t.writes)
    && Handed(s.reqMutex, t.reqMutex, Sender(c), HoldsReq(s.pcs[c]), HoldsReq(pc))
    && Handed(s.mutex, t.mutex, Sender(c), HoldsMutex(s.pcs[c]), HoldsMutex(pc))
    && (InFlight(s.pcs[c]) ==> !s.pcs[c].Deleted? && (Past(pc) || (InFlight(pc) && !pc.Deleted? && pc.n == s.pcs[c].n)))
    && (!InFlight(s.pcs[c]) ==> !InFlight(pc) && (Past(pc) <==> Past(s.pcs[c])))
  }

  lemma {:induction false} QuietSenders(s: State, c: CallId, pc: SenderPC, t: State)
    requires Senders(s) && QuietMove(s, c, pc, t)
    ensures Senders(t)
  {
    hide Times;
    forall d | d in t.pcs ensures SenderOk(t, d) {
      assert SenderOk(s, d);
    }
  }

  lemma {:induction false} InvQuietMove(s: State, c: CallId, pc: SenderPC, t: State)
    requires Inv(s) && QuietMove(s, c, pc, t)
    ensures Inv(t)
  {
    hide Senders, OnePlace, Times, Reports;
    QuietSenders(s, c, pc, t);
    SamePlaces(s, t);
  }

  predicate QuietInput(s: State, t: State) {
    && t == s.(input := t.input, reqMutex := t.reqMutex, mutex := t.mutex)
    && Handed(s.reqMutex, t.reqMutex, Input, InputHoldsReq(s.input), InputHoldsReq(t.input))
    && Handed(s.mutex, t.mutex, Input, InputHoldsMutex(s.input), InputHoldsMutex(t.input))
    && HeldBy(t.input) == HeldBy(s.input)
    && (Ending(t.input) <==> Ending(s.input))
    && !t.input.Sweeping? && (s.input.Sweeping? ==> s.input.todo == {})
    && (t.input.Deliver? && t.input.callErr.None? ==> t.input.reply.Some?)
  }

  lemma {:induction false} InvQuietInput(s: State, t: State)
    requires Inv(s) && QuietInput(s, t)
    ensures Inv(t)
  {
    hide Senders, OnePlace, Times, Reports;
    SameSenders(s, t);
    SamePlaces(s, t);
  }

  predicate QuietClose(s: State, k: nat, pc: CloserPC, t: State) {
    && t == s.(closers := s.closers[k := pc], mutex := t.mutex, shared := s.shared.(closing := t.shared.closing))
    && Handed(s.mutex, t.mutex, Closer(k), k in s.closers && s.closers[k].CloseHolding?, pc.CloseHolding?)
  }

  lemma {:induction false} InvQuietClose(s: State, k: nat, pc: CloserPC, t: State)
    requires Inv(s) && QuietClose(s, k, pc, t)
    ensures Inv(t)
  {
    hide Senders, OnePlace, Times, Reports;
    SameSenders(s, t);
    SamePlaces(s, t);
  }

  lemma {:induction false} InvReceive(s: State, c: CallId)
    requires Inv(s) && Enabled(s, Receive(c))
    ensures Inv(Apply(s, Receive(c)))
  {
    hide Senders, OnePlace, Times, Reports, ApplySender, ApplyInput;
    var t := Apply(s, Receive(c));
    SameSenders(s, t);
    SamePlaces(s, t);
  }

  lemma {:induction false} GoSenders(s: State, c: CallId, ci: CallInfo)
    requires Senders(s) && Owners(s) && Numbers(s) && c !in s.pcs
    ensures Senders(DoGo(s, c, ci))
  {
    hide Times;
    var t := DoGo(s, c, ci);
    forall d | d in t.pcs ensures SenderOk(t, d) {
      if d != c { assert SenderOk(s, d); }
    }
  }

  lemma {:induction false} GoPlaces(s: State, c: CallId, ci: CallInfo)
    requires OnePlace(s) && Numbers(s) && c !in s.pcs
    ensures OnePlace(DoGo(s, c, ci))
  {
    hide Times, HeldBy;
    var t := DoGo(s, c, ci);
    forall n | 0 <= n < |t.registered| ensures Places(t, n) == 1 {
      assert Places(s, n) == 1;
    }
  }

  lemma {:induction false} InvGo(s: State, c: CallId, ci: CallInfo)
    requires Inv(s) && c !in s.pcs && ci.capacity >= 1
    ensures Inv(DoGo(s, c, ci))
  {
    hide Senders, OnePlace, Times, Reports;
    GoSenders(s, c, ci);
    GoPlaces(s, c, ci);
  }

  // ------------------------------------------------------------------
  // Steps on pending

  predicate CanRegister(s: State, c: CallId) {
    c in s.pcs && s.pcs[c].Registering? && !Refuses(s.shared) && |s.registered| < TWO64
  }

  lemma {:induction false} RegisterSenders(s: State, c: CallId)
    requires Senders(s) && Numbers(s) && CanRegister(s, c)
    ensures Senders(DoRegister(s, c))
  {
    hide Times;
    var t := DoRegister(s, c);
    assert t.registered[|s.registered|] == c;
    forall d | d in t.pcs ensures SenderOk(t, d) {
      assert SenderOk(s, d);
      assert d in t.registered <==> d in s.registered || d == c;
    }
  }

  lemma {:induction false} RegisterPlaces(s: State, c: CallId)
    requires Inv(s) && CanRegister(s, c)
    ensures OnePlace(DoRegister(s, c))
  {
    hide Times, Senders, Closers, Owners, Channels, Reports;
    var t := DoRegister(s, c);
    SenderAt(s, c);
    forall n | 0 <= n < |t.registered| ensures Places(t, n) == 1 {
      if n < |s.registered| {
        assert Places(s, n) == 1;
      }
    }
  }

  lemma {:induction false} RegisterNumbers(s: State, c: CallId)
    requires Numbers(s) && CanRegister(s, c) && c !in s.registered
    ensures Numbers(DoRegister(s, c))
  {
    hide Times;
    var t := DoRegister(s, c);
    forall m, n | 0 <= m < n < |t.registered| ensures t.registered[m] != t.registered[n] {
      if n < |s.registered| { assert s.registered[m] != s.registered[n]; }
    }
  }

  lemma {:induction false} InvRegister(s: State, c: CallId)
    requires Inv(s) && CanRegister(s, c)
    ensures Inv(DoRegister(s, c))
  {
    hide Senders, OnePlace, Times, Reports, Numbers;
    SenderAt(s, c);
    RegisterSenders(s, c);
    RegisterPlaces(s, c);
    RegisterNumbers(s, c);
  }

  predicate CanDelete(s: State, c: CallId) {
    c in s.pcs && s.pcs[c].Deleting?
  }

  lemma {:induction false} DeleteSenders(s: State, c: CallId)
    requires Senders(s) && Numbers(s) && CanDelete(s, c)
    ensures Senders(DoDelete(s, c))
  {
    hide Times;
    var t := DoDelete(s, c);
    SenderAt(s, c);
    forall d | d in t.pcs ensures SenderOk(t, d) {
      assert SenderOk(s, d);
    }
  }

  lemma {:induction false} DeletePlaces(s: State, c: CallId)
    requires Inv(s) && CanDelete(s, c)
    ensures OnePlace(DoDelete(s, c))
  {
    hide Times, Senders, Closers, Owners, Channels, Reports;
    var t := DoDelete(s, c);
    SenderAt(s, c);
    forall n | 0 <= n < |t.registered| ensures Places(t, n) == 1 {
      assert Places(s, n) == 1;
    }
  }

  lemma {:induction false} InvDelete(s: State, c: CallId)
    requires Inv(s) && CanDelete(s, c)
    ensures Inv(DoDelete(s, c))
  {
    hide Senders, OnePlace, Times, Reports;
    SenderAt(s, c);
    DeleteSenders(s, c);
    DeletePlaces(s, c);
  }

  lemma {:induction false} TakePlaces(s: State)
    requires OnePlace(s) && Numbers(s) && InputOk(s) && s.input.Taking?
    ensures OnePlace(DoTake(s))
  {
    hide Times;
    var t := DoTake(s);
    forall n | 0 <= n < |t.registered| ensures Places(t, n) == 1 {
      assert Places(s, n) == 1;
    }
  }

  lemma {:induction false} InvTake(s: State)
    requires Inv(s) && s.input.Taking?
    ensures Inv(DoTake(s))
  {
    hide Senders, OnePlace, Times, Reports;
    var t := DoTake(s);
    SameSenders(s, t);
    TakePlaces(s);
  }

  lemma {:induction false} TerminateSenders(s: State)
    requires Senders(s) && InputOk(s) && s.input.Terminating?
    ensures Senders(DoTerminate(s))
  {
    hide Times;
    var t := DoTerminate(s);
    forall d | d in t.pcs ensures SenderOk(t, d) {
      assert SenderOk(s, d);
    }
  }

  lemma {:induction false} InvTerminate(s: State)
    requires Inv(s) && s.input.Terminating?
    ensures Inv(DoTerminate(s))
  {
    hide Senders, OnePlace, Times, Reports;
    TerminateSenders(s);
    SamePlaces(s, DoTerminate(s));
  }

  // ------------------------------------------------------------------
  // Steps that complete a call

  /** What done() does when the call has not been completed before. */
  lemma {:induction false} FirstDone(s: State, x: Completion)
    requires Channels(s) && Reports(s.log) && x.call in s.pcs && Times(s.log, x.call) == 0 && Reported(x)
    ensures var t := Done(s, x); Channels(t) && Reports(t.log) && t == s.(log := s.log + [x], chans := t.chans)
  {
    hide Times;
    TimesSnoc(s.log, x);
  }

  /** A registered call that sits in some place has not been completed. */
  lemma {:induction false} NotYet(s: State, n: nat)
    requires OnePlace(s) && n < |s.registered|
    requires var c := s.registered[n]; n in Live(s) || HeldBy(s.input) == Some(c) || (c in s.pcs && HasCall(s.pcs[c]))
    ensures Times(s.log, s.registered[n]) == 0
  {
    hide Times;
    assert Places(s, n) == 1;
  }

  predicate CanReject(s: State, c: CallId) {
    c in s.pcs && s.pcs[c].Rejected?
  }

  lemma {:induction false} RejectSenders(s: State, c: CallId, t: State, x: Completion)
    requires Senders(s) && CanReject(s, c) && x.call == c
    requires t == s.(pcs := s.pcs[c := Leaving], log := s.log + [x], chans := t.chans)
    ensures Senders(t)
  {
    hide Times;
    TimesSnoc(s.log, x);
    SenderAt(s, c);
    forall d | d in t.pcs ensures SenderOk(t, d) {
      assert SenderOk(s, d);
    }
  }

  lemma {:induction false} RejectPlaces(s: State, c: CallId, t: State, x: Completion)
    requires OnePlace(s) && c in s.pcs && SenderOk(s, c) && s.pcs[c].Rejected? && x.call == c
    requires t == s.(pcs := s.pcs[c := Leaving], log := s.log + [x], chans := t.chans)
    ensures OnePlace(t)
  {
    hide Times, HeldBy;
    TimesSnoc(s.log, x);
    forall n | 0 <= n < |t.registered| ensures Places(t, n) == 1 {
      assert Places(s, n) == 1;
    }
  }

  lemma {:induction false} InvReject(s: State, c: CallId)
    requires Inv(s) && CanReject(s, c)
    ensures Inv(DoReject(s, c))
  {
    hide Senders, OnePlace, Times, Reports, Done;
    SenderAt(s, c);
    var x := Completion(c, Some(Shutdown), None, ByReject);
    FirstDone(Move(s, c, Leaving), x);
    TimesSnoc(s.log, x);
    RejectSenders(s, c, DoReject(s, c), x);
    RejectPlaces(s, c, DoReject(s, c), x);
  }

  predicate CanFail(s: State, c: CallId) {
    c in s.pcs && s.pcs[c].Deleted?
  }

  /** What FailDone adds to the log. */
  function Failed(s: State, c: CallId): seq<Completion>
    requires CanFail(s, c)
  {
    var pc := s.pcs[c];
    if pc.found.Some? then [Completion(pc.found.value, Some(pc.err), None, ByWriteFailure)] else []
  }

  lemma {:induction false} FailTimes(s: State, c: CallId)
    requires CanFail(s, c) && SenderOk(s, c)
    ensures forall d :: Times(s.log + Failed(s, c), d) == Times(s.log, d) + (if d == c && HasCall(s.pcs[c]) then 1 else 0)
  {
    hide Times;
    if HasCall(s.pcs[c]) {
      TimesSnoc(s.log, Failed(s, c)[0]);
    } else {
      assert s.log + [] == s.log;
    }
  }

  lemma {:induction false} FailParts(s: State, c: CallId, t: State)
    requires Senders(s) && OnePlace(s) && Numbers(s) && CanFail(s, c)
    requires t == s.(pcs := s.pcs[c := Leaving], log := s.log + Failed(s, c), chans := t.chans)
    ensures Senders(t) && OnePlace(t)
  {
    hide Times, Failed, Live, HeldBy;
    SenderAt(s, c);
    FailTimes(s, c);
    forall d | d in t.pcs ensures SenderOk(t, d) {
      assert SenderOk(s, d);
    }
    FailPlaces(s, c, t);
  }

  lemma {:induction false} FailPlaces(s: State, c: CallId, t: State)
    requires Senders(s) && OnePlace(s) && Numbers(s) && CanFail(s, c)
    requires t == s.(pcs := s.pcs[c := Leaving], log := s.log + Failed(s, c), chans := t.chans)
    ensures OnePlace(t)
  {
    hide Times, Failed, HeldBy;
    SenderAt(s, c);
    FailTimes(s, c);
    forall n | 0 <= n < |t.registered| ensures Places(t, n) == 1 {
      assert Places(s, n) == 1;
    }
  }

  lemma {:induction false} InvFail(s: State, c: CallId)
    requires Inv(s) && CanFail(s, c)
    ensures Inv(DoFailDone(s, c))
  {
    hide Senders, OnePlace, Times, Reports, Done;
    SenderAt(s, c);
    var pc := s.pcs[c];
    if HasCall(pc) {
      var n :| 0 <= n < |s.registered| && s.registered[n] == c;
      NotYet(s, n);
      FirstDone(Move(s, c, Leaving), Completion(c, Some(pc.err), None, ByWriteFailure));
      TimesSnoc(s.log, Completion(c, Some(pc.err), None, ByWriteFailure));
    }
    assert s.log + [] == s.log;
    FailParts(s, c, DoFailDone(s, c));
  }

  /** Completing a registered call whose place was with the input thread, or in pending during the sweep. */
  lemma {:induction false} CompletedSenders(s: State, t: State, x: Completion)
    requires Senders(s) && x.call in s.registered
    requires t == s.(log := s.log + [x], chans := t.chans, input := t.input)
    ensures Senders(t)
  {
    hide Times;
    TimesSnoc(s.log, x);
    forall d | d in t.pcs ensures SenderOk(t, d) {
      assert SenderOk(s, d);
    }
  }

  lemma {:induction false} CompletedPlaces(s: State, t: State, x: Completion, k: nat)
    requires OnePlace(s) && Numbers(s) && k < |s.registered| && x.call == s.registered[k]
    requires t == s.(log := s.log + [x], chans := t.chans, input := t.input)
    requires HeldBy(t.input) == None && Live(t) == Live(s) - {k}
    requires (k in Live(s) && HeldBy(s.input) == None) || HeldBy(s.input) == Some(x.call)
    ensures OnePlace(t)
  {
    hide Times, HeldBy, HasCall, Live;
    TimesSnoc(s.log, x);
    forall n | 0 <= n < |t.registered| ensures Places(t, n) == 1 {
      assert Places(s, n) == 1;
      assert Places(s, k) == 1;
    }
  }

  /** What DeliverDone adds to the log, and where input goes on. */
  lemma {:induction false} DeliverParts(s: State, k: nat) returns (x: Completion)
    requires Inv(s) && s.input.Deliver? && k < |s.registered| && s.registered[k] == s.input.waiter
    ensures x == Completion(s.input.waiter, s.input.callErr, s.input.reply, ByResponse)
    ensures var t := DoDeliver(s);
            && t == s.(log := s.log + [x], chans := t.chans, input := t.input) && Channels(t) && Reports(t.log)
            && t.input == (if s.input.loopErr.None? then ReadHeader else WantReq(s.input.loopErr.value))
  {
    hide Senders, OnePlace, Times, Done, Owners, Closers;
    x := Completion(s.input.waiter, s.input.callErr, s.input.reply, ByResponse);
    NotYet(s, k);
    FirstDone(s.(input := if s.input.loopErr.None? then ReadHeader else WantReq(s.input.loopErr.value)), x);
  }

  lemma {:induction false} InvDeliver(s: State)
    requires Inv(s) && s.input.Deliver?
    ensures Inv(DoDeliver(s))
  {
    hide Senders, OnePlace, Times, Reports, Channels, Done, DoDeliver;
    var k :| 0 <= k < |s.registered| && s.registered[k] == s.input.waiter;
    var x := DeliverParts(s, k);
    TimesSnoc(s.log, x);
    var t := DoDeliver(s);
    CompletedSenders(s, t, x);
    NotLive(s, k);
    CompletedPlaces(s, t, x, k);
  }

  lemma {:induction false} NotLive(s: State, n: nat)
    requires OnePlace(s) && n < |s.registered| && HeldBy(s.input) == Some(s.registered[n])
    ensures n !in Live(s)
  {
    hide Times;
    assert Places(s, n) == 1;
  }

  predicate CanSweep(s: State, n: nat) {
    s.input.Sweeping? && n in s.input.todo && n in s.shared.pending
  }

  lemma {:induction false} InvSweep(s: State, n: nat)
    requires Inv(s) && CanSweep(s, n)
    ensures Inv(DoSweep(s, n))
  {
    hide Senders, OnePlace, Times, Reports, Done;
    var x := Completion(s.shared.pending[n], Some(s.input.err), None, BySweep);
    NotYet(s, n);
    FirstDone(s.(input := s.input.(todo := s.input.todo - {n})), x);
    TimesSnoc(s.log, x);
    var t := DoSweep(s, n);
    CompletedSenders(s, t, x);
    CompletedPlaces(s, t, x, n);
  }

  // ------------------------------------------------------------------
  // Every step, every run

  lemma {:induction false} InvSenderStep(s: State, a: Action)
    requires Inv(s) && Enabled(s, a) && |Apply(s, a).registered| <= TWO64
    requires a.Go? || a.Register? || a.RejectDone? || a.Delete? || a.FailDone?
    ensures Inv(Apply(s, a))
  {
    hide Inv, Done, ApplyInput, ApplyOther;
    match a {
      case Go(c, ci) => InvGo(s, c, ci);
      case Register(c) =>
        MutexOwner(s, c);
        if Refuses(s.shared) {
          InvQuietMove(s, c, Rejected, Apply(s, a));
        } else {
          InvRegister(s, c);
        }
      case RejectDone(c) => InvReject(s, c);
      case Delete(c) => InvDelete(s, c);
      case FailDone(c) => InvFail(s, c);
    }
  }

  lemma {:induction false} InvMoveStep(s: State, a: Action)
    requires Inv(s) && Enabled(s, a) && (a.LockReq? || a.Lock? || a.Write? || a.Unlock?)
    ensures Inv(Apply(s, a))
  {
    hide Inv, Done, ApplyInput, ApplyOther;
    MutexOwner(s, a.c);
    InvQuietMove(s, a.c, Apply(s, a).pcs[a.c], Apply(s, a));
  }

  lemma {:induction false} MutexOwner(s: State, c: CallId)
    requires Inv(s) && c in s.pcs
    ensures HoldsReq(s.pcs[c]) <==> s.reqMutex == Some(Sender(c))
    ensures HoldsMutex(s.pcs[c]) <==> s.mutex == Some(Sender(c))
  {
    SenderAt(s, c);
  }

  lemma {:induction false} InputOwner(s: State)
    requires Inv(s)
    ensures InputHoldsReq(s.input) <==> s.reqMutex == Some(Input)
    ensures InputHoldsMutex(s.input) <==> s.mutex == Some(Input)
  {
  }

  lemma {:induction false} InvInputStep(s: State, a: Action)
    requires Inv(s) && Enabled(s, a)
    requires a.Header? || a.HeaderFails? || a.LockTake? || a.Take? || a.Body? || a.BodyFails? || a.DeliverDone?
    ensures Inv(Apply(s, a))
  {
    hide Inv, Done, ApplySender, ApplyOther;
    if a.Take? {
      InvTake(s);
    } else if a.DeliverDone? {
      InvDeliver(s);
    } else {
      InvQuietInput(s, Apply(s, a));
    }
  }

  lemma {:induction false} InvEndStep(s: State, a: Action)
    requires Inv(s) && Enabled(s, a)
    requires a.InputLockReq? || a.InputLock? || a.Terminate? || a.Sweep? || a.EndSweep? || a.InputUnlock?
    ensures Inv(Apply(s, a))
  {
    hide Inv, Done, ApplySender, ApplyOther;
    InputOwner(s);
    if a.Terminate? {
      InvTerminate(s);
    } else if a.Sweep? {
      InvSweep(s, a.n);
    } else {
      InvQuietInput(s, Apply(s, a));
    }
  }

  lemma {:induction false} CloserOwner(s: State, k: nat)
    requires Inv(s)
    ensures k in s.closers ==> (s.closers[k].CloseHolding? <==> s.mutex == Some(Closer(k)))
  {
  }

  lemma {:induction false} InvCloseStep(s: State, a: Action)
    requires Inv(s) && Enabled(s, a)
    requires a.Close? || a.CloseLock? || a.CloseMark? || a.CodecClose? || a.Receive?
    ensures Inv(Apply(s, a))
  {
    hide Inv, ApplySender, ApplyInput;
    match a {
      case Receive(c) => InvReceive(s, c);
      case Close(k) => InvQuietClose(s, k, Apply(s, a).closers[k], Apply(s, a));
      case CloseLock(k) => InvQuietClose(s, k, Apply(s, a).closers[k], Apply(s, a));
      case CloseMark(k) =>
        CloserOwner(s, k);
        InvQuietClose(s, k, Apply(s, a).closers[k], Apply(s, a));
      case CodecClose(k, _) => InvQuietClose(s, k, Apply(s, a).closers[k], Apply(s, a));
    }
  }

  /** Every step of every thread keeps the invariant, while at most 2^64 calls have been numbered. */
  lemma {:induction false} InvStep(s: State, a: Action)
    requires Inv(s) && Enabled(s, a) && |Apply(s, a).registered| <= TWO64
    ensures Inv(Apply(s, a))
  {
    hide Inv, Enabled, Apply;
    match a {
      case Go(_, _) => InvSenderStep(s, a);
      case LockReq(_) => InvMoveStep(s, a);
      case Lock(_) => InvMoveStep(s, a);
      case Register(_) => InvSenderStep(s, a);
      case RejectDone(_) => InvSenderStep(s, a);
      case Write(_, _) => InvMoveStep(s, a);
      case Delete(_) => InvSenderStep(s, a);
      case FailDone(_) => InvSenderStep(s, a);
      case Unlock(_) => InvMoveStep(s, a);
      case InputLockReq => InvEndStep(s, a);
      case InputLock => InvEndStep(s, a);
      case Terminate => InvEndStep(s, a);
      case Sweep(_) => InvEndStep(s, a);
      case EndSweep => InvEndStep(s, a);
      case InputUnlock => InvEndStep(s, a);
      case Close(_) => InvCloseStep(s, a);
      case CloseLock(_) => InvCloseStep(s, a);
      case CloseMark(_) => InvCloseStep(s, a);
      case CodecClose(_, _) => InvCloseStep(s, a);
      case Receive(_) => InvCloseStep(s, a);
      case _ => InvInputStep(s, a);
    }
  }
}
