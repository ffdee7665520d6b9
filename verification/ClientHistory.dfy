/** What each completion reports, told by the codec calls and Close calls of the run before it. */
module ClientHistory {
  import opened Bytes
  import opened Values
  import opened Client
  import opened ClientRuns

  // ------------------------------------------------------------------
  // What a run says

  /** Some Close has marked the client. */
  ghost predicate Marked(xs: seq<Action>) {
    exists t :: CloseMark(t) in xs
  }

  /** The client is going away: a Close has marked it, or the input thread has shut it down. */
  ghost predicate Gone(xs: seq<Action>) {
    Marked(xs) || Terminate in xs
  }

  /** The j-th step was taken in state m. */
  ghost predicate StepAt(xs: seq<Action>, j: nat, m: State) {
    j < |xs| && Runs(INIT, xs[..j], m)
  }

  /** The failing codec call of the j-th step ends the loop with err: wrapped, unless the body was meant for a reply. */
  predicate Ends(a: Action, m: State, err: Failure) {
    || a == HeaderFails(err)
    || (a.BodyFails? && m.input.ReadBody?
        && err == if m.input.call.None? || m.input.resp.error != [] then ReadingErrorBody(a.err) else a.err)
  }

  ghost predicate EndedOn(xs: seq<Action>, err: Failure) {
    exists j: nat, m :: StepAt(xs, j, m) && Ends(xs[j], m, err)
  }

  /** The pending calls are told of the error the loop ended on; an EOF is the shutdown the user asked for, or a surprise. */
  ghost predicate SweptWith(xs: seq<Action>, e: Failure) {
    exists k, err :: 0 <= k < |xs| && xs[k].Terminate? && EndedOn(xs[..k], err)
      && e == if !err.EOF? then err else if Marked(xs[..k]) then Shutdown else UnexpectedEOF
  }

  /** Reading the body of a response for c, what it comes to: the server's error, the reply, or the reading error. */
  predicate Brings(before: seq<Action>, a: Action, m: State, c: CallId, err: Option<Failure>, reply: Option<Value>) {
    && m.input.ReadBody? && m.input.call == Some(c) && Header(m.input.resp) in before && (a.Body? || a.BodyFails?)
    && m.input.resp.seqno < |m.registered| && m.registered[m.input.resp.seqno] == c
    && (m.input.resp.error != [] ==> err == Some(ServerError(m.input.resp.error)) && reply.None?)
    && (m.input.resp.error == [] && a.Body? ==> err.None? && reply == Some(a.reply))
    && (m.input.resp.error == [] && a.BodyFails? ==> err == Some(ReadingBody(a.err)) && reply.None?)
  }

  ghost predicate AnsweredWith(xs: seq<Action>, c: CallId, err: Option<Failure>, reply: Option<Value>) {
    exists j: nat, m :: StepAt(xs, j, m) && Brings(xs[..j], xs[j], m, c, err, reply)
  }

  /** The report of a completion is the one its cause in the run calls for. */
  ghost predicate Told(xs: seq<Action>, x: Completion) {
    match x.how
    case ByReject => x.err == Some(Shutdown) && x.reply.None? && Gone(xs)
    case ByWriteFailure => x.err.Some? && x.reply.None? && Write(x.call, x.err) in xs
    case ByResponse => AnsweredWith(xs, x.call, x.err, x.reply)
    case BySweep => x.err.Some? && x.reply.None? && SweptWith(xs, x.err.value)
  }

  /** How many notifications the caller has taken from its channel. */
  function Received(xs: seq<Action>, c: CallId): nat {
    if xs == [] then 0 else Received(xs[..|xs| - 1], c) + (if xs[|xs| - 1] == Receive(c) then 1 else 0)
  }

  // ------------------------------------------------------------------
  // What the state knows of its run

  ghost predicate InputKnows(xs: seq<Action>, s: State) {
    match s.input
    case ReadHeader => true
    case WantTake(r) => Header(r) in xs
    case Taking(r) => Header(r) in xs
    case ReadBody(call, r) => Header(r) in xs && (call.Some? ==> r.seqno < |s.registered| && s.registered[r.seqno] == call.value)
    case Deliver(c, err, reply, loopErr) => AnsweredWith(xs, c, err, reply) && (loopErr.Some? ==> EndedOn(xs, loopErr.value))
    case WantReq(err) => EndedOn(xs, err)
    case WantMutex(err) => EndedOn(xs, err)
    case Terminating(err) => EndedOn(xs, err)
    case Sweeping(e, _) => SweptWith(xs, e)
    case _ => true
  }

  ghost predicate SendersKnow(xs: seq<Action>, s: State) {
    forall c :: c in s.pcs && (s.pcs[c].WriteFailed? || s.pcs[c].Deleting? || s.pcs[c].Deleted?) ==> Write(c, Some(s.pcs[c].err)) in xs
  }

  ghost predicate RejectedKnow(xs: seq<Action>, s: State) {
    (exists c :: c in s.pcs && s.pcs[c].Rejected?) ==> Gone(xs)
  }

  ghost predicate LogTold(xs: seq<Action>, s: State) {
    forall i :: 0 <= i < |s.log| ==> Told(xs, s.log[i])
  }

  ghost predicate Notified(xs: seq<Action>, s: State) {
    forall c :: c in s.chans ==> Received(xs, c) + s.chans[c].queued == Times(s.log, c)
  }

  ghost predicate NothingReceived(xs: seq<Action>, s: State) {
    forall c :: c !in s.chans ==> Received(xs, c) == 0
  }

  ghost predicate Knows(xs: seq<Action>, s: State) {
    && (s.shared.closing <==> Marked(xs)) && (s.shared.shutdown <==> Terminate in xs)
    && InputKnows(xs, s) && SendersKnow(xs, s) && RejectedKnow(xs, s) && LogTold(xs, s)
    && Notified(xs, s) && NothingReceived(xs, s)
  }

  // ------------------------------------------------------------------
  // What a run said it still says when it goes on

  lemma {:induction false} StepAtGrows(xs: seq<Action>, a: Action)
    ensures forall j, m :: StepAt(xs, j, m) ==> StepAt(xs + [a], j, m)
    ensures forall j :: 0 <= j < |xs| ==> (xs + [a])[j] == xs[j] && (xs + [a])[..j] == xs[..j]
    ensures (xs + [a])[..|xs|] == xs
    ensures forall x :: x in xs + [a] <==> x in xs || x == a
  {
    assert forall j :: 0 <= j < |xs| ==> (xs + [a])[..j] == xs[..j];
  }

  lemma {:induction false} EndedGrows(xs: seq<Action>, a: Action)
    ensures forall err :: EndedOn(xs, err) ==> EndedOn(xs + [a], err)
  {
    hide Runs, Ends;
    StepAtGrows(xs, a);
    forall err | EndedOn(xs, err) ensures EndedOn(xs + [a], err) {
      var j: nat, m :| StepAt(xs, j, m) && Ends(xs[j], m, err);
      assert StepAt(xs + [a], j, m) && Ends((xs + [a])[j], m, err);
    }
  }

  lemma {:induction false} SweptGrows(xs: seq<Action>, a: Action)
    ensures forall e :: SweptWith(xs, e) ==> SweptWith(xs + [a], e)
  {
    hide EndedOn, Marked, StepAt;
    StepAtGrows(xs, a);
    forall e | SweptWith(xs, e) ensures SweptWith(xs + [a], e) {
      var k, err :| 0 <= k < |xs| && xs[k].Terminate? && EndedOn(xs[..k], err)
        && e == if !err.EOF? then err else if Marked(xs[..k]) then Shutdown else UnexpectedEOF;
      assert (xs + [a])[k].Terminate? && EndedOn((xs + [a])[..k], err);
    }
  }

  lemma {:induction false} AnsweredGrows(xs: seq<Action>, a: Action)
    ensures forall c, err, reply :: AnsweredWith(xs, c, err, reply) ==> AnsweredWith(xs + [a], c, err, reply)
  {
    hide Runs, Brings;
    StepAtGrows(xs, a);
    forall c, err, reply | AnsweredWith(xs, c, err, reply) ensures AnsweredWith(xs + [a], c, err, reply) {
      var j: nat, m :| StepAt(xs, j, m) && Brings(xs[..j], xs[j], m, c, err, reply);
      assert StepAt(xs + [a], j, m) && Brings((xs + [a])[..j], (xs + [a])[j], m, c, err, reply);
    }
  }

  lemma {:induction false} GoneGrows(xs: seq<Action>, a: Action)
    ensures (Marked(xs) ==> Marked(xs + [a])) && (Gone(xs) ==> Gone(xs + [a]))
  {
    if Marked(xs) {
      var t :| CloseMark(t) in xs;
      assert CloseMark(t) in xs + [a];
    }
  }

  lemma {:induction false} ToldGrows(xs: seq<Action>, a: Action)
    ensures forall x :: Told(xs, x) ==> Told(xs + [a], x)
  {
    hide SweptWith, AnsweredWith, Gone;
    GoneGrows(xs, a);
    SweptGrows(xs, a);
    AnsweredGrows(xs, a);
  }

  // ------------------------------------------------------------------
  // Steps of the input thread

  lemma {:induction false} InputStays(xs: seq<Action>, s: State, a: Action, t: State)
    requires InputKnows(xs, s) && t.input == s.input && s.registered <= t.registered
    ensures InputKnows(xs + [a], t)
  {
    hide EndedOn, SweptWith, AnsweredWith;
    EndedGrows(xs, a);
    SweptGrows(xs, a);
    AnsweredGrows(xs, a);
  }

  lemma {:induction false} LastStep(xs: seq<Action>, s: State, a: Action)
    requires Runs(INIT, xs, s)
    ensures StepAt(xs + [a], |xs|, s) && (xs + [a])[|xs|] == a && (xs + [a])[..|xs|] == xs
  {
  }

  /** A codec call that fails ends the loop, and a body that comes or fails answers the waiting call. */
  lemma {:induction false} CodecKnows(xs: seq<Action>, s: State, a: Action)
    requires Runs(INIT, xs, s) && InputKnows(xs, s) && Enabled(s, a) && (a.HeaderFails? || a.Body? || a.BodyFails?)
    ensures InputKnows(xs + [a], Apply(s, a))
  {
    hide Runs, StepAt, ApplySender, ApplyOther, SweptWith;
    LastStep(xs, s, a);
    var ys, i := xs + [a], Apply(s, a).input;
    if a.HeaderFails? {
      assert StepAt(ys, |xs|, s) && Ends(ys[|xs|], s, a.err);
    } else {
      BodyStep(xs, s, a);
    }
  }

  lemma {:induction false} BodyStep(xs: seq<Action>, s: State, a: Action)
    requires Runs(INIT, xs, s) && InputKnows(xs, s) && s.input.ReadBody? && (a.Body? || a.BodyFails?)
    ensures var i := AfterBody(s.input.call, s.input.resp, if a.Body? then None else Some(a.err), if a.Body? then Some(a.reply) else None);
            InputKnows(xs + [a], s.(input := i))
  {
    hide Runs, StepAt, SweptWith;
    LastStep(xs, s, a);
    var ys := xs + [a];
    var i := AfterBody(s.input.call, s.input.resp, if a.Body? then None else Some(a.err), if a.Body? then Some(a.reply) else None);
    if i.WantReq? {
      assert StepAt(ys, |xs|, s) && Ends(ys[|xs|], s, i.err);
    }
    if i.Deliver? {
      assert StepAt(ys, |xs|, s) && Brings(ys[..|xs|], ys[|xs|], s, i.waiter, i.callErr, i.reply);
      if i.loopErr.Some? { assert StepAt(ys, |xs|, s) && Ends(ys[|xs|], s, i.loopErr.value); }
    }
  }

  lemma {:induction false} TerminateKnows(xs: seq<Action>, s: State)
    requires InputKnows(xs, s) && s.input.Terminating? && (s.shared.closing <==> Marked(xs))
    ensures InputKnows(xs + [Terminate], Apply(s, Terminate))
  {
    hide EndedOn, Marked, ApplySender, ApplyOther;
    var ys := xs + [Terminate];
    assert ys[|xs|].Terminate? && ys[..|xs|] == xs && EndedOn(ys[..|xs|], s.input.err);
    assert SweptWith(ys, Apply(s, Terminate).input.err);
  }

  lemma {:induction false} TakeKnows(xs: seq<Action>, s: State)
    requires Inv(s) && InputKnows(xs, s) && s.input.Taking?
    ensures InputKnows(xs + [Take], Apply(s, Take))
  {
    hide ApplySender, ApplyOther, Senders, OnePlace, Times, Reports, Channels;
  }

  /** The other steps of the input thread pass on what it knows. */
  lemma {:induction false} PassOn(xs: seq<Action>, s: State, a: Action)
    requires InputKnows(xs, s) && Enabled(s, a)
    requires a.Header? || a.LockTake? || a.DeliverDone? || a.InputLockReq? || a.InputLock? || a.Sweep? || a.EndSweep? || a.InputUnlock?
    ensures InputKnows(xs + [a], Apply(s, a))
  {
    hide EndedOn, SweptWith, AnsweredWith, ApplySender, ApplyOther;
    EndedGrows(xs, a);
    SweptGrows(xs, a);
  }

  lemma {:induction false} OthersStay(s: State, a: Action)
    requires Enabled(s, a) && !ByInput(a)
    ensures Apply(s, a).input == s.input && s.registered <= Apply(s, a).registered
  {
    hide ApplyInput;
  }

  lemma {:induction false} InputStep(xs: seq<Action>, s: State, a: Action)
    requires Runs(INIT, xs, s) && Inv(s) && Knows(xs, s) && Enabled(s, a)
    ensures InputKnows(xs + [a], Apply(s, a))
  {
    hide Runs, Inv, Enabled, Apply, InputKnows, SendersKnow, RejectedKnow, LogTold, Notified, Marked;
    if !ByInput(a) {
      OthersStay(s, a);
      InputStays(xs, s, a, Apply(s, a));
    } else if a.HeaderFails? || a.Body? || a.BodyFails? {
      CodecKnows(xs, s, a);
    } else if a.Terminate? {
      At(s, a);
      TerminateKnows(xs, s);
    } else if a.Take? {
      At(s, a);
      TakeKnows(xs, s);
    } else {
      PassOn(xs, s, a);
    }
  }

  lemma {:induction false} At(s: State, a: Action)
    requires Enabled(s, a)
    ensures (a.Terminate? ==> s.input.Terminating?) && (a.Take? ==> s.input.Taking?)
  {
  }

  // ------------------------------------------------------------------
  // The other parts

  lemma {:induction false} MarkStep(xs: seq<Action>, s: State, a: Action)
    requires (s.shared.closing <==> Marked(xs)) && Enabled(s, a)
    ensures Apply(s, a).shared.closing <==> Marked(xs + [a])
  {
    ClosingStep(s, a);
    if a.CloseMark? { assert CloseMark(a.t) in xs + [a]; }
    if Marked(xs) {
      var t :| CloseMark(t) in xs;
      assert CloseMark(t) in xs + [a];
    }
  }

  lemma {:induction false} ClosingStep(s: State, a: Action)
    requires Enabled(s, a)
    ensures Apply(s, a).shared.closing == (s.shared.closing || a.CloseMark?)
  {
    if BySender(a) { SenderClosing(s, a); } else { hide ApplySender; }
  }

  lemma {:induction false} SenderClosing(s: State, a: Action)
    requires Enabled(s, a) && BySender(a)
    ensures Apply(s, a).shared.closing == s.shared.closing
  {
    hide ApplyInput, ApplyOther;
  }

  lemma {:induction false} ShutdownStep(xs: seq<Action>, s: State, a: Action)
    requires (s.shared.shutdown <==> Terminate in xs) && Enabled(s, a)
    ensures Apply(s, a).shared.shutdown <==> Terminate in xs + [a]
  {
    if BySender(a) { SenderShutdown(s, a); } else { hide ApplySender; }
  }

  lemma {:induction false} SenderShutdown(s: State, a: Action)
    requires Enabled(s, a) && BySender(a)
    ensures Apply(s, a).shared.shutdown == s.shared.shutdown
  {
    hide ApplyInput, ApplyOther;
  }

  lemma {:induction false} RejectedStep(xs: seq<Action>, s: State, a: Action)
    requires Enabled(s, a) && (s.shared.closing <==> Marked(xs)) && (s.shared.shutdown <==> Terminate in xs) && RejectedKnow(xs, s)
    ensures RejectedKnow(xs + [a], Apply(s, a))
  {
    hide Marked, Enabled, Apply;
    GoneGrows(xs, a);
    RejectsWhen(s, a);
  }

  /** Only a client that is closing or shut down refuses a call. */
  lemma {:induction false} RejectsWhen(s: State, a: Action)
    requires Enabled(s, a)
    ensures forall c :: c in Apply(s, a).pcs && Apply(s, a).pcs[c].Rejected? ==> (c in s.pcs && s.pcs[c].Rejected?) || s.shared.closing || s.shared.shutdown
  {
    if BySender(a) {
      hide ApplyInput, ApplyOther, Done;
      DonePcs();
    } else {
      hide ApplySender, Done;
      DonePcs();
    }
  }

  lemma {:induction false} SendersStep(xs: seq<Action>, s: State, a: Action)
    requires SendersKnow(xs, s) && Enabled(s, a)
    ensures SendersKnow(xs + [a], Apply(s, a))
  {
    if BySender(a) {
      hide ApplyInput, ApplyOther, Done;
      DonePcs();
    } else {
      hide ApplySender, Done;
      DonePcs();
    }
  }

  lemma {:induction false} DonePcs()
    ensures forall s, x :: Done(s, x).pcs == s.pcs
  {
  }

  /** What a step adds to the log: nothing, or the completion that goes with it. */
  ghost predicate Adds(s: State, a: Action, x: Completion) {
    match a
    case RejectDone(c) => c in s.pcs && s.pcs[c].Rejected? && x == Completion(c, Some(Shutdown), None, ByReject)
    case FailDone(c) => c in s.pcs && s.pcs[c].Deleted? && s.pcs[c].found.Some? && x == Completion(s.pcs[c].found.value, Some(s.pcs[c].err), None, ByWriteFailure)
    case DeliverDone => s.input.Deliver? && x == Completion(s.input.waiter, s.input.callErr, s.input.reply, ByResponse)
    case Sweep(n) => s.input.Sweeping? && n in s.shared.pending && x == Completion(s.shared.pending[n], Some(s.input.err), None, BySweep)
    case _ => false
  }

  lemma {:induction false} LogStep(s: State, a: Action)
    requires Enabled(s, a)
    ensures var l := Apply(s, a).log; l == s.log || exists x :: l == s.log + [x] && Adds(s, a, x)
  {
    if BySender(a) { SenderLogStep(s, a); } else { hide ApplySender; }
  }

  lemma {:induction false} SenderLogStep(s: State, a: Action)
    requires Enabled(s, a) && BySender(a)
    ensures var l := Apply(s, a).log; l == s.log || exists x :: l == s.log + [x] && Adds(s, a, x)
  {
    hide ApplyInput, ApplyOther;
  }

  lemma {:induction false} AddsTold(xs: seq<Action>, s: State, a: Action, x: Completion)
    requires Inv(s) && InputKnows(xs, s) && SendersKnow(xs, s) && RejectedKnow(xs, s) && Adds(s, a, x)
    ensures Told(xs, x)
  {
    hide SweptWith, AnsweredWith, Gone, Times, OnePlace, Numbers, Channels, Reports, InputOk, Closers, Owners;
    if a.FailDone? { SenderAt(s, a.c); }
  }

  lemma {:induction false} ToldStep(xs: seq<Action>, s: State, a: Action)
    requires Inv(s) && InputKnows(xs, s) && SendersKnow(xs, s) && RejectedKnow(xs, s) && LogTold(xs, s) && Enabled(s, a)
    ensures LogTold(xs + [a], Apply(s, a))
  {
    hide Inv, InputKnows, SendersKnow, RejectedKnow, Enabled, Apply, Told, Adds;
    LogStep(s, a);
    ToldGrows(xs, a);
    if Apply(s, a).log != s.log {
      var x :| Apply(s, a).log == s.log + [x] && Adds(s, a, x);
      AddsTold(xs, s, a, x);
    }
  }

  // ------------------------------------------------------------------
  // Notifications

  lemma {:induction false} ReceivedSnoc(xs: seq<Action>, a: Action)
    ensures forall c :: Received(xs + [a], c) == Received(xs, c) + (if a == Receive(c) then 1 else 0)
  {
    assert (xs + [a])[..|xs|] == xs;
  }

  /** The step completes the call. */
  predicate Completes(s: State, t: State, c: CallId) {
    |t.log| > |s.log| && t.log[|s.log|].call == c
  }

  /** What a step does to a channel: a completion queues one notification, a receive takes one. */
  predicate Queued(s: State, a: Action, t: State, c: CallId)
    requires c in s.chans && c in t.chans
  {
    t.chans[c].queued == s.chans[c].queued + (if Completes(s, t, c) then 1 else 0) - (if a == Receive(c) then 1 else 0)
  }

  ghost predicate Queues(s: State, a: Action, t: State) {
    && (forall c :: c in s.chans ==> c in t.chans && Queued(s, a, t, c))
    && (forall c :: c in t.chans && c !in s.chans ==> a.Go? && a.c == c && t.chans[c].queued == 0 && !Completes(s, t, c))
    && (a.Receive? ==> a.c in s.chans)
  }

  lemma {:induction false} DoneQueues(s: State, x: Completion)
    ensures var t := Done(s, x);
            && t.log == s.log + [x] && t.chans.Keys == s.chans.Keys && s.dropped <= t.dropped
            && (t.dropped == {} ==> forall c :: c in s.chans ==> t.chans[c].queued == s.chans[c].queued + (if x.call == c then 1 else 0))
  {
  }

  lemma {:induction false} QueueStep(s: State, a: Action)
    requires Enabled(s, a) && Apply(s, a).dropped == {} && (a.Go? ==> a.c !in s.chans)
    ensures Queues(s, a, Apply(s, a))
  {
    if BySender(a) {
      SenderQueueStep(s, a);
    } else if ByInput(a) {
      InputQueueStep(s, a);
    } else {
      hide ApplySender, ApplyInput;
    }
  }

  lemma {:induction false} SenderQueueStep(s: State, a: Action)
    requires Enabled(s, a) && BySender(a) && Apply(s, a).dropped == {} && (a.Go? ==> a.c !in s.chans)
    ensures Queues(s, a, Apply(s, a))
  {
    hide ApplyInput, ApplyOther, Done;
    if a.RejectDone? {
      DoneQueues(Move(s, a.c, Leaving), Completion(a.c, Some(Shutdown), None, ByReject));
    } else if a.FailDone? && s.pcs[a.c].found.Some? {
      DoneQueues(Move(s, a.c, Leaving), Completion(s.pcs[a.c].found.value, Some(s.pcs[a.c].err), None, ByWriteFailure));
    }
  }

  lemma {:induction false} InputQueueStep(s: State, a: Action)
    requires Enabled(s, a) && ByInput(a) && Apply(s, a).dropped == {}
    ensures Queues(s, a, Apply(s, a))
  {
    hide ApplySender, ApplyOther, Done;
    var i := s.input;
    if a.DeliverDone? {
      DoneQueues(s.(input := if i.loopErr.None? then ReadHeader else WantReq(i.loopErr.value)), Completion(i.waiter, i.callErr, i.reply, ByResponse));
    } else if a.Sweep? {
      DoneQueues(s.(input := i.(todo := i.todo - {a.n})), Completion(s.shared.pending[a.n], Some(i.err), None, BySweep));
    }
  }

  lemma {:induction false} NotifyStep(xs: seq<Action>, s: State, a: Action)
    requires Enabled(s, a) && Inv(s) && Inv(Apply(s, a)) && Notified(xs, s) && NothingReceived(xs, s)
    ensures Notified(xs + [a], Apply(s, a)) && NothingReceived(xs + [a], Apply(s, a))
  {
    hide Inv, Enabled, Apply, Times, Received, Completes;
    var t := Apply(s, a);
    ChannelFacts(s);
    ChannelFacts(t);
    if a.Go? { NewCaller(s, a); }
    QueueStep(s, a);
    ReceivedSnoc(xs, a);
    TimesStep(s, a);
    forall c | c in t.chans ensures Received(xs + [a], c) + t.chans[c].queued == Times(t.log, c) {
      if c in s.chans {
        assert Queued(s, a, t, c);
      } else {
        assert Received(xs, c) == 0 && Times(s.log, c) == 0 && !Completes(s, t, c);
      }
    }
  }

  /** A step completes at most one call, once. */
  lemma {:induction false} TimesStep(s: State, a: Action)
    requires Enabled(s, a)
    ensures var t := Apply(s, a);
            forall c :: Times(t.log, c) == Times(s.log, c) + (if Completes(s, t, c) then 1 else 0)
  {
    hide Enabled, Apply, Times, Adds;
    LogStep(s, a);
    var t := Apply(s, a);
    if t.log != s.log {
      var x :| t.log == s.log + [x] && Adds(s, a, x);
      TimesSnoc(s.log, x);
    }
  }

  lemma {:induction false} NewCaller(s: State, a: Action)
    requires Enabled(s, a) && a.Go?
    ensures a.c !in s.pcs
  {
  }

  lemma {:induction false} ChannelFacts(s: State)
    requires Inv(s)
    ensures s.dropped == {} && s.chans.Keys == s.pcs.Keys && forall c :: c !in s.pcs ==> Times(s.log, c) == 0
  {
    hide Times;
  }

  // ------------------------------------------------------------------
  // Every run

  lemma {:induction false} KnowsStep(xs: seq<Action>, s: State, a: Action)
    requires Enabled(s, a) && Runs(INIT, xs, s) && Inv(s) && Inv(Apply(s, a)) && Knows(xs, s)
    ensures Knows(xs + [a], Apply(s, a))
  {
    hide Runs, Inv, Enabled, Apply, InputKnows, SendersKnow, RejectedKnow, LogTold, Notified, NothingReceived, Marked;
    MarkStep(xs, s, a);
    ShutdownStep(xs, s, a);
    RejectedStep(xs, s, a);
    InputStep(xs, s, a);
    SendersStep(xs, s, a);
    ToldStep(xs, s, a);
    NotifyStep(xs, s, a);
  }

  /** A run is a shorter run and one more step. */
  lemma {:induction false} RunsSnoc(s: State, xs: seq<Action>, t: State) returns (m: State)
    requires Runs(s, xs, t) && xs != []
    ensures var a := xs[|xs| - 1]; Runs(s, xs[..|xs| - 1], m) && Enabled(m, a) && t == Apply(m, a)
    decreases |xs|
  {
    hide Enabled, Apply;
    if |xs| == 1 {
      m := s;
      assert Runs(Apply(s, xs[0]), xs[1..], t);
    } else {
      m := RunsSnoc(Apply(s, xs[0]), xs[1..], t);
      assert xs[1..][..|xs| - 2] == xs[..|xs| - 1][1..];
    }
  }

  lemma {:induction false} RunKnows(xs: seq<Action>, t: State)
    requires Runs(INIT, xs, t) && |t.registered| <= TWO64
    ensures Inv(t) && Knows(xs, t)
    decreases |xs|
  {
    hide Runs, Inv, Enabled, Apply, InputKnows, SendersKnow, RejectedKnow, LogTold, Notified, NothingReceived, Marked;
    if xs == [] {
      StartKnows(t);
    } else {
      var m := RunsSnoc(INIT, xs, t);
      var ys, a := xs[..|xs| - 1], xs[|xs| - 1];
      assert xs == ys + [a];
      StepGrows(m, a);
      RunKnows(ys, m);
      InvStep(m, a);
      KnowsStep(ys, m, a);
    }
  }

  lemma {:induction false} StartKnows(t: State)
    requires Runs(INIT, [], t)
    ensures Inv(t) && Knows([], t)
  {
    InitInv();
  }

  /**
   * Every completion of every run, told by the run: a refusal only after a Close or the shutdown; a failed write's own error for the call it was writing; for a
   * response with the call's number, the server's error, the reply or the reading error; for a call swept, the error
   * the loop ended on, where an EOF becomes ErrShutdown when some Close came before the sweep and
   * io.ErrUnexpectedEOF when none did.
   */
  lemma {:induction false} Explained(xs: seq<Action>, t: State, i: nat)
    requires Runs(INIT, xs, t) && |t.registered| <= TWO64 && i < |t.log|
    ensures Told(xs, t.log[i])
  {
    hide Runs, Inv, Told;
    RunKnows(xs, t);
  }

  /** Once some Close has marked the client, or the input thread has shut it down, no further call is numbered. */
  lemma {:induction false} NoneAfter(xs: seq<Action>, s: State, a: Action)
    requires Runs(INIT, xs, s) && |s.registered| <= TWO64 && Gone(xs) && Enabled(s, a)
    ensures Apply(s, a).registered == s.registered
  {
    hide Runs, Inv, Enabled, Apply, InputKnows, SendersKnow, RejectedKnow, LogTold, Notified, NothingReceived, Marked;
    RunKnows(xs, s);
    NumbersWhen(s, a);
  }

  lemma {:induction false} NumbersWhen(s: State, a: Action)
    requires Enabled(s, a) && (s.shared.closing || s.shared.shutdown)
    ensures Apply(s, a).registered == s.registered
  {
    if BySender(a) {
      hide ApplyInput, ApplyOther, Done;
      DoneRegistered();
    } else {
      hide ApplySender, Done;
      DoneRegistered();
    }
  }

  lemma {:induction false} DoneRegistered()
    ensures forall s, x :: Done(s, x).registered == s.registered
  {
  }

  /** Every completion is notified on the call's channel, where it waits or has been received. */
  lemma {:induction false} EachNotified(xs: seq<Action>, t: State, c: CallId)
    requires Runs(INIT, xs, t) && |t.registered| <= TWO64 && c in t.pcs
    ensures c in t.chans && Received(xs, c) + t.chans[c].queued == Times(t.log, c) <= 1
  {
    hide Runs, Inv, Times, Received;
    RunKnows(xs, t);
    ChannelFacts(t);
    AtMostOnce(t, c);
  }
}
