/** No thread of the client runs for ever between two responses, and every call can be brought to its end. */
module ClientProgress {
  import opened Bytes
  import opened Values
  import opened Client
  import opened ClientRuns

  // ------------------------------------------------------------------
  // A measure that every step lowers, but for starting a thread and receiving a header

  /** The sum of the ranks, counted level by level up to k. */
  ghost function Weight(ranks: map<nat, nat>, k: nat): nat {
    if k == 0 then 0 else |Level(ranks, k)| + Weight(ranks, k - 1)
  }

  ghost function Level(ranks: map<nat, nat>, k: nat): set<nat> {
    set c | c in ranks && ranks[c] >= k
  }

  lemma {:induction false} WeightLower(ranks: map<nat, nat>, c: nat, r: nat, k: nat)
    requires c in ranks && r < ranks[c]
    ensures Weight(ranks[c := r], k) <= Weight(ranks, k)
    ensures k > r ==> Weight(ranks[c := r], k) < Weight(ranks, k)
  {
    if k > 0 {
      var lower := ranks[c := r];
      WeightLower(ranks, c, r, k - 1);
      var before, after := Level(ranks, k), Level(lower, k);
      if r < k <= ranks[c] {
        assert after == before - {c};
      } else {
        assert after == before;
      }
    }
  }

  function Rank(pc: SenderPC): nat {
    match pc
    case Start => 8
    case HasReq => 7
    case Registering => 6
    case Writing(_) => 5
    case WriteFailed(_, _) => 4
    case Deleting(_, _) => 3
    case Deleted(_, _) => 2
    case Rejected => 2
    case Leaving => 1
    case Finished => 0
  }

  function InputRank(i: InputPC): nat {
    match i
    case WantTake(_) => 10
    case Taking(_) => 9
    case ReadBody(_, _) => 8
    case Deliver(_, _, _, _) => 7
    case ReadHeader => 6
    case WantReq(_) => 5
    case WantMutex(_) => 4
    case Terminating(_) => 3
    case Sweeping(_, _) => 2
    case UnlockReq => 1
    case Exited => 0
  }

  function CloserRank(pc: CloserPC): nat {
    match pc
    case CloseStart => 3
    case CloseHolding => 2
    case ClosingCodec => 1
    case CloseReturned(_) => 0
  }

  ghost function SenderRanks(pcs: map<CallId, SenderPC>): map<nat, nat> {
    map c | c in pcs :: Rank(pcs[c])
  }

  ghost function CloserRanks(closers: map<nat, CloserPC>): map<nat, nat> {
    map k | k in closers :: CloserRank(closers[k])
  }

  /** Registering a call lowers its sender's rank by one and adds one pending entry, so ranks count twice. */
  ghost function Measure(s: State): nat {
    2 * Weight(SenderRanks(s.pcs), 8) + |Live(s)| + InputRank(s.input) + Weight(CloserRanks(s.closers), 3)
  }

  predicate StartsThread(a: Action) {
    a.Go? || a.Close? || a.Receive?
  }

  lemma {:induction false} SenderLower(pcs: map<CallId, SenderPC>, c: CallId, pc: SenderPC)
    requires c in pcs && Rank(pc) < Rank(pcs[c])
    ensures Weight(SenderRanks(pcs[c := pc]), 8) < Weight(SenderRanks(pcs), 8)
  {
    WeightLower(SenderRanks(pcs), c, Rank(pc), 8);
    assert SenderRanks(pcs[c := pc]) == SenderRanks(pcs)[c := Rank(pc)];
  }

  lemma {:induction false} CloserLower(closers: map<nat, CloserPC>, k: nat, pc: CloserPC)
    requires k in closers && CloserRank(pc) < CloserRank(closers[k])
    ensures Weight(CloserRanks(closers[k := pc]), 3) < Weight(CloserRanks(closers), 3)
  {
    WeightLower(CloserRanks(closers), k, CloserRank(pc), 3);
    assert CloserRanks(closers[k := pc]) == CloserRanks(closers)[k := CloserRank(pc)];
  }

  /** A step that ends with done() lowers its sender's rank. */
  lemma {:induction false} DoneStepRank(s: State, a: Action)
    requires Enabled(s, a) && (a.RejectDone? || a.FailDone?)
    ensures Apply(s, a).pcs == s.pcs[a.c := Leaving] && Rank(Leaving) < Rank(s.pcs[a.c])
  {
    hide ApplyInput, ApplyOther, DoLock, DoRegister, DoWrite, DoDelete;
  }

  /** A sender's step lowers its rank. */
  lemma {:induction false} SenderStepRank(s: State, a: Action)
    requires Enabled(s, a) && BySender(a) && !a.Go?
    ensures a.c in Apply(s, a).pcs && Rank(Apply(s, a).pcs[a.c]) < Rank(s.pcs[a.c])
    ensures Apply(s, a).pcs == s.pcs[a.c := Apply(s, a).pcs[a.c]]
  {
    hide ApplyInput, ApplyOther, DoFailDone, Done;
    if a.RejectDone? || a.FailDone? {
      DoneStepRank(s, a);
    }
  }

  /** A sender's step leaves input and the closers alone, and pending but for one number. */
  lemma {:induction false} SenderStepShared(s: State, a: Action)
    requires Enabled(s, a) && BySender(a) && !a.Go?
    ensures Apply(s, a).input == s.input && Apply(s, a).closers == s.closers
    ensures var sh := Apply(s, a).shared;
            sh == s.shared || sh == Number(s.shared, a.c) || (a.Delete? && sh == Remove(s.shared, s.pcs[a.c].n))
  {
    hide ApplyInput, ApplyOther, Number, Remove, Done, DoFailDone;
    if a.RejectDone? || a.FailDone? {
      DoneStepShared(s, a);
    }
  }

  lemma {:induction false} DoneStepShared(s: State, a: Action)
    requires Enabled(s, a) && (a.RejectDone? || a.FailDone?)
    ensures Apply(s, a).input == s.input && Apply(s, a).closers == s.closers && Apply(s, a).shared == s.shared
  {
    hide ApplyInput, ApplyOther, DoLock, DoRegister, DoWrite, DoDelete;
  }

  lemma {:induction false} SenderStepLowers(s: State, a: Action)
    requires Enabled(s, a) && BySender(a) && !a.Go?
    ensures Measure(Apply(s, a)) < Measure(s)
  {
    hide Weight, SenderRanks, CloserRanks, InputRank, Live, Apply, Rank;
    var t := Apply(s, a);
    SenderStepRank(s, a);
    SenderStepShared(s, a);
    SenderLower(s.pcs, a.c, t.pcs[a.c]);
    LiveGrows(s, t, a);
  }

  /** A sender's step adds at most one entry to pending. */
  lemma {:induction false} LiveGrows(s: State, t: State, a: Action)
    requires Enabled(s, a) && t == Apply(s, a) && BySender(a) && !a.Go?
    ensures |Live(t)| <= |Live(s)| + 1
  {
    hide Apply;
    SenderStepShared(s, a);
    var extra := {s.shared.seqno};
    assert Live(t) <= Live(s) + extra;
    SubsetSize(Live(t), Live(s) + extra);
  }

  /** A step of input: the senders and closers stay, nothing becomes live, and one of the two parts goes down. */
  ghost predicate InputLowers(s: State, t: State) {
    && t.pcs == s.pcs && t.closers == s.closers && Live(t) <= Live(s)
    && (InputRank(t.input) < InputRank(s.input) || (InputRank(t.input) == InputRank(s.input) && Live(t) != Live(s)))
  }

  lemma {:induction false} InputMeasure(s: State, t: State)
    requires InputLowers(s, t)
    ensures Measure(t) < Measure(s)
  {
    hide Weight, SenderRanks, CloserRanks, InputRank, Live;
    SubsetSize(Live(t), Live(s));
    if Live(t) != Live(s) {
      var x :| x in Live(s) && x !in Live(t);
      SubsetSize(Live(t), Live(s) - {x});
    }
  }

  lemma {:induction false} InputStepLowers(s: State, a: Action)
    requires InputOk(s) && Enabled(s, a)
    requires a.HeaderFails? || a.LockTake? || a.Take? || a.Body? || a.BodyFails? || a.DeliverDone?
    ensures Measure(Apply(s, a)) < Measure(s)
  {
    hide Measure, ApplySender, ApplyOther, DoTerminate, DoSweep;
    assert InputLowers(s, Apply(s, a));
    InputMeasure(s, Apply(s, a));
  }

  lemma {:induction false} EndStepLowers(s: State, a: Action)
    requires InputOk(s) && Enabled(s, a)
    requires a.InputLockReq? || a.InputLock? || a.Terminate? || a.EndSweep? || a.InputUnlock?
    ensures Measure(Apply(s, a)) < Measure(s)
  {
    hide Measure, ApplySender, ApplyOther, DoTake, DoDeliver, AfterBody, DoSweep, Done;
    assert InputLowers(s, Apply(s, a));
    InputMeasure(s, Apply(s, a));
  }

  lemma {:induction false} SweepLowers(s: State, n: nat)
    requires InputOk(s) && Enabled(s, Sweep(n))
    ensures Measure(Apply(s, Sweep(n))) < Measure(s)
  {
    hide Measure;
    var t := DoSweep(s, n);
    assert Live(t) == Live(s) - {n};
    InputMeasure(s, t);
  }

  lemma {:induction false} CloseStepLowers(s: State, a: Action)
    requires Enabled(s, a) && (a.CloseLock? || a.CloseMark? || a.CodecClose?)
    ensures Measure(Apply(s, a)) < Measure(s)
  {
    hide Weight, SenderRanks, CloserRanks, InputRank, ApplySender, ApplyInput;
    var t := Apply(s, a);
    CloserLower(s.closers, a.t, t.closers[a.t]);
    assert Live(t) == Live(s);
  }

  lemma {:induction false} StepLowers(s: State, a: Action)
    requires InputOk(s) && Enabled(s, a) && !StartsThread(a)
    ensures if a.Header? then Measure(Apply(s, a)) == Measure(s) + 4 else Measure(Apply(s, a)) < Measure(s)
  {
    hide Weight, Enabled, InputOk, SenderRanks, CloserRanks;
    match a {
      case Header(r) => HeaderRaises(s, r);
      case HeaderFails(_) => InputStepLowers(s, a);
      case LockTake => InputStepLowers(s, a);
      case Take => InputStepLowers(s, a);
      case Body(_) => InputStepLowers(s, a);
      case BodyFails(_) => InputStepLowers(s, a);
      case DeliverDone => InputStepLowers(s, a);
      case InputLockReq => EndStepLowers(s, a);
      case InputLock => EndStepLowers(s, a);
      case Terminate => EndStepLowers(s, a);
      case Sweep(n) => SweepLowers(s, n);
      case EndSweep => EndStepLowers(s, a);
      case InputUnlock => EndStepLowers(s, a);
      case CloseLock(_) => CloseStepLowers(s, a);
      case CloseMark(_) => CloseStepLowers(s, a);
      case CodecClose(_, _) => CloseStepLowers(s, a);
      case Go(_, _) =>
      case Close(_) =>
      case Receive(_) =>
      case LockReq(_) => SenderStepLowers(s, a);
      case Lock(_) => SenderStepLowers(s, a);
      case Register(_) => SenderStepLowers(s, a);
      case RejectDone(_) => SenderStepLowers(s, a);
      case Write(_, _) => SenderStepLowers(s, a);
      case Delete(_) => SenderStepLowers(s, a);
      case FailDone(_) => SenderStepLowers(s, a);
      case Unlock(_) => SenderStepLowers(s, a);
    }
  }

  lemma {:induction false} HeaderRaises(s: State, r: Response)
    requires Enabled(s, Header(r))
    ensures Measure(Apply(s, Header(r))) == Measure(s) + 4
  {
    hide Weight, SenderRanks, CloserRanks;
    assert Live(Apply(s, Header(r))) == Live(s);
  }

  /** How many response headers a run receives. */
  function Headers(actions: seq<Action>): nat {
    if actions == [] then 0 else (if actions[0].Header? then 1 else 0) + Headers(actions[1..])
  }

  /**
   * Without new threads, a run is no longer than its start allows plus five steps for every response
   * header received: no lock, and no peer that falls silent, keeps the client busy for ever.
   */
  lemma {:induction false} BoundedRun(s: State, actions: seq<Action>, t: State)
    requires Reachable(s) && Runs(s, actions, t) && |t.registered| <= TWO64
    requires forall i :: 0 <= i < |actions| ==> !StartsThread(actions[i])
    ensures |actions| <= Measure(s) + 5 * Headers(actions)
  {
    hide Measure, Inv, Runs;
    ReachableInv(s);
    RunLowers(s, actions, t);
  }

  lemma {:induction false} RunLowers(s: State, actions: seq<Action>, t: State)
    requires Inv(s) && Runs(s, actions, t) && |t.registered| <= TWO64
    requires forall i :: 0 <= i < |actions| ==> !StartsThread(actions[i])
    ensures |actions| + Measure(t) <= Measure(s) + 5 * Headers(actions)
    decreases |actions|
  {
    hide Measure, Enabled, Apply, Inv;
    if actions != [] {
      var m := Apply(s, actions[0]);
      RunGrows(m, actions[1..], t);
      InvStep(s, actions[0]);
      assert InputOk(s) by { InputPart(s); }
      StepLowers(s, actions[0]);
      RunLowers(m, actions[1..], t);
    }
  }

  lemma {:induction false} InputPart(s: State)
    requires Inv(s)
    ensures InputOk(s)
  {
  }

  // ------------------------------------------------------------------
  // From every reachable state, every call can be brought to its end

  ghost predicate AllOver(s: State) {
    forall th :: Exists(s, th) ==> Over(s, th)
  }

  lemma {:induction false} DistinctBound(xs: seq<nat>, all: set<nat>)
    requires forall i :: 0 <= i < |xs| ==> xs[i] in all
    requires forall i, j :: 0 <= i < j < |xs| ==> xs[i] != xs[j]
    ensures |xs| <= |all|
    decreases |xs|
  {
    if xs != [] {
      DistinctBound(xs[1..], all - {xs[0]});
    }
  }

  /** Calls are numbered once each, so at most as many numbers are used as calls were started. */
  lemma {:induction false} RegisteredBound(s: State)
    requires Inv(s)
    ensures |s.registered| <= |s.pcs|
    ensures forall c :: c in s.pcs && s.pcs[c].Registering? ==> |s.registered| < |s.pcs|
  {
    hide Times, OnePlace, Channels, Reports, InputOk, Closers, Owners;
    DistinctBound(s.registered, s.pcs.Keys);
    forall c | c in s.pcs && s.pcs[c].Registering? ensures |s.registered| < |s.pcs| {
      SenderAt(s, c);
      DistinctBound(s.registered, s.pcs.Keys - {c});
    }
  }

  /** Only Register numbers a call, and only Go starts one. */
  lemma {:induction false} StepNumbers(s: State, a: Action)
    requires Enabled(s, a)
    ensures a.Register? || Apply(s, a).registered == s.registered
    ensures |Apply(s, a).registered| <= |s.registered| + 1
    ensures a.Go? || Apply(s, a).pcs.Keys == s.pcs.Keys
  {
    if BySender(a) {
      SenderNumbers(s, a);
    } else {
      hide ApplySender;
    }
  }

  lemma {:induction false} SenderNumbers(s: State, a: Action)
    requires Enabled(s, a) && BySender(a)
    ensures a.Register? || Apply(s, a).registered == s.registered
    ensures |Apply(s, a).registered| <= |s.registered| + 1
    ensures a.Go? || Apply(s, a).pcs.Keys == s.pcs.Keys
  {
    hide ApplyInput, ApplyOther;
  }

  lemma {:induction false} NextStep(s: State, th: Thread)
    requires Inv(s) && |s.pcs| <= TWO64 && CanStep(s, th)
    ensures Enabled(s, Next(s, th)) && !StartsThread(Next(s, th)) && !Next(s, th).Header?
    ensures |Apply(s, Next(s, th)).registered| <= TWO64 && Apply(s, Next(s, th)).pcs.Keys == s.pcs.Keys
  {
    hide Inv, Apply;
    RegisteredBound(s);
    StepNumbers(s, Next(s, th));
  }

  lemma {:induction false} Finish(s: State) returns (actions: seq<Action>, t: State)
    requires Inv(s) && |s.pcs| <= TWO64
    ensures Runs(s, actions, t) && Inv(t) && AllOver(t) && t.pcs.Keys == s.pcs.Keys
    ensures forall i :: 0 <= i < |actions| ==> !StartsThread(actions[i])
    decreases Measure(s)
  {
    hide Inv, Enabled, Apply, Next, Measure, Exists, Over;
    if AllOver(s) {
      actions, t := [], s;
    } else {
      var th :| Exists(s, th) && !Over(s, th);
      FrontRuns(s, th);
      var a := Next(s, Front(s, th));
      NextStep(s, Front(s, th));
      InvStep(s, a);
      InputPart(s);
      StepLowers(s, a);
      var m := Apply(s, a);
      assert m.pcs.Keys == s.pcs.Keys;
      assert |m.pcs| == |m.pcs.Keys| == |s.pcs.Keys| == |s.pcs|;
      var rest;
      rest, t := Finish(m);
      actions := [a] + rest;
    }
  }

  /** From every reachable state some run ends all threads, each call then completed exactly once. */
  lemma {:induction false} CanFinish(s: State)
    requires Reachable(s) && |s.pcs| <= TWO64
    ensures exists actions, t :: Runs(s, actions, t) && AllOver(t) && t.pcs.Keys == s.pcs.Keys
                                 && forall c :: c in s.pcs ==> Times(t.log, c) == 1
  {
    hide Inv, Runs, Times;
    ReachableInv(s);
    var actions, t := Finish(s);
    assert Exists(t, Input) && Over(t, Input);
    forall c | c in s.pcs ensures Times(t.log, c) == 1 {
      assert c in t.pcs.Keys;
      assert Exists(t, Sender(c)) && Over(t, Sender(c));
      ExitedTimes(t, c);
    }
  }
}
