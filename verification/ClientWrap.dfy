/** Why at most 2^64 calls: the counter wraps, and the next call takes over the entry of one still waiting. */
module ClientWrap {
  import opened Bytes
  import opened Values
  import opened Client

  const CALL := CallInfo([], Nil, 1)

  /** The numbers below k, all mapped to x. */
  ghost function Each<T>(k: nat, x: T): (m: map<nat, T>)
    ensures forall c :: c in m <==> 0 <= c < k
    ensures forall c :: c in m ==> m[c] == x
  {
    if k == 0 then map[] else Each(k - 1, x)[k - 1 := x]
  }

  ghost function Identity(k: nat): (m: map<nat, nat>)
    ensures forall n :: n in m <==> 0 <= n < k
    ensures forall n :: n in m ==> m[n] == n
  {
    if k == 0 then map[] else Identity(k - 1)[k - 1 := k - 1]
  }

  ghost function Below(k: nat): (ns: seq<nat>)
    ensures |ns| == k && forall i :: 0 <= i < k ==> ns[i] == i
  {
    if k == 0 then [] else Below(k - 1) + [k - 1]
  }

  /** k calls sent, none answered. */
  ghost function Flooded(k: nat): State {
    State(None, None, Shared(k % TWO64, Identity(k), false, false), Each(k, CALL), Each(k, Finished), ReadHeader, map[],
          Each(k, Chan(1, 0)), {}, Below(k), Below(k), [])
  }

  /** The state in which call k holds both locks and is about to be numbered. */
  ghost function Ready(k: nat): State {
    var s := Flooded(k);
    s.(reqMutex := Some(Sender(k)), mutex := Some(Sender(k)), pcs := s.pcs[k := Registering],
       info := s.info[k := CALL], chans := s.chans[k := Chan(1, 0)])
  }

  lemma {:induction false} Enter(k: nat)
    ensures Runs(Flooded(k), [Go(k, CALL), LockReq(k), Lock(k)], Ready(k))
  {
    var s := Flooded(k);
    var s1 := Apply(s, Go(k, CALL));
    var s2 := Apply(s1, LockReq(k));
    var s3 := Apply(s2, Lock(k));
    assert s3 == Ready(k) by {
      assert s.pcs[k := Start][k := HasReq][k := Registering] == s.pcs[k := Registering];
    }
    hide Enabled, Apply;
    OneStep(s, Go(k, CALL));
    OneStep(s1, LockReq(k));
    OneStep(s2, Lock(k));
    RunsConcat(s, [Go(k, CALL)], s1, [LockReq(k)], s2);
    RunsConcat(s, [Go(k, CALL)] + [LockReq(k)], s2, [Lock(k)], s3);
    assert [Go(k, CALL)] + [LockReq(k)] + [Lock(k)] == [Go(k, CALL), LockReq(k), Lock(k)];
  }

  lemma {:induction false} FloodedNext(k: nat)
    requires k < TWO64
    ensures var s := Ready(k);
            Flooded(k + 1) == s.(reqMutex := None, mutex := None, pcs := s.pcs[k := Finished], shared := Number(s.shared, k),
                                 registered := s.registered + [k], writes := s.writes + [k])
  {
    assert Each(k, Finished)[k := Registering][k := Finished] == Each(k, Finished)[k := Finished];
  }

  /** One call numbered, written and done with its locks. */
  lemma {:induction false} SendRest(s: State, k: nat)
    requires k in s.pcs && s.pcs[k].Registering? && !Refuses(s.shared) && s.shared.seqno == k
    ensures Runs(s, [Register(k), Write(k, None), Unlock(k)],
                 s.(reqMutex := None, mutex := None, pcs := s.pcs[k := Finished], shared := Number(s.shared, k),
                    registered := s.registered + [k], writes := s.writes + [k]))
  {
    var s1 := Apply(s, Register(k));
    var s2 := Apply(s1, Write(k, None));
    var s3 := Apply(s2, Unlock(k));
    assert s3.pcs == s.pcs[k := Finished];
    OneStep(s, Register(k));
    OneStep(s1, Write(k, None));
    OneStep(s2, Unlock(k));
    hide Enabled, Apply, Runs;
    RunsConcat(s, [Register(k)], s1, [Write(k, None)], s2);
    RunsConcat(s, [Register(k)] + [Write(k, None)], s2, [Unlock(k)], s3);
    assert [Register(k)] + [Write(k, None)] + [Unlock(k)] == [Register(k), Write(k, None), Unlock(k)];
  }

  lemma {:induction false} Leave(k: nat)
    requires k < TWO64
    ensures Runs(Ready(k), [Register(k), Write(k, None), Unlock(k)], Flooded(k + 1))
  {
    hide Runs, Each, Identity, Below;
    FloodedNext(k);
    SendRest(Ready(k), k);
  }

  lemma {:induction false} Flood(k: nat) returns (actions: seq<Action>)
    requires k <= TWO64
    ensures Runs(INIT, actions, Flooded(k))
  {
    hide Enabled, Apply, Ready;
    if k == 0 {
      actions := [];
    } else {
      var before := Flood(k - 1);
      var enter := [Go(k - 1, CALL), LockReq(k - 1), Lock(k - 1)];
      var leave := [Register(k - 1), Write(k - 1, None), Unlock(k - 1)];
      actions := before + enter + leave;
      Enter(k - 1);
      Leave(k - 1);
      hide Flooded, Runs;
      RunsConcat(INIT, before, Flooded(k - 1), enter, Ready(k - 1));
      RunsConcat(INIT, before + enter, Ready(k - 1), leave, Flooded(k));
    }
  }

  /** No thread and no pending entry leads to the call any more. */
  ghost predicate Lost(s: State, c: CallId) {
    && c in s.pcs && s.pcs[c].Finished?
    && (forall n :: n in s.shared.pending ==> s.shared.pending[n] != c)
    && HeldBy(s.input) != Some(c)
    && (forall d :: d in s.pcs && s.pcs[d].Deleted? ==> s.pcs[d].found != Some(c))
  }

  lemma {:induction false} LostTimes(s: State, t: State, c: CallId)
    requires t.log == s.log || (|t.log| == |s.log| + 1 && s.log < t.log && t.log[|s.log|].call != c)
    ensures Times(t.log, c) == Times(s.log, c)
  {
    hide Times;
    if t.log != s.log {
      TimesSnoc(s.log, t.log[|s.log|]);
      assert s.log + [t.log[|s.log|]] == t.log;
    }
  }

  lemma {:induction false} LostMove(s: State, a: Action, c: CallId)
    requires Lost(s, c) && Enabled(s, a) && (a.Go? || a.LockReq? || a.Lock? || a.Write? || a.Unlock?)
    ensures Lost(Apply(s, a), c) && Apply(s, a).log == s.log
  {
    hide Times, ApplyInput, ApplyOther, DoRegister, DoDelete, DoFailDone, Done;
  }

  lemma {:induction false} LostRegister(s: State, a: Action, c: CallId)
    requires Lost(s, c) && Enabled(s, a) && (a.Register? || a.Delete?)
    ensures Lost(Apply(s, a), c) && Apply(s, a).log == s.log
  {
    hide Times, ApplyInput, ApplyOther, DoLock, DoWrite, DoFailDone, Done;
  }

  lemma {:induction false} LostSend(s: State, a: Action, c: CallId)
    requires Lost(s, c) && Enabled(s, a) && (a.RejectDone? || a.FailDone?)
    ensures Lost(Apply(s, a), c) && Times(Apply(s, a).log, c) == Times(s.log, c)
  {
    hide Times, ApplyInput, ApplyOther, DoLock, DoWrite, DoRegister, DoDelete;
    LostTimes(s, Apply(s, a), c);
  }

  lemma {:induction false} LostElse(s: State, a: Action, c: CallId)
    requires Lost(s, c) && Enabled(s, a) && !BySender(a)
    ensures Lost(Apply(s, a), c) && Times(Apply(s, a).log, c) == Times(s.log, c)
  {
    hide Times, ApplySender;
    LostTimes(s, Apply(s, a), c);
  }

  lemma {:induction false} LostStep(s: State, a: Action, c: CallId)
    requires Lost(s, c) && Enabled(s, a)
    ensures Lost(Apply(s, a), c) && Times(Apply(s, a).log, c) == Times(s.log, c)
  {
    hide Lost, Enabled, Apply, Times;
    if a.Go? || a.LockReq? || a.Lock? || a.Write? || a.Unlock? {
      LostMove(s, a, c);
    } else if a.Register? || a.Delete? {
      LostRegister(s, a, c);
    } else if BySender(a) {
      LostSend(s, a, c);
    } else {
      LostElse(s, a, c);
    }
  }

  lemma {:induction false} LostForever(s: State, actions: seq<Action>, t: State, c: CallId)
    requires Lost(s, c) && Runs(s, actions, t)
    ensures Lost(t, c) && Times(t.log, c) == Times(s.log, c)
    decreases |actions|
  {
    hide Lost, Enabled, Apply, Times;
    if actions != [] {
      LostStep(s, actions[0], c);
      LostForever(Apply(s, actions[0]), actions[1..], t, c);
    }
  }

  /** Some entry leads to the call. */
  ghost predicate Waits(s: State, d: CallId) {
    exists n :: n in s.shared.pending && s.shared.pending[n] == d
  }

  /** Numbers and waiting calls belong together one to one, and c is not waiting. */
  ghost predicate OneEntryEach(s: State, c: CallId) {
    && (forall m, n :: m in s.shared.pending && n in s.shared.pending && m != n ==> s.shared.pending[m] != s.shared.pending[n])
    && (forall n :: n in s.shared.pending ==> s.shared.pending[n] != c)
  }

  /** Its sender, another sender or input is not done with the call. */
  ghost predicate InHand(s: State, d: CallId) {
    || d !in s.pcs || !s.pcs[d].Finished? || HeldBy(s.input) == Some(d)
    || (exists b :: b in s.pcs && s.pcs[b].Deleted? && s.pcs[b].found == Some(d))
  }

  /**
   * Numbering a call keeps every waiting call's entry exactly when the counter's value is not in use. When it is,
   * the call that had it is lost, unless its sender or input still has it in hand.
   */
  lemma {:induction false} OverwriteExact(s: State, c: CallId)
    requires c in s.pcs && s.pcs[c].Registering? && !Refuses(s.shared) && OneEntryEach(s, c)
    ensures var t := DoRegister(s, c); (forall d :: Waits(s, d) ==> Waits(t, d)) <==> s.shared.seqno !in s.shared.pending
    ensures s.shared.seqno in s.shared.pending && !InHand(s, s.shared.pending[s.shared.seqno]) ==>
              Lost(DoRegister(s, c), s.shared.pending[s.shared.seqno])
  {
    var t := DoRegister(s, c);
    var k := s.shared.seqno;
    if k in s.shared.pending {
      assert Waits(s, s.shared.pending[k]) && !Waits(t, s.shared.pending[k]);
    } else {
      forall d | Waits(s, d) ensures Waits(t, d) {
        var n :| n in s.shared.pending && s.shared.pending[n] == d;
        assert t.shared.pending[n] == d;
      }
    }
  }

  lemma {:induction false} LastOne(k: nat, s: State)
    requires k == TWO64 && s == DoRegister(Ready(k), k)
    ensures s == Apply(Ready(k), Register(k)) && |s.registered| == k + 1 && s.registered[0] == 0 && s.log == [] && Lost(s, 0)
  {
    hide Each, Identity, Below;
  }

  lemma {:induction false} WrapRun(k: nat) returns (actions: seq<Action>, s: State)
    requires k == TWO64
    ensures Runs(INIT, actions, s) && |s.registered| == k + 1 && s.registered[0] == 0 && s.log == [] && Lost(s, 0)
  {
    hide Flooded, Apply, Runs, Lost, DoRegister, Number;
    var flood := Flood(k);
    var enter := [Go(k, CALL), LockReq(k), Lock(k)];
    Enter(k);
    var r := Ready(k);
    s := DoRegister(r, k);
    LastOne(k, s);
    OneStep(r, Register(k));
    hide Ready, Enabled;
    RunsConcat(INIT, flood, Flooded(k), enter, r);
    RunsConcat(INIT, flood + enter, r, [Register(k)], s);
    actions := flood + enter + [Register(k)];
  }

  /** A run with 2^64 + 1 calls leaves the first one registered, and uncompleted in every later run. */
  lemma {:induction false} WrapLosesCall() returns (actions: seq<Action>, s: State)
    ensures Runs(INIT, actions, s) && |s.registered| == TWO64 + 1
    ensures forall more, t :: Runs(s, more, t) ==> s.registered[0] in t.pcs && Times(t.log, s.registered[0]) == 0
  {
    hide Runs, Lost;
    actions, s := WrapRun(TWO64);
    forall more, t | Runs(s, more, t) ensures s.registered[0] in t.pcs && Times(t.log, s.registered[0]) == 0 {
      LostForever(s, more, t, 0);
      LostPcs(t, 0);
    }
  }

  lemma {:induction false} LostPcs(s: State, c: CallId)
    requires Lost(s, c)
    ensures c in s.pcs
  {
  }
}
