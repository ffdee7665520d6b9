/**
 * What runs of client and server lead to: each outcome a call may have of its own, and, when just one of the
 * conditions on whole runs is given up, calls completed with a nil error and a reply that is not their own.
 */
module EndToEndLimits {
  import opened Bytes
  import opened Values
  import opened Codec
  import opened Structs
  import opened Wire
  import opened Client
  import opened EndToEnd

  // ------------------------------------------------------------------
  // Putting runs together

  lemma {:induction false} SysConcat(env: Env, p: Flaw, s: Sys, xs: seq<SysAction>, m: Sys, ys: seq<SysAction>, t: Sys)
    requires SysRuns(env, p, s, xs, m) && SysRuns(env, p, m, ys, t)
    ensures SysRuns(env, p, s, xs + ys, t)
    decreases |xs|
  {
    hide SysEnabled, SysApply, Allowed;
    if xs == [] {
      assert xs + ys == ys;
    } else {
      SysConcat(env, p, SysApply(env, s, xs[0]), xs[1..], m, ys, t);
      assert (xs + ys)[1..] == xs[1..] + ys;
    }
  }

  /** Some run leads from s to t, with no flaw but p. */
  ghost predicate Leads(env: Env, p: Flaw, s: Sys, t: Sys) {
    exists xs :: SysRuns(env, p, s, xs, t)
  }

  lemma {:induction false} LeadsTrans(env: Env, p: Flaw, s: Sys, m: Sys, t: Sys)
    requires Leads(env, p, s, m) && Leads(env, p, m, t)
    ensures Leads(env, p, s, t)
  {
    hide SysRuns;
    var xs :| SysRuns(env, p, s, xs, m);
    var ys :| SysRuns(env, p, m, ys, t);
    SysConcat(env, p, s, xs, m, ys, t);
  }

  lemma {:induction false} LeadsStep(env: Env, p: Flaw, s: Sys, x: SysAction)
    requires SysEnabled(env, s, x) && Allowed(env, p, s, x)
    ensures Leads(env, p, s, SysApply(env, s, x))
  {
    hide SysEnabled, SysApply, Allowed;
    assert SysRuns(env, p, SysApply(env, s, x), [], SysApply(env, s, x));
    assert SysRuns(env, p, s, [x], SysApply(env, s, x));
  }

  /** A client step that does not touch the streams. */
  lemma {:induction false} LeadsClient(env: Env, p: Flaw, s: Sys, a: Action)
    requires Enabled(s.client, a) && !a.Write? && !a.Header? && !a.Body?
    ensures Leads(env, p, s, s.(client := Apply(s.client, a)))
  {
    hide Enabled, Apply, SysRuns, Leads, DecBody, DecResponse;
    LeadsStep(env, p, s, ClientStep(a, 0));
  }

  // ------------------------------------------------------------------
  // The client sends

  ghost function Entered(cl: State, c: CallId, ci: CallInfo): State {
    cl.(reqMutex := Some(Sender(c)), shared := Number(cl.shared, c), info := cl.info[c := ci], chans := cl.chans[c := Chan(ci.capacity, 0)],
        pcs := cl.pcs[c := Writing(cl.shared.seqno)], registered := cl.registered + [c])
  }

  predicate Quiet(cl: State) {
    cl.reqMutex.None? && cl.mutex.None? && !Refuses(cl.shared)
  }

  lemma {:induction false} Enters(env: Env, p: Flaw, s: Sys, c: CallId, ci: CallInfo)
    requires Quiet(s.client) && c !in s.client.pcs && ci.capacity >= 1
    ensures Leads(env, p, s, s.(client := Entered(s.client, c, ci)))
  {
    hide Leads;
    var cl := s.client;
    var c1 := Apply(cl, Go(c, ci));
    var c2 := Apply(c1, LockReq(c));
    var c3 := Apply(c2, Lock(c));
    var c4 := Apply(c3, Register(c));
    assert c4.pcs == Entered(cl, c, ci).pcs;
    assert c4 == Entered(cl, c, ci);
    LeadsClient(env, p, s, Go(c, ci));
    LeadsClient(env, p, s.(client := c1), LockReq(c));
    LeadsClient(env, p, s.(client := c2), Lock(c));
    LeadsClient(env, p, s.(client := c3), Register(c));
    hide Apply, Enabled;
    LeadsTrans(env, p, s, s.(client := c1), s.(client := c2));
    LeadsTrans(env, p, s, s.(client := c2), s.(client := c3));
    LeadsTrans(env, p, s, s.(client := c3), s.(client := c4));
  }

  function Request(s: Sys, ci: CallInfo): Ask {
    Ask(s.client.shared.seqno, ci.serviceMethod, ci.args)
  }

  /** A call written whole; its sender has returned. */
  ghost function SentWhole(env: Env, s: Sys, c: CallId, ci: CallInfo): Sys {
    var n := s.client.shared.seqno;
    s.(client := Entered(s.client, c, ci).(reqMutex := None, pcs := s.client.pcs[c := Finished], writes := s.client.writes + [n]),
       up := s.up + AskBytes(env.h, Request(s, ci)))
  }

  lemma {:induction false} Sends(env: Env, p: Flaw, s: Sys, c: CallId, ci: CallInfo)
    requires Quiet(s.client) && c !in s.client.pcs && ci.capacity >= 1 && Sendable(env.h, ci.serviceMethod, ci.args)
    ensures Leads(env, p, s, SentWhole(env, s, c, ci))
  {
    hide Leads, AskBytes, AnswerBytes, Encodable, Supported, DecBody, DecResponse, DecRequest, Convert;
    Enters(env, p, s, c, ci);
    EncodableSupported(env.h, ci.args);
    var m := s.(client := Entered(s.client, c, ci));
    var x := ClientStep(Write(c, None), |AskBytes(env.h, Request(s, ci))|);
    assert Enabled(m.client, Write(c, None));
    LeadsStep(env, p, m, x);
    var m2 := SysApply(env, m, x);
    LeadsClient(env, p, m2, Unlock(c));
    assert m2.(client := Apply(m2.client, Unlock(c))).client.pcs == SentWhole(env, s, c, ci).client.pcs;
    assert m2.(client := Apply(m2.client, Unlock(c))) == SentWhole(env, s, c, ci);
    hide Apply, Enabled, SysApply;
    LeadsTrans(env, p, s, m, m2);
    LeadsTrans(env, p, s, m2, SentWhole(env, s, c, ci));
  }

  /** A call whose body the encoder refuses: its header is on the stream, and its sender has returned. */
  lemma {:induction false} FailsToSend(env: Env, p: Flaw, s: Sys, c: CallId, ci: CallInfo) returns (t: Sys)
    requires Quiet(s.client) && c !in s.client.pcs && ci.capacity >= 1 && p.HeaderOnlyRequests? && ci.args.Unsupported?
    ensures Leads(env, p, s, t) && Quiet(t.client) && t.client.pcs == s.client.pcs[c := Finished] && t.client.info == s.client.info[c := ci]
    ensures t == s.(client := t.client, up := s.up + HeaderBytes(env.h, RequestFields(s.client.shared.seqno, ci.serviceMethod)))
    ensures t.client.input == s.client.input && t.client.registered == s.client.registered + [c]
    ensures t.client.shared == Remove(Number(s.client.shared, c), s.client.shared.seqno)
  {
    hide Leads;
    Enters(env, p, s, c, ci);
    var m := s.(client := Entered(s.client, c, ci));
    var m2 := StopsAtHeader(env, p, m, c);
    LeadsTrans(env, p, s, m, m2);
    t := TakesBack(env, p, m2, c);
    assert t.client.pcs == s.client.pcs[c := Finished];
    hide Apply, Enabled, SysApply;
    LeadsTrans(env, p, s, m2, t);
  }

  /** The write that stops after the header. */
  lemma {:induction false} StopsAtHeader(env: Env, p: Flaw, m: Sys, c: CallId) returns (t: Sys)
    requires p.HeaderOnlyRequests? && c in m.client.pcs && m.client.pcs[c].Writing? && c in m.client.info && m.client.info[c].args.Unsupported?
    ensures Leads(env, p, m, t)
    ensures t == m.(client := t.client, up := m.up + HeaderBytes(env.h, RequestFields(m.client.pcs[c].n, m.client.info[c].serviceMethod)))
    ensures t.client == m.client.(pcs := m.client.pcs[c := WriteFailed(m.client.pcs[c].n, Codec(0))], writes := t.client.writes)
  {
    hide Leads, HeaderBytes, MessageBytes, BodyBytes, DecBody, DecResponse, Encodable;
    var r := Asking(m, c);
    Pieces(env.h, RequestFields(r.n, r.m), r.v);
    var k := |HeaderBytes(env.h, RequestFields(r.n, r.m))|;
    assert AskBytes(env.h, r)[..k] == HeaderBytes(env.h, RequestFields(r.n, r.m));
    var x := ClientStep(Write(c, Some(Codec(0))), k);
    assert Enabled(m.client, x.a);
    LeadsStep(env, p, m, x);
    t := SysApply(env, m, x);
  }

  lemma {:induction false} TakesBack(env: Env, p: Flaw, s: Sys, c: CallId) returns (t: Sys)
    requires s.client.mutex.None? && c in s.client.pcs && s.client.pcs[c].WriteFailed?
    ensures Leads(env, p, s, t) && t.client.reqMutex.None? && t.client.mutex.None? && t.client.pcs == s.client.pcs[c := Finished]
    ensures t == s.(client := t.client) && t.client.info == s.client.info && t.client.registered == s.client.registered
    ensures t.client.shared == Remove(s.client.shared, s.client.pcs[c].n) && t.client.input == s.client.input
  {
    hide Leads;
    var s1 := s.(client := Apply(s.client, Lock(c)));
    var s2 := s1.(client := Apply(s1.client, Delete(c)));
    LeadsClient(env, p, s, Lock(c));
    LeadsClient(env, p, s1, Delete(c));
    LeadsTrans(env, p, s, s1, s2);
    t := Leaves(env, p, s2, c);
    assert t.client.pcs == s.client.pcs[c := Finished];
    LeadsTrans(env, p, s, s2, t);
  }

  lemma {:induction false} Leaves(env: Env, p: Flaw, s: Sys, c: CallId) returns (t: Sys)
    requires c in s.client.pcs && s.client.pcs[c].Deleted?
    ensures Leads(env, p, s, t) && t.client.reqMutex.None? && t.client.mutex == s.client.mutex && t.client.pcs == s.client.pcs[c := Finished]
    ensures t == s.(client := t.client) && t.client.info == s.client.info && t.client.registered == s.client.registered
    ensures t.client.shared == s.client.shared && t.client.input == s.client.input
  {
    hide Leads;
    var s1 := s.(client := Apply(s.client, FailDone(c)));
    t := s1.(client := Apply(s1.client, Unlock(c)));
    assert t.client.pcs == s.client.pcs[c := Finished];
    LeadsClient(env, p, s, FailDone(c));
    LeadsClient(env, p, s1, Unlock(c));
    LeadsTrans(env, p, s, s1, t);
  }

  // ------------------------------------------------------------------
  // The server serves

  /** The server reads the next header and body and calls the method. */
  lemma {:induction false} Calls(env: Env, p: Flaw, s: Sys, n: nat, m: Text, mid: seq<byte>, v: Value, rest: seq<byte>)
    requires s.server.Idle? && env.lookupError(m).None? && ArgsFit(env, s.client, n, m)
    requires DecRequest(env.h, s.up) == Ok((n, m), mid) && DecBody(env.h, env.argKind(m), mid) == Ok(v, rest)
    ensures Leads(env, p, s, s.(up := rest, server := Ready(n, m, env.f(m, v), true)))
  {
    hide Leads, DecRequest, DecBody, ArgsFit;
    var s1 := s.(up := mid, server := GotHeader(n, m));
    LeadsStep(env, p, s, ServeHeader);
    LeadsStep(env, p, s1, ServeBody(None, [], 0));
    LeadsTrans(env, p, s, s1, s.(up := rest, server := Ready(n, m, env.f(m, v), true)));
  }

  /** The server reads the next header, finds no method and discards the body. */
  lemma {:induction false} NotFound(env: Env, p: Flaw, s: Sys, n: nat, m: Text, mid: seq<byte>, v: Value, rest: seq<byte>)
    requires s.server.Idle? && env.lookupError(m).Some?
    requires DecRequest(env.h, s.up) == Ok((n, m), mid) && DecBody(env.h, KAny, mid) == Ok(v, rest)
    ensures Leads(env, p, s, s.(up := rest, server := Ready(n, m, Fails(env.lookupError(m).value), true)))
  {
    hide Leads, DecRequest, DecBody, ArgsFit;
    var s1 := s.(up := mid, server := GotHeader(n, m));
    LeadsStep(env, p, s, ServeHeader);
    LeadsStep(env, p, s1, ServeBody(None, [], 0));
    LeadsTrans(env, p, s, s1, s.(up := rest, server := Ready(n, m, Fails(env.lookupError(m).value), true)));
  }

  /** The interceptor rejects a request before its body. */
  lemma {:induction false} Rejects(env: Env, p: Flaw, s: Sys, n: nat, m: Text, mid: seq<byte>, msg: Text)
    requires s.server.Idle? && env.lookupError(m).None? && DecRequest(env.h, s.up) == Ok((n, m), mid)
    ensures Leads(env, p, s, s.(up := mid, server := Ready(n, m, Fails(msg), false), refused := s.refused + {(n, msg)}))
  {
    hide Leads, DecRequest, DecBody, ArgsFit;
    var s1 := s.(up := mid, server := GotHeader(n, m));
    LeadsStep(env, p, s, ServeHeader);
    LeadsStep(env, p, s1, ServeBody(Some(msg), [], 0));
    LeadsTrans(env, p, s, s1, s.(up := mid, server := Ready(n, m, Fails(msg), false), refused := s.refused + {(n, msg)}));
  }

  /** The answer is written whole and the server is called again. */
  lemma {:induction false} Answers(env: Env, p: Flaw, s: Sys)
    requires s.server.Ready? && SendableAnswer(env.h, Answering(s)) && (s.server.aligned || p.GoingOn?)
    ensures Leads(env, p, s, s.(server := Idle, down := s.down + AnswerBytes(env.h, Answering(s))))
  {
    hide Leads, AnswerBytes, SendableAnswer;
    var k := |AnswerBytes(env.h, Answering(s))|;
    assert AnswerBytes(env.h, Answering(s))[..k] == AnswerBytes(env.h, Answering(s));
    LeadsStep(env, p, s, ServeWrite(k, true));
  }

  /** Nothing of the answer is written. */
  lemma {:induction false} AnswerLost(env: Env, p: Flaw, s: Sys)
    requires s.server.Ready? && s.server.aligned
    ensures Leads(env, p, s, s.(server := Idle))
  {
    hide Leads, AnswerBytes, SendableAnswer;
    assert s.down + AnswerBytes(env.h, Answering(s))[..0] == s.down;
    LeadsStep(env, p, s, ServeWrite(0, true));
  }

  /** The encoder refuses the reply: the header is on the stream. */
  lemma {:induction false} AnswerCut(env: Env, p: Flaw, s: Sys)
    requires s.server.Ready? && s.server.aligned && BodyOf(s.server.out).Unsupported? && p.HeaderOnlyResponses?
    ensures Leads(env, p, s, s.(server := Idle, down := s.down + HeaderBytes(env.h, ResponseFields(AnswerHeader(Answering(s))))))
  {
    hide Leads, SendableAnswer, HeaderBytes, MessageBytes, BodyBytes;
    var x := Answering(s);
    Pieces(env.h, ResponseFields(AnswerHeader(x)), BodyOf(x.out));
    var k := |HeaderBytes(env.h, ResponseFields(AnswerHeader(x)))|;
    assert AnswerBytes(env.h, x)[..k] == HeaderBytes(env.h, ResponseFields(AnswerHeader(x)));
    LeadsStep(env, p, s, ServeWrite(k, true));
  }

  // ------------------------------------------------------------------
  // The client receives

  /** The completion an answer leads to. */
  function Answered(c: CallId, r: Response, v: Value): Completion {
    if r.error == [] then Completion(c, None, Some(v), ByResponse) else Completion(c, Some(ServerError(r.error)), None, ByResponse)
  }

  predicate Known(s: Sys, t: Sys) {
    && t.client.info == s.client.info && t.client.registered == s.client.registered && t.refused == s.refused
    && t.server == s.server && t.up == s.up && t.client.pcs == s.client.pcs
    && t.client.input.ReadHeader? && t.client.mutex.None? && t.client.reqMutex == s.client.reqMutex
  }

  lemma {:induction false} ReadsHeader(env: Env, p: Flaw, s: Sys, r: Response, mid: seq<byte>)
    requires s.client.input.ReadHeader? && DecResponse(env.h, s.down) == Ok(r, mid)
    ensures Leads(env, p, s, s.(client := s.client.(input := WantTake(r)), down := mid))
  {
    hide Leads, DecBody, DecResponse, DecRequest, AskBytes, AnswerBytes, Supported;
    LeadsStep(env, p, s, ClientStep(Header(r), 0));
  }

  /** The client takes a response header off the stream and the waiting call out of pending. */
  lemma {:induction false} Takes(env: Env, p: Flaw, s: Sys, r: Response, mid: seq<byte>) returns (t: Sys)
    requires s.client.input.ReadHeader? && s.client.mutex.None? && r.seqno in s.client.shared.pending
    requires DecResponse(env.h, s.down) == Ok(r, mid)
    ensures Leads(env, p, s, t)
    ensures t == s.(client := s.client.(input := ReadBody(Some(s.client.shared.pending[r.seqno]), r), shared := Remove(s.client.shared, r.seqno)), down := mid)
  {
    hide Leads, DecResponse;
    ReadsHeader(env, p, s, r, mid);
    var s1 := s.(client := s.client.(input := WantTake(r)), down := mid);
    var s2 := s1.(client := Apply(s1.client, LockTake));
    t := s2.(client := Apply(s2.client, Take));
    LeadsClient(env, p, s1, LockTake);
    LeadsClient(env, p, s2, Take);
    LeadsTrans(env, p, s, s1, s2);
    LeadsTrans(env, p, s, s2, t);
  }

  /** The client takes a response and a body off the stream and completes the waiting call. */
  lemma {:induction false} Receives(env: Env, p: Flaw, s: Sys, r: Response, mid: seq<byte>, v: Value, rest: seq<byte>) returns (t: Sys)
    requires s.client.input.ReadHeader? && s.client.mutex.None? && r.seqno in s.client.shared.pending
    requires r.error == [] && !p.WrongTypes? ==> ReplyFits(env, s, s.client.shared.pending[r.seqno])
    requires DecResponse(env.h, s.down) == Ok(r, mid)
    requires DecBody(env.h, if r.error == [] then env.replyKind(s.client.shared.pending[r.seqno]) else KAny, mid) == Ok(v, rest)
    ensures Leads(env, p, s, t) && Known(s, t) && t.down == rest && t.client.shared == Remove(s.client.shared, r.seqno)
    ensures t.client.log == s.client.log + [Answered(s.client.shared.pending[r.seqno], r, v)]
  {
    hide Leads, DecBody, DecResponse, ReplyFits;
    var m := Takes(env, p, s, r, mid);
    if r.error == [] && !p.WrongTypes? { SameFits(env, s, m, s.client.shared.pending[r.seqno]); }
    t := Reads(env, p, m, v, rest);
    LeadsTrans(env, p, s, m, t);
  }

  lemma {:induction false} SameFits(env: Env, s: Sys, t: Sys, c: CallId)
    requires ReplyFits(env, s, c) && t.client.info == s.client.info && t.client.registered == s.client.registered && t.refused == s.refused
    ensures ReplyFits(env, t, c)
  {
    hide Convert, Own;
    forall out | Gets(env, t, c, out) ensures Gets(env, s, c, out) {
    }
  }

  lemma {:induction false} Reads(env: Env, p: Flaw, s: Sys, v: Value, rest: seq<byte>) returns (t: Sys)
    requires s.client.input.ReadBody? && s.client.input.call.Some? && s.client.mutex.None?
    requires s.client.input.resp.error == [] && !p.WrongTypes? ==> ReplyFits(env, s, s.client.input.call.value)
    requires DecBody(env.h, Wanted(env, s.client.input), s.down) == Ok(v, rest)
    ensures Leads(env, p, s, t) && Known(s, t) && t.down == rest && t.client.shared == s.client.shared
    ensures t.client.log == s.client.log + [Answered(s.client.input.call.value, s.client.input.resp, v)]
  {
    hide Leads, DecBody, ReplyFits, Wanted;
    ReadsBody(env, p, s, v, rest);
    var s1 := s.(client := s.client.(input := AfterBody(s.client.input.call, s.client.input.resp, None, Some(v))), down := rest);
    t := s1.(client := Apply(s1.client, DeliverDone));
    LeadsClient(env, p, s1, DeliverDone);
    LeadsTrans(env, p, s, s1, t);
  }

  lemma {:induction false} ReadsBody(env: Env, p: Flaw, s: Sys, v: Value, rest: seq<byte>)
    requires s.client.input.ReadBody? && s.client.input.call.Some?
    requires s.client.input.resp.error == [] && !p.WrongTypes? ==> ReplyFits(env, s, s.client.input.call.value)
    requires DecBody(env.h, Wanted(env, s.client.input), s.down) == Ok(v, rest)
    ensures Leads(env, p, s, s.(client := s.client.(input := AfterBody(s.client.input.call, s.client.input.resp, None, Some(v))), down := rest))
  {
    hide Leads, DecBody, DecResponse, DecRequest, ReplyFits, AskBytes, AnswerBytes, Supported;
    LeadsStep(env, p, s, ClientStep(Action.Body(v), 0));
  }

  // ------------------------------------------------------------------
  // What a call gets

  /** The first call has been written and answered; the client reads the answer. */
  ghost predicate FirstAnswered(env: Env, s: Sys, ci: CallInfo, out: Outcome) {
    && s.client.input.ReadHeader? && s.client.mutex.None? && s.client.shared.pending == map[0 := 0] && s.client.log == []
    && s.client.info == map[0 := ci] && s.client.registered == [0] && s.refused == {}
    && s.down == AnswerBytes(env.h, Answer(0, ci.serviceMethod, out))
  }

  /** What is sent and what comes back can be written and has a type that holds it. */
  predicate Carriable(env: Env, ci: CallInfo, out: Outcome) {
    && Sendable(env.h, ci.serviceMethod, ci.args) && SendableAnswer(env.h, Answer(0, ci.serviceMethod, out))
    && (ErrorOf(out) == [] ==> Convert(env.h, env.replyKind(0), BodyOf(out)).Some?)
  }

  lemma {:induction false} FirstIsAnswered(env: Env, ci: CallInfo, out: Outcome) returns (t: Sys)
    requires Own(env, ci) == Some(out) && Carriable(env, ci, out) && ci.capacity >= 1
    ensures Leads(env, Flawless, SYS_INIT, t) && FirstAnswered(env, t, ci, out)
  {
    hide Leads, BodyBytes, HeaderBytes, AnswerBytes, DecRequest, DecBody, SendableAnswer, Convert, MessageBytes, Encodable;
    var s1 := SentWhole(env, SYS_INIT, 0, ci);
    Sends(env, Flawless, SYS_INIT, 0, ci);
    var h, m := env.h, ci.serviceMethod;
    Pieces(h, RequestFields(0, m), ci.args);
    RequestRead(h, 0, m, BodyBytes(h, ci.args));
    assert s1.up == HeaderBytes(h, RequestFields(0, m)) + BodyBytes(h, ci.args);
    assert BodyBytes(h, ci.args) + [] == BodyBytes(h, ci.args);
    AnyConverts(h, ci.args);
    var s2 := s1.(up := [], server := Ready(0, m, out, true));
    if env.lookupError(m).Some? {
      BodyRead(h, KAny, ci.args, []);
      NotFound(env, Flawless, s1, 0, m, BodyBytes(h, ci.args), Norm(h, ci.args), []);
    } else {
      BodyRead(h, env.argKind(m), ci.args, []);
      Calls(env, Flawless, s1, 0, m, BodyBytes(h, ci.args), Convert(h, env.argKind(m), ci.args).value, []);
    }
    LeadsTrans(env, Flawless, SYS_INIT, s1, s2);
    t := s2.(server := Idle, down := s2.down + AnswerBytes(h, Answering(s2)));
    Answers(env, Flawless, s2);
    LeadsTrans(env, Flawless, SYS_INIT, s2, t);
  }

  lemma {:induction false} OnlyOwn(env: Env, s: Sys, ci: CallInfo, out: Outcome)
    requires Own(env, ci) == Some(out) && Carriable(env, ci, out) && s.client.info == map[0 := ci] && s.refused == {}
    ensures ReplyFits(env, s, 0)
  {
    hide Convert, SendableAnswer, Sendable, Own;
  }

  /** A whole run on which a call gets whatever it is owed: a reply, an error, or a success for an empty error. */
  lemma {:induction false} CallCompletes(env: Env, m: Text, args: Value, out: Outcome) returns (t: Sys)
    requires var ci := CallInfo(m, args, 1); Own(env, ci) == Some(out) && Carriable(env, ci, out)
    ensures Leads(env, Flawless, SYS_INIT, t) && 0 in t.client.info && t.client.info[0] == CallInfo(m, args, 1)
    ensures t.client.log == [if ErrorOf(out) == [] then Completion(0, None, Convert(env.h, env.replyKind(0), BodyOf(out)), ByResponse)
                             else Completion(0, Some(ServerError(ErrorOf(out))), None, ByResponse)]
  {
    hide Leads, BodyBytes, HeaderBytes, DecResponse, DecBody, Convert, MessageBytes, ReplyFits, Own, Encodable;
    var h, ci, x := env.h, CallInfo(m, args, 1), Answer(0, m, out);
    var s := FirstIsAnswered(env, ci, out);
    OnlyOwn(env, s, ci, out);
    Pieces(h, ResponseFields(AnswerHeader(x)), BodyOf(out));
    ResponseRead(h, AnswerHeader(x), BodyBytes(h, BodyOf(out)));
    assert BodyBytes(h, BodyOf(out)) + [] == BodyBytes(h, BodyOf(out));
    var kind := if ErrorOf(out) == [] then env.replyKind(0) else KAny;
    AnyConverts(h, BodyOf(out));
    BodyRead(h, kind, BodyOf(out), []);
    t := Receives(env, Flawless, s, AnswerHeader(x), BodyBytes(h, BodyOf(out)), Convert(h, kind, BodyOf(out)).value, []);
    LeadsTrans(env, Flawless, SYS_INIT, s, t);
  }

  /** A call to a method that replies can get that reply, in the type it asked for. */
  lemma {:induction false} CallSucceeds(env: Env, m: Text, args: Value, v: Value) returns (t: Sys)
    requires var ci := CallInfo(m, args, 1); Own(env, ci) == Some(Reply(v)) && Carriable(env, ci, Reply(v))
    ensures Leads(env, Flawless, SYS_INIT, t) && 0 in t.client.info && t.client.info[0] == CallInfo(m, args, 1)
    ensures t.client.log == [Completion(0, None, Convert(env.h, env.replyKind(0), v), ByResponse)]
    ensures OwnReply(env, t.client.info[0], 0, t.client.log[0].reply)
  {
    hide Leads, Convert, Own, Carriable;
    t := CallCompletes(env, m, args, Reply(v));
    assert Carriable(env, CallInfo(m, args, 1), Reply(v)) && ErrorOf(Reply(v)) == [];
    Held(env, CallInfo(m, args, 1), Reply(v));
  }

  lemma {:induction false} Held(env: Env, ci: CallInfo, out: Outcome)
    requires Carriable(env, ci, out) && ErrorOf(out) == []
    ensures Convert(env.h, env.replyKind(0), BodyOf(out)).Some?
  {
    hide Convert;
  }

  /** Any call whose own error has an empty text, from its method or from findMethod, can be completed as a success. */
  lemma {:induction false} EmptyErrorIsSuccess(env: Env, m: Text, args: Value) returns (t: Sys)
    requires var ci := CallInfo(m, args, 1); Own(env, ci) == Some(Fails([])) && Carriable(env, ci, Fails([]))
    ensures Leads(env, Flawless, SYS_INIT, t) && 0 in t.client.info && t.client.info[0] == CallInfo(m, args, 1)
    ensures t.client.log == [Completion(0, None, Convert(env.h, env.replyKind(0), Map([])), ByResponse)]
    ensures !OwnReply(env, t.client.info[0], 0, t.client.log[0].reply)
  {
    hide Leads, Convert, Own, Carriable;
    t := CallCompletes(env, m, args, Fails([]));
  }

  // ------------------------------------------------------------------
  // Runs that are not whole

  /** The last completion has a nil error, the call was not refused, and the reply is not the one it is owed. */
  ghost predicate Wrong(env: Env, t: Sys) {
    && t.client.log != []
    && var x := t.client.log[|t.client.log| - 1];
       && x.call in t.client.info && x.err.None? && !TurnedDown(t, x.call, [])
       && Own(env, t.client.info[x.call]) != Some(Fails([])) && !OwnReply(env, t.client.info[x.call], x.call, x.reply)
  }

  /** "S.M" */
  const METHOD: Text := [83, 46, 77]

  /** The method tells what it was given: nothing, a map of two entries, or something else. */
  function Tell(v: Value): Outcome {
    if v.Nil? then Reply(Unsupported) else Reply(Bool(v.Map? && |v.kvs| == 2))
  }

  /** One service with that method, which takes and returns anything. */
  function Telling(h: MsgpackHandle): Env {
    Env(h, (m, v) => Tell(v), m => None, m => KAny, c => KAny)
  }

  const QUIET := CallInfo(METHOD, Nil, 1)
  const PLAIN := CallInfo(METHOD, Bool(false), 1)
  const BROKEN := CallInfo(METHOD, Unsupported, 1)

  function ReplyHeader(n: nat): seq<OutField> {
    ResponseFields(Response(n, METHOD, []))
  }

  /** The arguments are a struct with the fields of rpc.Response, naming call 1. */
  function Carrying(): CallInfo {
    CallInfo(METHOD, HeaderMap(ReplyHeader(1)), 1)
  }

  lemma {:induction false} CarryingIsSendable(h: MsgpackHandle)
    ensures Sendable(h, METHOD, Carrying().args)
    ensures BodyBytes(h, Carrying().args) == HeaderBytes(h, ReplyHeader(1))
    ensures var v := Norm(h, Carrying().args); v.Map? && |v.kvs| == 3
  {
    hide Encodable, DecBody, BodyBytes, HeaderBytes, SEQ, SERVICE_METHOD, ERROR, HeaderMap, Norm;
    NamesDiffer();
    HeaderAsBody(h, ReplyHeader(1), []);
  }

  lemma {:induction false} ScalarSendable(h: MsgpackHandle)
    ensures Sendable(h, METHOD, Nil) && Sendable(h, METHOD, Bool(false)) && Sendable(h, METHOD, Bool(true))
    ensures Norm(h, Nil) == Nil && Norm(h, Bool(false)) == Bool(false) && Norm(h, Bool(true)) == Bool(true)
    ensures !Norm(h, Unsupported).Map?
  {
  }

  lemma {:induction false} AnyFits(h: MsgpackHandle, s: Sys, c: CallId)
    ensures ReplyFits(Telling(h), s, c)
    ensures forall n :: ArgsFit(Telling(h), s.client, n, METHOD)
  {
  }

  /** A request and a response, as the header and the body that follow one another. */
  lemma {:induction false} AskSplit(h: MsgpackHandle, n: nat, v: Value, suffix: seq<byte>)
    requires n < TWO64
    ensures var bs := AskBytes(h, Ask(n, METHOD, v)) + suffix;
            && bs == HeaderBytes(h, RequestFields(n, METHOD)) + (BodyBytes(h, v) + suffix)
            && DecRequest(h, bs) == Ok((n, METHOD), BodyBytes(h, v) + suffix)
  {
    hide HeaderBytes, BodyBytes, MessageBytes, DecRequest;
    Pieces(h, RequestFields(n, METHOD), v);
    assert AskBytes(h, Ask(n, METHOD, v)) + suffix == HeaderBytes(h, RequestFields(n, METHOD)) + (BodyBytes(h, v) + suffix);
    RequestRead(h, n, METHOD, BodyBytes(h, v) + suffix);
  }

  lemma {:induction false} AnswerSplit(h: MsgpackHandle, x: Answer, suffix: seq<byte>)
    requires x.n < TWO64 && |x.m| < TWO32 && |ErrorOf(x.out)| < TWO32
    ensures var bs := AnswerBytes(h, x) + suffix;
            && bs == HeaderBytes(h, ResponseFields(AnswerHeader(x))) + (BodyBytes(h, BodyOf(x.out)) + suffix)
            && DecResponse(h, bs) == Ok(AnswerHeader(x), BodyBytes(h, BodyOf(x.out)) + suffix)
  {
    hide HeaderBytes, BodyBytes, MessageBytes, DecResponse;
    Pieces(h, ResponseFields(AnswerHeader(x)), BodyOf(x.out));
    assert AnswerBytes(h, x) + suffix == HeaderBytes(h, ResponseFields(AnswerHeader(x))) + (BodyBytes(h, BodyOf(x.out)) + suffix);
    ResponseRead(h, AnswerHeader(x), BodyBytes(h, BodyOf(x.out)) + suffix);
  }

  lemma {:induction false} AnyRead(h: MsgpackHandle, v: Value, suffix: seq<byte>)
    requires Encodable(h, v)
    ensures DecBody(h, KAny, BodyBytes(h, v) + suffix) == Ok(Norm(h, v), suffix)
  {
    hide BodyBytes, DecBody, Encodable;
    AnyConverts(h, v);
    BodyRead(h, KAny, v, suffix);
  }

  /** The next call is sent whole. */
  lemma {:induction false} SendsNext(env: Env, p: Flaw, s: Sys, c: CallId, ci: CallInfo) returns (t: Sys)
    requires Quiet(s.client) && c !in s.client.pcs && ci.capacity == 1 && s.client.shared.seqno == c < 10 && |s.client.registered| == c
    requires Sendable(env.h, METHOD, ci.args) && ci.serviceMethod == METHOD
    ensures Leads(env, p, s, t) && Quiet(t.client) && t.client.pcs == s.client.pcs[c := Finished] && t.client.shared.seqno == c + 1
    ensures t == s.(client := t.client, up := s.up + AskBytes(env.h, Ask(c, METHOD, ci.args))) && t.client.input == s.client.input
    ensures t.client.registered == s.client.registered + [c] && t.client.info == s.client.info[c := ci]
    ensures t.client.shared.pending == s.client.shared.pending[c := c] && t.client.log == s.client.log
  {
    hide Leads, AskBytes, Sendable;
    Sends(env, p, s, c, ci);
    t := SentWhole(env, s, c, ci);
  }

  /** The client gets a boolean answer to a call that is owed none, or the other. */
  lemma {:induction false} GetsWrong(h: MsgpackHandle, p: Flaw, s: Sys, ci: CallInfo) returns (t: Sys)
    requires s.client.input.ReadHeader? && s.client.mutex.None? && 1 in s.client.shared.pending && s.client.shared.pending[1] == 1
    requires 1 in s.client.info && s.client.info[1] == ci && |s.client.registered| >= 2 && s.client.registered[1] == 1
    requires s.down == AnswerBytes(h, Answer(1, METHOD, Reply(Bool(true))))
    requires Own(Telling(h), ci) == Some(Reply(Bool(false))) && !TurnedDown(s, 1, [])
    ensures Leads(Telling(h), p, s, t) && Wrong(Telling(h), t)
  {
    hide Leads, BodyBytes, AnswerBytes, DecResponse, DecBody, Encodable, Norm, Own, ReplyFits;
    var x := Answer(1, METHOD, Reply(Bool(true)));
    ScalarSendable(h);
    AnyFits(h, s, 1);
    AnswerSplit(h, x, []);
    assert AnswerBytes(h, x) + [] == AnswerBytes(h, x);
    AnyRead(h, Bool(true), []);
    t := Receives(Telling(h), p, s, AnswerHeader(x), BodyBytes(h, Bool(true)) + [], Bool(true), []);
    assert t.client.log[|t.client.log| - 1] == Completion(1, None, Some(Bool(true)), ByResponse);
    AnyConverts(h, Bool(false));
  }

  /** With arguments that are a header for call 1 next on the stream, and then another header. */
  lemma {:induction false} Misreads(h: MsgpackHandle, p: Flaw, s: Sys, rest: seq<byte>, n: nat)
    requires s.server.Idle? && n < TWO64
    requires s.up == HeaderBytes(h, ReplyHeader(1)) + (HeaderBytes(h, RequestFields(n, METHOD)) + rest)
    ensures Leads(Telling(h), p, s, s.(up := rest, down := s.down + AnswerBytes(h, Answer(1, METHOD, Reply(Bool(true))))))
  {
    hide Leads, HeaderBytes, AnswerBytes, DecRequest, DecBody, Encodable, Norm, SEQ, SERVICE_METHOD, ERROR, ArgsFit, HeaderMap;
    var env := Telling(h);
    NamesDiffer();
    AnyFits(h, s, 0);
    ScalarSendable(h);
    var mid := HeaderBytes(h, RequestFields(n, METHOD)) + rest;
    ResponseAsRequest(h, Response(1, METHOD, []), mid);
    HeaderAsBody(h, RequestFields(n, METHOD), rest);
    var v := Norm(h, HeaderMap(RequestFields(n, METHOD)));
    Calls(env, p, s, 1, METHOD, mid, v, rest);
    var s1 := s.(up := rest, server := Ready(1, METHOD, Reply(Bool(true)), true));
    assert env.f(METHOD, v) == Reply(Bool(true));
    Answers(env, p, s1);
    LeadsTrans(env, p, s, s1, s.(up := rest, down := s.down + AnswerBytes(h, Answer(1, METHOD, Reply(Bool(true))))));
  }

  /** "no" */
  const NO: Text := [110, 111]

  lemma {:induction false} EmptySendable(h: MsgpackHandle)
    ensures Encodable(h, Map([])) && Norm(h, Map([])) == Map([])
  {
    assert NormPairs(h, []) == [];
  }

  /** What the calls of these runs are owed. */
  lemma {:induction false} Owed(h: MsgpackHandle)
    ensures Own(Telling(h), PLAIN) == Some(Reply(Bool(false))) && Own(Telling(h), QUIET) == Some(Reply(Unsupported))
    ensures Own(Telling(h), Carrying()) == Some(Reply(Bool(false)))
  {
    hide Norm, HeaderMap;
    ScalarSendable(h);
    CarryingIsSendable(h);
    AnyConverts(h, Carrying().args);
  }

  /** A rejected request leaves its body unread: served as the next request, it gets the answer of another call. */
  lemma {:induction false} EarlyRejection(h: MsgpackHandle) returns (t: Sys)
    ensures Leads(Telling(h), GoingOn, SYS_INIT, t) && Wrong(Telling(h), t)
  {
    hide Leads, AskBytes, Sendable, HeaderBytes, BodyBytes, DecRequest, SendableAnswer, AnswerBytes, HeaderMap, Wrong, Own;
    var p, env := GoingOn, Telling(h);
    CarryingIsSendable(h);
    ScalarSendable(h);
    Owed(h);
    var s1 := SendsNext(env, p, SYS_INIT, 0, Carrying());
    var s2 := SendsNext(env, p, s1, 1, PLAIN);
    LeadsTrans(env, p, SYS_INIT, s1, s2);
    var tail := AskBytes(h, Ask(1, METHOD, Bool(false)));
    AskSplit(h, 0, Carrying().args, tail);
    AskSplit(h, 1, Bool(false), []);
    var body := BodyBytes(h, Bool(false)) + [];
    var mid := HeaderBytes(h, ReplyHeader(1)) + (HeaderBytes(h, RequestFields(1, METHOD)) + body);
    assert tail + [] == tail && s2.up == AskBytes(h, Ask(0, METHOD, Carrying().args)) + tail;
    Rejects(env, p, s2, 0, METHOD, mid, NO);
    var s3 := s2.(up := mid, server := Ready(0, METHOD, Fails(NO), false), refused := {(0, NO)});
    assert s2.refused + {(0, NO)} == {(0, NO)};
    LeadsTrans(env, p, SYS_INIT, s2, s3);
    EarlyAnswer(h, s3, body);
    var s4 := s3.(server := Idle, up := body,
                  down := AnswerBytes(h, Answer(0, METHOD, Fails(NO))) + AnswerBytes(h, Answer(1, METHOD, Reply(Bool(true)))));
    LeadsTrans(env, p, SYS_INIT, s3, s4);
    t := BothReceived(h, s4);
    LeadsTrans(env, p, SYS_INIT, s4, t);
  }

  lemma {:induction false} EarlyAnswer(h: MsgpackHandle, s: Sys, body: seq<byte>)
    requires s.server == Ready(0, METHOD, Fails(NO), false) && s.down == []
    requires s.up == HeaderBytes(h, ReplyHeader(1)) + (HeaderBytes(h, RequestFields(1, METHOD)) + body)
    ensures Leads(Telling(h), GoingOn, s,
                  s.(server := Idle, up := body,
                     down := AnswerBytes(h, Answer(0, METHOD, Fails(NO))) + AnswerBytes(h, Answer(1, METHOD, Reply(Bool(true))))))
  {
    hide Leads, HeaderBytes, AnswerBytes, Encodable;
    EmptySendable(h);
    Answers(Telling(h), GoingOn, s);
    var s1 := s.(server := Idle, down := AnswerBytes(h, Answer(0, METHOD, Fails(NO))));
    assert s.down + AnswerBytes(h, Answering(s)) == s1.down;
    Misreads(h, GoingOn, s1, body, 1);
    LeadsTrans(Telling(h), GoingOn, s, s1, s1.(up := body, down := s1.down + AnswerBytes(h, Answer(1, METHOD, Reply(Bool(true))))));
  }

  lemma {:induction false} BothReceived(h: MsgpackHandle, s: Sys) returns (t: Sys)
    requires s.client.input.ReadHeader? && s.client.mutex.None? && s.client.shared.pending == map[0 := 0, 1 := 1]
    requires 1 in s.client.info && s.client.info[1] == PLAIN && s.client.registered == [0, 1] && s.refused == {(0, NO)}
    requires s.down == AnswerBytes(h, Answer(0, METHOD, Fails(NO))) + AnswerBytes(h, Answer(1, METHOD, Reply(Bool(true))))
    ensures Leads(Telling(h), GoingOn, s, t) && Wrong(Telling(h), t)
  {
    hide Leads, AnswerBytes, BodyBytes, DecResponse, DecBody, Encodable, Wrong, Own, ReplyFits;
    var x, rest := Answer(0, METHOD, Fails(NO)), AnswerBytes(h, Answer(1, METHOD, Reply(Bool(true))));
    EmptySendable(h);
    Owed(h);
    AnswerSplit(h, x, rest);
    AnyRead(h, Map([]), rest);
    var m := Receives(Telling(h), GoingOn, s, AnswerHeader(x), BodyBytes(h, Map([])) + rest, Map([]), rest);
    t := GetsWrong(h, GoingOn, m, PLAIN);
    LeadsTrans(Telling(h), GoingOn, s, m, t);
  }

  /** A request cut after its header takes the next header for its body, and that one's body for the next header. */
  lemma {:induction false} HeaderOnlyRequest(h: MsgpackHandle) returns (t: Sys)
    ensures Leads(Telling(h), HeaderOnlyRequests, SYS_INIT, t) && Wrong(Telling(h), t)
  {
    hide Leads, AskBytes, HeaderBytes, BodyBytes, HeaderMap, Wrong, Own, AnswerBytes, Encodable, Norm;
    var p, env := HeaderOnlyRequests, Telling(h);
    CarryingIsSendable(h);
    Owed(h);
    var s1 := CutThenTwo(h);
    AskSplit(h, 2, Bool(false), []);
    var tail := AskBytes(h, Ask(2, METHOD, Bool(false)));
    var body := BodyBytes(h, Bool(false)) + [];
    assert tail + [] == tail;
    CarryingBytes(h, tail);
    Shifts(h, s1, HeaderBytes(h, ReplyHeader(1)) + tail);
    var s2 := s1.(up := HeaderBytes(h, ReplyHeader(1)) + tail);
    LeadsTrans(env, p, SYS_INIT, s1, s2);
    Misreads(h, p, s2, body, 2);
    var s3 := s2.(up := body, down := AnswerBytes(h, Answer(1, METHOD, Reply(Bool(true)))));
    assert s2.down + s3.down == s3.down;
    LeadsTrans(env, p, SYS_INIT, s2, s3);
    t := GetsWrong(h, p, s3, Carrying());
    LeadsTrans(env, p, SYS_INIT, s3, t);
  }

  /** Call 0 leaves its header, calls 1 and 2 are sent whole. */
  lemma {:induction false} CutThenTwo(h: MsgpackHandle) returns (t: Sys)
    ensures Leads(Telling(h), HeaderOnlyRequests, SYS_INIT, t) && t.server.Idle? && t.down == [] && t.refused == {}
    ensures t.client.input.ReadHeader? && t.client.mutex.None? && 1 in t.client.shared.pending && t.client.shared.pending[1] == 1
    ensures 1 in t.client.info && t.client.info[1] == Carrying() && t.client.registered == [0, 1, 2]
    ensures t.up == HeaderBytes(h, RequestFields(0, METHOD)) + AskBytes(h, Ask(1, METHOD, Carrying().args)) + AskBytes(h, Ask(2, METHOD, Bool(false)))
  {
    hide Leads, AskBytes, Sendable, HeaderBytes, BodyBytes, HeaderMap, Norm, ReplyHeader, RequestFields;
    var p, env := HeaderOnlyRequests, Telling(h);
    CarryingIsSendable(h);
    ScalarSendable(h);
    var s1 := Cut(h);
    var s2 := SendsNext(env, p, s1, 1, Carrying());
    LeadsTrans(env, p, SYS_INIT, s1, s2);
    t := SendsNext(env, p, s2, 2, PLAIN);
    LeadsTrans(env, p, SYS_INIT, s2, t);
  }

  lemma {:induction false} CarryingBytes(h: MsgpackHandle, tail: seq<byte>)
    ensures HeaderBytes(h, RequestFields(0, METHOD)) + AskBytes(h, Ask(1, METHOD, Carrying().args)) + tail
         == HeaderBytes(h, RequestFields(0, METHOD)) + (HeaderBytes(h, RequestFields(1, METHOD)) + (HeaderBytes(h, ReplyHeader(1)) + tail))
  {
    hide AskBytes, HeaderBytes, BodyBytes, HeaderMap, Norm, Encodable, DecRequest, RequestFields, ReplyHeader;
    CarryingIsSendable(h);
    AskSplit(h, 1, Carrying().args, tail);
  }

  lemma {:induction false} Cut(h: MsgpackHandle) returns (t: Sys)
    ensures Leads(Telling(h), HeaderOnlyRequests, SYS_INIT, t) && Quiet(t.client)
    ensures t == SYS_INIT.(client := t.client, up := HeaderBytes(h, RequestFields(0, METHOD)))
    ensures t.client.pcs == map[0 := Finished] && t.client.info == map[0 := BROKEN] && t.client.registered == [0]
    ensures t.client.shared.seqno == 1 && t.client.shared.pending == map[] && t.client.input.ReadHeader?
  {
    hide Leads, HeaderBytes;
    t := FailsToSend(Telling(h), HeaderOnlyRequests, SYS_INIT, 0, BROKEN);
    assert [] + HeaderBytes(h, RequestFields(0, METHOD)) == HeaderBytes(h, RequestFields(0, METHOD));
  }

  /** A header without its body is served with the next header for arguments; the answer is lost. */
  lemma {:induction false} Shifts(h: MsgpackHandle, s: Sys, rest: seq<byte>)
    requires s.server.Idle? && s.up == HeaderBytes(h, RequestFields(0, METHOD)) + (HeaderBytes(h, RequestFields(1, METHOD)) + rest)
    ensures Leads(Telling(h), HeaderOnlyRequests, s, s.(up := rest))
  {
    hide Leads, HeaderBytes, DecRequest, DecBody, Encodable, Norm, SEQ, SERVICE_METHOD, ERROR, ArgsFit, HeaderMap;
    var p, env := HeaderOnlyRequests, Telling(h);
    NamesDiffer();
    AnyFits(h, s, 0);
    var mid := HeaderBytes(h, RequestFields(1, METHOD)) + rest;
    RequestRead(h, 0, METHOD, mid);
    HeaderAsBody(h, RequestFields(1, METHOD), rest);
    var v := Norm(h, HeaderMap(RequestFields(1, METHOD)));
    Calls(env, p, s, 0, METHOD, mid, v, rest);
    var s1 := s.(up := rest, server := Ready(0, METHOD, env.f(METHOD, v), true));
    AnswerLost(env, p, s1);
    LeadsTrans(env, p, s, s1, s.(up := rest));
  }

  /** A response cut after its header takes the next header for its body. */
  lemma {:induction false} HeaderOnlyResponse(h: MsgpackHandle) returns (t: Sys)
    ensures Leads(Telling(h), HeaderOnlyResponses, SYS_INIT, t) && Wrong(Telling(h), t)
  {
    hide Leads, AskBytes, Sendable, HeaderBytes, BodyBytes, Own, AnswerBytes, Wrong;
    var p, env := HeaderOnlyResponses, Telling(h);
    ScalarSendable(h);
    var s1 := SendsNext(env, p, SYS_INIT, 0, QUIET);
    var s2 := SendsNext(env, p, s1, 1, PLAIN);
    LeadsTrans(env, p, SYS_INIT, s1, s2);
    var s3 := s2.(up := [], down := HeaderBytes(h, ReplyHeader(0)) + AnswerBytes(h, Answer(1, METHOD, Reply(Bool(false)))));
    assert s2.up == AskBytes(h, Ask(0, METHOD, Nil)) + AskBytes(h, Ask(1, METHOD, Bool(false)));
    BothServed(h, s2);
    LeadsTrans(env, p, SYS_INIT, s2, s3);
    t := GetsHeader(h, s3);
    LeadsTrans(env, p, SYS_INIT, s3, t);
  }

  lemma {:induction false} BothServed(h: MsgpackHandle, s: Sys)
    requires s.server.Idle? && s.down == [] && s.up == AskBytes(h, Ask(0, METHOD, Nil)) + AskBytes(h, Ask(1, METHOD, Bool(false)))
    ensures Leads(Telling(h), HeaderOnlyResponses, s,
                  s.(up := [], down := HeaderBytes(h, ReplyHeader(0)) + AnswerBytes(h, Answer(1, METHOD, Reply(Bool(false))))))
  {
    hide Leads, AskBytes, HeaderBytes, BodyBytes, AnswerBytes, DecRequest, DecBody, ArgsFit, Norm;
    var p, env := HeaderOnlyResponses, Telling(h);
    ScalarSendable(h);
    AnyFits(h, s, 0);
    var tail := AskBytes(h, Ask(1, METHOD, Bool(false)));
    AskSplit(h, 0, Nil, tail);
    AnyRead(h, Nil, tail);
    Calls(env, p, s, 0, METHOD, BodyBytes(h, Nil) + tail, Nil, tail);
    var s1 := s.(up := tail, server := Ready(0, METHOD, Reply(Unsupported), true));
    AnswerCut(env, p, s1);
    var s2 := s.(up := tail, down := HeaderBytes(h, ReplyHeader(0)));
    assert s1.down + HeaderBytes(h, ReplyHeader(0)) == s2.down;
    LeadsTrans(env, p, s, s1, s2);
    AskSplit(h, 1, Bool(false), []);
    assert tail + [] == tail;
    AnyRead(h, Bool(false), []);
    Calls(env, p, s2, 1, METHOD, BodyBytes(h, Bool(false)) + [], Bool(false), []);
    var s3 := s2.(up := [], server := Ready(1, METHOD, Reply(Bool(false)), true));
    Answers(env, p, s3);
    var s4 := s3.(server := Idle, down := s3.down + AnswerBytes(h, Answer(1, METHOD, Reply(Bool(false)))));
    LeadsTrans(env, p, s, s2, s3);
    LeadsTrans(env, p, s, s3, s4);
  }

  lemma {:induction false} GetsHeader(h: MsgpackHandle, s: Sys) returns (t: Sys)
    requires s.client.input.ReadHeader? && s.client.mutex.None? && 0 in s.client.shared.pending && s.client.shared.pending[0] == 0
    requires 0 in s.client.info && s.client.info[0] == QUIET && s.refused == {}
    requires s.down == HeaderBytes(h, ReplyHeader(0)) + AnswerBytes(h, Answer(1, METHOD, Reply(Bool(false))))
    ensures Leads(Telling(h), HeaderOnlyResponses, s, t) && Wrong(Telling(h), t)
  {
    hide Leads, HeaderBytes, BodyBytes, AnswerBytes, DecResponse, DecBody, ReplyFits, Own, Norm, HeaderMap, SEQ, SERVICE_METHOD, ERROR;
    var p, env := HeaderOnlyResponses, Telling(h);
    NamesDiffer();
    ScalarSendable(h);
    Owed(h);
    AnyFits(h, s, 0);
    var x := Answer(1, METHOD, Reply(Bool(false)));
    AnswerSplit(h, x, []);
    assert AnswerBytes(h, x) + [] == AnswerBytes(h, x);
    var rest := BodyBytes(h, Bool(false)) + [];
    ResponseRead(h, Response(0, METHOD, []), AnswerBytes(h, x));
    HeaderAsBody(h, ReplyHeader(1), rest);
    var v := Norm(h, HeaderMap(ReplyHeader(1)));
    t := Receives(env, p, s, Response(0, METHOD, []), AnswerBytes(h, x), v, rest);
    assert t.client.log[|t.client.log| - 1] == Completion(0, None, Some(v), ByResponse);
    AnyConverts(h, Unsupported);
  }

  // ------------------------------------------------------------------
  // A reply of the wrong type

  const ZEROS: Text := seq(64, i => 0)

  /** The method returns a small negative number for nothing, and text for anything else; call 0 asks for a string. */
  function Mixing(h: MsgpackHandle): Env {
    Env(h, (m, v: Value) => if v.Nil? then Reply(Int(-32)) else Reply(Str(ZEROS)), m => None, m => KAny, c => if c == 0 then KString else KAny)
  }

  /** The one-byte encoding of -32 passes for the length 64 of a string. */
  lemma {:induction false} NumberAsString(h: MsgpackHandle, bs: seq<byte>)
    requires |bs| >= 64
    ensures Encodable(h, Int(-32)) && BodyBytes(h, Int(-32)) == [0xe0]
    ensures DecBody(h, KString, [0xe0] + bs) == Ok(Str(bs[..64]), bs[64..])
  {
    assert ([0xe0] + bs)[1..] == bs;
  }

  lemma {:induction false} ZerosSendable(h: MsgpackHandle)
    ensures Sendable(h, METHOD, Str(ZEROS)) && |BodyBytes(h, Str(ZEROS))| >= 64
  {
  }

  /** A call asking for a string gets bytes of the next response for a number its method returned. */
  lemma {:induction false} WrongReplyType(h: MsgpackHandle) returns (t: Sys)
    ensures Leads(Mixing(h), WrongTypes, SYS_INIT, t) && Wrong(Mixing(h), t)
  {
    hide Leads, AskBytes, Sendable, HeaderBytes, BodyBytes, Own, AnswerBytes, Wrong;
    var p, env := WrongTypes, Mixing(h);
    ScalarSendable(h);
    var s1 := SendsNext(env, p, SYS_INIT, 0, QUIET);
    var s2 := SendsNext(env, p, s1, 1, PLAIN);
    LeadsTrans(env, p, SYS_INIT, s1, s2);
    var s3 := s2.(up := [], down := AnswerBytes(h, Answer(0, METHOD, Reply(Int(-32)))) + AnswerBytes(h, Answer(1, METHOD, Reply(Str(ZEROS)))));
    assert s2.up == AskBytes(h, Ask(0, METHOD, Nil)) + AskBytes(h, Ask(1, METHOD, Bool(false)));
    MixedServed(h, s2);
    LeadsTrans(env, p, SYS_INIT, s2, s3);
    t := GetsNumber(h, s3);
    LeadsTrans(env, p, SYS_INIT, s3, t);
  }

  lemma {:induction false} MixedServed(h: MsgpackHandle, s: Sys)
    requires s.server.Idle? && s.down == [] && s.up == AskBytes(h, Ask(0, METHOD, Nil)) + AskBytes(h, Ask(1, METHOD, Bool(false)))
    ensures Leads(Mixing(h), WrongTypes, s,
                  s.(up := [], down := AnswerBytes(h, Answer(0, METHOD, Reply(Int(-32)))) + AnswerBytes(h, Answer(1, METHOD, Reply(Str(ZEROS))))))
  {
    hide Leads, AskBytes, HeaderBytes, BodyBytes, AnswerBytes, DecRequest, DecBody, Norm, Encodable, ZEROS;
    var p, env := WrongTypes, Mixing(h);
    ScalarSendable(h);
    ZerosSendable(h);
    NumberAsString(h, seq(64, i => 0));
    var tail := AskBytes(h, Ask(1, METHOD, Bool(false)));
    AskSplit(h, 0, Nil, tail);
    AnyRead(h, Nil, tail);
    Calls(env, p, s, 0, METHOD, BodyBytes(h, Nil) + tail, Nil, tail);
    var s1 := s.(up := tail, server := Ready(0, METHOD, Reply(Int(-32)), true));
    Answers(env, p, s1);
    var s2 := s.(up := tail, down := AnswerBytes(h, Answer(0, METHOD, Reply(Int(-32)))));
    assert s1.down + AnswerBytes(h, Answering(s1)) == s2.down;
    LeadsTrans(env, p, s, s1, s2);
    AskSplit(h, 1, Bool(false), []);
    assert tail + [] == tail;
    AnyRead(h, Bool(false), []);
    Calls(env, p, s2, 1, METHOD, BodyBytes(h, Bool(false)) + [], Bool(false), []);
    var s3 := s2.(up := [], server := Ready(1, METHOD, Reply(Str(ZEROS)), true));
    Answers(env, p, s3);
    LeadsTrans(env, p, s, s2, s3);
    LeadsTrans(env, p, s, s3, s3.(server := Idle, down := s3.down + AnswerBytes(h, Answer(1, METHOD, Reply(Str(ZEROS))))));
  }

  lemma {:induction false} GetsNumber(h: MsgpackHandle, s: Sys) returns (t: Sys)
    requires s.client.input.ReadHeader? && s.client.mutex.None? && 0 in s.client.shared.pending && s.client.shared.pending[0] == 0
    requires 0 in s.client.info && s.client.info[0] == QUIET && s.refused == {}
    requires s.down == AnswerBytes(h, Answer(0, METHOD, Reply(Int(-32)))) + AnswerBytes(h, Answer(1, METHOD, Reply(Str(ZEROS))))
    ensures Leads(Mixing(h), WrongTypes, s, t) && Wrong(Mixing(h), t)
  {
    hide Leads, HeaderBytes, BodyBytes, AnswerBytes, DecResponse, DecBody, ReplyFits, Encodable, ZEROS;
    var p, env := WrongTypes, Mixing(h);
    var x, y := Answer(0, METHOD, Reply(Int(-32))), Answer(1, METHOD, Reply(Str(ZEROS)));
    var rest := AnswerBytes(h, y);
    ZerosSendable(h);
    AnswerSplit(h, x, rest);
    AnswerSplit(h, y, []);
    assert |rest + []| >= 64 && rest + [] == rest;
    NumberAsString(h, rest);
    t := Receives(env, p, s, AnswerHeader(x), [0xe0] + rest, Str(rest[..64]), rest[64..]);
    assert t.client.log[|t.client.log| - 1] == Completion(0, None, Some(Str(rest[..64])), ByResponse);
    NilIsNil(h);
  }

  lemma {:induction false} NilIsNil(h: MsgpackHandle)
    ensures Own(Mixing(h), QUIET) == Some(Reply(Int(-32))) && Convert(h, KString, Int(-32)).None?
  {
    ScalarSendable(h);
  }
}
