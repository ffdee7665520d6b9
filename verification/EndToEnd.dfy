/**
 * A client and a server joined by two byte streams, each message a header struct and a body in MessagePack.
 * The server serves one request at a time. A failed write leaves any part of its bytes on the wire.
 */
module EndToEnd {
  import opened Bytes
  import opened Values
  import opened Codec
  import opened Structs
  import opened Wire
  import opened Client
  import opened ClientRuns

  datatype Outcome = Reply(v: Value) | Fails(msg: Text)

  /** The service: its methods, the error of findMethod if any, and the types arguments and replies are read into. */
  datatype Env = Env(
    h: MsgpackHandle, f: (Text, Value) -> Outcome, lookupError: Text -> Option<Text>,
    argKind: Text -> ValidKind, replyKind: CallId -> ValidKind)

  /** Between requests, after a header, and with an answer; aligned when the request was read to its end. */
  datatype Server = Idle | GotHeader(n: nat, m: Text) | Ready(n: nat, m: Text, out: Outcome, aligned: bool) | Stopped

  /** `refused` is a history: the requests answered without calling their method, by the interceptor or the decoder. */
  datatype Sys = Sys(client: State, up: seq<byte>, down: seq<byte>, server: Server, refused: set<(nat, Text)>)

  const SYS_INIT := Sys(INIT, [], [], Idle, {})

  /**
   * A write leaves `kept` bytes on the wire. A body is rejected by the interceptor before it is read, or fails to
   * decode with a text, leaving `left` bytes unread. After an answer the caller of ServeRequest goes on or not.
   */
  datatype SysAction =
    | ClientStep(a: Action, kept: nat)
    | ServeHeader
    | ServeBody(rejection: Option<Text>, trouble: Text, left: nat)
    | ServeWrite(kept: nat, goOn: bool)
    | ServerStops

  // ------------------------------------------------------------------
  // Messages

  datatype Ask = Ask(n: nat, m: Text, v: Value)

  function AskBytes(h: MsgpackHandle, r: Ask): seq<byte> {
    MessageBytes(h, RequestFields(r.n, r.m), r.v)
  }

  function ErrorOf(out: Outcome): Text {
    if out.Reply? then [] else out.msg
  }

  /** sendResponse: the body of an error response is an empty struct. */
  function BodyOf(out: Outcome): Value {
    if out.Reply? then out.v else Map([])
  }

  datatype Answer = Answer(n: nat, m: Text, out: Outcome)

  function AnswerHeader(x: Answer): Response {
    Response(x.n, x.m, ErrorOf(x.out))
  }

  function AnswerBytes(h: MsgpackHandle, x: Answer): seq<byte> {
    MessageBytes(h, ResponseFields(AnswerHeader(x)), BodyOf(x.out))
  }

  // ------------------------------------------------------------------
  // Steps

  /** What the send thread of c is writing. */
  function Asking(s: Sys, c: CallId): Ask
    requires c in s.client.pcs && s.client.pcs[c].Writing? && c in s.client.info
  {
    Ask(s.client.pcs[c].n, s.client.info[c].serviceMethod, s.client.info[c].args)
  }

  function Answering(s: Sys): Answer
    requires s.server.Ready?
  {
    Answer(s.server.n, s.server.m, s.server.out)
  }

  /** What the input thread decodes the body into. */
  function Wanted(env: Env, i: InputPC): ValidKind
    requires i.ReadBody?
  {
    if i.call.Some? && i.resp.error == [] then env.replyKind(i.call.value) else KAny
  }

  predicate ClientEnabled(env: Env, s: Sys, a: Action, kept: nat) {
    && Enabled(s.client, a)
    && match a
       case Write(c, result) =>
         && c in s.client.info && kept <= |AskBytes(env.h, Asking(s, c))|
         && (result.None? ==> kept == |AskBytes(env.h, Asking(s, c))| && Supported(env.h, s.client.info[c].args))
       case Header(resp) => var r := DecResponse(env.h, s.down); r.Ok? && r.value == resp
       case Body(v) => var r := DecBody(env.h, Wanted(env, s.client.input), s.down); r.Ok? && r.value == v
       case _ => true
  }

  predicate SysEnabled(env: Env, s: Sys, x: SysAction) {
    match x
    case ClientStep(a, kept) => ClientEnabled(env, s, a, kept)
    case ServeHeader => s.server.Idle? && DecRequest(env.h, s.up).Ok?
    case ServeBody(_, _, left) => s.server.GotHeader? && left <= |s.up|
    case ServeWrite(kept, _) => s.server.Ready? && kept <= |AnswerBytes(env.h, Answering(s))|
    case ServerStops => s.server.Idle?
  }

  function ClientApply(env: Env, s: Sys, a: Action, kept: nat): Sys
    requires ClientEnabled(env, s, a, kept)
  {
    var t := s.(client := Apply(s.client, a));
    match a
    case Write(c, _) => t.(up := s.up + AskBytes(env.h, Asking(s, c))[..kept])
    case Header(_) => t.(down := DecResponse(env.h, s.down).rest)
    case Body(_) => t.(down := DecBody(env.h, Wanted(env, s.client.input), s.down).rest)
    case _ => t
  }

  /** readRequest after the header: an unknown method discards the body, a rejection leaves it unread. */
  function ServerBody(env: Env, s: Sys, rejection: Option<Text>, trouble: Text, left: nat): Sys
    requires s.server.GotHeader? && left <= |s.up|
  {
    var n, m := s.server.n, s.server.m;
    var r := DecBody(env.h, if env.lookupError(m).Some? then KAny else env.argKind(m), s.up);
    var up := if r.Ok? then r.rest else s.up[left..];
    if env.lookupError(m).Some? then
      s.(server := Ready(n, m, Fails(env.lookupError(m).value), r.Ok?), up := up)
    else if rejection.Some? then
      s.(server := Ready(n, m, Fails(rejection.value), false), refused := s.refused + {(n, rejection.value)})
    else if r.Ok? then
      s.(server := Ready(n, m, env.f(m, r.value), true), up := up)
    else
      s.(server := Ready(n, m, Fails(trouble), false), up := up, refused := s.refused + {(n, trouble)})
  }

  function SysApply(env: Env, s: Sys, x: SysAction): Sys
    requires SysEnabled(env, s, x)
  {
    match x
    case ClientStep(a, kept) => ClientApply(env, s, a, kept)
    case ServeHeader =>
      var r := DecRequest(env.h, s.up);
      s.(up := r.rest, server := GotHeader(r.value.0, r.value.1))
    case ServeBody(rejection, trouble, left) => ServerBody(env, s, rejection, trouble, left)
    case ServeWrite(kept, goOn) =>
      s.(server := if goOn then Idle else Stopped, down := s.down + AnswerBytes(env.h, Answering(s))[..kept])
    case ServerStops => s.(server := Stopped)
  }

  // ------------------------------------------------------------------
  // Whole messages

  /** What a call is owed: findMethod's error, or what the method makes of the decoded arguments, if they decode. */
  function Own(env: Env, ci: CallInfo): Option<Outcome> {
    if env.lookupError(ci.serviceMethod).Some? then Some(Fails(env.lookupError(ci.serviceMethod).value))
    else
      var v := Convert(env.h, env.argKind(ci.serviceMethod), ci.args);
      if v.Some? then Some(env.f(ci.serviceMethod, v.value)) else None
  }

  /** The call's request was answered with this error before its method was called. */
  ghost predicate TurnedDown(s: Sys, c: CallId, msg: Text) {
    exists n :: 0 <= n < |s.client.registered| && s.client.registered[n] == c && (n, msg) in s.refused
  }

  /** The answers a call may get. */
  ghost predicate Gets(env: Env, s: Sys, c: CallId, out: Outcome) {
    c in s.client.info && (Own(env, s.client.info[c]) == Some(out) || (out.Fails? && TurnedDown(s, c, out.msg)))
  }

  predicate Sendable(h: MsgpackHandle, m: Text, v: Value) {
    |m| < TWO32 && Encodable(h, v)
  }

  predicate SendableAnswer(h: MsgpackHandle, x: Answer) {
    Sendable(h, x.m, BodyOf(x.out)) && |ErrorOf(x.out)| < TWO32
  }

  /** The type the caller gave for the reply holds what comes without an error. */
  ghost predicate ReplyFits(env: Env, s: Sys, c: CallId) {
    forall out :: Gets(env, s, c, out) && ErrorOf(out) == [] ==> Convert(env.h, env.replyKind(c), BodyOf(out)).Some?
  }

  predicate ArgsFit(env: Env, cl: State, n: nat, m: Text) {
    n < |cl.registered| && cl.registered[n] in cl.info ==> Convert(env.h, env.argKind(m), cl.info[cl.registered[n]].args).Some?
  }

  /**
   * A step that keeps the streams whole: a write leaves nothing or all of an encodable message, a body that decodes
   * at all is read into a type that holds it, and ServeRequest is not called again once a request was left unread.
   */
  ghost predicate Whole(env: Env, s: Sys, x: SysAction)
    requires SysEnabled(env, s, x)
  {
    match x
    case ClientStep(Write(c, _), kept) =>
      kept == 0 || (kept == |AskBytes(env.h, Asking(s, c))| && Sendable(env.h, Asking(s, c).m, Asking(s, c).v))
    case ClientStep(Body(_), _) =>
      var i := s.client.input; i.call.Some? && i.resp.error == [] ==> ReplyFits(env, s, i.call.value)
    case ServeBody(rejection, _, _) =>
      || env.lookupError(s.server.m).Some? || rejection.Some? || DecBody(env.h, env.argKind(s.server.m), s.up).Err?
      || ArgsFit(env, s.client, s.server.n, s.server.m)
    case ServeWrite(kept, goOn) =>
      && (kept == 0 || (kept == |AnswerBytes(env.h, Answering(s))| && SendableAnswer(env.h, Answering(s))))
      && (goOn ==> s.server.aligned)
    case _ => true
  }

  /** The ways in which a run may fail to be whole, each a thing the code can do. */
  datatype Flaw = Flawless | HeaderOnlyRequests | HeaderOnlyResponses | GoingOn | WrongTypes

  /**
   * A message whose body the encoder refuses leaves its header; the server is called again after a rejection; a
   * body is read into a type that does not hold what was sent, without an error.
   */
  ghost predicate Allowed(env: Env, p: Flaw, s: Sys, x: SysAction)
    requires SysEnabled(env, s, x)
  {
    Whole(env, s, x) ||
    match p
    case Flawless => false
    case HeaderOnlyRequests =>
      x.ClientStep? && x.a.Write? && Asking(s, x.a.c).v.Unsupported? && x.kept == |HeaderBytes(env.h, RequestFields(Asking(s, x.a.c).n, Asking(s, x.a.c).m))|
    case HeaderOnlyResponses =>
      x.ServeWrite? && s.server.aligned && BodyOf(s.server.out).Unsupported? && x.kept == |HeaderBytes(env.h, ResponseFields(AnswerHeader(Answering(s))))|
    case WrongTypes => (x.ClientStep? && x.a.Body?) || x.ServeBody?
    case GoingOn => x.ServeWrite? && x.kept == |AnswerBytes(env.h, Answering(s))| && SendableAnswer(env.h, Answering(s))
  }


  ghost predicate SysRuns(env: Env, p: Flaw, s: Sys, xs: seq<SysAction>, t: Sys)
    decreases |xs|
  {
    if xs == [] then s == t
    else SysEnabled(env, s, xs[0]) && Allowed(env, p, s, xs[0]) && SysRuns(env, p, SysApply(env, s, xs[0]), xs[1..], t)
  }

  // ------------------------------------------------------------------
  // What every step keeps

  function AsksBytes(h: MsgpackHandle, rs: seq<Ask>): seq<byte> {
    if rs == [] then [] else AskBytes(h, rs[0]) + AsksBytes(h, rs[1..])
  }

  function AnswersBytes(h: MsgpackHandle, xs: seq<Answer>): seq<byte> {
    if xs == [] then [] else AnswerBytes(h, xs[0]) + AnswersBytes(h, xs[1..])
  }

  /** A request of call number n: its own method and arguments. */
  predicate Asked(env: Env, s: Sys, r: Ask) {
    && r.n < |s.client.registered| && s.client.registered[r.n] in s.client.info && Sendable(env.h, r.m, r.v)
    && s.client.info[s.client.registered[r.n]].serviceMethod == r.m && s.client.info[s.client.registered[r.n]].args == r.v
  }

  /** An answer to call number n: its own. */
  ghost predicate Right(env: Env, s: Sys, n: nat, out: Outcome) {
    n < |s.client.registered| && Gets(env, s, s.client.registered[n], out)
  }

  ghost predicate RightAnswer(env: Env, s: Sys, x: Answer) {
    Right(env, s, x.n, x.out) && SendableAnswer(env.h, x)
  }

  /** The bytes are requests one after the other. */
  ghost predicate UpOk(env: Env, s: Sys, bs: seq<byte>) {
    exists rs: seq<Ask> :: bs == AsksBytes(env.h, rs) && forall i :: 0 <= i < |rs| ==> Asked(env, s, rs[i])
  }

  /** The bytes are answers one after the other. */
  ghost predicate DownOk(env: Env, s: Sys, bs: seq<byte>) {
    exists xs: seq<Answer> :: bs == AnswersBytes(env.h, xs) && forall i :: 0 <= i < |xs| ==> RightAnswer(env, s, xs[i])
  }

  /** The arguments of call number n come next, then whole requests. */
  ghost predicate ArgsNext(env: Env, s: Sys, n: nat, m: Text) {
    && n < |s.client.registered| && s.client.registered[n] in s.client.info
    && var v := s.client.info[s.client.registered[n]].args;
       && Asked(env, s, Ask(n, m, v)) && BodyBytes(env.h, v) <= s.up && UpOk(env, s, s.up[|BodyBytes(env.h, v)|..])
  }

  ghost predicate ServerOk(env: Env, s: Sys) {
    match s.server
    case Idle => UpOk(env, s, s.up)
    case GotHeader(n, m) => ArgsNext(env, s, n, m)
    case Ready(n, m, out, aligned) => Right(env, s, n, out) && (aligned ==> UpOk(env, s, s.up))
    case Stopped => true
  }

  /** The body that goes with out comes next, then whole answers. */
  ghost predicate BodyNext(env: Env, s: Sys, resp: Response, out: Outcome) {
    && Right(env, s, resp.seqno, out) && ErrorOf(out) == resp.error && Encodable(env.h, BodyOf(out))
    && BodyBytes(env.h, BodyOf(out)) <= s.down && DownOk(env, s, s.down[|BodyBytes(env.h, BodyOf(out))|..])
  }

  ghost predicate BodyComes(env: Env, s: Sys, resp: Response) {
    exists out :: BodyNext(env, s, resp, out)
  }

  ghost predicate InputAligned(env: Env, s: Sys) {
    match s.client.input
    case ReadHeader => DownOk(env, s, s.down)
    case WantTake(r) => BodyComes(env, s, r)
    case Taking(r) => BodyComes(env, s, r)
    case ReadBody(call, r) => BodyComes(env, s, r) && (call.Some? ==> s.client.registered[r.seqno] == call.value)
    case Deliver(c, err, reply, loopErr) => (loopErr.None? ==> DownOk(env, s, s.down)) && OwnOutcome(env, s, c, err, reply)
    case _ => true
  }

  /** The reply that goes with an answer without error. */
  ghost predicate Carries(env: Env, s: Sys, c: CallId, out: Outcome, reply: Option<Value>) {
    Gets(env, s, c, out) && ErrorOf(out) == [] && reply.Some? && Convert(env.h, env.replyKind(c), BodyOf(out)) == reply
  }

  ghost predicate OwnOutcome(env: Env, s: Sys, c: CallId, err: Option<Failure>, reply: Option<Value>) {
    && (err.None? ==> exists out :: Carries(env, s, c, out, reply))
    && (err.Some? && err.value.ServerError? ==> err.value.msg != [] && Gets(env, s, c, Fails(err.value.msg)))
  }

  ghost predicate LogOk(env: Env, s: Sys) {
    forall i :: 0 <= i < |s.client.log| && s.client.log[i].how.ByResponse? ==>
      OwnOutcome(env, s, s.client.log[i].call, s.client.log[i].err, s.client.log[i].reply)
  }

  ghost predicate SysInv(env: Env, s: Sys) {
    Inv(s.client) && ServerOk(env, s) && InputAligned(env, s) && LogOk(env, s)
  }

  // ------------------------------------------------------------------
  // Nothing known is forgotten

  /** Steps number calls, learn of new ones and refuse requests, but never change what is known. */
  ghost predicate Later(s: Sys, t: Sys) {
    && s.client.registered <= t.client.registered && s.refused <= t.refused
    && (forall c :: c in s.client.info ==> c in t.client.info && t.client.info[c] == s.client.info[c])
  }

  lemma {:induction false} GetsLater(env: Env, s: Sys, t: Sys)
    requires Later(s, t)
    ensures forall c, out :: Gets(env, s, c, out) ==> Gets(env, t, c, out)
  {
    hide Own;
    forall c, msg | TurnedDown(s, c, msg) ensures TurnedDown(t, c, msg) {
      var n :| 0 <= n < |s.client.registered| && s.client.registered[n] == c && (n, msg) in s.refused;
      assert t.client.registered[n] == c;
    }
  }

  lemma {:induction false} RightLater(env: Env, s: Sys, t: Sys)
    requires Later(s, t)
    ensures forall r :: Asked(env, s, r) ==> Asked(env, t, r)
    ensures forall n, out :: Right(env, s, n, out) ==> Right(env, t, n, out)
    ensures forall x :: RightAnswer(env, s, x) ==> RightAnswer(env, t, x)
  {
    hide Gets, Sendable, SendableAnswer;
    GetsLater(env, s, t);
  }

  lemma {:induction false} OwnLater(env: Env, s: Sys, t: Sys)
    requires Later(s, t)
    ensures forall c, err, reply :: OwnOutcome(env, s, c, err, reply) ==> OwnOutcome(env, t, c, err, reply)
  {
    hide Gets, Convert;
    GetsLater(env, s, t);
    forall c, err, reply | OwnOutcome(env, s, c, err, reply) ensures OwnOutcome(env, t, c, err, reply) {
      if err.None? {
        var out :| Carries(env, s, c, out, reply);
        assert Carries(env, t, c, out, reply);
      }
    }
  }

  lemma {:induction false} UpLater(env: Env, s: Sys, t: Sys, bs: seq<byte>)
    requires Later(s, t) && UpOk(env, s, bs)
    ensures UpOk(env, t, bs)
  {
    hide Asked, Right, RightAnswer, AsksBytes, Later;
    RightLater(env, s, t);
  }

  lemma {:induction false} DownLater(env: Env, s: Sys, t: Sys, bs: seq<byte>)
    requires Later(s, t) && DownOk(env, s, bs)
    ensures DownOk(env, t, bs)
  {
    hide Asked, Right, RightAnswer, AnswersBytes, Later;
    RightLater(env, s, t);
  }

  // ------------------------------------------------------------------
  // Whole messages at both ends of a stream

  lemma {:induction false} AsksSnoc(h: MsgpackHandle, rs: seq<Ask>, r: Ask)
    ensures AsksBytes(h, rs + [r]) == AsksBytes(h, rs) + AskBytes(h, r)
    decreases |rs|
  {
    hide AskBytes;
    if rs == [] {
      assert rs + [r] == [r] && [r][1..] == [] && AsksBytes(h, [r][1..]) == [];
    } else {
      AsksSnoc(h, rs[1..], r);
      assert (rs + [r])[1..] == rs[1..] + [r];
    }
  }

  lemma {:induction false} AnswersSnoc(h: MsgpackHandle, xs: seq<Answer>, x: Answer)
    ensures AnswersBytes(h, xs + [x]) == AnswersBytes(h, xs) + AnswerBytes(h, x)
    decreases |xs|
  {
    hide AnswerBytes;
    if xs == [] {
      assert xs + [x] == [x] && [x][1..] == [] && AnswersBytes(h, [x][1..]) == [];
    } else {
      AnswersSnoc(h, xs[1..], x);
      assert (xs + [x])[1..] == xs[1..] + [x];
    }
  }

  lemma {:induction false} UpSnoc(env: Env, s: Sys, bs: seq<byte>, r: Ask)
    requires UpOk(env, s, bs) && Asked(env, s, r)
    ensures UpOk(env, s, bs + AskBytes(env.h, r))
  {
    hide AskBytes, AsksBytes, Asked;
    var rs :| bs == AsksBytes(env.h, rs) && forall i :: 0 <= i < |rs| ==> Asked(env, s, rs[i]);
    AsksSnoc(env.h, rs, r);
    assert forall i :: 0 <= i < |rs + [r]| ==> Asked(env, s, (rs + [r])[i]);
  }

  lemma {:induction false} DownSnoc(env: Env, s: Sys, bs: seq<byte>, x: Answer)
    requires DownOk(env, s, bs) && RightAnswer(env, s, x)
    ensures DownOk(env, s, bs + AnswerBytes(env.h, x))
  {
    hide AnswerBytes, AnswersBytes, RightAnswer;
    var xs :| bs == AnswersBytes(env.h, xs) && forall i :: 0 <= i < |xs| ==> RightAnswer(env, s, xs[i]);
    AnswersSnoc(env.h, xs, x);
    assert forall i :: 0 <= i < |xs + [x]| ==> RightAnswer(env, s, (xs + [x])[i]);
  }

  /** The next request: its header reads back as itself, and its body and whole requests follow. */
  lemma {:induction false} UpTake(env: Env, s: Sys, bs: seq<byte>) returns (r: Ask, rest: seq<byte>)
    requires UpOk(env, s, bs) && bs != [] && |s.client.registered| <= TWO64
    ensures Asked(env, s, r) && UpOk(env, s, rest)
    ensures DecRequest(env.h, bs) == Ok((r.n, r.m), BodyBytes(env.h, r.v) + rest)
  {
    hide Encodable, HeaderBytes, BodyBytes, DecRequest, MessageBytes;
    var rs :| bs == AsksBytes(env.h, rs) && forall i :: 0 <= i < |rs| ==> Asked(env, s, rs[i]);
    r, rest := rs[0], AsksBytes(env.h, rs[1..]);
    Pieces(env.h, RequestFields(r.n, r.m), r.v);
    assert bs == HeaderBytes(env.h, RequestFields(r.n, r.m)) + (BodyBytes(env.h, r.v) + rest);
    RequestRead(env.h, r.n, r.m, BodyBytes(env.h, r.v) + rest);
    assert forall i :: 0 <= i < |rs[1..]| ==> rs[1..][i] == rs[i + 1];
  }

  lemma {:induction false} DownTake(env: Env, s: Sys, bs: seq<byte>) returns (x: Answer, rest: seq<byte>)
    requires DownOk(env, s, bs) && bs != [] && |s.client.registered| <= TWO64
    ensures RightAnswer(env, s, x) && DownOk(env, s, rest)
    ensures DecResponse(env.h, bs) == Ok(AnswerHeader(x), BodyBytes(env.h, BodyOf(x.out)) + rest)
  {
    hide Encodable, HeaderBytes, BodyBytes, DecResponse, MessageBytes, Gets;
    var xs :| bs == AnswersBytes(env.h, xs) && forall i :: 0 <= i < |xs| ==> RightAnswer(env, s, xs[i]);
    x, rest := xs[0], AnswersBytes(env.h, xs[1..]);
    Pieces(env.h, ResponseFields(AnswerHeader(x)), BodyOf(x.out));
    assert bs == HeaderBytes(env.h, ResponseFields(AnswerHeader(x))) + (BodyBytes(env.h, BodyOf(x.out)) + rest);
    ResponseRead(env.h, AnswerHeader(x), BodyBytes(env.h, BodyOf(x.out)) + rest);
    assert forall i :: 0 <= i < |xs[1..]| ==> xs[1..][i] == xs[i + 1];
  }

  /** A body read off the front of a stream. */
  lemma {:induction false} TakeBody(h: MsgpackHandle, kind: ValidKind, v: Value, bs: seq<byte>)
    requires Encodable(h, v) && Convert(h, kind, v).Some? && BodyBytes(h, v) <= bs
    ensures DecBody(h, kind, bs) == Ok(Convert(h, kind, v).value, bs[|BodyBytes(h, v)|..])
  {
    hide Encodable, Convert, BodyBytes, DecBody;
    BodyRead(h, kind, v, bs[|BodyBytes(h, v)|..]);
    assert bs == BodyBytes(h, v) + bs[|BodyBytes(h, v)|..];
  }

  // ------------------------------------------------------------------
  // Server steps

  /** A step of the server that leaves the client and the answers alone. */
  lemma {:induction false} ClientUntouched(env: Env, s: Sys, t: Sys)
    requires SysInv(env, s) && t.client == s.client && t.down == s.down && s.refused <= t.refused
    ensures Inv(t.client) && InputAligned(env, t) && LogOk(env, t) && Later(s, t)
  {
    hide Inv, ServerOk, DownOk, OwnOutcome, Right, BodyBytes, Gets;
    RightLater(env, s, t);
    OwnLater(env, s, t);
    match s.client.input {
      case ReadHeader => DownLater(env, s, t, s.down);
      case WantTake(r) => ComesLater(env, s, t, r);
      case Taking(r) => ComesLater(env, s, t, r);
      case ReadBody(_, r) => ComesLater(env, s, t, r);
      case Deliver(_, _, _, loopErr) => if loopErr.None? { DownLater(env, s, t, s.down); }
      case _ =>
    }
  }

  lemma {:induction false} ComesLater(env: Env, s: Sys, t: Sys, resp: Response)
    requires BodyComes(env, s, resp) && Later(s, t) && t.down == s.down
    ensures BodyComes(env, t, resp)
  {
    hide Later, DownOk, Right, BodyBytes;
    RightLater(env, s, t);
    var out :| BodyNext(env, s, resp, out);
    DownLater(env, s, t, s.down[|BodyBytes(env.h, BodyOf(out))|..]);
    assert BodyNext(env, t, resp, out);
  }

  lemma {:induction false} HeaderServed(env: Env, s: Sys)
    requires SysInv(env, s) && SysEnabled(env, s, ServeHeader)
    ensures SysInv(env, SysApply(env, s, ServeHeader))
  {
    hide Inv, LogOk, UpOk, BodyBytes, InputAligned, DecRequest;
    var t := SysApply(env, s, ServeHeader);
    ClientUntouched(env, s, t);
    InvParts(s.client);
    var r, rest := UpTake(env, s, s.up);
    assert t.up[|BodyBytes(env.h, r.v)|..] == rest;
    UpLater(env, s, t, rest);
  }

  lemma {:induction false} InvParts(cl: State)
    requires Inv(cl)
    ensures Channels(cl) && Numbers(cl) && InputOk(cl) && |cl.registered| <= TWO64
  {
  }

  lemma {:induction false} BodyServed(env: Env, s: Sys, x: SysAction)
    requires SysInv(env, s) && SysEnabled(env, s, x) && x.ServeBody? && Whole(env, s, x)
    ensures SysInv(env, SysApply(env, s, x))
  {
    hide Inv, LogOk, UpOk, InputAligned, Encodable, Convert, BodyBytes, DecBody;
    var t := SysApply(env, s, x);
    ClientUntouched(env, s, t);
    GetsLater(env, s, t);
    var n, m := s.server.n, s.server.m;
    var c := s.client.registered[n];
    var v := s.client.info[c].args;
    if env.lookupError(m).Some? {
      AnyConverts(env.h, v);
      TakeBody(env.h, KAny, v, s.up);
      UpLater(env, s, t, s.up[|BodyBytes(env.h, v)|..]);
    } else if x.rejection.Some? {
      assert t.client.registered[n] == c && (n, x.rejection.value) in t.refused;
    } else if DecBody(env.h, env.argKind(m), s.up).Ok? {
      TakeBody(env.h, env.argKind(m), v, s.up);
      UpLater(env, s, t, s.up[|BodyBytes(env.h, v)|..]);
    } else {
      assert t.client.registered[n] == c && (n, x.trouble) in t.refused;
    }
  }

  lemma {:induction false} WriteServed(env: Env, s: Sys, kept: nat, goOn: bool)
    requires SysInv(env, s) && SysEnabled(env, s, ServeWrite(kept, goOn)) && Whole(env, s, ServeWrite(kept, goOn))
    ensures SysInv(env, SysApply(env, s, ServeWrite(kept, goOn)))
  {
    hide Inv, LogOk, UpOk, DownOk, Right, SendableAnswer, BodyBytes, AnswerBytes, OwnOutcome;
    var t := SysApply(env, s, ServeWrite(kept, goOn));
    var x := Answering(s);
    var more := AnswerBytes(env.h, x)[..kept];
    RightLater(env, s, t);
    OwnLater(env, s, t);
    LogLater(env, s, t);
    if goOn { UpLater(env, s, t, s.up); }
    match s.client.input {
      case ReadHeader => DownMore(env, s, t, s.down, x, kept);
      case WantTake(r) => ComesMore(env, s, t, r, x, kept);
      case Taking(r) => ComesMore(env, s, t, r, x, kept);
      case ReadBody(_, r) => ComesMore(env, s, t, r, x, kept);
      case Deliver(_, _, _, loopErr) => if loopErr.None? { DownMore(env, s, t, s.down, x, kept); }
      case _ =>
    }
  }

  lemma {:induction false} LogLater(env: Env, s: Sys, t: Sys)
    requires Later(s, t) && LogOk(env, s) && t.client.log == s.client.log
    ensures LogOk(env, t)
  {
    hide Later, OwnOutcome;
    OwnLater(env, s, t);
  }

  /** Nothing or all of an answer at the end of a stream of answers. */
  lemma {:induction false} DownMore(env: Env, s: Sys, t: Sys, bs: seq<byte>, x: Answer, kept: nat)
    requires Later(s, t) && DownOk(env, s, bs) && Right(env, s, x.n, x.out)
    requires kept == 0 || (kept == |AnswerBytes(env.h, x)| && SendableAnswer(env.h, x))
    ensures DownOk(env, t, bs + AnswerBytes(env.h, x)[..kept])
  {
    hide Later, DownOk, Right, SendableAnswer, AnswerBytes;
    if kept == 0 {
      assert bs + AnswerBytes(env.h, x)[..kept] == bs;
    } else {
      DownSnoc(env, s, bs, x);
      assert AnswerBytes(env.h, x)[..kept] == AnswerBytes(env.h, x);
    }
    DownLater(env, s, t, bs + AnswerBytes(env.h, x)[..kept]);
  }

  lemma {:induction false} ComesMore(env: Env, s: Sys, t: Sys, resp: Response, x: Answer, kept: nat)
    requires Later(s, t) && BodyComes(env, s, resp) && Right(env, s, x.n, x.out)
    requires kept == 0 || (kept == |AnswerBytes(env.h, x)| && SendableAnswer(env.h, x))
    requires t.down == s.down + AnswerBytes(env.h, x)[..kept]
    ensures BodyComes(env, t, resp)
  {
    hide Later, DownOk, Right, SendableAnswer, AnswerBytes, BodyBytes;
    var out :| BodyNext(env, s, resp, out);
    RightLater(env, s, t);
    var k := |BodyBytes(env.h, BodyOf(out))|;
    DownMore(env, s, t, s.down[k..], x, kept);
    assert t.down[k..] == s.down[k..] + AnswerBytes(env.h, x)[..kept];
    assert BodyNext(env, t, resp, out);
  }

  lemma {:induction false} Stops(env: Env, s: Sys)
    requires SysInv(env, s)
    ensures SysInv(env, s.(server := Stopped))
  {
    hide Inv, LogOk, InputAligned;
    ClientUntouched(env, s, s.(server := Stopped));
  }

  lemma {:induction false} ServerStep(env: Env, s: Sys, x: SysAction)
    requires SysInv(env, s) && SysEnabled(env, s, x) && !x.ClientStep? && Whole(env, s, x)
    ensures SysInv(env, SysApply(env, s, x))
  {
    hide SysInv, Whole;
    if x.ServeHeader? {
      HeaderServed(env, s);
    } else if x.ServeBody? {
      BodyServed(env, s, x);
    } else if x.ServeWrite? {
      WriteServed(env, s, x.kept, x.goOn);
    } else {
      Stops(env, s);
    }
  }

  // ------------------------------------------------------------------
  // Client steps

  lemma {:induction false} ClientLater(env: Env, s: Sys, a: Action, kept: nat)
    requires Inv(s.client) && ClientEnabled(env, s, a, kept)
    ensures Later(s, ClientApply(env, s, a, kept))
  {
    hide Apply, Enabled, Inv, DecBody, DecResponse, AskBytes, Supported;
    InvParts(s.client);
    StepGrows(s.client, a);
    InfoGrows(s.client, a);
    if a.Go? { NewCall(s.client, a); }
  }

  lemma {:induction false} NewCall(cl: State, a: Action)
    requires Channels(cl) && Enabled(cl, a) && a.Go?
    ensures a.c !in cl.info.Keys
  {
  }

  lemma {:induction false} InfoGrows(cl: State, a: Action)
    requires Enabled(cl, a)
    ensures Apply(cl, a).info == if a.Go? then cl.info[a.c := a.ci] else cl.info
  {
    if BySender(a) {
      SenderInfo(cl, a);
    } else {
      hide ApplySender;
    }
  }

  lemma {:induction false} SenderInfo(cl: State, a: Action)
    requires Enabled(cl, a) && BySender(a)
    ensures Apply(cl, a).info == if a.Go? then cl.info[a.c := a.ci] else cl.info
  {
    hide ApplyInput, ApplyOther;
  }

  /** What the client writes is a request of the call's own number, method and arguments. */
  lemma {:induction false} WriteOk(env: Env, s: Sys, c: CallId)
    requires Inv(s.client) && c in s.client.pcs && s.client.pcs[c].Writing?
    ensures c in s.client.info && (Sendable(env.h, Asking(s, c).m, Asking(s, c).v) ==> Asked(env, s, Asking(s, c)))
  {
    hide Times, OnePlace, Reports, Numbers, InputOk, Closers, Owners, Sendable;
    SenderAt(s.client, c);
    assert c in s.client.info.Keys;
  }

  /** Nothing or all of a request at the end of a stream of requests, or no write at all. */
  lemma {:induction false} UpMore(env: Env, s: Sys, a: Action, kept: nat, bs: seq<byte>) returns (more: seq<byte>)
    requires Inv(s.client) && ClientEnabled(env, s, a, kept) && Whole(env, s, ClientStep(a, kept)) && UpOk(env, s, bs)
    ensures ClientApply(env, s, a, kept).up == s.up + more
    ensures UpOk(env, ClientApply(env, s, a, kept), bs + more)
  {
    hide Inv, UpOk, Asked, Apply, Enabled, Sendable, AskBytes;
    var t := ClientApply(env, s, a, kept);
    ClientLater(env, s, a, kept);
    if a.Write? {
      EnabledWrite(s.client, a);
      WriteOk(env, s, a.c);
      more := AskBytes(env.h, Asking(s, a.c))[..kept];
    } else {
      more := [];
    }
    if a.Write? && kept > 0 {
      assert more == AskBytes(env.h, Asking(s, a.c));
      UpSnoc(env, s, bs, Asking(s, a.c));
    } else {
      assert bs + more == bs;
    }
    UpLater(env, s, t, bs + more);
  }

  lemma {:induction false} EnabledWrite(cl: State, a: Action)
    requires Enabled(cl, a) && a.Write?
    ensures a.c in cl.pcs && cl.pcs[a.c].Writing?
  {
  }

  lemma {:induction false} ArgsMore(env: Env, s: Sys, a: Action, kept: nat, n: nat, m: Text)
    requires Inv(s.client) && ArgsNext(env, s, n, m) && ClientEnabled(env, s, a, kept) && Whole(env, s, ClientStep(a, kept))
    ensures ArgsNext(env, ClientApply(env, s, a, kept), n, m)
  {
    hide Inv, UpOk, Asked, Apply, Enabled, Whole, ClientEnabled, ClientApply, BodyBytes;
    var t := ClientApply(env, s, a, kept);
    ClientLater(env, s, a, kept);
    RightLater(env, s, t);
    var k := |BodyBytes(env.h, s.client.info[s.client.registered[n]].args)|;
    var more := UpMore(env, s, a, kept, s.up[k..]);
    assert t.up[k..] == s.up[k..] + more;
  }

  lemma {:induction false} ClientServerOk(env: Env, s: Sys, a: Action, kept: nat)
    requires SysInv(env, s) && ClientEnabled(env, s, a, kept) && Whole(env, s, ClientStep(a, kept))
    ensures ServerOk(env, ClientApply(env, s, a, kept))
  {
    hide Inv, UpOk, Asked, Right, Apply, Enabled, LogOk, InputAligned, Whole, ClientEnabled, ArgsNext;
    var t := ClientApply(env, s, a, kept);
    ClientLater(env, s, a, kept);
    RightLater(env, s, t);
    match s.server {
      case Idle => var _ := UpMore(env, s, a, kept, s.up);
      case GotHeader(n, m) =>
        ArgsMore(env, s, a, kept, n, m);
      case Ready(_, _, _, aligned) => if aligned { var _ := UpMore(env, s, a, kept, s.up); }
      case Stopped =>
    }
  }

  lemma {:induction false} SameInput(cl: State, a: Action)
    requires Enabled(cl, a) && !ByInput(a)
    ensures Apply(cl, a).input == cl.input
  {
    hide ApplyInput;
  }

  lemma {:induction false} SeqnoIsNumber(cl: State)
    requires Inv(cl) && cl.input.Taking?
    ensures var n := cl.input.resp.seqno; n in cl.shared.pending ==> n < |cl.registered| && cl.shared.pending[n] == cl.registered[n]
  {
  }

  /** A step that leaves input where it is. */
  lemma {:induction false} AlignedElsewhere(env: Env, s: Sys, t: Sys)
    requires InputAligned(env, s) && Later(s, t) && t.down == s.down && t.client.input == s.client.input
    ensures InputAligned(env, t)
  {
    hide DownOk, Right, OwnOutcome, BodyComes;
    OwnLater(env, s, t);
    match s.client.input {
      case ReadHeader => DownLater(env, s, t, s.down);
      case WantTake(r) => ComesLater(env, s, t, r);
      case Taking(r) => ComesLater(env, s, t, r);
      case ReadBody(_, r) => ComesLater(env, s, t, r); Numbered(env, s, r);
      case Deliver(_, _, _, loopErr) => if loopErr.None? { DownLater(env, s, t, s.down); }
      case _ =>
    }
  }

  lemma {:induction false} Numbered(env: Env, s: Sys, resp: Response)
    requires BodyComes(env, s, resp)
    ensures resp.seqno < |s.client.registered|
  {
    hide Gets, BodyBytes, DownOk;
  }

  lemma {:induction false} HeaderAligned(env: Env, s: Sys, a: Action, kept: nat)
    requires SysInv(env, s) && ClientEnabled(env, s, a, kept) && a.Header?
    ensures InputAligned(env, ClientApply(env, s, a, kept))
  {
    hide Inv, ServerOk, LogOk, DownOk, Gets, BodyBytes, DecResponse, ApplySender, ApplyOther, Encodable;
    var t := ClientApply(env, s, a, kept);
    ClientLater(env, s, a, kept);
    InvParts(s.client);
    var x, rest := DownTake(env, s, s.down);
    DownLater(env, s, t, rest);
    RightLater(env, s, t);
    assert t.down[|BodyBytes(env.h, BodyOf(x.out))|..] == rest;
    assert BodyNext(env, t, a.resp, x.out);
  }

  lemma {:induction false} TakeAligned(env: Env, s: Sys, a: Action, kept: nat)
    requires SysInv(env, s) && ClientEnabled(env, s, a, kept) && (a.LockTake? || a.Take?)
    ensures InputAligned(env, ClientApply(env, s, a, kept))
  {
    hide Inv, ServerOk, LogOk, DownOk, ApplySender, ApplyOther, BodyComes;
    var t := ClientApply(env, s, a, kept);
    ClientLater(env, s, a, kept);
    ComesLater(env, s, t, s.client.input.resp);
    if a.Take? { SeqnoIsNumber(s.client); }
  }

  /** The body decodes to the conversion of what was sent, and whole answers follow. */
  lemma {:induction false} BodyTaken(env: Env, s: Sys, a: Action, kept: nat) returns (out: Outcome)
    requires SysInv(env, s) && ClientEnabled(env, s, a, kept) && a.Body? && Whole(env, s, ClientStep(a, kept))
    ensures var i := s.client.input; var t := ClientApply(env, s, a, kept);
            && Right(env, s, i.resp.seqno, out) && ErrorOf(out) == i.resp.error && DownOk(env, s, t.down)
            && Convert(env.h, Wanted(env, i), BodyOf(out)) == Some(a.reply)
  {
    hide Inv, ServerOk, LogOk, DownOk, Gets, BodyBytes, DecBody, Encodable, Convert, Apply;
    var i := s.client.input;
    out :| BodyNext(env, s, i.resp, out);
    AnyConverts(env.h, BodyOf(out));
    TakeBody(env.h, Wanted(env, i), BodyOf(out), s.down);
  }

  lemma {:induction false} BodyState(cl: State, a: Action)
    requires Enabled(cl, a) && a.Body?
    ensures cl.input.ReadBody? && Apply(cl, a) == cl.(input := AfterBody(cl.input.call, cl.input.resp, None, Some(a.reply)))
  {
    hide ApplySender, ApplyOther;
  }

  lemma {:induction false} BodyAligned(env: Env, s: Sys, a: Action, kept: nat)
    requires SysInv(env, s) && ClientEnabled(env, s, a, kept) && a.Body? && Whole(env, s, ClientStep(a, kept))
    ensures InputAligned(env, ClientApply(env, s, a, kept))
  {
    hide Inv, ServerOk, LogOk, BodyComes, Whole, Apply, Enabled, ClientApply, DecBody;
    var out := BodyTaken(env, s, a, kept);
    ClientLater(env, s, a, kept);
    BodyMoves(env, s, a, kept);
    BodyLeads(env, s, ClientApply(env, s, a, kept), s.client.input, a.reply, out);
  }

  lemma {:induction false} BodyMoves(env: Env, s: Sys, a: Action, kept: nat)
    requires ClientEnabled(env, s, a, kept) && a.Body?
    ensures s.client.input.ReadBody?
    ensures ClientApply(env, s, a, kept).client.input == AfterBody(s.client.input.call, s.client.input.resp, None, Some(a.reply))
  {
    hide Apply, Enabled, DecBody;
    BodyState(s.client, a);
  }

  lemma {:induction false} BodyLeads(env: Env, s: Sys, t: Sys, i: InputPC, v: Value, out: Outcome)
    requires Later(s, t) && i.ReadBody? && t.client.input == AfterBody(i.call, i.resp, None, Some(v))
    requires i.call.Some? ==> i.resp.seqno < |s.client.registered| && s.client.registered[i.resp.seqno] == i.call.value
    requires Right(env, s, i.resp.seqno, out) && ErrorOf(out) == i.resp.error && DownOk(env, s, t.down)
    requires Convert(env.h, Wanted(env, i), BodyOf(out)) == Some(v)
    ensures InputAligned(env, t)
  {
    hide DownOk, Gets, Convert, Later, BodyComes, OwnOutcome;
    DownLater(env, s, t, t.down);
    GetsLater(env, s, t);
    if i.call.Some? {
      BodyOwed(env, t, i, v, out);
    }
  }

  lemma {:induction false} BodyOwed(env: Env, t: Sys, i: InputPC, v: Value, out: Outcome)
    requires i.ReadBody? && i.call.Some? && Gets(env, t, i.call.value, out) && ErrorOf(out) == i.resp.error
    requires Convert(env.h, Wanted(env, i), BodyOf(out)) == Some(v)
    ensures var d := AfterBody(i.call, i.resp, None, Some(v)); OwnOutcome(env, t, d.waiter, d.callErr, d.reply)
  {
    hide Gets, Convert;
    if i.resp.error == [] {
      assert Carries(env, t, i.call.value, out, Some(v));
    } else {
      assert out == Fails(i.resp.error);
    }
  }

  lemma {:induction false} FailureAligned(env: Env, s: Sys, a: Action, kept: nat)
    requires SysInv(env, s) && ClientEnabled(env, s, a, kept) && (a.HeaderFails? || a.BodyFails? || a.DeliverDone?)
    ensures InputAligned(env, ClientApply(env, s, a, kept))
  {
    hide AskBytes, AnswerBytes, DecBody, DecResponse, Supported, Inv, ServerOk, LogOk, DownOk, Gets, ApplySender, ApplyOther;
    var t := ClientApply(env, s, a, kept);
    ClientLater(env, s, a, kept);
    GetsLater(env, s, t);
    if a.DeliverDone? {
      if s.client.input.loopErr.None? { DownLater(env, s, t, s.down); }
    } else if a.BodyFails? && s.client.input.call.Some? && s.client.input.resp.error != [] {
      Owed(env, s);
    }
  }

  /** The error response being read belongs to the call. */
  lemma {:induction false} Owed(env: Env, s: Sys)
    requires InputAligned(env, s) && s.client.input.ReadBody? && s.client.input.call.Some? && s.client.input.resp.error != []
    ensures Gets(env, s, s.client.input.call.value, Fails(s.client.input.resp.error))
  {
    hide DownOk, Gets, BodyBytes;
    var out :| BodyNext(env, s, s.client.input.resp, out);
  }

  lemma {:induction false} EndsInput(cl: State, a: Action)
    requires Enabled(cl, a) && (a.InputLockReq? || a.InputLock? || a.Terminate? || a.Sweep? || a.EndSweep? || a.InputUnlock?)
    ensures var i := Apply(cl, a).input; !i.ReadHeader? && !i.WantTake? && !i.Taking? && !i.ReadBody? && !i.Deliver?
  {
    hide ApplySender, ApplyOther;
  }

  lemma {:induction false} ClientAligned(env: Env, s: Sys, a: Action, kept: nat)
    requires SysInv(env, s) && ClientEnabled(env, s, a, kept) && Whole(env, s, ClientStep(a, kept))
    ensures InputAligned(env, ClientApply(env, s, a, kept))
  {
    hide Inv, Apply, Enabled, LogOk, ServerOk, DownOk, BodyComes, OwnOutcome, Whole, DecBody, DecResponse;
    if !ByInput(a) {
      SameInput(s.client, a);
      ClientLater(env, s, a, kept);
      AlignedElsewhere(env, s, ClientApply(env, s, a, kept));
    } else if a.Header? {
      HeaderAligned(env, s, a, kept);
    } else if a.LockTake? || a.Take? {
      TakeAligned(env, s, a, kept);
    } else if a.Body? {
      BodyAligned(env, s, a, kept);
    } else if a.HeaderFails? || a.BodyFails? || a.DeliverDone? {
      FailureAligned(env, s, a, kept);
    } else {
      EndsInput(s.client, a);
    }
  }

  lemma {:induction false} SenderLog(cl: State, a: Action)
    requires Enabled(cl, a) && BySender(a)
    ensures var l := Apply(cl, a).log;
            l == cl.log || (|l| == |cl.log| + 1 && cl.log < l && !l[|cl.log|].how.ByResponse?)
  {
    hide ApplyInput, ApplyOther;
  }

  /** What a step adds to the log is no answer, or is what the input thread was about to deliver. */
  lemma {:induction false} LogGrows(cl: State, a: Action)
    requires Enabled(cl, a)
    ensures var l := Apply(cl, a).log;
            l == cl.log || (|l| == |cl.log| + 1 && cl.log < l
            && (!l[|cl.log|].how.ByResponse? || (cl.input.Deliver? && l[|cl.log|] == Completion(cl.input.waiter, cl.input.callErr, cl.input.reply, ByResponse))))
  {
    if BySender(a) {
      SenderLog(cl, a);
    } else {
      hide ApplySender;
    }
  }

  lemma {:induction false} ClientLog(env: Env, s: Sys, a: Action, kept: nat)
    requires SysInv(env, s) && ClientEnabled(env, s, a, kept)
    ensures LogOk(env, ClientApply(env, s, a, kept))
  {
    hide Inv, Apply, Enabled, ServerOk, OwnOutcome, DownOk, Later, DecBody, DecResponse;
    var t := ClientApply(env, s, a, kept);
    ClientLater(env, s, a, kept);
    OwnLater(env, s, t);
    LogGrows(s.client, a);
    forall i | 0 <= i < |t.client.log| && t.client.log[i].how.ByResponse?
      ensures OwnOutcome(env, t, t.client.log[i].call, t.client.log[i].err, t.client.log[i].reply)
    {
      if i < |s.client.log| { assert t.client.log[i] == s.client.log[i]; }
    }
  }

  // ------------------------------------------------------------------
  // Every step, every run

  lemma {:induction false} SysStep(env: Env, s: Sys, x: SysAction)
    requires SysInv(env, s) && SysEnabled(env, s, x) && Whole(env, s, x)
    requires |SysApply(env, s, x).client.registered| <= TWO64
    ensures SysInv(env, SysApply(env, s, x))
  {
    hide Inv, ServerOk, InputAligned, LogOk, Enabled, Apply, Whole, ClientApply, ClientEnabled;
    if x.ClientStep? {
      ClientKeepsInv(env, s, x.a, x.kept);
      ClientServerOk(env, s, x.a, x.kept);
      ClientAligned(env, s, x.a, x.kept);
      ClientLog(env, s, x.a, x.kept);
    } else {
      ServerStep(env, s, x);
    }
  }

  lemma {:induction false} ClientKeepsInv(env: Env, s: Sys, a: Action, kept: nat)
    requires Inv(s.client) && ClientEnabled(env, s, a, kept) && |ClientApply(env, s, a, kept).client.registered| <= TWO64
    ensures Inv(ClientApply(env, s, a, kept).client)
  {
    hide Inv, Enabled, Apply, DecBody, DecResponse;
    InvStep(s.client, a);
  }

  lemma {:induction false} SysGrows(env: Env, s: Sys, x: SysAction)
    requires SysEnabled(env, s, x)
    ensures s.client.registered <= SysApply(env, s, x).client.registered
  {
    hide Enabled, Apply;
    if x.ClientStep? {
      StepGrows(s.client, x.a);
    }
  }

  lemma {:induction false} SysRunGrows(env: Env, p: Flaw, s: Sys, xs: seq<SysAction>, t: Sys)
    requires SysRuns(env, p, s, xs, t)
    ensures s.client.registered <= t.client.registered
    decreases |xs|
  {
    hide SysEnabled, SysApply, Allowed;
    if xs != [] {
      SysGrows(env, s, xs[0]);
      SysRunGrows(env, p, SysApply(env, s, xs[0]), xs[1..], t);
    }
  }

  lemma {:induction false} SysRunInv(env: Env, s: Sys, xs: seq<SysAction>, t: Sys)
    requires SysInv(env, s) && SysRuns(env, Flawless, s, xs, t) && |t.client.registered| <= TWO64
    ensures SysInv(env, t)
    decreases |xs|
  {
    hide SysInv, SysEnabled, SysApply, Whole;
    if xs != [] {
      var m := SysApply(env, s, xs[0]);
      SysRunGrows(env, Flawless, m, xs[1..], t);
      SysStep(env, s, xs[0]);
      SysRunInv(env, m, xs[1..], t);
    }
  }

  lemma {:induction false} SysInitInv(env: Env)
    ensures SysInv(env, SYS_INIT)
  {
    hide Inv;
    InitInv();
    assert AsksBytes(env.h, []) == [] && AnswersBytes(env.h, []) == [];
  }

  /** The call got the reply of its own method, in the type it asked for. */
  predicate OwnReply(env: Env, ci: CallInfo, c: CallId, reply: Option<Value>) {
    var own := Own(env, ci);
    own.Some? && own.value.Reply? && reply.Some? && Convert(env.h, env.replyKind(c), own.value.v) == reply
  }

  /**
   * Whatever the interleaving of calls, responses and failed writes, every call of every whole run: completed with
   * a nil error, it has the reply of its own method on its own arguments if and only if its own error text is not
   * the empty one; and a server error is its own, or one it was refused with.
   */
  lemma {:induction false} OwnResults(env: Env, xs: seq<SysAction>, t: Sys, i: nat)
    requires SysRuns(env, Flawless, SYS_INIT, xs, t) && |t.client.registered| <= TWO64
    requires i < |t.client.log|
    ensures var x := t.client.log[i];
            && x.call in t.client.info
            && (x.err.None? && !TurnedDown(t, x.call, []) ==>
                 (OwnReply(env, t.client.info[x.call], x.call, x.reply) <==> Own(env, t.client.info[x.call]) != Some(Fails([]))))
            && (x.how.ByResponse? && x.err.Some? && x.err.value.ServerError? ==>
                 x.err.value.msg != [] && (Own(env, t.client.info[x.call]) == Some(Fails(x.err.value.msg)) || TurnedDown(t, x.call, x.err.value.msg)))
  {
    hide SysRuns, Own, TurnedDown, Convert, SysInv, OwnOutcome;
    SysInitInv(env);
    SysRunInv(env, SYS_INIT, xs, t);
    Completed(env, t, i);
    var x := t.client.log[i];
    if x.how.ByResponse? { OwnSplit(env, t, x.call, x.err, x.reply); }
  }

  /**
   * The same said of the service itself: a call completed with a nil error, and not refused with an empty text, was
   * of a known method, which did not fail with any other than the empty text and whose reply is the one that arrived;
   * a server error of a call that was not refused is findMethod's, or the method's on the decoded arguments.
   */
  lemma {:induction false} ServiceResults(env: Env, xs: seq<SysAction>, t: Sys, i: nat)
    requires SysRuns(env, Flawless, SYS_INIT, xs, t) && |t.client.registered| <= TWO64
    requires i < |t.client.log| && t.client.log[i].call in t.client.info
    ensures var x := t.client.log[i]; var ci := t.client.info[x.call];
            var a := Convert(env.h, env.argKind(ci.serviceMethod), ci.args);
            x.err.None? && !TurnedDown(t, x.call, []) ==>
              (env.lookupError(ci.serviceMethod).Some? ==> env.lookupError(ci.serviceMethod) == Some([]))
              && (env.lookupError(ci.serviceMethod).None? && a.Some? ==>
                    match env.f(ci.serviceMethod, a.value)
                    case Reply(v) => x.reply.Some? && x.reply == Convert(env.h, env.replyKind(x.call), v)
                    case Fails(msg) => msg == [])
    ensures var x := t.client.log[i]; var ci := t.client.info[x.call];
            x.how.ByResponse? && x.err.Some? && x.err.value.ServerError? && !TurnedDown(t, x.call, x.err.value.msg) ==>
              var e := env.lookupError(ci.serviceMethod); var a := Convert(env.h, env.argKind(ci.serviceMethod), ci.args);
              x.err.value.msg != [] && (e == Some(x.err.value.msg) || (e.None? && a.Some? && env.f(ci.serviceMethod, a.value) == Fails(x.err.value.msg)))
  {
    hide SysRuns, TurnedDown, Convert, SysInv, OwnOutcome;
    SysInitInv(env);
    SysRunInv(env, SYS_INIT, xs, t);
    Completed(env, t, i);
    var x := t.client.log[i];
    if x.how.ByResponse? { OwnedBy(env, t, x.call, x.err, x.reply); }
  }

  lemma {:induction false} OwnedBy(env: Env, t: Sys, c: CallId, err: Option<Failure>, reply: Option<Value>)
    requires OwnOutcome(env, t, c, err, reply) && c in t.client.info
    ensures err.None? && !TurnedDown(t, c, []) ==>
              exists out :: Own(env, t.client.info[c]) == Some(out) && ErrorOf(out) == [] && reply.Some? && Convert(env.h, env.replyKind(c), BodyOf(out)) == reply
    ensures err.Some? && err.value.ServerError? && !TurnedDown(t, c, err.value.msg) ==>
              err.value.msg != [] && Own(env, t.client.info[c]) == Some(Fails(err.value.msg))
  {
    hide Own, TurnedDown, Convert;
    if err.None? {
      var out :| Carries(env, t, c, out, reply);
    }
  }

  /** When the method's reply is the encoding of a value of the caller's type, that value is what the caller gets. */
  lemma {:induction false} ReplyOfSameType(env: Env, ci: CallInfo, c: CallId, reply: Option<Value>, x: Value)
    requires OwnReply(env, ci, c, reply) && WrittenAs(env.h, env.replyKind(c), x, Own(env, ci).value.v)
    ensures reply == Some(x)
  {
    hide Own, WrittenAs, Convert;
    SameType(env.h, env.replyKind(c), x, Own(env, ci).value.v);
  }

  lemma {:induction false} OwnSplit(env: Env, t: Sys, c: CallId, err: Option<Failure>, reply: Option<Value>)
    requires OwnOutcome(env, t, c, err, reply) && c in t.client.info
    ensures err.None? && !TurnedDown(t, c, []) ==> (OwnReply(env, t.client.info[c], c, reply) <==> Own(env, t.client.info[c]) != Some(Fails([])))
    ensures err.Some? && err.value.ServerError? ==>
              err.value.msg != [] && (Own(env, t.client.info[c]) == Some(Fails(err.value.msg)) || TurnedDown(t, c, err.value.msg))
  {
    hide Own, TurnedDown, Convert;
    if err.None? {
      var out :| Carries(env, t, c, out, reply);
    }
  }

  lemma {:induction false} Completed(env: Env, t: Sys, i: nat)
    requires SysInv(env, t) && i < |t.client.log|
    ensures var x := t.client.log[i];
            x.call in t.client.info && (x.err.None? ==> x.how.ByResponse?) && (x.how.ByResponse? ==> OwnOutcome(env, t, x.call, x.err, x.reply))
  {
    hide Inv, ServerOk, InputAligned, OwnOutcome;
    CompletedKnown(t.client, i);
  }

  lemma {:induction false} CompletedKnown(cl: State, i: nat)
    requires Inv(cl) && i < |cl.log|
    ensures cl.log[i].call in cl.info && (cl.log[i].err.None? ==> cl.log[i].how.ByResponse?)
  {
    hide OnePlace, InputOk, Closers, Owners, Senders;
    InLog(cl.log, i);
    assert Reported(cl.log[i]);
    assert cl.info.Keys == cl.pcs.Keys;
  }

  lemma {:induction false} InLog(log: seq<Completion>, i: nat)
    requires i < |log|
    ensures Times(log, log[i].call) >= 1
    decreases |log|
  {
    if i < |log| - 1 {
      InLog(log[..|log| - 1], i);
    }
  }
}
