/**
 * The server's request handling on any number of connections that share its free lists. Every access to a
 * free list is a step of its own, and the connections' steps interleave freely.
 */
module Server {
  import opened Values
  import opened FreeList

  datatype ReqData = ReqData(seqno: nat, serviceMethod: string)
  datatype RespData = RespData(seqno: nat, serviceMethod: string, error: string)

  const ZERO_REQ := ReqData(0, "")
  const ZERO_RESP := RespData(0, "", "")

  type Request = Cell<ReqData>
  type Response = Cell<RespData>

  // ------------------------------------------------------------------
  // Finding the method

  /** The index of the last dot, or -1. */
  function LastDot(s: string): (i: int)
    ensures -1 <= i < |s|
    ensures i >= 0 ==> s[i] == '.'
    ensures forall k :: i < k < |s| ==> s[k] != '.'
  {
    if s == "" then -1 else if s[|s| - 1] == '.' then |s| - 1 else LastDot(s[..|s| - 1])
  }

  type Services = map<string, set<string>>

  /** The error of findMethod, if any. */
  function FindError(services: Services, name: string): Option<string> {
    var dot := LastDot(name);
    if dot < 0 then Some("rpc: service/method request ill-formed: " + name)
    else if name[..dot] !in services then Some("rpc: can't find service " + name)
    else if name[dot + 1..] !in services[name[..dot]] then Some("rpc: can't find method " + name)
    else None
  }

  /** The name is a registered service, a dot and one of its methods. */
  ghost predicate HasMethod(services: Services, name: string) {
    exists s, m :: name == s + "." + m && '.' !in m && s in services && m in services[s]
  }

  predicate EndsWith(text: string, name: string) {
    |text| > |name| && text[|text| - |name|..] == name
  }

  /** A name is found exactly when it is a registered service, a dot and one of its methods, which has no dot. */
  lemma {:induction false} FoundExactly(services: Services, name: string)
    ensures FindError(services, name).None? <==> HasMethod(services, name)
  {
    var dot := LastDot(name);
    if FindError(services, name).None? {
      assert name == name[..dot] + "." + name[dot + 1..];
      assert '.' !in name[dot + 1..];
    }
    if s, m :| name == s + "." + m && '.' !in m && s in services && m in services[s] {
      assert name[|s|] == '.';
      forall k | |s| < k < |name| ensures name[k] != '.' {
        assert name[k] == m[k - |s| - 1];
      }
      assert dot == |s| && name[..dot] == s && name[dot + 1..] == m;
    }
  }

  // ------------------------------------------------------------------
  // Connections

  /** Where ServeRequest is on one connection; err is what the response will carry. */
  datatype Phase =
    | Idle
    | Reading(req: Request)
    | HaveHeader(req: Request)
    | Replying(req: Request, err: Option<string>)
    | Filling(req: Request, resp: Response, err: Option<string>)
    | Written(req: Request, resp: Response)
    | Freeing(req: Request)

  /** What the peer has sent, and how far the codec has read it; spoilt once a read has failed. */
  datatype Item = HeaderItem(data: ReqData) | BodyItem

  datatype Wire = Wire(items: seq<Item>, next: nat, spoilt: bool)

  /**
   * What the connection has seen: headers read, what became of each request, outcomes decided, responses written,
   * early rejections, its wire.
   */
  datatype Log = Log(headers: seq<ReqData>, events: seq<Event>, outcomes: seq<Option<string>>, responses: seq<RespData>, rejected: nat, wire: Wire)

  datatype Conn = Conn(phase: Phase, log: Log)

  /**
   * What cannot be foreseen: whether the connection fails and what a body taken for a header looks like, the
   * interceptor's verdict, whether the body decodes, the service method's result.
   */
  datatype Event =
    | Header(broken: bool, misread: Option<ReqData>)
    | RejectEarly(msg: string) | BodyFails(msg: string) | Called(err: Option<string>)

  /** The codec's read: the next item, if the connection has one. */
  function Take(w: Wire): (Option<Item>, Wire) {
    if w.next < |w.items| then (Some(w.items[w.next]), w.(next := w.next + 1)) else (None, w.(spoilt := true))
  }

  function ReadRequestHeader(w: Wire, e: Event): (Option<ReqData>, Wire)
    requires e.Header?
  {
    var (x, rest) := Take(w);
    if e.broken || x.None? then (None, w.(spoilt := true))
    else if x.value.HeaderItem? then (Some(x.value.data), rest)
    else if e.misread.Some? then (e.misread, rest)
    else (None, rest.(spoilt := true))
  }

  function ReadRequestBody(w: Wire): Wire {
    Take(w).1
  }

  function ReqOf(p: Phase): Option<Request> {
    if p.Idle? then None else Some(p.req)
  }

  function RespOf(p: Phase): Option<Response> {
    if p.Filling? || p.Written? then Some(p.resp) else None
  }

  predicate Decided(p: Phase) {
    p.Replying? || p.Filling?
  }

  /** A response echoes the header it answers and carries the error that was decided, if any. */
  predicate Echoes(r: RespData, h: ReqData, err: Option<string>) {
    r.seqno == h.seqno && r.serviceMethod == h.serviceMethod && r.error == (if err.None? then "" else err.value)
  }

  /**
   * The outcome a request deserves: none if and only if its method exists, was called and returned no error; the
   * interceptor's, the decoder's or the method's own error; and for a name that is no method a text that names it.
   */
  ghost predicate Fair(services: Services, name: string, e: Event, outcome: Option<string>) {
    && (outcome.None? <==> HasMethod(services, name) && e == Called(None))
    && (HasMethod(services, name) && (e.RejectEarly? || e.BodyFails?) ==> outcome == Some(e.msg))
    && (HasMethod(services, name) && e.Called? ==> outcome == e.err)
    && (!HasMethod(services, name) ==> EndsWith(outcome.value, name))
  }

  lemma {:induction false} NotFoundText(services: Services, name: string)
    requires FindError(services, name).Some?
    ensures EndsWith(FindError(services, name).value, name)
  {
  }

  predicate Pending(p: Phase) {
    p.HaveHeader? || Decided(p)
  }

  /**
   * As long as no read has failed, one item has been taken off the wire for every header and one for every outcome
   * but the early rejections; without such rejections the i-th header is the one in front of the i-th body.
   */
  predicate WireOk(l: Log) {
    && l.wire.next <= |l.wire.items|
    && (!l.wire.spoilt ==> l.wire.next + l.rejected == |l.headers| + |l.outcomes|)
    && (!l.wire.spoilt && l.rejected == 0 ==>
          forall i :: 0 <= i < |l.headers| && 2 * i < |l.wire.items| && l.wire.items[2 * i].HeaderItem? ==>
            l.headers[i] == l.wire.items[2 * i].data)
  }

  /** Every outcome is the one its request deserves. */
  ghost predicate FairLog(services: Services, l: Log) {
    && |l.events| == |l.outcomes| <= |l.headers|
    && forall i :: 0 <= i < |l.outcomes| ==> Fair(services, l.headers[i].serviceMethod, l.events[i], l.outcomes[i])
  }

  /** One response for every header read, in order. */
  ghost predicate LogOk(services: Services, c: Conn) {
    var l, p := c.log, c.phase;
    && |l.headers| == |l.responses| + (if Pending(p) then 1 else 0)
    && |l.outcomes| == |l.responses| + (if Decided(p) then 1 else 0)
    && FairLog(services, l)
    && (forall i :: 0 <= i < |l.responses| ==> Echoes(l.responses[i], l.headers[i], l.outcomes[i]))
    && (Decided(p) ==> l.outcomes[|l.responses|] == p.err)
    && WireOk(l)
  }

  ghost function CellsOf(p: Phase): set<object> {
    (if ReqOf(p).Some? then {ReqOf(p).value} else {}) + (if RespOf(p).Some? then {RespOf(p).value} else {})
  }

  /** The header is in the request object until it is answered, and the response object comes zeroed. */
  ghost predicate ConnOk(services: Services, c: Conn)
    reads CellsOf(c.phase)
  {
    && LogOk(services, c)
    && (Pending(c.phase) ==> c.phase.req.data == c.log.headers[|c.log.responses|])
    && (c.phase.Filling? ==> c.phase.resp.data == ZERO_RESP)
  }

  /** sendResponse fills in a response object: the Error only for a failed call. */
  method Fill(req: Request, resp: Response, err: Option<string>)
    requires resp.data == ZERO_RESP
    modifies resp`data
    ensures Echoes(resp.data, req.data, err)
  {
    resp.data := resp.data.(serviceMethod := req.data.serviceMethod);
    if err.Some? {
      resp.data := resp.data.(error := err.value);
    }
    resp.data := resp.data.(seqno := req.data.seqno);
  }

  // ------------------------------------------------------------------
  // Ownership of the cells in use

  /** The cells in use are owned, each by exactly one connection. */
  ghost predicate Owns<T>(owners: map<nat, Option<Cell<T>>>, inUse: set<Cell<T>>) {
    && (forall k :: k in owners && owners[k].Some? ==> owners[k].value in inUse)
    && (forall j, k :: j in owners && k in owners && j != k && owners[j].Some? ==> owners[j] != owners[k])
    && (forall r :: r in inUse ==> exists k :: k in owners && owners[k] == Some(r))
  }

  lemma {:induction false} OwnsMore<T>(owners: map<nat, Option<Cell<T>>>, inUse: set<Cell<T>>, k: nat, c: Cell<T>)
    requires Owns(owners, inUse) && k in owners && owners[k].None? && c !in inUse
    ensures Owns(owners[k := Some(c)], inUse + {c})
  {
    var after := owners[k := Some(c)];
    forall r | r in inUse + {c} ensures exists j :: j in after && after[j] == Some(r) {
      if r == c {
        assert after[k] == Some(c);
      } else {
        var j :| j in owners && owners[j] == Some(r);
        assert after[j] == Some(r);
      }
    }
  }

  lemma {:induction false} OwnsLess<T>(owners: map<nat, Option<Cell<T>>>, inUse: set<Cell<T>>, k: nat)
    requires Owns(owners, inUse) && k in owners && owners[k].Some?
    ensures Owns(owners[k := None], inUse - {owners[k].value})
  {
    var after := owners[k := None];
    forall r | r in inUse && r != owners[k].value ensures exists j :: j in after && after[j] == Some(r) {
      var j :| j in owners && owners[j] == Some(r);
      assert after[j] == Some(r);
    }
  }

  lemma {:induction false} OwnsNone<T>(owners: map<nat, Option<Cell<T>>>, inUse: set<Cell<T>>, k: nat)
    requires Owns(owners, inUse) && k !in owners
    ensures Owns(owners[k := None], inUse)
  {
    var after := owners[k := None];
    forall r | r in inUse ensures exists j :: j in after && after[j] == Some(r) {
      var j :| j in owners && owners[j] == Some(r);
      assert after[j] == Some(r);
    }
  }

  ghost function ReqOwners(conns: map<nat, Conn>): map<nat, Option<Request>> {
    map k | k in conns :: ReqOf(conns[k].phase)
  }

  ghost function RespOwners(conns: map<nat, Conn>): map<nat, Option<Response>> {
    map k | k in conns :: RespOf(conns[k].phase)
  }

  lemma {:induction false} OwnersAfter(conns: map<nat, Conn>, k: nat, c: Conn)
    requires k in conns
    ensures k in ReqOwners(conns) && ReqOwners(conns)[k] == ReqOf(conns[k].phase)
    ensures k in RespOwners(conns) && RespOwners(conns)[k] == RespOf(conns[k].phase)
    ensures ReqOwners(conns[k := c]) == ReqOwners(conns)[k := ReqOf(c.phase)]
    ensures RespOwners(conns[k := c]) == RespOwners(conns)[k := RespOf(c.phase)]
    ensures ReqOf(c.phase) == ReqOf(conns[k].phase) ==> ReqOwners(conns[k := c]) == ReqOwners(conns)
    ensures RespOf(c.phase) == RespOf(conns[k].phase) ==> RespOwners(conns[k := c]) == RespOwners(conns)
  {
  }

  lemma {:induction false} OwnersNew(conns: map<nat, Conn>, k: nat, c: Conn)
    requires k !in conns && c.phase.Idle?
    ensures k !in ReqOwners(conns) && k !in RespOwners(conns)
    ensures ReqOwners(conns[k := c]) == ReqOwners(conns)[k := None]
    ensures RespOwners(conns[k := c]) == RespOwners(conns)[k := None]
  {
  }

  /** A header read off a wire in step is the one in front of the next body. */
  lemma {:induction false} HeaderTaken(l: Log, e: Event)
    requires WireOk(l) && |l.headers| == |l.outcomes| && e.Header?
    ensures var (got, w) := ReadRequestHeader(l.wire, e); got.Some? ==> WireOk(l.(headers := l.headers + [got.value], wire := w))
  {
    var (got, w) := ReadRequestHeader(l.wire, e);
    if got.Some? {
      var after := l.(headers := l.headers + [got.value], wire := w);
      assert forall i :: 0 <= i < |l.headers| ==> after.headers[i] == l.headers[i];
    }
  }

  class Server {
    const services: Services
    const reqs: FreeList<ReqData>
    const resps: FreeList<RespData>
    var conns: map<nat, Conn>

    /** The two free lists, with every cell in use owned by one connection. */
    ghost predicate Lists()
      reads this, reqs, reqs.made, reqs.free, resps, resps.free
    {
      && reqs.Valid() && resps.Valid() && reqs.zero == ZERO_REQ && resps.zero == ZERO_RESP
      && Owns(ReqOwners(conns), reqs.inUse) && Owns(RespOwners(conns), resps.inUse)
    }

    ghost predicate Conns()
      reads this, reqs, reqs.made, resps, resps.made
    {
      forall k :: k in conns ==> CellsOf(conns[k].phase) <= reqs.made + resps.made && ConnOk(services, conns[k])
    }

    /** Every connection but one is as it should be. */
    ghost predicate ConnsBut(k: nat)
      reads this, reqs, reqs.made, resps, resps.made
    {
      forall j :: j in conns && j != k ==> CellsOf(conns[j].phase) <= reqs.made + resps.made && ConnOk(services, conns[j])
    }

    ghost predicate Valid()
      reads this, reqs, reqs.made, reqs.free, resps, resps.made, resps.free
    {
      Lists() && Conns()
    }

    constructor (services: Services)
      ensures Valid() && conns == map[] && this.services == services && fresh(reqs) && fresh(resps)
    {
      this.services := services;
      reqs := new FreeList(ZERO_REQ);
      resps := new FreeList(ZERO_RESP);
      conns := map[];
    }

    /** Whoever has a request has one that is in use, and nobody else has it. */
    lemma {:induction false} OwnReqs()
      requires Owns(ReqOwners(conns), reqs.inUse)
      ensures forall j :: j in conns && !conns[j].phase.Idle? ==> conns[j].phase.req in reqs.inUse
      ensures forall j, k :: j in conns && k in conns && j != k && !conns[j].phase.Idle? && !conns[k].phase.Idle? ==>
                conns[j].phase.req != conns[k].phase.req
    {
      var owners := ReqOwners(conns);
      assert forall j :: j in conns && !conns[j].phase.Idle? ==> owners[j] == Some(conns[j].phase.req);
    }

    lemma {:induction false} OwnResps()
      requires Owns(RespOwners(conns), resps.inUse)
      ensures forall j :: j in conns && RespOf(conns[j].phase).Some? ==> conns[j].phase.resp in resps.inUse
      ensures forall j, k :: j in conns && k in conns && j != k && RespOf(conns[j].phase).Some? && RespOf(conns[k].phase).Some? ==>
                conns[j].phase.resp != conns[k].phase.resp
    {
      var owners := RespOwners(conns);
      assert forall j :: j in conns && RespOf(conns[j].phase).Some? ==> owners[j] == Some(conns[j].phase.resp);
    }

    method PopRequest() returns (c: Request)
      requires reqs.Valid() && reqs.zero == ZERO_REQ && Owns(ReqOwners(conns), reqs.inUse) && Conns()
      modifies reqs, reqs.made
      ensures reqs.Valid() && Conns() && c.data == ZERO_REQ && c in reqs.made && old(reqs.made) <= reqs.made && fresh(reqs.made - old(reqs.made))
      ensures c !in old(reqs.inUse) && reqs.inUse == old(reqs.inUse) + {c}
    {
      hide Owns, ReqOwners, FreeList.Valid, LogOk;
      OwnReqs();
      reqs.Apart();
      c := reqs.Get();
      reqs.Apart();
    }

    /** readRequestHeader takes a header object off the free list. */
    method Begin(k: nat)
      requires Valid() && k in conns && conns[k].phase.Idle?
      modifies this, reqs, reqs.made
      ensures Valid() && fresh(reqs.made - old(reqs.made))
      ensures conns.Keys == old(conns.Keys) && conns[k].phase.Reading? && conns[k].phase.req.data == ZERO_REQ
      ensures conns == old(conns)[k := Conn(conns[k].phase, old(conns[k].log))]
    {
      hide Owns, ReqOwners, RespOwners, FreeList.Valid, Echoes;
      var c := PopRequest();
      var after := conns[k].(phase := Reading(c));
      OwnersAfter(conns, k, after);
      OwnsMore(ReqOwners(conns), old(reqs.inUse), k, c);
      Settle(k, after);
    }

    /** The header is decoded into the object: every field that was sent is set. */
    method HeaderArrives(k: nat, data: ReqData, w: Wire)
      requires Valid() && k in conns && conns[k].phase.Reading?
      requires LogOk(services, Conn(HaveHeader(conns[k].phase.req), conns[k].log.(headers := conns[k].log.headers + [data], wire := w)))
      modifies this`conns, reqs.made
      ensures Valid() && reqs.made == old(reqs.made) && resps.made == old(resps.made)
      ensures conns == old(conns)[k := Conn(HaveHeader(old(conns[k].phase.req)), old(conns[k].log).(headers := old(conns[k].log.headers) + [data], wire := w))]
    {
      hide Owns, ReqOwners, RespOwners, FreeList.Valid, Echoes, WireOk;
      OwnReqs();
      reqs.Apart();
      var c := conns[k];
      c.phase.req.data := data;
      var after := Conn(HaveHeader(c.phase.req), c.log.(headers := c.log.headers + [data], wire := w));
      OwnersAfter(conns, k, after);
      conns := conns[k := after];
    }

    /** The header could not be read: nothing is written, and the object is not given back. */
    method HeaderFails(k: nat, w: Wire)
      requires Valid() && k in conns && conns[k].phase.Reading? && LogOk(services, Conn(Idle, conns[k].log.(wire := w)))
      modifies this, reqs
      ensures Valid() && reqs.made == old(reqs.made) && resps.made == old(resps.made)
      ensures conns == old(conns)[k := Conn(Idle, old(conns[k].log).(wire := w))]
      ensures reqs.dropped == old(reqs.dropped) + {old(conns[k].phase.req)}
    {
      hide Owns, ReqOwners, RespOwners, FreeList.Valid, WireOk;
      OwnReqs();
      var after := Conn(Idle, conns[k].log.(wire := w));
      OwnersAfter(conns, k, after);
      OwnsLess(ReqOwners(conns), reqs.inUse, k);
      reqs.Drop(conns[k].phase.req);
      conns := conns[k := after];
    }

    /** readRequestHeader: whatever the next item decodes to. */
    method ReadHeader(k: nat, e: Event)
      requires Valid() && k in conns && conns[k].phase.Reading? && e.Header?
      modifies this, reqs, reqs.made
      ensures Valid() && reqs.made == old(reqs.made) && resps.made == old(resps.made)
      ensures var (got, w) := ReadRequestHeader(old(conns[k].log.wire), e);
              var l := old(conns[k].log).(wire := w);
              conns == old(conns)[k := if got.Some? then Conn(HaveHeader(old(conns[k].phase.req)), l.(headers := l.headers + [got.value])) else Conn(Idle, l)]
    {
      hide Lists;
      var (got, w) := ReadRequestHeader(conns[k].log.wire, e);
      assert ConnOk(services, conns[k]);
      if got.Some? {
        HeaderTaken(conns[k].log, e);
        HeaderArrives(k, got.value, w);
      } else {
        HeaderFails(k, w);
      }
    }

    /** A step that only changes where a connection is and what it has seen. */
    method Advance(k: nat, after: Conn)
      requires Valid() && k in conns
      requires ReqOf(after.phase) == ReqOf(conns[k].phase) && RespOf(after.phase) == RespOf(conns[k].phase) && LogOk(services, after)
      requires (after.phase.Filling? ==> conns[k].phase.Filling?)
      requires Pending(after.phase) ==> Pending(conns[k].phase) && after.log.headers == conns[k].log.headers && after.log.responses == conns[k].log.responses
      modifies this`conns
      ensures Valid() && conns == old(conns)[k := after]
    {
      hide Owns, ReqOwners, RespOwners, FreeList.Valid;
      OwnersAfter(conns, k, after);
      conns := conns[k := after];
    }

    /** The error that goes into the response, None when the service method succeeded. */
    function Verdict(name: string, e: Event): (r: Option<string>)
      requires !e.Header?
      ensures Fair(services, name, e, r)
    {
      FoundExactly(services, name);
      var err := FindError(services, name);
      if err.Some? then NotFoundText(services, name); err
      else
        match e
        case RejectEarly(msg) => Some(msg)
        case BodyFails(msg) => Some(msg)
        case Called(err) => err
    }

    /** The wire after the body: read on every path, to nowhere when the method is unknown, but for an early rejection. */
    function AfterBody(name: string, e: Event, w: Wire): Wire {
      if FindError(services, name).None? && e.RejectEarly? then w else ReadRequestBody(w)
    }

    /** readRequest after the header, and the service call. */
    method Handle(k: nat, e: Event)
      requires Valid() && k in conns && conns[k].phase.HaveHeader? && !e.Header?
      modifies this`conns
      ensures Valid()
      ensures var name := old(conns[k].phase.req.data.serviceMethod);
              var early := FindError(services, name).None? && e.RejectEarly?;
              var l := old(conns[k].log);
              conns == old(conns)[k := Conn(Replying(old(conns[k].phase.req), Verdict(name, e)),
                l.(events := l.events + [e], outcomes := l.outcomes + [Verdict(name, e)], rejected := l.rejected + (if early then 1 else 0), wire := AfterBody(name, e, l.wire)))]
    {
      hide Lists, Fair, FindError, HasMethod;
      var c := conns[k];
      var name := c.phase.req.data.serviceMethod;
      var err := FindError(services, name);
      var l := c.log;
      if err.Some? {
        l := l.(wire := ReadRequestBody(l.wire));
      } else {
        match e {
          case RejectEarly(msg) => err, l := Some(msg), l.(rejected := l.rejected + 1);
          case BodyFails(msg) => err, l := Some(msg), l.(wire := ReadRequestBody(l.wire));
          case Called(callErr) => err, l := callErr, l.(wire := ReadRequestBody(l.wire));
        }
      }
      assert ConnOk(services, c) && err == Verdict(name, e);
      Advance(k, Conn(Replying(c.phase.req, err), l.(events := l.events + [e], outcomes := l.outcomes + [err])));
    }

    method PopResponse() returns (c: Response)
      requires resps.Valid() && resps.zero == ZERO_RESP && Owns(RespOwners(conns), resps.inUse) && Conns()
      modifies resps, resps.made
      ensures resps.Valid() && Conns() && c.data == ZERO_RESP && c in resps.made && old(resps.made) <= resps.made && fresh(resps.made - old(resps.made))
      ensures c !in old(resps.inUse) && resps.inUse == old(resps.inUse) + {c}
    {
      hide Owns, RespOwners, FreeList.Valid, LogOk;
      OwnResps();
      resps.Apart();
      c := resps.Get();
      resps.Apart();
    }

    method PushResponse(c: Response)
      requires resps.Valid() && resps.zero == ZERO_RESP && c in resps.inUse && Conns()
      modifies resps, c`next
      ensures resps.Valid() && Conns() && resps.made == old(resps.made) && resps.inUse == old(resps.inUse) - {c}
    {
      hide FreeList.Valid, LogOk;
      resps.Free(c);
    }

    /** A connection moves on once the lists have changed for it. */
    method Settle(k: nat, after: Conn)
      requires reqs.Valid() && resps.Valid() && reqs.zero == ZERO_REQ && resps.zero == ZERO_RESP && ConnsBut(k) && k in conns
      requires Owns(ReqOwners(conns[k := after]), reqs.inUse) && Owns(RespOwners(conns[k := after]), resps.inUse)
      requires CellsOf(after.phase) <= reqs.made + resps.made && ConnOk(services, after)
      modifies this`conns
      ensures Valid() && conns == old(conns)[k := after]
    {
      hide Owns, ReqOwners, RespOwners, FreeList.Valid, LogOk, ConnOk;
      conns := conns[k := after];
    }

    /** sendResponse takes a response object off its free list. */
    method TakeResponse(k: nat)
      requires Valid() && k in conns && conns[k].phase.Replying?
      modifies this, resps, resps.made
      ensures Valid() && fresh(resps.made - old(resps.made)) && reqs.made == old(reqs.made)
      ensures conns.Keys == old(conns.Keys) && conns[k].phase.Filling?
      ensures conns == old(conns)[k := Conn(Filling(old(conns[k].phase.req), conns[k].phase.resp, old(conns[k].phase.err)), old(conns[k].log))]
    {
      hide Owns, ReqOwners, RespOwners, FreeList.Valid, Echoes;
      var c := PopResponse();
      var after := conns[k].(phase := Filling(conns[k].phase.req, c, conns[k].phase.err));
      OwnersAfter(conns, k, after);
      OwnsMore(RespOwners(conns), old(resps.inUse), k, c);
      Settle(k, after);
    }

    /** The connection's own response object is filled in; the others see nothing of it. */
    method FillOwn(k: nat)
      requires Owns(RespOwners(conns), resps.inUse) && Conns() && k in conns && conns[k].phase.Filling?
      modifies conns[k].phase.resp`data
      ensures ConnsBut(k) && Echoes(conns[k].phase.resp.data, conns[k].phase.req.data, conns[k].phase.err)
      ensures conns[k].phase.req.data == old(conns[k].phase.req.data)
    {
      hide Owns, RespOwners, LogOk;
      OwnResps();
      assert ConnOk(services, conns[k]);
      Fill(conns[k].phase.req, conns[k].phase.resp, conns[k].phase.err);
    }

    /** The object is filled in, its Error only for a failed call, and written. */
    method WriteResponse(k: nat)
      requires Valid() && k in conns && conns[k].phase.Filling?
      modifies this`conns, resps.made
      ensures Valid() && reqs.made == old(reqs.made) && resps.made == old(resps.made)
      ensures var p, l := old(conns[k].phase), old(conns[k].log);
              var r := RespData(old(p.req.data.seqno), old(p.req.data.serviceMethod), if p.err.None? then "" else p.err.value);
              conns == old(conns)[k := Conn(Written(p.req, p.resp), l.(responses := l.responses + [r]))]
    {
      hide Owns, ReqOwners, RespOwners, FreeList.Valid;
      var c := conns[k];
      FillOwn(k);
      var after := Conn(Written(c.phase.req, c.phase.resp), c.log.(responses := c.log.responses + [c.phase.resp.data]));
      OwnersAfter(conns, k, after);
      assert ConnOk(services, after);
      Settle(k, after);
    }

    method FreeResponse(k: nat)
      requires Valid() && k in conns && conns[k].phase.Written?
      modifies this, resps, resps.made
      ensures Valid() && reqs.made == old(reqs.made) && resps.made == old(resps.made)
      ensures conns == old(conns)[k := Conn(Freeing(old(conns[k].phase.req)), old(conns[k].log))]
    {
      hide Owns, ReqOwners, RespOwners, FreeList.Valid, Echoes;
      OwnResps();
      var after := conns[k].(phase := Freeing(conns[k].phase.req));
      OwnersAfter(conns, k, after);
      OwnsLess(RespOwners(conns), resps.inUse, k);
      PushResponse(conns[k].phase.resp);
      Settle(k, after);
    }

    method FreeRequest(k: nat)
      requires Valid() && k in conns && conns[k].phase.Freeing?
      modifies this, reqs, reqs.made
      ensures Valid() && reqs.made == old(reqs.made) && resps.made == old(resps.made)
      ensures conns == old(conns)[k := Conn(Idle, old(conns[k].log))]
    {
      hide Owns, ReqOwners, RespOwners, FreeList.Valid;
      OwnReqs();
      reqs.Apart();
      var after := conns[k].(phase := Idle);
      OwnersAfter(conns, k, after);
      OwnsLess(ReqOwners(conns), reqs.inUse, k);
      reqs.Free(conns[k].phase.req);
      conns := conns[k := after];
    }

    /** A new connection, on which the given items will arrive. */
    method Connect(k: nat, items: seq<Item>)
      requires Valid() && k !in conns
      modifies this`conns
      ensures Valid() && conns == old(conns)[k := Conn(Idle, Log([], [], [], [], 0, Wire(items, 0, false)))]
    {
      hide FreeList.Valid, Owns, ReqOwners, RespOwners;
      var c := Conn(Idle, Log([], [], [], [], 0, Wire(items, 0, false)));
      OwnersNew(conns, k, c);
      OwnsNone(ReqOwners(conns), reqs.inUse, k);
      OwnsNone(RespOwners(conns), resps.inUse, k);
      conns := conns[k := c];
    }

    /** One step of one connection: what it does next, given what it is told next. */
    method Step(k: nat, items: seq<Item>, e: Event)
      requires Valid()
      modifies this, reqs, reqs.made, resps, resps.made
      ensures Valid() && fresh(reqs.made - old(reqs.made)) && fresh(resps.made - old(resps.made))
    {
      hide Valid;
      if k !in conns {
        Connect(k, items);
      } else {
        match conns[k].phase {
          case Idle => Begin(k);
          case Reading(_) => if e.Header? { ReadHeader(k, e); }
          case HaveHeader(_) => if !e.Header? { Handle(k, e); }
          case Replying(_, _) => TakeResponse(k);
          case Filling(_, _, _) => WriteResponse(k);
          case Written(_, _) => FreeResponse(k);
          case Freeing(_) => FreeRequest(k);
        }
      }
    }

    /** Any interleaving of steps of any number of connections, one handler run for each request. */
    method Run(schedule: seq<(nat, seq<Item>, Event)>)
      requires Valid()
      modifies this, reqs, reqs.made, resps, resps.made
      ensures Valid() && fresh(reqs.made - old(reqs.made)) && fresh(resps.made - old(resps.made))
    {
      hide Valid;
      for i := 0 to |schedule|
        invariant Valid() && fresh(reqs.made - old(reqs.made)) && fresh(resps.made - old(resps.made))
      {
        Step(schedule[i].0, schedule[i].1, schedule[i].2);
      }
    }

    /**
     * A connection between requests has answered every header it read, once and in order, and each with the outcome
     * its request deserves: an error text unless the method was called and returned none.
     */
    lemma {:induction false} OneResponseEach(k: nat)
      requires Valid() && k in conns && conns[k].phase.Idle?
      ensures var l := conns[k].log;
              && |l.responses| == |l.headers| == |l.outcomes| == |l.events|
              && forall i :: 0 <= i < |l.headers| ==>
                   && Echoes(l.responses[i], l.headers[i], l.outcomes[i])
                   && Fair(services, l.headers[i].serviceMethod, l.events[i], l.outcomes[i])
    {
      hide Lists;
      assert ConnOk(services, conns[k]);
    }

    /**
     * Until a read fails, body reads pair with headers: two items are taken for every request, one when it is rejected
     * early. Without early rejections, and with headers and bodies taking turns on the wire, the i-th response
     * answers the i-th request sent.
     */
    lemma {:induction false} InStep(k: nat)
      requires Valid() && k in conns && conns[k].phase.Idle? && !conns[k].log.wire.spoilt
      ensures var l := conns[k].log;
              && l.wire.next == 2 * |l.headers| - l.rejected
              && (l.rejected == 0 && (forall i :: 0 <= i < |l.wire.items| ==> (l.wire.items[i].HeaderItem? <==> i % 2 == 0)) ==>
                    forall i :: 0 <= i < |l.responses| ==> Echoes(l.responses[i], l.wire.items[2 * i].data, l.outcomes[i]))
    {
      hide Lists;
      assert ConnOk(services, conns[k]);
    }

    /** Nothing is lost: every object made is free, in use by one connection, or was dropped on a failed header. */
    lemma {:induction false} Accounting()
      requires Valid()
      ensures |reqs.made| == |reqs.free| + |reqs.inUse| + |reqs.dropped|
      ensures |resps.made| == |resps.free| + |resps.inUse| + |resps.dropped|
      ensures forall i, j :: 0 <= i < j < |reqs.free| ==> reqs.free[i] != reqs.free[j]
      ensures forall i, j :: 0 <= i < j < |resps.free| ==> resps.free[i] != resps.free[j]
      ensures Owns(ReqOwners(conns), reqs.inUse) && Owns(RespOwners(conns), resps.inUse)
    {
      hide Conns, FreeList.Valid;
      reqs.Count();
      resps.Count();
    }
  }
}
