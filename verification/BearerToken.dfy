/** The bearer token shared by the requests of one registry session: `RegistrySession::get` in
    `oci.rs`. */
module BearerToken {
  import opened Wrappers

  type Token = string

  datatype Reply = Answered | Unauthorized | Lost

  datatype GetError = Transport | Authentication

  /** The exchange: no connection; no usable challenge, a bad status or a malformed body; or the
      two optional members of the endpoint's document. */
  datatype Exchange = Unreachable | Refused | Document(token: Option<Token>, access: Option<Token>)

  function Present(value: Option<Token>): Option<Token> {
    if value.Some? && value.value != "" then value else None
  }

  function Issued(e: Exchange): (r: Result<Token, GetError>)
    ensures r.Ok? <==>
            e.Document? && ((e.token.Some? && e.token.value != "") || (e.access.Some? && e.access.value != ""))
    ensures r.Ok? ==>
              r.value != "" && Some(r.value) == if e.token.Some? && e.token.value != "" then e.token else e.access
    ensures r.Err? ==> r.error == if e.Unreachable? then Transport else Authentication
  {
    match e
    case Unreachable => Err(Transport)
    case Refused => Err(Authentication)
    case Document(token, access) =>
      if Present(token).Some? then Ok(token.value)
      else if Present(access).Some? then Ok(access.value)
      else Err(Authentication)
  }

  /** Another request has replaced the token this one was rejected with. */
  predicate Replaced(stored: Option<Token>, attempted: Option<Token>) {
    stored.Some? && stored != attempted
  }

  class RegistrySession {
    var token: Option<Token>

    constructor ()
      ensures token == None
    {
      token := None;
    }

    /** The section under the lock, after a rejection. */
    method Refresh(attempted: Option<Token>, exchange: Exchange)
      returns (r: Result<Token, GetError>, exchanged: bool)
      modifies this
      ensures exchanged <==> !Replaced(old(token), attempted)
      ensures !exchanged ==> r == Ok(old(token).value) && token == old(token)
      ensures exchanged ==> r == Issued(exchange) && token == if r.Ok? then Some(r.value) else old(token)
    {
      if token.Some? && token != attempted {
        return Ok(token.value), false;
      }
      r, exchanged := Issued(exchange), true;
      if r.Ok? {
        token := Some(r.value);
      }
    }

    /** One request. `meanwhile` is what other requests stored between the rejection and the
        lock, if they did; `sent` lists the tokens the registry was sent. A rejected request is
        sent again exactly when another token is found stored or the exchange issues one. */
    method Get(first: Reply, meanwhile: Option<Token>, exchange: Exchange, second: Reply)
      returns (r: Result<(), GetError>, sent: seq<Option<Token>>)
      modifies this
      ensures 1 <= |sent| <= 2 && sent[0] == old(token)
      ensures |sent| == 2 <==>
              first == Unauthorized && ((meanwhile.Some? && meanwhile != old(token)) || Issued(exchange).Ok?)
      ensures |sent| == 2 ==>
                && token.Some? && sent[1] == token
                && token == if meanwhile.Some? && meanwhile != old(token) then meanwhile
                            else Some(Issued(exchange).value)
      ensures |sent| == 1 ==> token == old(token)
      ensures r.Ok? <==> first == Answered || (|sent| == 2 && second == Answered)
      ensures r.Err? ==>
                r.error == if first == Unauthorized
                           then if |sent| == 1 then Issued(exchange).error
                                else if second == Lost then Transport else Authentication
                           else Transport
    {
      var attempted := token;
      sent := [attempted];
      match first {
        case Answered => return Ok(()), sent;
        case Lost => return Err(Transport), sent;
        case Unauthorized =>
      }
      if meanwhile.Some? {
        token := meanwhile;
      }
      var refreshed, _ := Refresh(attempted, exchange);
      if refreshed.Err? { return Err(refreshed.error), sent; }
      sent := sent + [Some(refreshed.value)];
      r := match second case Answered => Ok(()) case Unauthorized => Err(Authentication) case Lost => Err(Transport);
    }
  }

  // ----- All interleavings of requests

  type RequestId = nat

  datatype Phase =
    | Sending(attempted: Option<Token>)
    | Rejected(attempted: Option<Token>)
    | Refreshing(attempted: Option<Token>)
    | Resending(attempted: Option<Token>, token: Token)
    | Done

  datatype Request = Request(phase: Phase, sends: nat)

  /** One successful exchange: by whom, on which rejected token, and what was issued. */
  datatype Record = Record(request: RequestId, rejected: Option<Token>, issued: Token)

  datatype Session = Session(
    token: Option<Token>, holder: Option<RequestId>, requests: map<RequestId, Request>, log: seq<Record>)

  datatype Step =
    | Start(id: RequestId)
    | FirstReply(id: RequestId, reply: Reply)
    | Lock(id: RequestId)
    | Settle(id: RequestId, exchange: Exchange)
    | SecondReply(id: RequestId, reply: Reply)

  /** The token is read and refreshed under the lock; the refresh holds it for the exchange. */
  predicate Enabled(s: Session, step: Step) {
    match step
    case Start(id) => id !in s.requests && s.holder.None?
    case FirstReply(id, _) => id in s.requests && s.requests[id].phase.Sending?
    case Lock(id) => id in s.requests && s.requests[id].phase.Rejected? && s.holder.None?
    case Settle(id, _) => id in s.requests && s.requests[id].phase.Refreshing?
    case SecondReply(id, _) => id in s.requests && s.requests[id].phase.Resending?
  }

  function Moved(s: Session, id: RequestId, phase: Phase): Session
    requires id in s.requests
  {
    var sends := s.requests[id].sends + if phase.Resending? then 1 else 0;
    s.(requests := s.requests[id := Request(phase, sends)])
  }

  /** Only a successful exchange, not a token found stored, is logged. */
  predicate Exchanges(s: Session, step: Step)
    requires Enabled(s, step)
  {
    && step.Settle?
    && !Replaced(s.token, s.requests[step.id].phase.attempted)
    && Issued(step.exchange).Ok?
  }

  function Next(s: Session, step: Step): Session
    requires Enabled(s, step)
  {
    match step
    case Start(id) => s.(requests := s.requests[id := Request(Sending(s.token), 1)])
    case FirstReply(id, reply) =>
      Moved(s, id, if reply.Unauthorized? then Rejected(s.requests[id].phase.attempted) else Done)
    case Lock(id) =>
      Moved(s.(holder := Some(id)), id, Refreshing(s.requests[id].phase.attempted))
    case Settle(id, exchange) =>
      var attempted, released := s.requests[id].phase.attempted, s.(holder := None);
      if Replaced(s.token, attempted) then Moved(released, id, Resending(attempted, s.token.value))
      else
        var issued := Issued(exchange);
        if issued.Err? then Moved(released, id, Done)
        else
          Moved(released.(token := Some(issued.value), log := s.log + [Record(id, attempted, issued.value)]),
                id, Resending(attempted, issued.value))
    case SecondReply(id, _) => Moved(s, id, Done)
  }

  // ----- What every interleaving keeps

  /** Each exchange was made on the token the one before it issued, and the last one's token is
      the stored one. */
  ghost predicate Chained(token: Option<Token>, log: seq<Record>) {
    && (forall i :: 0 <= i < |log| ==> log[i].rejected == IssuedBefore(log, i))
    && token == IssuedBefore(log, |log|)
  }

  function IssuedBefore(log: seq<Record>, i: nat): Option<Token>
    requires i <= |log|
  {
    if i == 0 then None else Some(log[i - 1].issued)
  }

  predicate WasStored(log: seq<Record>, token: Option<Token>) {
    token.None? || exists i :: 0 <= i < |log| && log[i].issued == token.value
  }

  predicate SendsFit(r: Request) {
    match r.phase
    case Sending(_) => r.sends == 1
    case Rejected(_) => r.sends == 1
    case Refreshing(_) => r.sends == 1
    case Resending(_, _) => r.sends == 2
    case Done => r.sends <= 2
  }

  function AttemptedBy(phase: Phase): Option<Token> {
    if phase.Done? then None else phase.attempted
  }

  ghost predicate AllSendsFit(s: Session) {
    forall id <- s.requests :: SendsFit(s.requests[id])
  }

  ghost predicate AttemptsWereStored(s: Session) {
    forall id <- s.requests :: WasStored(s.log, AttemptedBy(s.requests[id].phase))
  }

  /** The lock is held exactly during a refresh. */
  ghost predicate LockHeld(s: Session) {
    && (forall id <- s.requests :: s.requests[id].phase.Refreshing? ==> s.holder == Some(id))
    && (s.holder.Some? ==> s.holder.value in s.requests && s.requests[s.holder.value].phase.Refreshing?)
  }

  predicate PastRefresh(s: Session, id: RequestId) {
    id in s.requests && (s.requests[id].phase.Resending? || s.requests[id].phase.Done?)
  }

  ghost predicate OneExchangeEach(s: Session) {
    && (forall i :: 0 <= i < |s.log| ==> PastRefresh(s, s.log[i].request))
    && (forall i, j :: 0 <= i < j < |s.log| ==> s.log[i].request != s.log[j].request)
  }

  ghost predicate Inv(s: Session) {
    Chained(s.token, s.log) && AllSendsFit(s) && AttemptsWereStored(s) && LockHeld(s) && OneExchangeEach(s)
  }

  /** An exchange is made only while the stored token is the one the request was rejected with. */
  lemma ExchangesOnRejectedToken(s: Session, step: Step)
    requires Chained(s.token, s.log) && AttemptsWereStored(s)
    requires Enabled(s, step) && Exchanges(s, step)
    ensures s.token == s.requests[step.id].phase.attempted
  {
    var attempted := s.requests[step.id].phase.attempted;
    if s.token.None? && attempted.Some? {
      assert WasStored(s.log, attempted);
    }
  }

  lemma ChainStays(s: Session, step: Step)
    requires Chained(s.token, s.log) && AttemptsWereStored(s) && Enabled(s, step)
    ensures Chained(Next(s, step).token, Next(s, step).log)
    ensures s.log <= Next(s, step).log
  {
    if Exchanges(s, step) {
      ExchangesOnRejectedToken(s, step);
      ChainGrows(s.token, s.log, Record(step.id, s.token, Issued(step.exchange).value));
    }
  }

  lemma ChainGrows(token: Option<Token>, log: seq<Record>, record: Record)
    requires Chained(token, log) && record.rejected == token
    ensures Chained(Some(record.issued), log + [record])
  {
    var log' := log + [record];
    forall i | 0 <= i < |log'| ensures log'[i].rejected == IssuedBefore(log', i) {
      assert IssuedBefore(log', i) == IssuedBefore(log, i);
    }
  }

  lemma StoredOnceStored(log: seq<Record>, log': seq<Record>, token: Option<Token>)
    requires log <= log' && WasStored(log, token)
    ensures WasStored(log', token)
  {
    if token.Some? {
      var i :| 0 <= i < |log| && log[i].issued == token.value;
      assert log'[i] == log[i];
    }
  }

  lemma StoredTokenWasStored(token: Option<Token>, log: seq<Record>)
    requires Chained(token, log)
    ensures WasStored(log, token)
  {
    if token.Some? {
      assert log[|log| - 1].issued == token.value;
    }
  }

  /** A request remembers the token it first sent, until it is done. */
  lemma AttemptMoves(s: Session, step: Step, id: RequestId)
    requires Enabled(s, step) && id in Next(s, step).requests
    ensures
      var attempted := AttemptedBy(Next(s, step).requests[id].phase);
      attempted == None || attempted == if id in s.requests then AttemptedBy(s.requests[id].phase) else s.token
  {
  }

  lemma AttemptsStay(s: Session, step: Step)
    requires Chained(s.token, s.log) && AttemptsWereStored(s) && Enabled(s, step)
    ensures AttemptsWereStored(Next(s, step))
  {
    var s' := Next(s, step);
    ChainStays(s, step);
    StoredTokenWasStored(s.token, s.log);
    forall id <- s'.requests ensures WasStored(s'.log, AttemptedBy(s'.requests[id].phase)) {
      AttemptMoves(s, step, id);
      StoredOnceStored(s.log, s'.log, if id in s.requests then AttemptedBy(s.requests[id].phase) else s.token);
    }
  }

  lemma LockAndSendsStay(s: Session, step: Step)
    requires AllSendsFit(s) && LockHeld(s) && Enabled(s, step)
    ensures AllSendsFit(Next(s, step)) && LockHeld(Next(s, step))
  {
  }

  lemma OneExchangeStays(s: Session, step: Step)
    requires OneExchangeEach(s) && Enabled(s, step)
    ensures OneExchangeEach(Next(s, step))
  {
    var s' := Next(s, step);
    forall i | 0 <= i < |s'.log| ensures PastRefresh(s', s'.log[i].request) {
      if i < |s.log| {
        assert s'.log[i] == s.log[i] && PastRefresh(s, s.log[i].request);
      }
    }
  }

  lemma InvStays(s: Session, step: Step)
    requires Inv(s) && Enabled(s, step)
    ensures Inv(Next(s, step))
  {
    ChainStays(s, step);
    AttemptsStay(s, step);
    LockAndSendsStay(s, step);
    OneExchangeStays(s, step);
  }

  // ----- What becomes of one request

  /** A request is first sent with the token then stored. */
  lemma StartOutcome(s: Session, id: RequestId)
    requires Enabled(s, Start(id))
    ensures Next(s, Start(id)) == s.(requests := s.requests[id := Request(Sending(s.token), 1)])
    ensures forall reply :: Enabled(Next(s, Start(id)), FirstReply(id, reply))
  {
  }

  /** And a second answer is its end, whatever it is. */
  lemma SecondReplyOutcome(s: Session, id: RequestId, reply: Reply)
    requires Enabled(s, SecondReply(id, reply))
    ensures Next(s, SecondReply(id, reply)) == s.(requests := s.requests[id := Request(Done, s.requests[id].sends)])
  {
  }

  /** A request that is answered, or lost, is over, and the session is as it was. */
  lemma FirstReplyOutcome(s: Session, id: RequestId, reply: Reply)
    requires Enabled(s, FirstReply(id, reply))
    ensures
      var s' := Next(s, FirstReply(id, reply));
      var attempted := s.requests[id].phase.attempted;
      && s' == s.(requests := s'.requests)
      && s'.requests.Keys == s.requests.Keys
      && s'.requests[id] ==
         Request(if reply == Unauthorized then Rejected(attempted) else Done, s.requests[id].sends)
      && forall other <- s.requests :: other != id ==> s'.requests[other] == s.requests[other]
  {
  }

  /** A rejected one takes the lock in whatever state `t` the others have left. It sends again
      with the token found stored if that is another one, or with the token issued, which is
      then stored and logged; if neither, it is over and the session is as it was. */
  lemma RejectedOutcome(t: Session, id: RequestId, exchange: Exchange)
    requires Enabled(t, Lock(id))
    ensures Enabled(Next(t, Lock(id)), Settle(id, exchange))
    ensures
      var u := Next(Next(t, Lock(id)), Settle(id, exchange));
      var attempted, sends := t.requests[id].phase.attempted, t.requests[id].sends;
      var another := t.token.Some? && t.token != attempted;
      && u.holder == None
      && u.requests.Keys == t.requests.Keys
      && (forall other <- t.requests :: other != id ==> u.requests[other] == t.requests[other])
      && if another then
           && u.requests[id] == Request(Resending(attempted, t.token.value), sends + 1)
           && u.token == t.token && u.log == t.log
         else if Issued(exchange).Ok? then
           var issued := Issued(exchange).value;
           && u.requests[id] == Request(Resending(attempted, issued), sends + 1)
           && u.token == Some(issued) && u.log == t.log + [Record(id, attempted, issued)]
         else
           u.requests[id] == Request(Done, sends) && u.token == t.token && u.log == t.log
  {
  }

  /** No request is ever stuck: whatever the answers, its own next step is open to it, or the
      lock is held by a refresh that can settle. */
  lemma NeverStuck(s: Session, id: RequestId, reply: Reply, exchange: Exchange)
    requires Inv(s)
    ensures id !in s.requests && s.holder.None? ==> Enabled(s, Start(id))
    ensures id in s.requests ==>
              match s.requests[id].phase
              case Sending(_) => Enabled(s, FirstReply(id, reply))
              case Rejected(_) =>
                if s.holder.None? then Enabled(s, Lock(id)) else Enabled(s, Settle(s.holder.value, exchange))
              case Refreshing(_) => Enabled(s, Settle(id, exchange))
              case Resending(_, _) => Enabled(s, SecondReply(id, reply))
              case Done => true
  {
  }

  // ----- Runs

  const FRESH := Session(None, None, map[], [])

  ghost predicate Possible(s: Session, steps: seq<Step>)
    decreases |steps|
  {
    steps == [] || (Enabled(s, steps[0]) && Possible(Next(s, steps[0]), steps[1..]))
  }

  ghost function After(s: Session, steps: seq<Step>): Session
    requires Possible(s, steps)
    decreases |steps|
  {
    if steps == [] then s else After(Next(s, steps[0]), steps[1..])
  }

  lemma {:induction false} RunKeepsInv(s: Session, steps: seq<Step>)
    requires Inv(s) && Possible(s, steps)
    ensures Inv(After(s, steps))
    decreases |steps|
  {
    if steps != [] {
      InvStays(s, steps[0]);
      RunKeepsInv(Next(s, steps[0]), steps[1..]);
    }
  }

  /** The exchanges whose token has since been replaced. */
  function Earlier(log: seq<Record>): seq<Record> {
    if log == [] then [] else log[..|log| - 1]
  }

  ghost predicate DistinctIssues(log: seq<Record>) {
    forall i, j :: 0 <= i < j < |log| ==> log[i].issued != log[j].issued
  }

  ghost predicate DistinctRejections(log: seq<Record>) {
    forall i, j :: 0 <= i < j < |log| ==> log[i].rejected != log[j].rejected
  }

  /** In every interleaving: each request sends at most twice and exchanges at most once, the
      first challenge is answered by one exchange only, and no rejected token is exchanged
      twice, exactly as long as the endpoint does not issue a replaced token again. */
  lemma ExchangesInEveryRun(steps: seq<Step>)
    requires Possible(FRESH, steps)
    ensures
      var s := After(FRESH, steps);
      && (forall id <- s.requests :: s.requests[id].sends <= 2)
      && (forall i, j :: 0 <= i < j < |s.log| ==> s.log[i].request != s.log[j].request)
      && (forall i :: 0 < i < |s.log| ==> s.log[i].rejected.Some?)
      && (DistinctRejections(s.log) <==> DistinctIssues(Earlier(s.log)))
  {
    RunKeepsInv(FRESH, steps);
    var s := After(FRESH, steps);
    RejectionsFollowIssues(s.token, s.log);
    forall id <- s.requests ensures s.requests[id].sends <= 2 {
      assert SendsFit(s.requests[id]);
    }
  }

  lemma RejectionsFollowIssues(token: Option<Token>, log: seq<Record>)
    requires Chained(token, log)
    ensures forall i :: 0 < i < |log| ==> log[i].rejected.Some?
    ensures DistinctRejections(log) <==> DistinctIssues(Earlier(log))
  {
    forall i | 0 < i < |log| ensures log[i].rejected == Some(Earlier(log)[i - 1].issued) {
      assert log[i].rejected == IssuedBefore(log, i);
    }
    if DistinctRejections(log) {
      forall i, j | 0 <= i < j < |Earlier(log)| ensures Earlier(log)[i].issued != Earlier(log)[j].issued {
        assert log[i + 1].rejected != log[j + 1].rejected;
      }
    }
    if DistinctIssues(Earlier(log)) {
      forall i, j | 0 <= i < j < |log| ensures log[i].rejected != log[j].rejected {
        if i > 0 {
          assert Earlier(log)[i - 1].issued != Earlier(log)[j - 1].issued;
        } else {
          assert log[i].rejected == IssuedBefore(log, 0);
        }
      }
    }
  }

  /** The second send repeats the rejected token exactly when the exchange gave it back. */
  lemma ResendsAnotherTokenExactly(s: Session, id: RequestId, exchange: Exchange)
    requires Inv(s) && Enabled(s, Settle(id, exchange))
    ensures
      var attempted, phase := s.requests[id].phase.attempted, Next(s, Settle(id, exchange)).requests[id].phase;
      (phase.Resending? && Some(phase.token) == attempted) <==>
        (Exchanges(s, Settle(id, exchange)) && Some(Issued(exchange).value) == attempted)
  {
  }
}
