/**
 The long poll of the original browser tab (line_handoff_wait in app/api/line_auth.py), with any
 number of handlers interleaved. A handler runs without interruption between its awaits, so a
 system step is one such stretch of one handler, or one create or resolve call from elsewhere.
*/
module HandoffPolling {
  import opened Wrappers
  import opened HandoffStore

  const MAX_CONCURRENT_WAITERS: int := 32

  // A handler asleep in the long poll, holding one waiter slot.
  datatype Parked = Parked(cookie: Option<string>, deadline: int)

  datatype System = System(tr: seq<Event>, tickets: Tickets, waiters: int, parked: map<nat, Parked>)

  datatype Happening =
    | Call(op: Op)
    | Arrive(p: nat, cookie: Option<string>, nowPeek: int, nowTake: int, mono: int, timeout: int)
    | Wake(p: nat, nowTake: int, mono: int)
    | Gone(p: nat)  // the client disconnects while its handler sleeps

  datatype Response = NoReply | NotFound | ServerError | Busy | Ready(record: Ticket) | NoContent | Sleeps

  const Start := System([], map[], 0, map[])

  function Perform(ttl: int, s: System, op: Op): (r: (System, Answer)) {
    var (tickets, answer) := Step(ttl, s.tickets, op);
    (s.(tickets := tickets, tr := s.tr + [Event(op, answer)]), answer)
  }

  function TryAcquire(s: System, p: nat, slot: Parked): Option<System> {
    if s.waiters >= MAX_CONCURRENT_WAITERS then None
    else Some(s.(waiters := s.waiters + 1, parked := s.parked[p := slot]))
  }

  function Release(s: System, p: nat): System {
    s.(waiters := if s.waiters > 0 then s.waiters - 1 else s.waiters, parked := s.parked - {p})
  }

  // One turn of the polling loop of handler p.
  function Turn(ttl: int, s: System, p: nat, now: int, mono: int): (System, Response)
    requires p in s.parked
  {
    var (t, answer) := Perform(ttl, s, Take(now, s.parked[p].cookie));
    if answer.Taken? && answer.record.Found? then (Release(t, p), Ready(answer.record.value))
    else if answer.Taken? && answer.record.Raises? then (Release(t, p), ServerError)
    else if mono >= s.parked[p].deadline then (Release(t, p), NoContent)
    else (t, Sleeps)
  }

  function Next(ttl: int, s: System, h: Happening): (System, Response) {
    match h
    case Call(op) =>
      if op.Create? || op.Resolve? then (Perform(ttl, s, op).0, NoReply) else (s, NoReply)
    case Arrive(p, cookie, nowPeek, nowTake, mono, timeout) =>
      if p in s.parked then (s, NoReply)
      else
        var (t, answer) := Perform(ttl, s, Peek(nowPeek, cookie));
        if answer.Peeked? && answer.status.Raises? then (t, ServerError)
        else if answer == Peeked(Nothing) then (t, NotFound)
        else (match TryAcquire(t, p, Parked(cookie, mono + timeout))
              case None => (t, Busy)
              case Some(u) => Turn(ttl, u, p, nowTake, mono))
    case Wake(p, nowTake, mono) => if p in s.parked then Turn(ttl, s, p, nowTake, mono) else (s, NoReply)
    case Gone(p) => if p in s.parked then (Release(s, p), NoReply) else (s, NoReply)
  }

  function SystemAt(ttl: int, hs: seq<Happening>, n: nat): System
    requires n <= |hs|
  {
    if n == 0 then Start else Next(ttl, SystemAt(ttl, hs, n - 1), hs[n - 1]).0
  }

  function ResponseAt(ttl: int, hs: seq<Happening>, n: nat): Response
    requires n < |hs|
  {
    Next(ttl, SystemAt(ttl, hs, n), hs[n]).1
  }

  // ---------- Waiter slots ----------

  ghost predicate SlotsCounted(s: System) {
    s.waiters == |s.parked.Keys| <= MAX_CONCURRENT_WAITERS
  }

  lemma ReleaseCounted(s: System, p: nat)
    requires SlotsCounted(s) && p in s.parked
    ensures s.waiters > 0 && Release(s, p).waiters == s.waiters - 1
    ensures SlotsCounted(Release(s, p))
  {
    assert Release(s, p).parked.Keys == s.parked.Keys - {p};
  }

  lemma AcquireCounted(s: System, p: nat, slot: Parked)
    requires SlotsCounted(s) && p !in s.parked && TryAcquire(s, p, slot).Some?
    ensures SlotsCounted(TryAcquire(s, p, slot).value)
  {
    assert TryAcquire(s, p, slot).value.parked.Keys == s.parked.Keys + {p};
  }

  lemma TurnCounted(ttl: int, s: System, p: nat, now: int, mono: int)
    requires SlotsCounted(s) && p in s.parked
    ensures SlotsCounted(Turn(ttl, s, p, now, mono).0)
  {
    hide Step;
    var t := Perform(ttl, s, Take(now, s.parked[p].cookie)).0;
    ReleaseCounted(t, p);
  }

  lemma NextCounted(ttl: int, s: System, h: Happening)
    requires SlotsCounted(s)
    ensures SlotsCounted(Next(ttl, s, h).0)
  {
    hide Step, Turn, Release;
    match h
    case Call(op) =>
    case Arrive(p, cookie, nowPeek, nowTake, mono, timeout) =>
      if p !in s.parked {
        var t := Perform(ttl, s, Peek(nowPeek, cookie)).0;
        var u := TryAcquire(t, p, Parked(cookie, mono + timeout));
        if u.Some? {
          AcquireCounted(t, p, Parked(cookie, mono + timeout));
          TurnCounted(ttl, u.value, p, nowTake, mono);
        }
      }
    case Wake(p, nowTake, mono) => if p in s.parked { TurnCounted(ttl, s, p, nowTake, mono); }
    case Gone(p) => if p in s.parked { ReleaseCounted(s, p); }
  }

  /** In every interleaving the counter is the number of handlers holding a slot, at most 32, so
      whenever a handler releases its slot the counter is positive and the guard is never needed. */
  lemma {:induction false} WaitersAreParked(ttl: int, hs: seq<Happening>, n: nat)
    requires n <= |hs|
    ensures SlotsCounted(SystemAt(ttl, hs, n))
    ensures forall p | p in SystemAt(ttl, hs, n).parked :: SystemAt(ttl, hs, n).waiters > 0
  {
    if n > 0 {
      WaitersAreParked(ttl, hs, n - 1);
      hide Next;
      NextCounted(ttl, SystemAt(ttl, hs, n - 1), hs[n - 1]);
    }
    forall p | p in SystemAt(ttl, hs, n).parked ensures SystemAt(ttl, hs, n).waiters > 0 {
      ReleaseCounted(SystemAt(ttl, hs, n), p);
    }
  }

  // ---------- Answers ----------

  // What the store says to an arriving handler's look and to a handler's take.
  function LookAt(ttl: int, s: System, h: Happening): Lookup<Status>
    requires h.Arrive?
  {
    Step(ttl, s.tickets, Peek(h.nowPeek, h.cookie)).1.status
  }

  function TakeAt(ttl: int, s: System, now: int, cookie: Option<string>): Lookup<Ticket> {
    Step(ttl, s.tickets, Take(now, cookie)).1.record
  }

  /** An arriving handler: 404 without a ticket, 503 while 32 others sleep, the identity if it is ready, 204
      when it may not wait, and else it sleeps with its cookie until its timeout. */
  lemma ArrivalAnswered(ttl: int, hs: seq<Happening>, n: nat)
    requires n < |hs| && hs[n].Arrive? && hs[n].p !in SystemAt(ttl, hs, n).parked
    ensures var s, h := SystemAt(ttl, hs, n), hs[n];
            var look, take := LookAt(ttl, s, h), TakeAt(ttl, s, h.nowTake, h.cookie);
            && ResponseAt(ttl, hs, n) ==
               (if look.Raises? then ServerError
                else if look.Nothing? then NotFound
                else if |s.parked| >= 32 then Busy
                else if take.Found? then Ready(take.value)
                else if take.Raises? then ServerError
                else if h.timeout <= 0 then NoContent
                else Sleeps)
            && SystemAt(ttl, hs, n + 1).parked ==
               (if ResponseAt(ttl, hs, n).Sleeps? then s.parked[h.p := Parked(h.cookie, h.mono + h.timeout)]
                else s.parked)
  {
    WaitersAreParked(ttl, hs, n);
    var s, h := SystemAt(ttl, hs, n), hs[n];
    hide SystemAt, PeekStep, TakeStep;
    assert |s.parked| == |s.parked.Keys|;
    assert s.parked[h.p := Parked(h.cookie, h.mono + h.timeout)] - {h.p} == s.parked;
    assert Step(ttl, Step(ttl, s.tickets, Peek(h.nowPeek, h.cookie)).0, Take(h.nowTake, h.cookie)) ==
           Step(ttl, s.tickets, Take(h.nowTake, h.cookie));
  }

  /** A woken handler: the identity if it is ready, 204 once its time is over, and else it sleeps on; whoever
      is answered no longer sleeps. Any other happening answers nobody. */
  lemma WakeAnswered(ttl: int, hs: seq<Happening>, n: nat)
    requires n < |hs| && (hs[n].Wake? || hs[n].Gone? || hs[n].Call? || hs[n].p in SystemAt(ttl, hs, n).parked)
    ensures var s, h := SystemAt(ttl, hs, n), hs[n];
            if h.Wake? && h.p in s.parked then
              var take := TakeAt(ttl, s, h.nowTake, s.parked[h.p].cookie);
              && ResponseAt(ttl, hs, n) ==
                 (if take.Found? then Ready(take.value)
                  else if take.Raises? then ServerError
                  else if h.mono >= s.parked[h.p].deadline then NoContent
                  else Sleeps)
              && SystemAt(ttl, hs, n + 1).parked ==
                 (if ResponseAt(ttl, hs, n).Sleeps? then s.parked else s.parked - {h.p})
            else
              && ResponseAt(ttl, hs, n) == NoReply
              && SystemAt(ttl, hs, n + 1).parked == (if h.Gone? then s.parked - {h.p} else s.parked)
  {
    hide TakeStep, PeekStep, CreateStep, ResolveStep;
  }

  // ---------- Deliveries ----------

  // The store calls made so far are a run of the store.
  ghost predicate Traced(ttl: int, s: System) {
    Answered(ttl, s.tr) && s.tickets == TicketsAt(ttl, s.tr, |s.tr|)
  }

  lemma {:induction false} TicketsOfPrefix(ttl: int, tr: seq<Event>, e: Event, n: nat)
    requires n <= |tr|
    ensures TicketsAt(ttl, tr + [e], n) == TicketsAt(ttl, tr, n)
  {
    hide Step;
    if n > 0 {
      TicketsOfPrefix(ttl, tr, e, n - 1);
    }
  }

  lemma PerformTraced(ttl: int, s: System, op: Op)
    requires Traced(ttl, s)
    ensures Traced(ttl, Perform(ttl, s, op).0)
  {
    hide Step;
    var e := Event(op, Step(ttl, s.tickets, op).1);
    var tr := s.tr + [e];
    forall j | 0 <= j < |tr| ensures tr[j].answer == Step(ttl, TicketsAt(ttl, tr, j), tr[j].op).1 {
      TicketsOfPrefix(ttl, s.tr, e, j);
    }
    TicketsOfPrefix(ttl, s.tr, e, |s.tr|);
  }

  // The last call of the trace is a take presenting `cookie` that was given `record`.
  predicate LastIs(tr: seq<Event>, cookie: Option<string>, record: Ticket) {
    tr != [] && tr[|tr| - 1].op.Take? && tr[|tr| - 1].op.cookie == cookie
    && tr[|tr| - 1].answer == Taken(Found(record))
  }

  // A step only appends to the trace, and a hand-over does append.
  lemma NextGrows(ttl: int, s: System, h: Happening)
    ensures Extends(s.tr, Next(ttl, s, h).0.tr)
    ensures Next(ttl, s, h).1.Ready? ==> |s.tr| < |Next(ttl, s, h).0.tr|
  {
    hide Step;
  }

  predicate Extends(a: seq<Event>, b: seq<Event>) {
    |a| <= |b| && forall j | 0 <= j < |a| :: a[j] == b[j]
  }

  // The cookie of the handler a happening runs.
  function CookieOf(s: System, h: Happening): Option<string> {
    match h
    case Arrive(_, cookie, _, _, _, _) => cookie
    case Wake(p, _, _) => if p in s.parked then s.parked[p].cookie else None
    case _ => None
  }

  lemma TurnTraced(ttl: int, s: System, p: nat, now: int, mono: int)
    requires Traced(ttl, s) && p in s.parked
    ensures Traced(ttl, Turn(ttl, s, p, now, mono).0)
    ensures Turn(ttl, s, p, now, mono).1.Ready? ==>
              LastIs(Turn(ttl, s, p, now, mono).0.tr, s.parked[p].cookie, Turn(ttl, s, p, now, mono).1.record)
  {
    PerformTraced(ttl, s, Take(now, s.parked[p].cookie));
    hide Step, Traced;
  }

  lemma SlotsKeepTrace(ttl: int, s: System, t: System)
    requires Traced(ttl, s) && t.tr == s.tr && t.tickets == s.tickets
    ensures Traced(ttl, t)
  {
  }

  lemma NextTraced(ttl: int, s: System, h: Happening)
    requires Traced(ttl, s)
    ensures Traced(ttl, Next(ttl, s, h).0)
    ensures Next(ttl, s, h).1.Ready? ==> LastIs(Next(ttl, s, h).0.tr, CookieOf(s, h), Next(ttl, s, h).1.record)
  {
    hide Step, Turn, Traced, LastIs;
    match h
    case Call(op) => PerformTraced(ttl, s, op);
    case Arrive(p, cookie, nowPeek, nowTake, mono, timeout) =>
      if p !in s.parked {
        PerformTraced(ttl, s, Peek(nowPeek, cookie));
        var t := Perform(ttl, s, Peek(nowPeek, cookie)).0;
        var u := TryAcquire(t, p, Parked(cookie, mono + timeout));
        if u.Some? {
          assert Traced(ttl, u.value) by { SlotsKeepTrace(ttl, t, u.value); }
          TurnTraced(ttl, u.value, p, nowTake, mono);
        }
      }
    case Wake(p, nowTake, mono) => if p in s.parked { TurnTraced(ttl, s, p, nowTake, mono); }
    case Gone(p) => SlotsKeepTrace(ttl, s, Next(ttl, s, h).0);
  }

  lemma StartTraced(ttl: int)
    ensures Traced(ttl, Start)
  {
  }

  lemma {:induction false} SystemTraced(ttl: int, hs: seq<Happening>, n: nat)
    requires n <= |hs|
    ensures Traced(ttl, SystemAt(ttl, hs, n))
  {
    hide Next, Traced, Step;
    if n == 0 {
      StartTraced(ttl);
    } else {
      SystemTraced(ttl, hs, n - 1);
      NextTraced(ttl, SystemAt(ttl, hs, n - 1), hs[n - 1]);
    }
  }

  lemma {:induction false} TraceGrows(ttl: int, hs: seq<Happening>, m: nat, n: nat)
    requires m <= n <= |hs|
    ensures Extends(SystemAt(ttl, hs, m).tr, SystemAt(ttl, hs, n).tr)
    decreases n
  {
    if m < n {
      TraceGrows(ttl, hs, m, n - 1);
      hide Next;
      NextGrows(ttl, SystemAt(ttl, hs, n - 1), hs[n - 1]);
    }
  }

  // Happening n hands an identity to the handler it runs.
  predicate HandsOver(ttl: int, hs: seq<Happening>, n: nat) {
    n < |hs| && ResponseAt(ttl, hs, n).Ready?
  }

  function PollCookie(ttl: int, hs: seq<Happening>, n: nat): Option<string>
    requires n < |hs|
  {
    CookieOf(SystemAt(ttl, hs, n), hs[n])
  }

  lemma HandOverInTrace(ttl: int, hs: seq<Happening>, n: nat)
    requires HandsOver(ttl, hs, n)
    ensures Traced(ttl, SystemAt(ttl, hs, n + 1))
    ensures LastIs(SystemAt(ttl, hs, n + 1).tr, PollCookie(ttl, hs, n), ResponseAt(ttl, hs, n).record)
    ensures |SystemAt(ttl, hs, n).tr| < |SystemAt(ttl, hs, n + 1).tr|
  {
    SystemTraced(ttl, hs, n);
    hide Next, Traced, LastIs, CookieOf;
    NextTraced(ttl, SystemAt(ttl, hs, n), hs[n]);
    NextGrows(ttl, SystemAt(ttl, hs, n), hs[n]);
  }

  /** A handler is given an identity only if its cookie is the one some create returned, and the
      identity is that of the first in-time resolve from the creator's address. */
  lemma HandOverIsOwed(ttl: int, hs: seq<Happening>, n: nat) returns (i: nat, k: nat)
    requires HandsOver(ttl, hs, n) && Plausible(SystemAt(ttl, hs, n + 1).tr)
    ensures var tr := SystemAt(ttl, hs, n + 1).tr;
            && Owed(ttl, tr, i, k, |tr| - 1)
            && PollCookie(ttl, hs, n) == Some(CookieValue(tr[i].op.id, tr[i].op.secret))
            && ResponseAt(ttl, hs, n).record == OwedRecord(ttl, tr, i, k)
  {
    hide SystemAt, Next, Answered, Plausible, FirstMatch, ResponseAt, PollCookie;
    HandOverInTrace(ttl, hs, n);
    var tr := SystemAt(ttl, hs, n + 1).tr;
    i, k := DeliveredOnlyToHolder(ttl, tr, |tr| - 1);
  }

  // The take made in a handler's turn: a woken handler's, or that of an arriving one that finds a free slot.
  function TakeOf(s: System, h: Happening): Option<Op> {
    match h
    case Arrive(p, cookie, _, nowTake, _, _) =>
      if p !in s.parked && s.waiters < MAX_CONCURRENT_WAITERS then Some(Take(nowTake, cookie)) else None
    case Wake(p, nowTake, _) => if p in s.parked then Some(Take(nowTake, s.parked[p].cookie)) else None
    case _ => None
  }

  // The system before the take: an arriving handler has looked its ticket up first.
  function Looked(ttl: int, s: System, h: Happening): System {
    if h.Arrive? then Perform(ttl, s, Peek(h.nowPeek, h.cookie)).0 else s
  }

  // The trace with the store calls of the handler's turn.
  function Asking(ttl: int, s: System, h: Happening): (tr: seq<Event>)
    requires TakeOf(s, h).Some?
    ensures tr != []
  {
    Perform(ttl, Looked(ttl, s, h), TakeOf(s, h).value).0.tr
  }

  lemma AskingTraced(ttl: int, s: System, h: Happening)
    requires Traced(ttl, s) && TakeOf(s, h).Some?
    ensures Answered(ttl, Asking(ttl, s, h))
    ensures var tr := Asking(ttl, s, h);
            tr[|tr| - 1] == Event(TakeOf(s, h).value, Step(ttl, s.tickets, TakeOf(s, h).value).1)
  {
    if h.Arrive? {
      PerformTraced(ttl, s, Peek(h.nowPeek, h.cookie));
    }
    hide Step;
    PerformTraced(ttl, Looked(ttl, s, h), TakeOf(s, h).value);
    assert Looked(ttl, s, h).tickets == s.tickets by { LookKeepsTickets(ttl, s, h); }
  }

  lemma LookKeepsTickets(ttl: int, s: System, h: Happening)
    ensures Looked(ttl, s, h).tickets == s.tickets
  {
    hide PeekStep;
  }

  // A ticket that a take finds is also found by an earlier look at it.
  lemma TakenWasThere(tickets: Tickets, cookie: Option<string>, nowPeek: int, nowTake: int)
    requires nowPeek <= nowTake && TakeStep(tickets, Take(nowTake, cookie)).1.Found?
    ensures PeekStep(tickets, Peek(nowPeek, cookie)).Found?
  {
    hide SplitCookie, CompareDigest;
  }

  /** And the handler is always given it: whenever its cookie is owed a record when its turn comes, the
      handler answers with that record. */
  lemma OwedIsHandedOver(ttl: int, hs: seq<Happening>, n: nat, i: nat, k: nat)
    requires n < |hs| && TakeOf(SystemAt(ttl, hs, n), hs[n]).Some?
    requires var tr := Asking(ttl, SystemAt(ttl, hs, n), hs[n]);
             Plausible(tr) && Owed(ttl, tr, i, k, |tr| - 1)
    ensures ResponseAt(ttl, hs, n) == Ready(OwedRecord(ttl, Asking(ttl, SystemAt(ttl, hs, n), hs[n]), i, k))
  {
    hide SystemAt, Answered, Owed, FirstMatch, TakeStep, PeekStep, Traced;
    var s, h := SystemAt(ttl, hs, n), hs[n];
    SystemTraced(ttl, hs, n);
    AskingTraced(ttl, s, h);
    var tr := Asking(ttl, s, h);
    OwedIsDelivered(ttl, tr, i, k, |tr| - 1);
    if h.Arrive? {
      assert tr[|tr| - 2].op == Peek(h.nowPeek, h.cookie);
      TakenWasThere(s.tickets, h.cookie, h.nowPeek, h.nowTake);
    }
  }

  /** And nobody with an outstanding ticket's cookie is told that there is none. */
  lemma NotFoundHasNone(ttl: int, hs: seq<Happening>, n: nat, i: nat)
    requires n < |hs| && ResponseAt(ttl, hs, n) == NotFound
    requires var tr := Looked(ttl, SystemAt(ttl, hs, n), hs[n]).tr;
             tr != [] && Plausible(tr) && Outstanding(ttl, tr, i, |tr| - 1)
    ensures !CookieOfCall(Looked(ttl, SystemAt(ttl, hs, n), hs[n]).tr, i, PollCookie(ttl, hs, n))
  {
    hide SystemAt, Plausible, Outstanding, Traced, Next, Looked, CookieOfCall;
    SystemTraced(ttl, hs, n);
    NotFoundAt(ttl, SystemAt(ttl, hs, n), hs[n], Looked(ttl, SystemAt(ttl, hs, n), hs[n]).tr, i);
  }

  lemma NotFoundAt(ttl: int, s: System, h: Happening, tr: seq<Event>, i: nat)
    requires Traced(ttl, s) && Next(ttl, s, h).1 == NotFound
    requires tr == Looked(ttl, s, h).tr && tr != [] && Plausible(tr) && Outstanding(ttl, tr, i, |tr| - 1)
    ensures !CookieOfCall(tr, i, CookieOf(s, h))
  {
    hide Plausible, Outstanding, Step, Next, Looked, Traced, Answered;
    NotFoundLooked(ttl, s, h);
    TracedAnswered(ttl, Looked(ttl, s, h));
    NothingForStrangers(ttl, tr, i, |tr| - 1);
  }

  lemma NotFoundLooked(ttl: int, s: System, h: Happening)
    requires Traced(ttl, s) && Next(ttl, s, h).1 == NotFound
    ensures h.Arrive? && Traced(ttl, Looked(ttl, s, h))
    ensures var tr := Looked(ttl, s, h).tr;
            tr != [] && tr[|tr| - 1] == Event(Peek(h.nowPeek, h.cookie), Peeked(Nothing))
  {
    hide TakeStep, PeekStep, CreateStep, ResolveStep, Traced;
    assert h.Arrive?;
    PerformTraced(ttl, s, Peek(h.nowPeek, h.cookie));
  }

  lemma TracedAnswered(ttl: int, s: System)
    requires Traced(ttl, s)
    ensures Answered(ttl, s.tr)
  {
  }

  /** No interleaving of handlers delivers one ticket twice: two hand-overs never go to handlers
      presenting the same cookie. */
  lemma HandedOverOnce(ttl: int, hs: seq<Happening>, n1: nat, n2: nat)
    requires HandsOver(ttl, hs, n1) && HandsOver(ttl, hs, n2) && n1 < n2
    requires Plausible(SystemAt(ttl, hs, n2 + 1).tr)
    ensures PollCookie(ttl, hs, n1) != PollCookie(ttl, hs, n2)
  {
    hide SystemAt, Next, Answered, Plausible, PollCookie, ResponseAt, LastIs, TicketsAt, Step;
    HandOverInTrace(ttl, hs, n1);
    HandOverInTrace(ttl, hs, n2);
    TraceGrows(ttl, hs, n1 + 1, n2);
    TraceGrows(ttl, hs, n1 + 1, n2 + 1);
    LastCookiesDiffer(ttl, SystemAt(ttl, hs, n1 + 1).tr, SystemAt(ttl, hs, n2 + 1).tr,
                      PollCookie(ttl, hs, n1), ResponseAt(ttl, hs, n1).record,
                      PollCookie(ttl, hs, n2), ResponseAt(ttl, hs, n2).record);
  }

  lemma LastCookiesDiffer(ttl: int, early: seq<Event>, late: seq<Event>,
                          c1: Option<string>, r1: Ticket, c2: Option<string>, r2: Ticket)
    requires Extends(early, late) && |early| < |late| && LastIs(early, c1, r1) && LastIs(late, c2, r2)
    requires Answered(ttl, late) && Plausible(late)
    ensures c1 != c2
  {
    hide Answered, Plausible;
    DeliveredAtMostOnce(ttl, late, |early| - 1, |late| - 1);
  }

  /** A sleeping handler holds the cookie its request arrived with, until its timeout after that. */
  lemma {:induction false} ParkedCookieArrived(ttl: int, hs: seq<Happening>, n: nat, p: nat)
    requires n <= |hs| && p in SystemAt(ttl, hs, n).parked
    ensures exists m | 0 <= m < n ::
              hs[m].Arrive? && hs[m].p == p && SystemAt(ttl, hs, n).parked[p].cookie == hs[m].cookie
              && SystemAt(ttl, hs, n).parked[p].deadline == hs[m].mono + hs[m].timeout
  {
    hide Step;
    if p in SystemAt(ttl, hs, n - 1).parked {
      ParkedCookieArrived(ttl, hs, n - 1, p);
    } else {
      assert hs[n - 1].Arrive? && hs[n - 1].p == p;
    }
  }
}
