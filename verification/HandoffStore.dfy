/**
 The same-browser LINE hand-off ticket store (app/services/line_handoff_store.py).

 `Step` gives the effect of one store call on the ticket table; the class `Store` is the
 module-level dictionary with its prune loop, proved to do exactly that. `ArchiveStep` is an
 independent reference store that never deletes anything and only filters by expiry and by
 "already taken"; the theorems say that nobody can tell the two apart, and describe completely
 which polls are given which identity.
*/
module HandoffStore {
  import opened Wrappers

  const MAX_TICKETS: nat := 500

  datatype Status = Pending | Resolved

  datatype Identity = Identity(lineUserId: string, displayName: Option<string>, pictureUrl: Option<string>)

  datatype Ticket = Ticket(holderSecret: string, innerHint: string, clientIp: string,
                           status: Status, identity: Option<Identity>, expiresAt: int)

  datatype NewTicket = NewTicket(ticketId: string, cookieValue: string)

  datatype Outcome = ResolveOk | ResolveUnknown | ResolveAlready | ResolveIpMismatch | ResolveRaises

  // A lookup can find nothing, find a value, or raise: hmac.compare_digest refuses non-ASCII text.
  datatype Lookup<+T> = Nothing | Raises | Found(value: T)

  type Tickets = map<string, Ticket>

  datatype Op =
    | Create(now: int, id: string, secret: string, hint: string, ip: Option<string>)
    | Resolve(now: int, id: string, who: Identity, ip: Option<string>)
    | Peek(now: int, cookie: Option<string>)
    | Take(now: int, cookie: Option<string>)

  datatype Answer =
    | Created(ticket: Option<NewTicket>)
    | Resolution(outcome: Outcome)
    | Peeked(status: Lookup<Status>)
    | Taken(record: Lookup<Ticket>)

  // ---------- The code's own helpers ----------

  predicate Ascii(s: string) {
    forall i | 0 <= i < |s| :: s[i] as int < 128
  }

  function CompareDigest(a: string, b: string): Lookup<bool> {
    if Ascii(a) && Ascii(b) then Found(a == b) else Raises
  }

  function IpText(ip: Option<string>): string {
    ip.GetOr("")
  }

  function IndexOf(s: string, c: char): (i: nat)
    ensures i <= |s|
    ensures forall k | 0 <= k < i :: s[k] != c
    ensures i < |s| ==> s[i] == c
  {
    if s == [] || s[0] == c then 0 else 1 + IndexOf(s[1..], c)
  }

  // cookie.partition("."), with the malformed cases refused.
  function SplitCookie(cookie: Option<string>): Option<(string, string)> {
    if cookie.None? then None
    else
      var dot := IndexOf(cookie.value, '.');
      if dot == |cookie.value| || dot == 0 || dot + 1 == |cookie.value| then None
      else Some((cookie.value[..dot], cookie.value[dot + 1..]))
  }

  function CookieValue(id: string, secret: string): string {
    id + "." + secret
  }

  // A ticket id or a secret as secrets.token_urlsafe makes them, as far as the cookie cares.
  predicate Token(s: string) {
    s != "" && '.' !in s && Ascii(s)
  }

  /** Splitting is the inverse of joining: a cookie splits into (id, secret) exactly when it is
      the string handed out for them. */
  lemma SplitCookieInverse(cookie: Option<string>, id: string, secret: string)
    requires Token(id) && secret != ""
    ensures SplitCookie(cookie) == Some((id, secret)) <==> cookie == Some(CookieValue(id, secret))
  {
    if cookie.Some? {
      var c := cookie.value;
      var dot := IndexOf(c, '.');
      if SplitCookie(cookie) == Some((id, secret)) {
        assert c == c[..dot] + [c[dot]] + c[dot + 1..];
      }
      if c == CookieValue(id, secret) {
        assert c[|id|] == '.';
        assert forall k | 0 <= k < |id| :: c[k] == id[k] && id[k] in id;
        assert dot == |id|;
        assert c[..dot] == id && c[dot + 1..] == secret;
      }
    }
  }

  function Prune(tickets: Tickets, now: int): Tickets {
    map id | id in tickets && tickets[id].expiresAt > now :: tickets[id]
  }

  function Authenticated(tickets: Tickets, cookie: Option<string>, now: int): (r: Lookup<string>)
    ensures r.Found? ==> r.value in tickets
  {
    match SplitCookie(cookie)
    case None => Nothing
    case Some((id, secret)) =>
      if id !in tickets || tickets[id].expiresAt <= now then Nothing
      else match CompareDigest(tickets[id].holderSecret, secret)
        case Raises => Raises
        case Nothing => Nothing
        case Found(equal) => if equal then Found(id) else Nothing
  }

  function NewRecord(ttl: int, op: Op): Ticket
    requires op.Create?
  {
    Ticket(op.secret, op.hint, IpText(op.ip), Pending, None, op.now + ttl)
  }

  function CreateStep(ttl: int, tickets: Tickets, op: Op): (Tickets, Option<NewTicket>)
    requires op.Create?
  {
    var pruned := Prune(tickets, op.now);
    if |pruned| >= MAX_TICKETS then (pruned, None)
    else (pruned[op.id := NewRecord(ttl, op)], Some(NewTicket(op.id, CookieValue(op.id, op.secret))))
  }

  function ResolveStep(tickets: Tickets, op: Op): (Tickets, Outcome)
    requires op.Resolve?
  {
    if op.id !in tickets || tickets[op.id].expiresAt <= op.now then (tickets, ResolveUnknown)
    else
      var record := tickets[op.id];
      if record.status != Pending then (tickets, ResolveAlready)
      else match CompareDigest(record.clientIp, IpText(op.ip))
        case Raises => (tickets, ResolveRaises)
        case Nothing => (tickets, ResolveIpMismatch)
        case Found(equal) =>
          if !equal then (tickets, ResolveIpMismatch)
          else (tickets[op.id := record.(status := Resolved, identity := Some(op.who))], ResolveOk)
  }

  function PeekStep(tickets: Tickets, op: Op): Lookup<Status>
    requires op.Peek?
  {
    match Authenticated(tickets, op.cookie, op.now)
    case Nothing => Nothing
    case Raises => Raises
    case Found(id) => Found(tickets[id].status)
  }

  function TakeStep(tickets: Tickets, op: Op): (Tickets, Lookup<Ticket>)
    requires op.Take?
  {
    match Authenticated(tickets, op.cookie, op.now)
    case Nothing => (tickets, Nothing)
    case Raises => (tickets, Raises)
    case Found(id) =>
      if tickets[id].status != Resolved then (tickets, Nothing) else (tickets - {id}, Found(tickets[id]))
  }

  // One call of the store's public functions.
  function Step(ttl: int, tickets: Tickets, op: Op): (Tickets, Answer) {
    match op
    case Create(_, _, _, _, _) => var (t, r) := CreateStep(ttl, tickets, op); (t, Created(r))
    case Resolve(_, _, _, _) => var (t, r) := ResolveStep(tickets, op); (t, Resolution(r))
    case Peek(_, _) => (tickets, Peeked(PeekStep(tickets, op)))
    case Take(_, _) => var (t, r) := TakeStep(tickets, op); (t, Taken(r))
  }

  /** Which cookies are let in: a cookie is accepted exactly when it is, character for character,
      the string issued for a live ticket, and a non-ASCII text after a live id raises. Every other
      cookie is answered alike; the documented promise that all refusals look the same therefore
      holds exactly for the cookies that do not combine a live id with a non-ASCII secret. */
  lemma RefusalsLookAlike(tickets: Tickets, cookie: Option<string>, now: int, id: string)
    requires forall t | t in tickets :: Token(t) && Token(tickets[t].holderSecret)
    ensures Authenticated(tickets, cookie, now) == Found(id) <==>
            && id in tickets && tickets[id].expiresAt > now
            && cookie == Some(CookieValue(id, tickets[id].holderSecret))
    ensures Authenticated(tickets, cookie, now) == Raises <==>
            exists t, secret :: t in tickets && tickets[t].expiresAt > now && secret != "" && !Ascii(secret)
                                && cookie == Some(CookieValue(t, secret))
  {
    match SplitCookie(cookie)
    case None =>
      forall t, secret | t in tickets && secret != "" ensures cookie != Some(CookieValue(t, secret)) {
        SplitCookieInverse(cookie, t, secret);
      }
    case Some((t0, secret0)) =>
      if t0 in tickets {
        SplitCookieInverse(cookie, t0, secret0);
        SplitCookieInverse(cookie, t0, tickets[t0].holderSecret);
      }
      forall t, secret | t in tickets && secret != "" && cookie == Some(CookieValue(t, secret))
        ensures t == t0 && secret == secret0
      {
        SplitCookieInverse(cookie, t, secret);
      }
  }

  /** Two refused cookies that do not look alike: with a live ticket, a wrong secret finds nothing, and
      one with an accented letter raises. */
  lemma AccentedSecretRaises(ticket: Ticket, now: int)
    requires ticket.holderSecret == "s" && ticket.expiresAt > now
    ensures Authenticated(map["t" := ticket], Some("t.x"), now) == Nothing
    ensures Authenticated(map["t" := ticket], Some("t.\U{00E9}"), now) == Raises
  {
    SplitCookieInverse(Some("t.x"), "t", "x");
    SplitCookieInverse(Some("t.\U{00E9}"), "t", "\U{00E9}");
    assert "\U{00E9}"[0] as int >= 128;
    assert CookieValue("t", "x") == "t.x" && CookieValue("t", "\U{00E9}") == "t.\U{00E9}";
  }

  // ---------- The store as the process holds it ----------

  class Store {
    var tickets: Tickets
    const ttl: int

    constructor (ttl: int)
      ensures tickets == map[] && this.ttl == ttl
    {
      this.ttl := ttl;
      tickets := map[];
    }

    // Drops the expired tickets one key at a time.
    method PruneLocked(now: int)
      modifies this
      ensures tickets == Prune(old(tickets), now)
    {
      var expired := set id | id in tickets && tickets[id].expiresAt <= now;
      while expired != {}
        invariant expired <= tickets.Keys
        invariant forall id | id in tickets :: id in old(tickets) && tickets[id] == old(tickets)[id]
        invariant forall id | id in old(tickets) :: id !in tickets ==> old(tickets)[id].expiresAt <= now
        invariant forall id | id in tickets :: tickets[id].expiresAt <= now <==> id in expired
        decreases |expired|
      {
        var id :| id in expired;
        tickets := tickets - {id};
        expired := expired - {id};
      }
    }

    method CreateTicket(now: int, id: string, secret: string, hint: string, ip: Option<string>)
      returns (r: Option<NewTicket>)
      modifies this
      ensures (tickets, r) == CreateStep(ttl, old(tickets), Create(now, id, secret, hint, ip))
    {
      PruneLocked(now);
      if |tickets| >= MAX_TICKETS {
        return None;
      }
      tickets := tickets[id := Ticket(secret, hint, IpText(ip), Pending, None, now + ttl)];
      r := Some(NewTicket(id, id + "." + secret));
    }

    method ResolveTicket(now: int, id: string, who: Identity, ip: Option<string>) returns (r: Outcome)
      modifies this
      ensures (tickets, r) == ResolveStep(old(tickets), Resolve(now, id, who, ip))
      ensures r != ResolveOk ==> tickets == old(tickets)
    {
      if id !in tickets || tickets[id].expiresAt <= now {
        return ResolveUnknown;
      }
      var record := tickets[id];
      if record.status != Pending {
        return ResolveAlready;
      }
      var same := CompareDigest(record.clientIp, IpText(ip));
      if same == Raises {
        return ResolveRaises;
      }
      if same != Found(true) {
        return ResolveIpMismatch;
      }
      tickets := tickets[id := record.(status := Resolved, identity := Some(who))];
      return ResolveOk;
    }

    method PeekStatus(now: int, cookie: Option<string>) returns (r: Lookup<Status>)
      ensures r == PeekStep(tickets, Peek(now, cookie))
    {
      match Authenticated(tickets, cookie, now) {
        case Nothing => return Nothing;
        case Raises => return Raises;
        case Found(id) => return Found(tickets[id].status);
      }
    }

    method TakeResolved(now: int, cookie: Option<string>) returns (r: Lookup<Ticket>)
      modifies this
      ensures (tickets, r) == TakeStep(old(tickets), Take(now, cookie))
    {
      match Authenticated(tickets, cookie, now) {
        case Nothing => return Nothing;
        case Raises => return Raises;
        case Found(id) =>
          var record := tickets[id];
          if record.status != Resolved {
            return Nothing;
          }
          tickets := tickets - {id};
          return Found(record);
      }
    }
  }

  // ---------- The reference: an archive that never forgets ----------

  // What is known about one issued ticket: which call issued, resolved and took it.
  datatype Entry = Entry(ticket: Ticket, createdAt: nat, resolvedAt: Option<nat>, takenAt: Option<nat>)

  type Archive = map<string, Entry>

  // The tickets that still count at time `now`.
  function Live(archive: Archive, now: int): set<string> {
    set id | id in archive && archive[id].takenAt.None? && archive[id].ticket.expiresAt > now
  }

  // The live ticket whose issued cookie string is exactly `cookie`.
  function Owned(archive: Archive, cookie: Option<string>, now: int): (r: Lookup<string>)
    ensures r.Found? ==> r.value in Live(archive, now)
    ensures r.Found? ==> cookie == Some(CookieValue(r.value, archive[r.value].ticket.holderSecret))
  {
    match SplitCookie(cookie)
    case None => Nothing
    case Some((id, secret)) =>
      if id !in Live(archive, now) then Nothing
      else if !Ascii(secret) then Raises
      else if cookie == Some(CookieValue(id, archive[id].ticket.holderSecret)) then Found(id) else Nothing
  }

  function ArchiveCreate(ttl: int, archive: Archive, op: Op, n: nat): (Archive, Option<NewTicket>)
    requires op.Create?
  {
    if |Live(archive, op.now)| >= MAX_TICKETS then (archive, None)
    else (archive[op.id := Entry(NewRecord(ttl, op), n, None, None)],
          Some(NewTicket(op.id, CookieValue(op.id, op.secret))))
  }

  ghost predicate SameIds(a: Archive, b: Archive) {
    a.Keys == b.Keys && forall id | id in a :: a[id].createdAt == b[id].createdAt
  }

  function ArchiveResolve(archive: Archive, op: Op, n: nat): (r: (Archive, Outcome))
    requires op.Resolve?
    ensures SameIds(archive, r.0)
  {
    if op.id !in Live(archive, op.now) then (archive, ResolveUnknown)
    else
      var e := archive[op.id];
      if e.resolvedAt.Some? then (archive, ResolveAlready)
      else if !Ascii(e.ticket.clientIp) || !Ascii(IpText(op.ip)) then (archive, ResolveRaises)
      else if e.ticket.clientIp != IpText(op.ip) then (archive, ResolveIpMismatch)
      else
        var done := e.ticket.(status := Resolved, identity := Some(op.who));
        (archive[op.id := e.(ticket := done, resolvedAt := Some(n))], ResolveOk)
  }

  function ArchivePeek(archive: Archive, op: Op): Lookup<Status>
    requires op.Peek?
  {
    match Owned(archive, op.cookie, op.now)
    case Nothing => Nothing
    case Raises => Raises
    case Found(id) => Found(if archive[id].resolvedAt.Some? then Resolved else Pending)
  }

  function ArchiveTake(archive: Archive, op: Op, n: nat): (r: (Archive, Lookup<Ticket>))
    requires op.Take?
    ensures SameIds(archive, r.0)
  {
    match Owned(archive, op.cookie, op.now)
    case Nothing => (archive, Nothing)
    case Raises => (archive, Raises)
    case Found(id) =>
      if archive[id].resolvedAt.None? then (archive, Nothing)
      else (archive[id := archive[id].(takenAt := Some(n))], Found(archive[id].ticket))
  }

  // Call number n, answered from the archive.
  function ArchiveStep(ttl: int, archive: Archive, op: Op, n: nat): (Archive, Answer) {
    match op
    case Create(_, _, _, _, _) => var (t, r) := ArchiveCreate(ttl, archive, op, n); (t, Created(r))
    case Resolve(_, _, _, _) => var (t, r) := ArchiveResolve(archive, op, n); (t, Resolution(r))
    case Peek(_, _) => (archive, Peeked(ArchivePeek(archive, op)))
    case Take(_, _) => var (t, r) := ArchiveTake(archive, op, n); (t, Taken(r))
  }

  // ---------- Pruning is unobservable ----------

  ghost predicate Sound(e: Entry) {
    && Token(e.ticket.holderSecret)
    && (e.ticket.status == Resolved <==> e.resolvedAt.Some?)
  }

  // The table holds archive entries nobody has taken, and at least those not expired by `clock`.
  ghost predicate Mirrors(tickets: Tickets, archive: Archive, clock: int) {
    && (forall id | id in tickets ::
          id in archive && archive[id].takenAt.None? && tickets[id] == archive[id].ticket)
    && (forall id | id in archive && archive[id].takenAt.None? && archive[id].ticket.expiresAt > clock :: id in tickets)
    && (forall id | id in archive :: Token(id) && Sound(archive[id]))
  }

  ghost predicate Related(tickets: Tickets, archive: Archive, clock: int) {
    Mirrors(tickets, archive, clock) && |tickets.Keys| <= MAX_TICKETS
  }

  lemma MirrorsPruned(tickets: Tickets, archive: Archive, clock: int, now: int)
    requires Mirrors(tickets, archive, clock) && clock <= now
    ensures Mirrors(Prune(tickets, now), archive, now)
  {
    hide Token, Sound;
  }

  lemma MirrorsUpdate(tickets: Tickets, archive: Archive, clock: int, now: int, id: string, e: Entry)
    requires Mirrors(tickets, archive, clock) && clock <= now
    requires Token(id) && Sound(e) && e.takenAt.None?
    ensures Mirrors(tickets[id := e.ticket], archive[id := e], now)
  {
    hide Token, Sound;
  }

  lemma MirrorsTaken(tickets: Tickets, archive: Archive, clock: int, now: int, id: string, e: Entry)
    requires Mirrors(tickets, archive, clock) && clock <= now
    requires Token(id) && Sound(e) && e.takenAt.Some?
    ensures Mirrors(tickets - {id}, archive[id := e], now)
  {
    hide Token, Sound;
  }

  lemma SubsetSize<T>(a: set<T>, b: set<T>)
    requires a <= b
    ensures |a| <= |b|
  {
    assert b == a + (b - a);
  }

  /** The capacity test after pruning counts exactly the live tickets. */
  lemma PrunedIsLive(tickets: Tickets, archive: Archive, clock: int, now: int)
    requires Related(tickets, archive, clock) && clock <= now
    ensures Prune(tickets, now).Keys == Live(archive, now)
    ensures |Prune(tickets, now)| == |Live(archive, now)|
  {
    var p := Prune(tickets, now);
    assert p.Keys == Live(archive, now);
    assert |p| == |p.Keys|;
  }

  lemma AuthenticatedIsOwned(tickets: Tickets, archive: Archive, clock: int, cookie: Option<string>, now: int)
    requires Related(tickets, archive, clock) && clock <= now
    ensures Authenticated(tickets, cookie, now) == Owned(archive, cookie, now)
  {
    match SplitCookie(cookie)
    case None =>
    case Some((id, secret)) =>
      if id in Live(archive, now) {
        SplitCookieInverse(cookie, id, archive[id].ticket.holderSecret);
      }
  }

  lemma PruneShrinks(tickets: Tickets, now: int)
    ensures |Prune(tickets, now).Keys| <= |tickets.Keys| && |Prune(tickets, now)| == |Prune(tickets, now).Keys|
  {
    SubsetSize(Prune(tickets, now).Keys, tickets.Keys);
  }

  lemma CreateRelated(ttl: int, tickets: Tickets, archive: Archive, clock: int, op: Op, n: nat)
    requires Related(tickets, archive, clock) && clock <= op.now && op.Create?
    requires op.id !in archive && Token(op.id) && Token(op.secret)
    ensures CreateStep(ttl, tickets, op).1 == ArchiveCreate(ttl, archive, op, n).1
    ensures Related(CreateStep(ttl, tickets, op).0, ArchiveCreate(ttl, archive, op, n).0, op.now)
  {
    hide Mirrors, Token, Prune, Live;
    var p := Prune(tickets, op.now);
    PrunedIsLive(tickets, archive, clock, op.now);
    MirrorsPruned(tickets, archive, clock, op.now);
    PruneShrinks(tickets, op.now);
    if |p| < MAX_TICKETS {
      var e := Entry(NewRecord(ttl, op), n, None, None);
      MirrorsUpdate(p, archive, op.now, op.now, op.id, e);
      assert p[op.id := e.ticket].Keys == p.Keys + {op.id};
    }
  }

  // An id is in the table and unexpired exactly when it is live in the archive, with the same ticket.
  lemma LookupAgrees(tickets: Tickets, archive: Archive, clock: int, now: int, id: string)
    requires Mirrors(tickets, archive, clock) && clock <= now
    ensures id in tickets && tickets[id].expiresAt > now <==> id in Live(archive, now)
    ensures id in Live(archive, now) ==>
              tickets[id] == archive[id].ticket && archive[id].takenAt.None? && Token(id) && Sound(archive[id])
  {
    hide Token, Sound;
  }

  lemma MirrorsLater(tickets: Tickets, archive: Archive, clock: int, now: int)
    requires Mirrors(tickets, archive, clock) && clock <= now
    ensures Mirrors(tickets, archive, now)
  {
    hide Token, Sound;
  }

  lemma ResolveRelated(tickets: Tickets, archive: Archive, clock: int, op: Op, n: nat)
    requires Related(tickets, archive, clock) && clock <= op.now && op.Resolve?
    ensures ResolveStep(tickets, op).1 == ArchiveResolve(archive, op, n).1
    ensures Related(ResolveStep(tickets, op).0, ArchiveResolve(archive, op, n).0, op.now)
  {
    hide Ascii, Token, SameIds, Mirrors, Live, IpText;
    var (a, r) := ArchiveResolve(archive, op, n);
    LookupAgrees(tickets, archive, clock, op.now, op.id);
    MirrorsLater(tickets, archive, clock, op.now);
    if r == ResolveOk {
      MirrorsUpdate(tickets, archive, clock, op.now, op.id, a[op.id]);
    }
    assert ResolveStep(tickets, op).0.Keys == tickets.Keys;
  }

  lemma TakeRelated(tickets: Tickets, archive: Archive, clock: int, op: Op, n: nat)
    requires Related(tickets, archive, clock) && clock <= op.now && op.Take?
    ensures TakeStep(tickets, op).1 == ArchiveTake(archive, op, n).1
    ensures Related(TakeStep(tickets, op).0, ArchiveTake(archive, op, n).0, op.now)
  {
    AuthenticatedIsOwned(tickets, archive, clock, op.cookie, op.now);
    hide Authenticated, Owned, SplitCookie, Token, SameIds;
    assert Mirrors(tickets, archive, op.now);
    var (a, r) := ArchiveTake(archive, op, n);
    SubsetSize(TakeStep(tickets, op).0.Keys, tickets.Keys);
    if r.Found? {
      var id := Owned(archive, op.cookie, op.now).value;
      MirrorsTaken(tickets, archive, clock, op.now, id, a[id]);
    }
  }

  lemma StepRelated(ttl: int, tickets: Tickets, archive: Archive, clock: int, op: Op, n: nat)
    requires Related(tickets, archive, clock) && clock <= op.now
    requires op.Create? ==> op.id !in archive && Token(op.id) && Token(op.secret)
    ensures Step(ttl, tickets, op).1 == ArchiveStep(ttl, archive, op, n).1
    ensures Related(Step(ttl, tickets, op).0, ArchiveStep(ttl, archive, op, n).0, op.now)
  {
    hide CreateStep, ResolveStep, TakeStep, PeekStep, ArchiveCreate, ArchiveResolve, ArchiveTake, Authenticated, Owned;
    match op
    case Create(_, _, _, _, _) => CreateRelated(ttl, tickets, archive, clock, op, n);
    case Resolve(_, _, _, _) => ResolveRelated(tickets, archive, clock, op, n);
    case Peek(_, _) => PeekRelated(tickets, archive, clock, op);
    case Take(_, _) => TakeRelated(tickets, archive, clock, op, n);
  }

  lemma PeekRelated(tickets: Tickets, archive: Archive, clock: int, op: Op)
    requires Related(tickets, archive, clock) && clock <= op.now && op.Peek?
    ensures PeekStep(tickets, op) == ArchivePeek(archive, op)
    ensures Related(tickets, archive, op.now)
  {
    AuthenticatedIsOwned(tickets, archive, clock, op.cookie, op.now);
    hide Authenticated, Owned, SplitCookie;
  }

  // ---------- Runs ----------

  datatype Event = Event(op: Op, answer: Answer)

  // The tickets after the first n calls.
  function TicketsAt(ttl: int, tr: seq<Event>, n: nat): Tickets
    requires n <= |tr|
  {
    if n == 0 then map[] else Step(ttl, TicketsAt(ttl, tr, n - 1), tr[n - 1].op).0
  }

  function ArchiveAt(ttl: int, tr: seq<Event>, n: nat): Archive
    requires n <= |tr|
  {
    if n == 0 then map[] else ArchiveStep(ttl, ArchiveAt(ttl, tr, n - 1), tr[n - 1].op, n - 1).0
  }

  // Every answer of the trace is what the store answers at that point.
  ghost predicate Answered(ttl: int, tr: seq<Event>) {
    forall j | 0 <= j < |tr| :: tr[j].answer == Step(ttl, TicketsAt(ttl, tr, j), tr[j].op).1
  }

  // The clock never goes back, and every ticket id is a fresh token.
  ghost predicate Plausible(tr: seq<Event>) {
    && (forall i, j | 0 <= i < j < |tr| :: tr[i].op.now <= tr[j].op.now)
    && (forall i | 0 <= i < |tr| && tr[i].op.Create? :: Token(tr[i].op.id) && Token(tr[i].op.secret))
    && (forall i, j | 0 <= i < j < |tr| && tr[i].op.Create? && tr[j].op.Create? :: tr[i].op.id != tr[j].op.id)
  }

  function Clock(tr: seq<Event>, n: nat): int
    requires n <= |tr| && tr != []
  {
    tr[if n == 0 then 0 else n - 1].op.now
  }

  // The archive's ids are those of the tickets created so far.
  ghost predicate IdsFrom(archive: Archive, tr: seq<Event>, n: nat)
    requires n <= |tr|
  {
    forall id | id in archive ::
      archive[id].createdAt < n && tr[archive[id].createdAt].op.Create? && tr[archive[id].createdAt].op.id == id
  }

  lemma IdsFromStep(ttl: int, archive: Archive, tr: seq<Event>, n: nat)
    requires n < |tr| && IdsFrom(archive, tr, n)
    ensures IdsFrom(ArchiveStep(ttl, archive, tr[n].op, n).0, tr, n + 1)
  {
    hide SplitCookie;
  }

  lemma NextCallFits(archive: Archive, tr: seq<Event>, n: nat)
    requires Plausible(tr) && n < |tr| && IdsFrom(archive, tr, n)
    ensures Clock(tr, n) <= tr[n].op.now
    ensures tr[n].op.Create? ==> tr[n].op.id !in archive && Token(tr[n].op.id) && Token(tr[n].op.secret)
  {
  }

  lemma EmptyRelated(tr: seq<Event>)
    requires tr != []
    ensures Related(map[], map[], Clock(tr, 0)) && IdsFrom(map[], tr, 0)
  {
  }

  lemma ClockNext(tr: seq<Event>, n: nat)
    requires 0 < n <= |tr|
    ensures Clock(tr, n) == tr[n - 1].op.now
  {
  }

  lemma {:induction false} Simulation(ttl: int, tr: seq<Event>, n: nat)
    requires Plausible(tr) && n <= |tr| && tr != []
    ensures Related(TicketsAt(ttl, tr, n), ArchiveAt(ttl, tr, n), Clock(tr, n))
    ensures IdsFrom(ArchiveAt(ttl, tr, n), tr, n)
  {
    hide Step, ArchiveStep, Related, IdsFrom, Clock, Plausible;
    if n == 0 {
      EmptyRelated(tr);
    } else {
      Simulation(ttl, tr, n - 1);
      var t, a, op := TicketsAt(ttl, tr, n - 1), ArchiveAt(ttl, tr, n - 1), tr[n - 1].op;
      NextCallFits(a, tr, n - 1);
      IdsFromStep(ttl, a, tr, n - 1);
      StepRelated(ttl, t, a, Clock(tr, n - 1), op, n - 1);
      ClockNext(tr, n);
    }
  }

  /** With a nondecreasing clock and fresh ids, every call of every run is answered exactly as
      the archive that never deletes anything answers it; the capacity test counts exactly the
      live tickets, and the table never exceeds its ceiling. */
  lemma PruningUnobservable(ttl: int, tr: seq<Event>, j: nat)
    requires Answered(ttl, tr) && Plausible(tr) && j < |tr|
    ensures tr[j].answer == ArchiveStep(ttl, ArchiveAt(ttl, tr, j), tr[j].op, j).1
    ensures |Prune(TicketsAt(ttl, tr, j), tr[j].op.now)| == |Live(ArchiveAt(ttl, tr, j), tr[j].op.now)|
    ensures |TicketsAt(ttl, tr, j + 1)| <= 500
  {
    Simulation(ttl, tr, j);
    var t, a := TicketsAt(ttl, tr, j), ArchiveAt(ttl, tr, j);
    NextCallFits(a, tr, j);
    hide Step, ArchiveStep, Plausible;
    PrunedIsLive(t, a, Clock(tr, j), tr[j].op.now);
    StepRelated(ttl, t, a, Clock(tr, j), tr[j].op, j);
    assert |TicketsAt(ttl, tr, j + 1)| == |TicketsAt(ttl, tr, j + 1).Keys|;
  }

  // ---------- Who is given what ----------

  // Call i issued a ticket; call j is a take that was given a record.
  predicate Issues(tr: seq<Event>, i: int) {
    0 <= i < |tr| && tr[i].op.Create? && tr[i].answer.Created? && tr[i].answer.ticket.Some?
  }

  predicate Delivers(tr: seq<Event>, j: int) {
    0 <= j < |tr| && tr[j].op.Take? && tr[j].answer.Taken? && tr[j].answer.record.Found?
  }

  // Call k resolves, in time and from the creator's address, the ticket call i made.
  predicate Matches(ttl: int, tr: seq<Event>, i: int, k: int) {
    && 0 <= i < k < |tr| && tr[i].op.Create? && tr[k].op.Resolve? && tr[k].op.id == tr[i].op.id
    && tr[k].op.now < tr[i].op.now + ttl && SameAddress(tr[i].op.ip, tr[k].op.ip)
  }

  // One and the same address, in ASCII; an unknown address is the empty one.
  predicate SameAddress(a: Option<string>, b: Option<string>) {
    match a
    case None => b == None || b == Some("")
    case Some(text) => (b == a || (text == "" && b == None)) && forall c | c in text :: c as int < 128
  }

  ghost predicate FirstMatch(ttl: int, tr: seq<Event>, i: int, k: int) {
    Matches(ttl, tr, i, k) && forall m | m < k :: !Matches(ttl, tr, i, m)
  }

  // Call j is a take presenting the cookie string call i gave out.
  predicate Presents(tr: seq<Event>, i: int, j: int) {
    0 <= i < j < |tr| && tr[i].op.Create? && tr[j].op.Take?
    && tr[j].op.cookie == Some(CookieValue(tr[i].op.id, tr[i].op.secret))
  }

  // What the archive holds about a ticket after n calls is exactly what the calls say.
  ghost predicate Explains(ttl: int, tr: seq<Event>, n: nat, id: string, e: Entry) {
    var c := e.createdAt;
    && c < n <= |tr| && Issues(tr, c) && tr[c].op.id == id
    && (match e.resolvedAt
        case None => e.ticket == NewRecord(ttl, tr[c].op) && forall k | k < n :: !Matches(ttl, tr, c, k)
        case Some(k) => k < n && FirstMatch(ttl, tr, c, k)
                        && e.ticket == NewRecord(ttl, tr[c].op).(status := Resolved, identity := Some(tr[k].op.who)))
    && (match e.takenAt
        case None => forall j | j < n :: Delivers(tr, j) ==> !Presents(tr, c, j)
        case Some(t) => t < n && Delivers(tr, t) && Presents(tr, c, t) && e.resolvedAt.Some?)
  }

  ghost predicate Explained(ttl: int, tr: seq<Event>, n: nat, archive: Archive)
    requires n <= |tr|
  {
    && (forall i | i < n && Issues(tr, i) :: tr[i].op.id in archive && archive[tr[i].op.id].createdAt == i)
    && (forall id | id in archive :: Explains(ttl, tr, n, id, archive[id]))
  }

  // One more call, seen from one entry.
  lemma ExplainUntouched(ttl: int, tr: seq<Event>, n: nat, id: string, e: Entry)
    requires n < |tr| && Explains(ttl, tr, n, id, e)
    requires e.resolvedAt.None? ==> !Matches(ttl, tr, e.createdAt, n)
    requires e.takenAt.None? && Delivers(tr, n) ==> !Presents(tr, e.createdAt, n)
    ensures Explains(ttl, tr, n + 1, id, e)
  {
    hide Matches, Delivers, Presents, FirstMatch;
  }

  lemma ExplainResolved(ttl: int, tr: seq<Event>, n: nat, id: string, e: Entry)
    requires n < |tr| && Explains(ttl, tr, n, id, e)
    requires e.resolvedAt.None? && Matches(ttl, tr, e.createdAt, n)
    ensures Explains(ttl, tr, n + 1, id,
                     e.(ticket := e.ticket.(status := Resolved, identity := Some(tr[n].op.who)), resolvedAt := Some(n)))
  {
    assert FirstMatch(ttl, tr, e.createdAt, n);
  }

  lemma ExplainTaken(ttl: int, tr: seq<Event>, n: nat, id: string, e: Entry)
    requires n < |tr| && Explains(ttl, tr, n, id, e)
    requires e.resolvedAt.Some? && Delivers(tr, n) && Presents(tr, e.createdAt, n)
    ensures Explains(ttl, tr, n + 1, id, e.(takenAt := Some(n)))
  {
    hide Matches, Delivers, Presents, FirstMatch;
  }

  lemma ExplainNew(ttl: int, tr: seq<Event>, n: nat)
    requires Issues(tr, n)
    ensures Explains(ttl, tr, n + 1, tr[n].op.id, Entry(NewRecord(ttl, tr[n].op), n, None, None))
  {
  }

  lemma ExplainCreate(ttl: int, tr: seq<Event>, n: nat, a: Archive)
    requires n < |tr| && tr[n].op.Create? && Explained(ttl, tr, n, a)
    requires tr[n].op.id !in a && tr[n].answer == Created(ArchiveCreate(ttl, a, tr[n].op, n).1)
    ensures Explained(ttl, tr, n + 1, ArchiveCreate(ttl, a, tr[n].op, n).0)
  {
    hide Explains, NewRecord, Live, CookieValue;
    var b := ArchiveCreate(ttl, a, tr[n].op, n).0;
    forall id | id in b ensures Explains(ttl, tr, n + 1, id, b[id]) {
      if id in a {
        CreateUntouched(ttl, tr, n, id, a[id]);
      } else {
        ExplainNew(ttl, tr, n);
      }
    }
  }

  lemma CreateUntouched(ttl: int, tr: seq<Event>, n: nat, id: string, e: Entry)
    requires n < |tr| && tr[n].op.Create? && Explains(ttl, tr, n, id, e)
    ensures Explains(ttl, tr, n + 1, id, e)
  {
    hide Explains;
    ExplainUntouched(ttl, tr, n, id, e);
  }

  lemma ExplainResolve(ttl: int, tr: seq<Event>, n: nat, a: Archive)
    requires n < |tr| && tr[n].op.Resolve? && Explained(ttl, tr, n, a)
    ensures Explained(ttl, tr, n + 1, ArchiveResolve(a, tr[n].op, n).0)
  {
    hide Explains, ArchiveResolve;
    forall id | id in a ensures Explains(ttl, tr, n + 1, id, ArchiveResolve(a, tr[n].op, n).0[id]) {
      ExplainResolveEntry(ttl, tr, n, a, id);
    }
  }

  // How the code tells addresses: as texts.
  lemma AddressText(a: Option<string>, b: Option<string>)
    ensures SameAddress(a, b) <==> Ascii(IpText(a)) && IpText(a) == IpText(b)
    ensures IpText(a) == a.GetOr("") && IpText(b) == b.GetOr("")
  {
    AsciiMeaning(IpText(a));
    hide Ascii;
  }

  lemma AsciiMeaning(s: string)
    ensures Ascii(s) <==> forall c | c in s :: c as int < 128
  {
    if Ascii(s) {
      forall c | c in s ensures c as int < 128 {
        var i :| 0 <= i < |s| && s[i] == c;
      }
    } else {
      var i :| 0 <= i < |s| && s[i] as int >= 128;
      assert s[i] in s;
    }
  }

  lemma ExplainResolveEntry(ttl: int, tr: seq<Event>, n: nat, a: Archive, id: string)
    requires n < |tr| && tr[n].op.Resolve? && id in a && Explains(ttl, tr, n, id, a[id])
    ensures Explains(ttl, tr, n + 1, id, ArchiveResolve(a, tr[n].op, n).0[id])
  {
    var e := a[id];
    assert NewRecord(ttl, tr[e.createdAt].op).clientIp == IpText(tr[e.createdAt].op.ip);
    AddressText(tr[e.createdAt].op.ip, tr[n].op.ip);
    hide Ascii, SameAddress, IpText;
    if e.resolvedAt.None? && Matches(ttl, tr, e.createdAt, n) {
      ExplainResolved(ttl, tr, n, id, e);
    } else {
      ExplainUntouched(ttl, tr, n, id, e);
    }
  }

  // Whoever presents a ticket's cookie is presenting that entry's cookie, and the other way round.
  lemma ExplainTakeEntry(ttl: int, tr: seq<Event>, n: nat, a: Archive, id: string)
    requires n < |tr| && tr[n].op.Take? && id in a && Token(id) && Explains(ttl, tr, n, id, a[id])
    requires forall other | other in a :: Token(other) && Sound(a[other])
    requires tr[n].answer == Taken(ArchiveTake(a, tr[n].op, n).1)
    ensures Explains(ttl, tr, n + 1, id, ArchiveTake(a, tr[n].op, n).0[id])
  {
    var e, op := a[id], tr[n].op;
    assert e.ticket.holderSecret == tr[e.createdAt].op.secret;
    if Presents(tr, e.createdAt, n) {
      SplitCookieInverse(op.cookie, id, e.ticket.holderSecret);
    }
    hide SplitCookie, Matches, FirstMatch;
    if Delivers(tr, n) && Owned(a, op.cookie, op.now) == Found(id) {
      ExplainTaken(ttl, tr, n, id, e);
    } else {
      ExplainUntouched(ttl, tr, n, id, e);
    }
  }

  lemma ExplainTake(ttl: int, tr: seq<Event>, n: nat, a: Archive)
    requires n < |tr| && tr[n].op.Take? && Explained(ttl, tr, n, a)
    requires forall id | id in a :: Token(id) && Sound(a[id])
    requires tr[n].answer == Taken(ArchiveTake(a, tr[n].op, n).1)
    ensures Explained(ttl, tr, n + 1, ArchiveTake(a, tr[n].op, n).0)
  {
    hide Explains, ArchiveTake;
    forall id | id in a ensures Explains(ttl, tr, n + 1, id, ArchiveTake(a, tr[n].op, n).0[id]) {
      ExplainTakeEntry(ttl, tr, n, a, id);
    }
  }

  lemma EmptyExplained(ttl: int, tr: seq<Event>)
    ensures Explained(ttl, tr, 0, map[])
  {
  }

  lemma {:induction false} HistoryExplained(ttl: int, tr: seq<Event>, n: nat)
    requires Answered(ttl, tr) && Plausible(tr) && n <= |tr|
    ensures Explained(ttl, tr, n, ArchiveAt(ttl, tr, n))
  {
    hide Explained, Answered, Plausible, ArchiveStep;
    if n == 0 {
      EmptyExplained(ttl, tr);
    } else {
      HistoryExplained(ttl, tr, n - 1);
      HistoryStep(ttl, tr, n - 1);
    }
  }

  lemma HistoryStep(ttl: int, tr: seq<Event>, n: nat)
    requires Answered(ttl, tr) && Plausible(tr) && n < |tr|
    requires Explained(ttl, tr, n, ArchiveAt(ttl, tr, n))
    ensures Explained(ttl, tr, n + 1, ArchiveAt(ttl, tr, n + 1))
  {
    PruningUnobservable(ttl, tr, n);
    Simulation(ttl, tr, n);
    var a := ArchiveAt(ttl, tr, n);
    NextCallFits(a, tr, n);
    hide Explains, Explained, ArchiveCreate, ArchiveResolve, ArchiveTake, ArchivePeek, Step, Plausible, Answered,
      IdsFrom;
    match tr[n].op
    case Create(_, _, _, _, _) => ExplainCreate(ttl, tr, n, a);
    case Resolve(_, _, _, _) => ExplainResolve(ttl, tr, n, a);
    case Peek(_, _) => ExplainPeek(ttl, tr, n, a);
    case Take(_, _) => ExplainTake(ttl, tr, n, a);
  }

  lemma ExplainPeek(ttl: int, tr: seq<Event>, n: nat, a: Archive)
    requires n < |tr| && tr[n].op.Peek? && Explained(ttl, tr, n, a)
    ensures Explained(ttl, tr, n + 1, a)
  {
    forall id | id in a ensures Explains(ttl, tr, n + 1, id, a[id]) {
      hide Explains;
      ExplainUntouched(ttl, tr, n, id, a[id]);
    }
    hide Explains;
  }

  // The ticket call i issued can still be taken when call n comes.
  ghost predicate Outstanding(ttl: int, tr: seq<Event>, i: nat, n: nat)
    requires n < |tr|
  {
    && i < n && Issues(tr, i) && tr[n].op.now < tr[i].op.now + ttl
    && forall j | 0 <= j < n && Delivers(tr, j) :: !Presents(tr, i, j)
  }

  ghost function OutstandingCalls(ttl: int, tr: seq<Event>, n: nat): set<nat>
    requires n < |tr|
  {
    set i: nat | i < n && Outstanding(ttl, tr, i, n)
  }

  lemma {:induction false} SameSize(indices: set<nat>, ids: set<string>, tr: seq<Event>)
    requires forall i | i in indices :: i < |tr| && tr[i].op.Create? && tr[i].op.id in ids
    requires forall i, j | i in indices && j in indices && i != j :: tr[i].op.id != tr[j].op.id
    requires forall id | id in ids :: exists i :: i in indices && tr[i].op.id == id
    ensures |indices| == |ids|
    decreases |indices|
  {
    if i :| i in indices {
      SameSize(indices - {i}, ids - {tr[i].op.id}, tr);
    } else {
      assert ids == {};
    }
  }

  /** When there is room: a create is refused exactly when 500 tickets have been issued that are neither expired
      nor taken, and else answered with its id and the cookie made of id, dot and secret. */
  lemma CreateExactly(ttl: int, tr: seq<Event>, n: nat)
    requires Answered(ttl, tr) && Plausible(tr) && n < |tr| && tr[n].op.Create?
    ensures var op := tr[n].op;
            tr[n].answer == Created(if |OutstandingCalls(ttl, tr, n)| >= 500 then None
                                    else Some(NewTicket(op.id, op.id + "." + op.secret)))
  {
    HistoryExplained(ttl, tr, n);
    PruningUnobservable(ttl, tr, n);
    hide Step, Answered, ArchiveAt, OutstandingCalls, Explained, Live;
    LiveCalls(ttl, tr, n, ArchiveAt(ttl, tr, n));
  }

  // The live tickets are those of the outstanding calls.
  lemma LiveCalls(ttl: int, tr: seq<Event>, n: nat, a: Archive)
    requires Plausible(tr) && n < |tr| && Explained(ttl, tr, n, a)
    ensures |OutstandingCalls(ttl, tr, n)| == |Live(a, tr[n].op.now)|
    ensures forall i: nat | i < n && Issues(tr, i) ::
              tr[i].op.id in Live(a, tr[n].op.now) <==> Outstanding(ttl, tr, i, n)
  {
    hide Plausible;
    var calls, live := OutstandingCalls(ttl, tr, n), Live(a, tr[n].op.now);
    forall i: nat | i < n && Issues(tr, i) ensures tr[i].op.id in live <==> Outstanding(ttl, tr, i, n) {
      IssueIsLive(ttl, tr, n, a, i);
    }
    forall id | id in live ensures exists i :: i in calls && tr[i].op.id == id {
      assert Explains(ttl, tr, n, id, a[id]);
      assert a[id].createdAt in calls;
    }
    assert forall i | i in calls :: Issues(tr, i);
    hide Explained, Outstanding, OutstandingCalls, Live;
    DistinctIds(tr);
    SameSize(calls, live, tr);
  }

  lemma DistinctIds(tr: seq<Event>)
    requires Plausible(tr)
    ensures forall i, j | 0 <= i < |tr| && 0 <= j < |tr| && i != j && tr[i].op.Create? && tr[j].op.Create? ::
              tr[i].op.id != tr[j].op.id
  {
  }

  lemma IssueIsLive(ttl: int, tr: seq<Event>, n: nat, a: Archive, i: nat)
    requires n < |tr| && i < n && Issues(tr, i) && Explained(ttl, tr, n, a)
    ensures tr[i].op.id in Live(a, tr[n].op.now) <==> Outstanding(ttl, tr, i, n)
  {
    assert Explains(ttl, tr, n, tr[i].op.id, a[tr[i].op.id]);
    hide Matches, Delivers, Presents;
  }

  // The cookie is the string call i handed out.
  predicate CookieOfCall(tr: seq<Event>, i: nat, cookie: Option<string>) {
    i < |tr| && tr[i].op.Create? && cookie == Some(tr[i].op.id + "." + tr[i].op.secret)
  }

  // Whether the creator of ticket i has resolved it before call n.
  ghost function StatusOf(ttl: int, tr: seq<Event>, i: nat, n: nat): Status {
    if exists m | 0 <= m < n :: Matches(ttl, tr, i, m) then Resolved else Pending
  }

  /** What a look at a ticket says: to the cookie of an outstanding ticket, whether its creator's address has
      resolved it. */
  lemma PeekShows(ttl: int, tr: seq<Event>, i: nat, n: nat)
    requires Answered(ttl, tr) && Plausible(tr) && n < |tr| && tr[n].op.Peek? && Outstanding(ttl, tr, i, n)
    requires CookieOfCall(tr, i, tr[n].op.cookie)
    ensures tr[n].answer == Peeked(Found(StatusOf(ttl, tr, i, n)))
  {
    hide Step, Answered, Plausible, IdsFrom, Explained, Mirrors, ArchivePeek, Outstanding, Token, Sound, StatusOf,
         CookieOfCall;
    HistoryExplained(ttl, tr, n);
    PruningUnobservable(ttl, tr, n);
    Simulation(ttl, tr, n);
    MirrorsSound(TicketsAt(ttl, tr, n), ArchiveAt(ttl, tr, n), Clock(tr, n));
    ArchiveShows(ttl, tr, i, n, ArchiveAt(ttl, tr, n));
  }

  lemma NothingForStrangers(ttl: int, tr: seq<Event>, i: nat, n: nat)
    requires Answered(ttl, tr) && Plausible(tr) && n < |tr| && tr[n].op.Peek? && Outstanding(ttl, tr, i, n)
    requires tr[n].answer == Peeked(Nothing)
    ensures !CookieOfCall(tr, i, tr[n].op.cookie)
  {
    hide Answered, Plausible, Outstanding, CookieOfCall, StatusOf;
    if CookieOfCall(tr, i, tr[n].op.cookie) {
      PeekShows(ttl, tr, i, n);
    }
  }

  lemma ArchiveShows(ttl: int, tr: seq<Event>, i: nat, n: nat, a: Archive)
    requires n < |tr| && tr[n].op.Peek? && Outstanding(ttl, tr, i, n) && Explained(ttl, tr, n, a)
    requires CookieOfCall(tr, i, tr[n].op.cookie)
    requires forall id | id in a :: Token(id) && Sound(a[id])
    ensures ArchivePeek(a, tr[n].op) == Found(StatusOf(ttl, tr, i, n))
  {
    hide Owned, SplitCookie, Token;
    CookieText(tr[i].op.id, tr[i].op.secret);
    hide CookieValue;
    OwnedByHolder(ttl, tr, i, n, a);
    assert Explains(ttl, tr, n, tr[i].op.id, a[tr[i].op.id]);
    hide Matches, Explained;
  }

  lemma MirrorsSound(tickets: Tickets, a: Archive, clock: int)
    requires Mirrors(tickets, a, clock)
    ensures forall id | id in a :: Token(id) && Sound(a[id])
  {
  }

  /** And to any other cookie never a status. */
  lemma PeekHides(ttl: int, tr: seq<Event>, n: nat) returns (i: nat)
    requires Answered(ttl, tr) && Plausible(tr) && n < |tr| && tr[n].op.Peek? && tr[n].answer.status.Found?
    ensures Outstanding(ttl, tr, i, n) && CookieOfCall(tr, i, tr[n].op.cookie)
  {
    HistoryExplained(ttl, tr, n);
    PruningUnobservable(ttl, tr, n);
    hide Step, Answered, Plausible, Explained, ArchivePeek, Outstanding, ArchiveAt, CookieValue;
    i := OwnedIsOutstanding(ttl, tr, n, ArchiveAt(ttl, tr, n));
    CookieText(tr[i].op.id, tr[i].op.secret);
  }

  lemma CookieText(id: string, secret: string)
    ensures CookieValue(id, secret) == id + "." + secret
  {
  }

  lemma OwnedIsOutstanding(ttl: int, tr: seq<Event>, n: nat, a: Archive) returns (i: nat)
    requires n < |tr| && tr[n].op.Peek? && Explained(ttl, tr, n, a) && ArchivePeek(a, tr[n].op).Found?
    ensures Outstanding(ttl, tr, i, n) && tr[n].op.cookie == Some(CookieValue(tr[i].op.id, tr[i].op.secret))
  {
    hide SplitCookie, Matches, CookieValue;
    var id := Owned(a, tr[n].op.cookie, tr[n].op.now).value;
    assert Explains(ttl, tr, n, id, a[id]);
    i := a[id].createdAt;
  }

  lemma OwnedByHolder(ttl: int, tr: seq<Event>, i: nat, n: nat, a: Archive)
    requires n < |tr| && Explained(ttl, tr, n, a) && Outstanding(ttl, tr, i, n)
    requires forall id | id in a :: Token(id) && Sound(a[id])
    ensures Owned(a, Some(CookieValue(tr[i].op.id, tr[i].op.secret)), tr[n].op.now) == Found(tr[i].op.id)
  {
    var id := tr[i].op.id;
    IssueIsLive(ttl, tr, n, a, i);
    assert Explains(ttl, tr, n, id, a[id]);
    SplitCookieInverse(Some(CookieValue(id, tr[i].op.secret)), id, tr[i].op.secret);
    hide SplitCookie, Matches, Outstanding, CookieValue;
  }

  /** What a resolve is answered: of a ticket that was issued, has not expired and has not been taken, the first
      resolve from the creator's address succeeds and every later one comes too late; before it, an address
      outside ASCII raises and any other address is turned away. */
  lemma ResolveExactly(ttl: int, tr: seq<Event>, i: nat, k: nat)
    requires Answered(ttl, tr) && Plausible(tr) && Issues(tr, i) && i < k < |tr|
    requires tr[k].op.Resolve? && tr[k].op.id == tr[i].op.id
    ensures var mine, theirs := tr[i].op.ip.GetOr(""), tr[k].op.ip.GetOr("");
            var taken := exists j | 0 <= j < k :: Delivers(tr, j) && Presents(tr, i, j);
            var resolved := exists m | 0 <= m < k :: Matches(ttl, tr, i, m);
            tr[k].answer == Resolution(
              if tr[k].op.now >= tr[i].op.now + ttl || taken then ResolveUnknown
              else if resolved then ResolveAlready
              else if exists c :: (c in mine || c in theirs) && c as int >= 128 then ResolveRaises
              else if mine != theirs then ResolveIpMismatch
              else ResolveOk)
  {
    HistoryExplained(ttl, tr, k);
    PruningUnobservable(ttl, tr, k);
    hide Step, Answered, Plausible;
    var a, id := ArchiveAt(ttl, tr, k), tr[i].op.id;
    assert Explains(ttl, tr, k, id, a[id]);
    hide Matches, Delivers, Presents;
    AddressText(tr[i].op.ip, tr[k].op.ip);
    AsciiMeaning(IpText(tr[i].op.ip));
    AsciiMeaning(IpText(tr[k].op.ip));
    hide Ascii, IpText;
  }

  /** A ticket is resolved only from its creator's address: a resolve that succeeds is the first one from the
      address of the create that issued the id, and comes in time. */
  lemma ResolvedFromCreator(ttl: int, tr: seq<Event>, k: nat) returns (i: nat)
    requires Answered(ttl, tr) && Plausible(tr) && k < |tr| && tr[k].answer == Resolution(ResolveOk)
    ensures i < k && Issues(tr, i) && tr[k].op.Resolve? && tr[i].op.id == tr[k].op.id
    ensures tr[k].op.now < tr[i].op.now + ttl && tr[i].op.ip.GetOr("") == tr[k].op.ip.GetOr("")
    ensures forall c | c in tr[i].op.ip.GetOr("") :: c as int < 128
    ensures FirstMatch(ttl, tr, i, k)
  {
    HistoryExplained(ttl, tr, k);
    PruningUnobservable(ttl, tr, k);
    hide Step, Plausible, Explained, Answered, ArchiveResolve;
    i := ResolvedEntry(ttl, tr, k, ArchiveAt(ttl, tr, k));
  }

  lemma ResolvedEntry(ttl: int, tr: seq<Event>, k: nat, a: Archive) returns (i: nat)
    requires k < |tr| && Explained(ttl, tr, k, a) && tr[k].op.Resolve?
    requires ArchiveResolve(a, tr[k].op, k).1 == ResolveOk
    ensures i < k && Issues(tr, i) && tr[i].op.id == tr[k].op.id
    ensures tr[k].op.now < tr[i].op.now + ttl && tr[i].op.ip.GetOr("") == tr[k].op.ip.GetOr("")
    ensures forall c | c in tr[i].op.ip.GetOr("") :: c as int < 128
    ensures FirstMatch(ttl, tr, i, k)
  {
    var e := a[tr[k].op.id];
    i := e.createdAt;
    assert Explains(ttl, tr, k, tr[k].op.id, e);
    AddressText(tr[i].op.ip, tr[k].op.ip);
    AsciiMeaning(IpText(tr[i].op.ip));
    hide Ascii, IpText, SameAddress, Explained;
  }

  /** And from there it always is: the first resolve in time from the creator's ASCII address succeeds. */
  lemma CreatorResolves(ttl: int, tr: seq<Event>, i: nat, k: nat)
    requires Answered(ttl, tr) && Plausible(tr) && Issues(tr, i) && i < k < |tr|
    requires tr[k].op.Resolve? && tr[k].op.id == tr[i].op.id && tr[k].op.now < tr[i].op.now + ttl
    requires tr[i].op.ip.GetOr("") == tr[k].op.ip.GetOr("") && forall c | c in tr[i].op.ip.GetOr("") :: c as int < 128
    requires forall m | i < m < k && tr[m].op.Resolve? && tr[m].op.id == tr[i].op.id ::
               tr[m].op.ip.GetOr("") != tr[i].op.ip.GetOr("")
    ensures tr[k].answer == Resolution(ResolveOk)
  {
    hide Answered, Plausible, Presents, SameAddress;
    forall m | 0 <= m < k ensures !Matches(ttl, tr, i, m) {
      if i < m && tr[m].op.Resolve? {
        AddressText(tr[i].op.ip, tr[m].op.ip);
      }
    }
    hide Matches;
    forall j: nat | j < k && Delivers(tr, j) ensures !Presents(tr, i, j) {
      NotYetDelivered(ttl, tr, i, j);
    }
    ResolveExactly(ttl, tr, i, k);
  }

  // Without a resolve from the creator's address nothing is delivered.
  lemma NotYetDelivered(ttl: int, tr: seq<Event>, i: nat, j: nat)
    requires Answered(ttl, tr) && Plausible(tr) && Issues(tr, i) && j < |tr| && Delivers(tr, j)
    requires forall m | 0 <= m < j :: !Matches(ttl, tr, i, m)
    ensures !Presents(tr, i, j)
  {
    var i2, k := DeliveredOnlyToHolder(ttl, tr, j);
    hide Answered, Matches;
    if Presents(tr, i, j) {
      SameCookieSameCreate(tr, i, i2);
    }
  }

  // The record a take at call j is owed: call i issued the presented cookie, call k is the first
  // resolve from the creator's address, nobody was given it before, and it has not expired.
  ghost predicate Owed(ttl: int, tr: seq<Event>, i: int, k: int, j: int) {
    && 0 <= i < k < j < |tr| && Issues(tr, i) && Presents(tr, i, j) && FirstMatch(ttl, tr, i, k)
    && tr[j].op.now < tr[i].op.now + ttl
    && (forall m | m < j && Delivers(tr, m) :: !Presents(tr, i, m))
  }

  function OwedRecord(ttl: int, tr: seq<Event>, i: int, k: int): Ticket
    requires 0 <= i < |tr| && 0 <= k < |tr| && tr[i].op.Create? && tr[k].op.Resolve?
  {
    NewRecord(ttl, tr[i].op).(status := Resolved, identity := Some(tr[k].op.who))
  }

  /** Only the holder is given an identity: a delivery goes to a poll presenting exactly the cookie
      that some create returned, and hands over the identity of the first in-time resolve from the
      creator's address, never a later one and never twice. */
  lemma DeliveredOnlyToHolder(ttl: int, tr: seq<Event>, j: nat) returns (i: nat, k: nat)
    requires Answered(ttl, tr) && Plausible(tr) && Delivers(tr, j)
    ensures Owed(ttl, tr, i, k, j) && tr[j].answer == Taken(Found(OwedRecord(ttl, tr, i, k)))
    ensures tr[k].op.now < tr[i].op.now + ttl && tr[k].op.ip.GetOr("") == tr[i].op.ip.GetOr("")
    ensures tr[j].answer.record.value.identity == Some(tr[k].op.who)
  {
    HistoryExplained(ttl, tr, j);
    PruningUnobservable(ttl, tr, j);
    hide Step, Answered, Plausible, Owed, Explained;
    i, k := OwnedIsOwed(ttl, tr, j, ArchiveAt(ttl, tr, j));
    assert Matches(ttl, tr, i, k) by { OwedMatches(ttl, tr, i, k, j); }
    AddressText(tr[i].op.ip, tr[k].op.ip);
  }

  lemma OwedMatches(ttl: int, tr: seq<Event>, i: int, k: int, j: int)
    requires Owed(ttl, tr, i, k, j)
    ensures Matches(ttl, tr, i, k)
  {
  }

  lemma OwnedIsOwed(ttl: int, tr: seq<Event>, j: nat, a: Archive) returns (i: nat, k: nat)
    requires j < |tr| && tr[j].op.Take? && Explained(ttl, tr, j, a)
    requires ArchiveTake(a, tr[j].op, j).1.Found?
    ensures Owed(ttl, tr, i, k, j)
    ensures ArchiveTake(a, tr[j].op, j).1 == Found(OwedRecord(ttl, tr, i, k))
  {
    hide SplitCookie, Ascii;
    var id := Owned(a, tr[j].op.cookie, tr[j].op.now).value;
    assert Explains(ttl, tr, j, id, a[id]);
    i, k := a[id].createdAt, a[id].resolvedAt.value;
  }

  /** And the holder is always given it: whenever a record is owed, that poll receives it. */
  lemma OwedIsDelivered(ttl: int, tr: seq<Event>, i: nat, k: nat, j: nat)
    requires Answered(ttl, tr) && Plausible(tr) && Owed(ttl, tr, i, k, j)
    ensures tr[j].answer == Taken(Found(OwedRecord(ttl, tr, i, k)))
  {
    HistoryExplained(ttl, tr, j);
    PruningUnobservable(ttl, tr, j);
    Simulation(ttl, tr, j);
    hide Step, Answered, Plausible, SplitCookie, IdsFrom;
    OwedIsOwned(ttl, tr, i, k, j, ArchiveAt(ttl, tr, j));
  }

  lemma OwedIsOwned(ttl: int, tr: seq<Event>, i: nat, k: nat, j: nat, a: Archive)
    requires Owed(ttl, tr, i, k, j) && Explained(ttl, tr, j, a)
    requires forall id | id in a :: Token(id) && Sound(a[id])
    ensures ArchiveTake(a, tr[j].op, j).1 == Found(OwedRecord(ttl, tr, i, k))
  {
    var id, op := tr[i].op.id, tr[j].op;
    assert Explains(ttl, tr, j, id, a[id]);
    SplitCookieInverse(op.cookie, id, a[id].ticket.holderSecret);
    hide SplitCookie, Matches;
  }

  lemma SameCookieSameCreate(tr: seq<Event>, i1: nat, i2: nat)
    requires Plausible(tr) && i1 < |tr| && i2 < |tr| && tr[i1].op.Create? && tr[i2].op.Create?
    requires CookieValue(tr[i1].op.id, tr[i1].op.secret) == CookieValue(tr[i2].op.id, tr[i2].op.secret)
    ensures i1 == i2
  {
    var cookie := Some(CookieValue(tr[i1].op.id, tr[i1].op.secret));
    SplitCookieInverse(cookie, tr[i1].op.id, tr[i1].op.secret);
    SplitCookieInverse(cookie, tr[i2].op.id, tr[i2].op.secret);
  }

  /** Two deliveries never hand out the same ticket: they present different cookies. */
  lemma DeliveredAtMostOnce(ttl: int, tr: seq<Event>, j1: nat, j2: nat)
    requires Answered(ttl, tr) && Plausible(tr) && Delivers(tr, j1) && Delivers(tr, j2) && j1 < j2
    ensures tr[j1].op.cookie != tr[j2].op.cookie
  {
    var i1, k1 := DeliveredOnlyToHolder(ttl, tr, j1);
    var i2, k2 := DeliveredOnlyToHolder(ttl, tr, j2);
    hide Answered;
    if tr[j1].op.cookie == tr[j2].op.cookie {
      SameCookieSameCreate(tr, i1, i2);
    }
  }

  /** The hand-off works: for any tokens, address and person, create, resolve from the same address and
      a poll with the cookie, all within the time, deliver that person's identity. */
  lemma HandOffWorks(ttl: int, id: string, secret: string, hint: string, ip: Option<string>, who: Identity, now: int)
    returns (tr: seq<Event>)
    requires ttl > 0 && Token(id) && Token(secret) && Ascii(IpText(ip))
    ensures Answered(ttl, tr) && Plausible(tr) && |tr| == 3 && Delivers(tr, 2)
    ensures tr[2].answer.record.value.identity == Some(who)
  {
    hide Ascii, SplitCookie, CookieValue;
    var create, resolve := Create(now, id, secret, hint, ip), Resolve(now, id, who, ip);
    var take := Take(now, Some(CookieValue(id, secret)));
    var t1 := Step(ttl, map[], create).0;
    var t2 := Step(ttl, t1, resolve).0;
    tr := [Event(create, Step(ttl, map[], create).1), Event(resolve, Step(ttl, t1, resolve).1),
      Event(take, Step(ttl, t2, take).1)];
    assert Prune(map[], now) == map[];
    assert |Prune(map[], now)| == 0;
    assert t1 == map[id := NewRecord(ttl, create)];
    SplitCookieInverse(take.cookie, id, secret);
    assert t2 == map[id := NewRecord(ttl, create).(status := Resolved, identity := Some(who))];
    assert Authenticated(t2, take.cookie, now) == Found(id);
    hide Step;
    assert TicketsAt(ttl, tr, 0) == map[];
    assert TicketsAt(ttl, tr, 1) == t1;
    assert TicketsAt(ttl, tr, 2) == t2;
  }
}
