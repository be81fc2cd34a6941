/**
 The card reader's and the kiosk's in-memory stores (app/api/reader.py): pending taps, claims,
 self-login tickets and LINE-scan elevate tickets, with the long-polls that read them. A handler is
 atomic between its awaits, so a long-poll is a poller that ticks. Times are milliseconds.
*/
module ReaderStores {
  import opened Wrappers

  const TAP_TTL: int := 30_000
  const CLAIM_TTL: int := 600_000
  const SELF_LOGIN_TTL: int := 600_000
  const ELEVATE_TTL: int := 600_000

  datatype Entry<+V> = Entry(value: V, expires: int)

  type Store<V> = map<string, Entry<V>>

  // A signed card assertion: who, with which grants, for which app.
  datatype Assertion = Assertion(badge: string, apps: set<string>, audience: string)

  // The id numbers the taps in the order they were stashed; it is history, not part of the record.
  datatype Tap = Tap(id: nat, badge: string, apps: set<string>)

  datatype Pairing = Pairing(reader: string, app: string)

  datatype Status = Pending | Authorized | Denied

  datatype Elevation = Elevation(app: string, status: Status, assertion: Option<Assertion>)

  // ---------- The stores ----------

  function Prune<V>(m: Store<V>, now: int): Store<V> {
    map k | k in m && m[k].expires > now :: m[k]
  }

  function Get<V>(m: Store<V>, key: string, now: int): Option<V> {
    if key in m && m[key].expires > now then Some(m[key].value) else None
  }

  datatype Stores = Stores(taps: Store<Tap>, claims: Store<Pairing>, selfLogins: Store<string>,
                           elevates: Store<Elevation>)

  function PruneAll(s: Stores, now: int): Stores {
    Stores(Prune(s.taps, now), Prune(s.claims, now), Prune(s.selfLogins, now), Prune(s.elevates, now))
  }

  function PutTap(s: Stores, now: int, reader: string, tap: Tap): Stores {
    s.(taps := s.taps[reader := Entry(tap, now + TAP_TTL)])
  }

  function PutClaim(s: Stores, now: int, token: string, pairing: Pairing): Stores {
    s.(claims := s.claims[token := Entry(pairing, now + CLAIM_TTL)])
  }

  function PutSelfLogin(s: Stores, now: int, token: string, reader: string): Stores {
    s.(selfLogins := s.selfLogins[token := Entry(reader, now + SELF_LOGIN_TTL)])
  }

  function PutElevate(s: Stores, now: int, token: string, app: string): Stores {
    s.(elevates := s.elevates[token := Entry(Elevation(app, Pending, None), now + ELEVATE_TTL)])
  }

  // Popped even when expired.
  function Consumed(s: Stores, reader: string): Stores {
    s.(taps := s.taps - {reader})
  }

  predicate Resolvable(s: Stores, now: int, token: string) {
    var e := Get(s.elevates, token, now);
    e.Some? && e.value.status == Pending
  }

  function Resolved(s: Stores, now: int, token: string, assertion: Option<Assertion>): Stores {
    if !Resolvable(s, now, token) then s
    else
      var e := s.elevates[token];
      s.(elevates := s.elevates[token :=
        Entry(e.value.(status := if assertion.Some? then Authorized else Denied, assertion := assertion), e.expires)])
  }

  function Taken(s: Stores, now: int, token: string): Option<Elevation> {
    var e := Get(s.elevates, token, now);
    if e.Some? && e.value.status != Pending then e else None
  }

  function AfterTake(s: Stores, now: int, token: string): Stores {
    if Taken(s, now, token).Some? then s.(elevates := s.elevates - {token}) else s
  }

  // Whoever scanned the kiosk's code, as LINE and the employee table know them.
  datatype Employee = Employee(badge: string, active: bool, pendingApproval: bool, apps: set<string>)

  datatype Page = Expired | Onboard | NotReady | NoGrant | Welcome

  // continue_elevate_after_line: what becomes of the ticket, and the page shown. The clock is read again to resolve.
  function Continued(s: Stores, now: int, later: int, token: string, employee: Option<Employee>): (Stores, Page) {
    var ticket := Get(s.elevates, token, now);
    if ticket.None? || ticket.value.status != Pending then (s, Expired)
    else if employee.None? then (s, Onboard)
    else if employee.value.pendingApproval || !employee.value.active then (s, NotReady)
    else if ticket.value.app !in employee.value.apps then (Resolved(s, later, token, None), NoGrant)
    else
      var assertion := Assertion(employee.value.badge, employee.value.apps, ticket.value.app);
      if Resolvable(s, later, token) then (Resolved(s, later, token, Some(assertion)), Welcome) else (s, Expired)
  }

  // The module's dictionaries and the functions that work on them.
  class Memory {
    var taps: Store<Tap>
    var claims: Store<Pairing>
    var selfLogins: Store<string>
    var elevates: Store<Elevation>

    function Now(): Stores
      reads this
    {
      Stores(taps, claims, selfLogins, elevates)
    }

    static method DropExpired<V>(m: Store<V>, now: int) returns (r: Store<V>)
      ensures r == Prune(m, now)
    {
      r := m;
      var expired := set k | k in m && m[k].expires <= now;
      while expired != {}
        invariant expired <= m.Keys && forall k | k in expired :: m[k].expires <= now
        invariant r == map k | k in m && (m[k].expires > now || k in expired) :: m[k]
        decreases |expired|
      {
        var key :| key in expired;
        r := r - {key};
        expired := expired - {key};
      }
    }

    method PruneLocked(now: int)
      modifies this
      ensures Now() == PruneAll(old(Now()), now)
    {
      taps := DropExpired(taps, now);
      claims := DropExpired(claims, now);
      selfLogins := DropExpired(selfLogins, now);
      elevates := DropExpired(elevates, now);
    }

    method StashPendingTap(now: int, reader: string, tap: Tap)
      modifies this
      ensures Now() == PutTap(PruneAll(old(Now()), now), now, reader, tap)
    {
      PruneLocked(now);
      taps := taps[reader := Entry(tap, now + TAP_TTL)];
    }

    method ConsumePendingTap(now: int, reader: string) returns (tap: Option<Tap>)
      modifies this
      ensures Now() == Consumed(old(Now()), reader) && tap == Get(old(taps), reader, now)
    {
      tap := None;
      if reader in taps {
        var record := taps[reader];
        taps := taps - {reader};
        if record.expires > now {
          tap := Some(record.value);
        }
      } else {
        assert taps - {reader} == taps;
      }
    }

    method CreateClaim(now: int, token: string, reader: string, app: string)
      modifies this
      ensures Now() == PutClaim(PruneAll(old(Now()), now), now, token, Pairing(reader, app))
    {
      PruneLocked(now);
      claims := claims[token := Entry(Pairing(reader, app), now + CLAIM_TTL)];
    }

    method CreateSelfLoginTicket(now: int, token: string, reader: string)
      modifies this
      ensures Now() == PutSelfLogin(PruneAll(old(Now()), now), now, token, reader)
    {
      PruneLocked(now);
      selfLogins := selfLogins[token := Entry(reader, now + SELF_LOGIN_TTL)];
    }

    method CreateElevateTicket(now: int, token: string, app: string)
      modifies this
      ensures Now() == PutElevate(PruneAll(old(Now()), now), now, token, app)
    {
      PruneLocked(now);
      elevates := elevates[token := Entry(Elevation(app, Pending, None), now + ELEVATE_TTL)];
    }

    method ResolveElevateTicket(now: int, token: string, assertion: Option<Assertion>) returns (ok: bool)
      modifies this
      ensures Now() == Resolved(old(Now()), now, token, assertion) && ok == Resolvable(old(Now()), now, token)
    {
      if token !in elevates || elevates[token].expires <= now {
        return false;
      }
      var record := elevates[token];
      if record.value.status != Pending {
        return false;
      }
      var status := if assertion.Some? then Authorized else Denied;
      elevates := elevates[token := Entry(record.value.(status := status, assertion := assertion), record.expires)];
      return true;
    }

    method TakeResolvedElevateTicket(now: int, token: string) returns (e: Option<Elevation>)
      modifies this
      ensures Now() == AfterTake(old(Now()), now, token) && e == Taken(old(Now()), now, token)
    {
      if token !in elevates || elevates[token].expires <= now || elevates[token].value.status == Pending {
        return None;
      }
      e := Some(elevates[token].value);
      elevates := elevates - {token};
    }

    method ContinueElevateAfterLine(now: int, later: int, token: string, employee: Option<Employee>)
      returns (page: Page)
      modifies this
      ensures (Now(), page) == Continued(old(Now()), now, later, token, employee)
    {
      var ticket := Get(elevates, token, now);
      if ticket.None? || ticket.value.status != Pending {
        return Expired;
      }
      if employee.None? {
        return Onboard;
      }
      if employee.value.pendingApproval || !employee.value.active {
        return NotReady;
      }
      var ok;
      if ticket.value.app !in employee.value.apps {
        ok := ResolveElevateTicket(later, token, None);
        return NoGrant;
      }
      var assertion := Assertion(employee.value.badge, employee.value.apps, ticket.value.app);
      ok := ResolveElevateTicket(later, token, Some(assertion));
      page := if ok then Welcome else Expired;
    }
  }

  // ---------- Runs ----------

  // A parked long-poll handler, with what it looked up when it began.
  datatype Poller = AppWait(reader: string, app: string) | SelfWait(reader: string) | ElevateWait(token: string)

  // count, delivered, overwritten and expired are history: how many taps were stashed, and what became of them.
  datatype State = State(stores: Stores, pollers: map<nat, Poller>, count: nat,
                         delivered: set<nat>, overwritten: set<nat>, expired: set<nat>)

  datatype Op =
    | Scan(now: int, reader: string, badge: string, apps: set<string>)
    | Claim(now: int, token: string, reader: string, app: string)
    | SelfStart(now: int, token: string, reader: string)
    | ElevateStart(now: int, token: string, app: string)
    | Wait(now: int, pid: nat, token: string)
    | SelfLoginWait(now: int, pid: nat, token: string)
    | ElevateWaitFor(now: int, pid: nat, token: string)
    | Tick(now: int, pid: nat, last: bool, allowed: bool)
    | Continue(now: int, later: int, token: string, employee: Option<Employee>)

  datatype Answer = Done | NotFound | Polling | NoContent | Asserted(assertion: Assertion) | Forbidden
                  | Session(badge: string) | Shown(page: Page)

  function Ids(taps: Store<Tap>): set<nat> {
    set k | k in taps :: taps[k].value.id
  }

  // Every operation that adds to a store prunes all of them first; an archive would not.
  function Pruned(s: State, now: int, forgetful: bool): State {
    if !forgetful then s
    else
      var stores := PruneAll(s.stores, now);
      s.(stores := stores, expired := s.expired + (Ids(s.stores.taps) - Ids(stores.taps)))
  }

  function ScanStep(s: State, now: int, reader: string, badge: string, apps: set<string>): State {
    s.(stores := PutTap(s.stores, now, reader, Tap(s.count, badge, apps)), count := s.count + 1,
       overwritten := s.overwritten + if reader in s.stores.taps then {s.stores.taps[reader].value.id} else {})
  }

  function Park(s: State, pid: nat, poller: Option<Poller>): (State, Answer) {
    if pid in s.pollers then (s, Done)
    else if poller.None? then (s, NotFound)
    else (s.(pollers := s.pollers[pid := poller.value]), Polling)
  }

  function WaitStep(s: State, now: int, pid: nat, token: string): (State, Answer) {
    var claim := Get(s.stores.claims, token, now);
    Park(s, pid, if claim.None? then None else Some(AppWait(claim.value.reader, claim.value.app)))
  }

  function SelfWaitStep(s: State, now: int, pid: nat, token: string): (State, Answer) {
    var reader := Get(s.stores.selfLogins, token, now);
    Park(s, pid, if reader.None? then None else Some(SelfWait(reader.value)))
  }

  function ElevateWaitStep(s: State, now: int, pid: nat, token: string): (State, Answer) {
    Park(s, pid, if Get(s.stores.elevates, token, now).None? then None else Some(ElevateWait(token)))
  }

  // A tick of a card poller: consume the reader's tap; without one, go on or give up.
  function TapTick(s: State, now: int, pid: nat, reader: string, last: bool): (State, Option<Tap>) {
    var tap := Get(s.stores.taps, reader, now);
    var id := if reader in s.stores.taps then {s.stores.taps[reader].value.id} else {};
    var t := s.(stores := Consumed(s.stores, reader),
                pollers := if tap.Some? || last then s.pollers - {pid} else s.pollers);
    (if tap.Some? then t.(delivered := s.delivered + id) else t.(expired := s.expired + id), tap)
  }

  function AppAnswer(tap: Option<Tap>, app: string, last: bool): Answer {
    if tap.None? then (if last then NoContent else Polling)
    else if app in tap.value.apps then Asserted(Assertion(tap.value.badge, tap.value.apps, app))
    else Forbidden
  }

  function SelfAnswer(tap: Option<Tap>, allowed: bool, last: bool): Answer {
    if tap.None? then (if last then NoContent else Polling)
    else if allowed then Session(tap.value.badge)
    else Forbidden
  }

  function ElevateTick(s: State, now: int, pid: nat, token: string, last: bool): (State, Answer) {
    var e := Taken(s.stores, now, token);
    (s.(stores := AfterTake(s.stores, now, token), pollers := if e.Some? || last then s.pollers - {pid} else s.pollers),
     if e.None? then (if last then NoContent else Polling)
     else if e.value.status == Authorized && e.value.assertion.Some? then Asserted(e.value.assertion.value)
     else Forbidden)
  }

  function TickStep(s: State, now: int, pid: nat, last: bool, allowed: bool): (State, Answer) {
    if pid !in s.pollers then (s, Done)
    else
      match s.pollers[pid]
      case AppWait(reader, app) =>
        var (t, tap) := TapTick(s, now, pid, reader, last);
        (t, AppAnswer(tap, app, last))
      case SelfWait(reader) =>
        var (t, tap) := TapTick(s, now, pid, reader, last);
        (t, SelfAnswer(tap, allowed, last))
      case ElevateWait(token) => ElevateTick(s, now, pid, token, last)
  }

  function Step(s: State, o: Op, forgetful: bool): (State, Answer) {
    match o
    case Scan(now, reader, badge, apps) => (ScanStep(Pruned(s, now, forgetful), now, reader, badge, apps), Done)
    case Claim(now, token, reader, app) =>
      var p := Pruned(s, now, forgetful);
      (p.(stores := PutClaim(p.stores, now, token, Pairing(reader, app))), Done)
    case SelfStart(now, token, reader) =>
      var p := Pruned(s, now, forgetful);
      (p.(stores := PutSelfLogin(p.stores, now, token, reader)), Done)
    case ElevateStart(now, token, app) =>
      var p := Pruned(s, now, forgetful);
      (p.(stores := PutElevate(p.stores, now, token, app)), Done)
    case Wait(now, pid, token) => WaitStep(s, now, pid, token)
    case SelfLoginWait(now, pid, token) => SelfWaitStep(s, now, pid, token)
    case ElevateWaitFor(now, pid, token) => ElevateWaitStep(s, now, pid, token)
    case Tick(now, pid, last, allowed) => TickStep(s, now, pid, last, allowed)
    case Continue(now, later, token, employee) =>
      var (stores, page) := Continued(s.stores, now, later, token, employee);
      (s.(stores := stores), Shown(page))
  }

  const INIT: State := State(Stores(map[], map[], map[], map[]), map[], 0, {}, {}, {})

  function Run(ops: seq<Op>, forgetful: bool): State {
    if ops == [] then INIT else Step(Run(ops[..|ops| - 1], forgetful), ops[|ops| - 1], forgetful).0
  }

  // The answer to the operation at j.
  function AnswerAt(ops: seq<Op>, j: nat, forgetful: bool): Answer
    requires j < |ops|
  {
    Step(Run(ops[..j], forgetful), ops[j], forgetful).1
  }

  // ---------- The ledger of taps ----------

  ghost predicate DistinctIds(taps: Store<Tap>) {
    forall r, t | r in taps && t in taps && r != t :: taps[r].value.id != taps[t].value.id
  }

  // A tap is delivered, overwritten, expired or still pending, and only one of these; a later one none.
  ghost predicate OneFate(s: State, i: nat) {
    var delivered, overwritten, expired, pending :=
      i in s.delivered, i in s.overwritten, i in s.expired, i in Ids(s.stores.taps);
    && (i < s.count <==> delivered || overwritten || expired || pending)
    && !(delivered && overwritten) && !(delivered && expired) && !(delivered && pending)
    && !(overwritten && expired) && !(overwritten && pending) && !(expired && pending)
  }

  /** Conservation: the taps stashed are exactly the delivered, overwritten, expired and pending ones. */
  ghost predicate Ledger(s: State) {
    DistinctIds(s.stores.taps) && forall i: nat :: OneFate(s, i)
  }

  lemma PrunedLedger(s: State, now: int, forgetful: bool)
    requires Ledger(s)
    ensures Ledger(Pruned(s, now, forgetful))
  {
    var q := Pruned(s, now, forgetful);
    forall i: nat ensures OneFate(q, i) {
      assert OneFate(s, i);
    }
  }

  lemma ScanLedger(s: State, now: int, reader: string, badge: string, apps: set<string>)
    requires Ledger(s)
    ensures Ledger(ScanStep(s, now, reader, badge, apps))
  {
    var q := ScanStep(s, now, reader, badge, apps);
    assert OneFate(s, s.count);
    IdsAfterPut(s.stores.taps, reader, q.stores.taps[reader]);
    hide Ids, DistinctIds;
    forall i: nat ensures OneFate(q, i) {
      assert OneFate(s, i);
      ReaderId(s.stores.taps, reader);
    }
  }

  lemma ReaderId(taps: Store<Tap>, reader: string)
    ensures reader in taps ==> taps[reader].value.id in Ids(taps)
  {
  }

  lemma IdsAfterPut(taps: Store<Tap>, reader: string, e: Entry<Tap>)
    requires DistinctIds(taps)
    ensures Ids(taps[reader := e]) == Ids(taps - {reader}) + {e.value.id}
    ensures Ids(taps - {reader}) == Ids(taps) - if reader in taps then {taps[reader].value.id} else {}
    ensures DistinctIds(taps - {reader})
    ensures e.value.id !in Ids(taps) ==> DistinctIds(taps[reader := e])
  {
    var put, left := taps[reader := e], taps - {reader};
    forall i ensures i in Ids(put) <==> i in Ids(left) + {e.value.id} {
      if i in Ids(put) {
        var k :| k in put && put[k].value.id == i;
        assert k != reader ==> k in left && left[k] == put[k];
      }
      if i in Ids(left) {
        var k :| k in left && left[k].value.id == i;
        assert k in put && put[k] == left[k];
      }
      assert put[reader] == e;
    }
    forall i ensures i in Ids(left) <==> i in Ids(taps) && (reader in taps ==> i != taps[reader].value.id) {
      if i in Ids(taps) {
        var k :| k in taps && taps[k].value.id == i;
        assert k != reader ==> k in left && left[k] == taps[k];
      }
      if i in Ids(left) {
        var k :| k in left && left[k].value.id == i;
        assert k in taps && taps[k] == left[k] && k != reader;
      }
    }
  }

  lemma TapTickLedger(s: State, now: int, pid: nat, reader: string, last: bool)
    requires Ledger(s)
    ensures Ledger(TapTick(s, now, pid, reader, last).0)
  {
    var q := TapTick(s, now, pid, reader, last).0;
    IdsAfterPut(s.stores.taps, reader, Entry(Tap(0, "", {}), 0));
    ReaderId(s.stores.taps, reader);
    hide Ids, DistinctIds;
    forall i: nat ensures OneFate(q, i) {
      assert OneFate(s, i);
    }
  }

  lemma StepLedger(s: State, o: Op, forgetful: bool)
    requires Ledger(s)
    ensures Ledger(Step(s, o, forgetful).0)
  {
    hide Ledger;
    match o
    case Scan(now, reader, badge, apps) =>
      PrunedLedger(s, now, forgetful);
      ScanLedger(Pruned(s, now, forgetful), now, reader, badge, apps);
    case Claim(now, token, reader, app) =>
      PrunedLedger(s, now, forgetful); SameLedger(Pruned(s, now, forgetful), Step(s, o, forgetful).0);
    case SelfStart(now, token, reader) =>
      PrunedLedger(s, now, forgetful); SameLedger(Pruned(s, now, forgetful), Step(s, o, forgetful).0);
    case ElevateStart(now, token, app) =>
      PrunedLedger(s, now, forgetful); SameLedger(Pruned(s, now, forgetful), Step(s, o, forgetful).0);
    case Tick(now, pid, last, allowed) =>
      if pid in s.pollers && !s.pollers[pid].ElevateWait? {
        TapTickLedger(s, now, pid, s.pollers[pid].reader, last);
      } else {
        SameLedger(s, Step(s, o, forgetful).0);
      }
    case _ => SameLedger(s, Step(s, o, forgetful).0);
  }

  lemma SameLedger(s: State, q: State)
    requires Ledger(s) && q.stores.taps == s.stores.taps && q.count == s.count
    requires q.delivered == s.delivered && q.overwritten == s.overwritten && q.expired == s.expired
    ensures Ledger(q)
  {
    hide DistinctIds, Ids;
    forall i: nat ensures OneFate(q, i) {
      assert OneFate(s, i);
    }
  }

  lemma {:induction false} LedgerHolds(ops: seq<Op>, forgetful: bool)
    ensures Ledger(Run(ops, forgetful))
  {
    if ops != [] {
      LedgerHolds(ops[..|ops| - 1], forgetful);
      hide Step, Ledger;
      StepLedger(Run(ops[..|ops| - 1], forgetful), ops[|ops| - 1], forgetful);
    }
  }

  // The tap an operation hands to a poller.
  function Delivers(s: State, o: Op): Option<nat> {
    if o.Tick? && o.pid in s.pollers && !s.pollers[o.pid].ElevateWait? then
      var tap := Get(s.stores.taps, s.pollers[o.pid].reader, o.now);
      if tap.None? then None else Some(tap.value.id)
    else None
  }

  lemma DeliverStep(s: State, o: Op, forgetful: bool)
    ensures Delivers(s, o).Some? ==>
              Delivers(s, o).value in Ids(s.stores.taps) && Delivers(s, o).value in Step(s, o, forgetful).0.delivered
    ensures s.delivered <= Step(s, o, forgetful).0.delivered
  {
    hide Ids;
    if Delivers(s, o).Some? {
      ReaderId(s.stores.taps, s.pollers[o.pid].reader);
    }
  }

  lemma {:induction false} DeliveredGrows(ops: seq<Op>, j: nat, n: nat, forgetful: bool)
    requires j <= n <= |ops|
    ensures Run(ops[..j], forgetful).delivered <= Run(ops[..n], forgetful).delivered
    decreases n
  {
    if j < n {
      DeliveredGrows(ops, j, n - 1, forgetful);
      assert ops[..n][..n - 1] == ops[..n - 1];
      DeliverStep(Run(ops[..n - 1], forgetful), ops[n - 1], forgetful);
      hide Step;
    }
  }

  /** No tap is handed out twice, however many pollers of either kind tick on its reader. */
  lemma TapDeliveredOnce(ops: seq<Op>, j: nat, k: nat, forgetful: bool)
    requires j < k < |ops|
    requires Delivers(Run(ops[..j], forgetful), ops[j]).Some? && Delivers(Run(ops[..k], forgetful), ops[k]).Some?
    ensures Delivers(Run(ops[..j], forgetful), ops[j]) != Delivers(Run(ops[..k], forgetful), ops[k])
  {
    hide Step, Ids, Delivers;
    DeliverStep(Run(ops[..j], forgetful), ops[j], forgetful);
    DeliverStep(Run(ops[..k], forgetful), ops[k], forgetful);
    assert ops[..j + 1][..j] == ops[..j];
    DeliveredGrows(ops, j + 1, k, forgetful);
    LedgerHolds(ops[..k], forgetful);
    hide Run;
    var s, id := Run(ops[..k], forgetful), Delivers(Run(ops[..k], forgetful), ops[k]).value;
    assert OneFate(s, id);
  }

  // ---------- Where records come from ----------

  predicate IsScan(o: Op, reader: string, e: Entry<Tap>) {
    o.Scan? && o.reader == reader && o.badge == e.value.badge && o.apps == e.value.apps && o.now + TAP_TTL == e.expires
  }

  predicate IsClaim(o: Op, token: string, e: Entry<Pairing>) {
    o.Claim? && o.token == token && o.reader == e.value.reader && o.app == e.value.app && o.now + CLAIM_TTL == e.expires
  }

  predicate IsSelfStart(o: Op, token: string, e: Entry<string>) {
    o.SelfStart? && o.token == token && o.reader == e.value && o.now + SELF_LOGIN_TTL == e.expires
  }

  predicate IsOffer(o: Op, token: string, app: string, expires: int) {
    o.ElevateStart? && o.token == token && o.app == app && o.now + ELEVATE_TTL == expires
  }

  // The phone-side completion that decided a ticket while it was alive: an active employee, who holds
  // the app or does not.
  predicate Decides(o: Op, token: string, e: Entry<Elevation>) {
    && o.Continue? && o.token == token && o.now < e.expires && o.later < e.expires
    && o.employee.Some? && o.employee.value.active && !o.employee.value.pendingApproval
    && if e.value.app in o.employee.value.apps
       then e.value.status == Authorized
         && e.value.assertion == Some(Assertion(o.employee.value.badge, o.employee.value.apps, e.value.app))
       else e.value.status == Denied && e.value.assertion == None
  }

  ghost predicate TapsTraced(ops: seq<Op>, taps: Store<Tap>) {
    forall r | r in taps :: exists o :: o in ops && IsScan(o, r, taps[r])
  }

  ghost predicate ClaimsTraced(ops: seq<Op>, claims: Store<Pairing>) {
    forall t | t in claims :: exists o :: o in ops && IsClaim(o, t, claims[t])
  }

  ghost predicate SelfTraced(ops: seq<Op>, selfLogins: Store<string>) {
    forall t | t in selfLogins :: exists o :: o in ops && IsSelfStart(o, t, selfLogins[t])
  }

  // Offer i made the ticket, and if it is decided, the completion j did that later on.
  ghost predicate ElevationFrom(ops: seq<Op>, token: string, e: Entry<Elevation>, i: nat) {
    && i < |ops| && IsOffer(ops[i], token, e.value.app, e.expires)
    && (if e.value.status == Pending then e.value.assertion == None
        else exists j | i < j < |ops| :: Decides(ops[j], token, e))
  }

  ghost predicate ElevationTraced(ops: seq<Op>, token: string, e: Entry<Elevation>) {
    exists i :: ElevationFrom(ops, token, e, i)
  }

  ghost predicate PollersTraced(ops: seq<Op>, pollers: map<nat, Poller>) {
    forall pid | pid in pollers :: PollerFrom(ops, pid, pollers[pid])
  }

  ghost predicate Traced(ops: seq<Op>, s: State) {
    && TapsTraced(ops, s.stores.taps) && ClaimsTraced(ops, s.stores.claims) && SelfTraced(ops, s.stores.selfLogins)
    && (forall t | t in s.stores.elevates :: ElevationTraced(ops, t, s.stores.elevates[t]))
    && PollersTraced(ops, s.pollers)
  }

  // An entry of a store is the old one, or what the operation adds.
  lemma TapMoves(s: State, o: Op, forgetful: bool, r: string)
    requires r in Step(s, o, forgetful).0.stores.taps
    ensures var e := Step(s, o, forgetful).0.stores.taps[r];
            (r in s.stores.taps && e == s.stores.taps[r]) || IsScan(o, r, e)
  {
    hide Get, Ids, TickStep, Continued;
    if o.Tick? {
      TickMoves(s, o, forgetful);
    } else if o.Continue? {
      ContinueKeeps(s.stores, o);
    }
  }

  // A tick adds nothing to any store, and a completion nothing but a ticket's decision.
  lemma TickMoves(s: State, o: Op, forgetful: bool)
    requires o.Tick?
    ensures var t := TickStep(s, o.now, o.pid, o.last, o.allowed).0.stores;
            && (forall r | r in t.taps :: r in s.stores.taps && t.taps[r] == s.stores.taps[r])
            && (forall k | k in t.elevates :: k in s.stores.elevates && t.elevates[k] == s.stores.elevates[k])
            && t.claims == s.stores.claims && t.selfLogins == s.stores.selfLogins
  {
    hide Get, Taken, TapTick, ElevateTick;
    if o.pid in s.pollers {
      match s.pollers[o.pid]
      case AppWait(reader, _) => TapTickStores(s, o.now, o.pid, reader, o.last);
      case SelfWait(reader) => TapTickStores(s, o.now, o.pid, reader, o.last);
      case ElevateWait(token) => ElevateTickStores(s, o.now, o.pid, token, o.last);
    }
  }

  lemma TapTickStores(s: State, now: int, pid: nat, reader: string, last: bool)
    ensures TapTick(s, now, pid, reader, last).0.stores == s.stores.(taps := s.stores.taps - {reader})
  {
    hide Get;
  }

  lemma ElevateTickStores(s: State, now: int, pid: nat, token: string, last: bool)
    ensures var t := ElevateTick(s, now, pid, token, last).0.stores;
            t == s.stores || t == s.stores.(elevates := s.stores.elevates - {token})
  {
    hide Taken;
  }

  lemma ContinueKeeps(s: Stores, o: Op)
    requires o.Continue?
    ensures var t := Continued(s, o.now, o.later, o.token, o.employee).0;
            t.taps == s.taps && t.claims == s.claims && t.selfLogins == s.selfLogins
  {
    hide Get, Resolvable;
  }

  lemma ClaimMoves(s: State, o: Op, forgetful: bool, t: string)
    requires t in Step(s, o, forgetful).0.stores.claims
    ensures var e := Step(s, o, forgetful).0.stores.claims[t];
            (t in s.stores.claims && e == s.stores.claims[t]) || IsClaim(o, t, e)
  {
    hide Get, Ids, TickStep, Continued;
    if o.Tick? {
      TickMoves(s, o, forgetful);
    } else if o.Continue? {
      ContinueKeeps(s.stores, o);
    }
  }

  lemma SelfMoves(s: State, o: Op, forgetful: bool, t: string)
    requires t in Step(s, o, forgetful).0.stores.selfLogins
    ensures var e := Step(s, o, forgetful).0.stores.selfLogins[t];
            (t in s.stores.selfLogins && e == s.stores.selfLogins[t]) || IsSelfStart(o, t, e)
  {
    hide Get, Ids, TickStep, Continued;
    if o.Tick? {
      TickMoves(s, o, forgetful);
    } else if o.Continue? {
      ContinueKeeps(s.stores, o);
    }
  }

  // Nothing that was traced becomes untraced.
  lemma TapsStep(ops: seq<Op>, o: Op, s: State, forgetful: bool)
    requires TapsTraced(ops, s.stores.taps)
    ensures TapsTraced(ops + [o], Step(s, o, forgetful).0.stores.taps)
  {
    hide Step, IsScan;
    var taps := Step(s, o, forgetful).0.stores.taps;
    assert o in ops + [o] && forall o' | o' in ops :: o' in ops + [o];
    forall r | r in taps ensures exists o' :: o' in ops + [o] && IsScan(o', r, taps[r]) {
      TapMoves(s, o, forgetful, r);
    }
  }

  lemma ClaimsStep(ops: seq<Op>, o: Op, s: State, forgetful: bool)
    requires ClaimsTraced(ops, s.stores.claims)
    ensures ClaimsTraced(ops + [o], Step(s, o, forgetful).0.stores.claims)
  {
    hide Step, IsClaim;
    var claims := Step(s, o, forgetful).0.stores.claims;
    assert o in ops + [o] && forall o' | o' in ops :: o' in ops + [o];
    forall t | t in claims
      ensures exists o' :: o' in ops + [o] && IsClaim(o', t, claims[t])
    {
      ClaimMoves(s, o, forgetful, t);
    }
  }

  lemma SelfStep(ops: seq<Op>, o: Op, s: State, forgetful: bool)
    requires SelfTraced(ops, s.stores.selfLogins)
    ensures SelfTraced(ops + [o], Step(s, o, forgetful).0.stores.selfLogins)
  {
    hide Step, IsSelfStart;
    var selfs := Step(s, o, forgetful).0.stores.selfLogins;
    assert o in ops + [o] && forall o' | o' in ops :: o' in ops + [o];
    forall t | t in selfs ensures exists o' :: o' in ops + [o] && IsSelfStart(o', t, selfs[t]) {
      SelfMoves(s, o, forgetful, t);
    }
  }

  predicate Takes(s: State, o: Op, token: string) {
    o.Tick? && o.pid in s.pollers && s.pollers[o.pid] == ElevateWait(token) && Taken(s.stores, o.now, token).Some?
  }

  // A ticket in the store is the old one, a new offer, or a pending one decided by an active employee's completion.
  lemma ElevationStays(s: State, o: Op, forgetful: bool, token: string)
    requires token in Step(s, o, forgetful).0.stores.elevates
    ensures var e := Step(s, o, forgetful).0.stores.elevates[token];
            || (token in s.stores.elevates && e == s.stores.elevates[token])
            || (IsOffer(o, token, e.value.app, e.expires) && e.value.status == Pending && e.value.assertion == None)
            || (token in s.stores.elevates && s.stores.elevates[token].value.status == Pending
              && Decides(o, token, e)
                && e.value.app == s.stores.elevates[token].value.app && e.expires == s.stores.elevates[token].expires)
  {
    hide Ids, Get, Continued, TickStep, Decides;
    if o.Continue? {
      ContinueMoves(s.stores, o, token);
    } else if o.Tick? {
      TickMoves(s, o, forgetful);
    }
  }

  // A ticket disappears only by being taken once it is decided, or after it has expired.
  lemma ElevationLeaves(s: State, o: Op, forgetful: bool, token: string)
    requires token in s.stores.elevates && token !in Step(s, o, forgetful).0.stores.elevates
    ensures Takes(s, o, token) || s.stores.elevates[token].expires <= o.now
    ensures Takes(s, o, token) ==> s.stores.elevates[token].value.status != Pending
  {
    hide Ids, TapTick, Resolved;
    if o.Continue? {
      ResolvedKeeps(s.stores, o.later, o.token);
    } else if o.Tick? && o.pid in s.pollers && !s.pollers[o.pid].ElevateWait? {
      TapTickStores(s, o.now, o.pid, s.pollers[o.pid].reader, o.last);
    }
  }

  /** The life of an elevate ticket: created pending, decided once by an active employee's completion,
      and from then on only taken or, after it has expired, forgotten. */
  lemma ElevationMoves(s: State, o: Op, forgetful: bool, token: string)
    ensures var was, after := s.stores.elevates, Step(s, o, forgetful).0.stores.elevates;
            && (token in after ==>
                  var e := after[token];
                  || (token in was && e == was[token])
                  || (IsOffer(o, token, e.value.app, e.expires) && e.value.status == Pending
                    && e.value.assertion == None)
                  || (token in was && was[token].value.status == Pending && Decides(o, token, e)
                      && e.value.app == was[token].value.app && e.expires == was[token].expires))
            && (token in was && token !in after ==>
                  (Takes(s, o, token) && was[token].value.status != Pending) || was[token].expires <= o.now)
  {
    hide Step, Takes, Decides;
    if token in Step(s, o, forgetful).0.stores.elevates {
      ElevationStays(s, o, forgetful, token);
    } else if token in s.stores.elevates {
      ElevationLeaves(s, o, forgetful, token);
    }
  }

  lemma ResolvedKeeps(s: Stores, now: int, token: string)
    ensures forall a :: Resolved(s, now, token, a).elevates.Keys == s.elevates.Keys
  {
  }

  lemma ContinueMoves(s: Stores, o: Op, token: string)
    requires o.Continue? && token in Continued(s, o.now, o.later, o.token, o.employee).0.elevates
    ensures var e := Continued(s, o.now, o.later, o.token, o.employee).0.elevates[token];
            || (token in s.elevates && e == s.elevates[token])
            || (token in s.elevates && s.elevates[token].value.status == Pending && Decides(o, token, e)
                && e.value.app == s.elevates[token].value.app && e.expires == s.elevates[token].expires)
  {
  }

  lemma ElevationsStep(ops: seq<Op>, o: Op, s: State, forgetful: bool, token: string)
    requires token in s.stores.elevates ==> ElevationTraced(ops, token, s.stores.elevates[token])
    requires token in Step(s, o, forgetful).0.stores.elevates
    ensures ElevationTraced(ops + [o], token, Step(s, o, forgetful).0.stores.elevates[token])
  {
    hide Step;
    var e := Step(s, o, forgetful).0.stores.elevates[token];
    ElevationMoves(s, o, forgetful, token);
    assert (ops + [o])[|ops|] == o;
    if IsOffer(o, token, e.value.app, e.expires) && e.value.status == Pending && e.value.assertion == None {
      assert ElevationFrom(ops + [o], token, e, |ops|);
    } else {
      var was := s.stores.elevates[token];
      var i: nat :| ElevationFrom(ops, token, was, i);
      assert (ops + [o])[i] == ops[i];
      assert ElevationFrom(ops + [o], token, e, i) by {
        if e == was && e.value.status != Pending {
          var j :| i < j < |ops| && Decides(ops[j], token, e);
          assert (ops + [o])[j] == ops[j];
        }
      }
    }
  }

  // A new poller works with what its own claim or ticket said.
  lemma NewPoller(s: State, o: Op, forgetful: bool, pid: nat)
    requires pid in Step(s, o, forgetful).0.pollers
    ensures var poller := Step(s, o, forgetful).0.pollers[pid];
            || (pid in s.pollers && poller == s.pollers[pid])
            || (poller.ElevateWait? && o == ElevateWaitFor(o.now, pid, poller.token))
            || (poller.AppWait? && o.Wait? && o.pid == pid && o.token in s.stores.claims
                && s.stores.claims[o.token].value == Pairing(poller.reader, poller.app)
                && o.now < s.stores.claims[o.token].expires)
            || (poller.SelfWait? && o.SelfLoginWait? && o.pid == pid && o.token in s.stores.selfLogins
                && s.stores.selfLogins[o.token].value == poller.reader
                && o.now < s.stores.selfLogins[o.token].expires)
  {
    hide Ids, Continued, Taken, AfterTake;
    if o.Wait? {
      assert Get(s.stores.claims, o.token, o.now).Some? ==> o.token in s.stores.claims;
    } else if o.SelfLoginWait? {
      assert Get(s.stores.selfLogins, o.token, o.now).Some? ==> o.token in s.stores.selfLogins;
    }
  }

  // The handler's own request, and the claim or ticket whose token it presented within its ten minutes.
  predicate PollerFrom(ops: seq<Op>, pid: nat, poller: Poller) {
    match poller
    case AppWait(reader, app) =>
      exists wait, claim | wait in ops && claim in ops ::
        && wait.Wait? && wait.pid == pid && claim.Claim? && claim.token == wait.token
        && claim.reader == reader && claim.app == app && wait.now < claim.now + 600_000
    case SelfWait(reader) =>
      exists wait, start | wait in ops && start in ops ::
        && wait.SelfLoginWait? && wait.pid == pid && start.SelfStart? && start.token == wait.token
        && start.reader == reader && wait.now < start.now + 600_000
    case ElevateWait(token) => exists wait | wait in ops ::
      wait.ElevateWaitFor? && wait.pid == pid && wait.token == token
  }

  lemma PollersStep(ops: seq<Op>, o: Op, s: State, forgetful: bool)
    requires PollersTraced(ops, s.pollers) && ClaimsTraced(ops, s.stores.claims) && SelfTraced(ops, s.stores.selfLogins)
    ensures PollersTraced(ops + [o], Step(s, o, forgetful).0.pollers)
  {
    hide Step;
    var pollers := Step(s, o, forgetful).0.pollers;
    forall pid | pid in pollers ensures PollerFrom(ops + [o], pid, pollers[pid]) {
      NewPoller(s, o, forgetful, pid);
      assert o in ops + [o];
      if pid in s.pollers && pollers[pid] == s.pollers[pid] {
        PollerLater(ops, o, pid, pollers[pid]);
      } else {
        assert forall o' | o' in ops :: o' in ops + [o];
      }
    }
  }

  lemma PollerLater(ops: seq<Op>, o: Op, pid: nat, poller: Poller)
    requires PollerFrom(ops, pid, poller)
    ensures PollerFrom(ops + [o], pid, poller)
  {
    assert forall o' | o' in ops :: o' in ops + [o];
  }

  lemma {:induction false} AllTraced(ops: seq<Op>, forgetful: bool)
    ensures Traced(ops, Run(ops, forgetful))
  {
    if ops != [] {
      var before, o := ops[..|ops| - 1], ops[|ops| - 1];
      AllTraced(before, forgetful);
      assert ops == before + [o];
      var s := Run(before, forgetful);
      hide Step, TapsTraced, ClaimsTraced, SelfTraced, PollersTraced, ElevationTraced;
      TapsStep(before, o, s, forgetful);
      ClaimsStep(before, o, s, forgetful);
      SelfStep(before, o, s, forgetful);
      PollersStep(before, o, s, forgetful);
      forall t | t in Step(s, o, forgetful).0.stores.elevates
        ensures ElevationTraced(ops, t, Step(s, o, forgetful).0.stores.elevates[t])
      {
        ElevationsStep(before, o, s, forgetful, t);
      }
    }
  }

  // ---------- Who gets an assertion ----------

  // Poller pid waits with a claim on this reader for this app, the assertion is for that app, and it
  // speaks of somebody who holds the app and tapped on that reader in time.
  ghost predicate CardEarned(ops: seq<Op>, now: int, pid: nat, reader: string, app: string, a: Assertion) {
    && a.audience == app && app in a.apps && PollerFrom(ops, pid, AppWait(reader, app))
    && exists scan ::
         && scan in ops && scan.Scan? && scan.reader == reader
         && scan.badge == a.badge && scan.apps == a.apps && now < scan.now + 30_000
  }

  // Poller pid waits for this ticket, the assertion is for the app it was made for, and it speaks of an
  // approved active employee who holds the app and completed the scan after the ticket was offered and
  // before it expired.
  ghost predicate ScanEarned(ops: seq<Op>, now: int, pid: nat, token: string, a: Assertion) {
    && a.audience in a.apps && PollerFrom(ops, pid, ElevateWait(token))
    && exists i, j | 0 <= i < j < |ops| :: ScanOf(ops[i], ops[j], now, token, a)
  }

  predicate ScanOf(offer: Op, decision: Op, now: int, token: string, a: Assertion) {
    && offer.ElevateStart? && offer.token == token && offer.app == a.audience && now < offer.now + 600_000
    && decision.Continue? && decision.token == token && decision.employee.Some?
    && decision.now < offer.now + 600_000 && decision.later < offer.now + 600_000
    && var e := decision.employee.value;
       e.active && !e.pendingApproval && e.badge == a.badge && e.apps == a.apps
  }

  /** An assertion is handed out only to a poller whose own claim or ticket asked for that app, and only
      for an employee whose grants contain it: the one who tapped on the claimed reader, or the one who
      completed the scan of that ticket. */
  lemma AssertionsAreEarned(ops: seq<Op>, j: nat, forgetful: bool)
    requires j < |ops| && AnswerAt(ops, j, forgetful).Asserted?
    ensures ops[j].Tick?
    ensures var s, a := Run(ops[..j], forgetful), AnswerAt(ops, j, forgetful).assertion;
            ops[j].pid in s.pollers &&
            match s.pollers[ops[j].pid]
            case AppWait(reader, app) => CardEarned(ops[..j], ops[j].now, ops[j].pid, reader, app, a)
            case SelfWait(_) => false
            case ElevateWait(token) => ScanEarned(ops[..j], ops[j].now, ops[j].pid, token, a)
  {
    var s := Run(ops[..j], forgetful);
    AllTraced(ops[..j], forgetful);
    hide Run;
    EarnedFrom(ops[..j], s, ops[j], forgetful);
  }

  lemma EarnedFrom(ops: seq<Op>, s: State, o: Op, forgetful: bool)
    requires Traced(ops, s) && Step(s, o, forgetful).1.Asserted?
    ensures o.Tick? && o.pid in s.pollers
    ensures var a := Step(s, o, forgetful).1.assertion;
            match s.pollers[o.pid]
            case AppWait(reader, app) => CardEarned(ops, o.now, o.pid, reader, app, a)
            case SelfWait(_) => false
            case ElevateWait(token) => ScanEarned(ops, o.now, o.pid, token, a)
  {
    hide PollerFrom;
    assert o.Tick?;
    var a := Step(s, o, forgetful).1.assertion;
    match s.pollers[o.pid]
    case AppWait(reader, app) =>
      var scan :| scan in ops && IsScan(scan, reader, s.stores.taps[reader]);
    case SelfWait(_) =>
    case ElevateWait(token) =>
      var e := s.stores.elevates[token];
      assert ElevationTraced(ops, token, e);
      var i: nat :| ElevationFrom(ops, token, e, i);
      var k :| i < k < |ops| && Decides(ops[k], token, e);
      assert ScanOf(ops[i], ops[k], o.now, token, a);
  }

  // ---------- What a poll is answered ----------

  /** A tick of a waiting handler: a tap on its reader that is still alive is taken and answered by whether it
      may have the app, or whether the employee may log in; a decided ticket that is still alive is taken and
      answered with its assertion or not; otherwise the handler goes on, or gives up at its last tick. */
  lemma TickAnswered(s: State, o: Op, forgetful: bool)
    requires o.Tick? && o.pid in s.pollers
    ensures var (t, answer) := Step(s, o, forgetful);
            var none := if o.last then NoContent else Polling;
            match s.pollers[o.pid]
            case AppWait(reader, app) =>
              && t.stores == s.stores.(taps := s.stores.taps - {reader})
              && answer == (if reader in s.stores.taps && o.now < s.stores.taps[reader].expires then
                              var tap := s.stores.taps[reader].value;
                              if app in tap.apps then Asserted(Assertion(tap.badge, tap.apps, app)) else Forbidden
                            else none)
            case SelfWait(reader) =>
              && t.stores == s.stores.(taps := s.stores.taps - {reader})
              && answer == (if reader in s.stores.taps && o.now < s.stores.taps[reader].expires then
                              if o.allowed then Session(s.stores.taps[reader].value.badge) else Forbidden
                            else none)
            case ElevateWait(token) =>
              if token in s.stores.elevates && o.now < s.stores.elevates[token].expires
                 && s.stores.elevates[token].value.status != Pending then
                var e := s.stores.elevates[token].value;
                && t.stores == s.stores.(elevates := s.stores.elevates - {token})
                && answer == (if e.status == Authorized && e.assertion.Some? then Asserted(e.assertion.value)
                              else Forbidden)
              else t.stores == s.stores && answer == none
    ensures var (t, answer) := Step(s, o, forgetful);
            t.pollers == if answer == Polling then s.pollers else s.pollers - {o.pid}
  {
    hide Ids;
  }

  /** A handler begins to wait exactly with a live claim or ticket, for what that says; else it gets a 404. */
  lemma WaitAnswered(s: State, o: Op, forgetful: bool)
    requires (o.Wait? || o.SelfLoginWait? || o.ElevateWaitFor?) && o.pid !in s.pollers
    ensures var (t, answer) := Step(s, o, forgetful);
            && t.stores == s.stores
            && (if o.Wait? && o.token in s.stores.claims && o.now < s.stores.claims[o.token].expires then
                  var p := s.stores.claims[o.token].value;
                  answer == Polling && t.pollers == s.pollers[o.pid := AppWait(p.reader, p.app)]
                else if o.SelfLoginWait? && o.token in s.stores.selfLogins
                        && o.now < s.stores.selfLogins[o.token].expires then
                  answer == Polling && t.pollers == s.pollers[o.pid := SelfWait(s.stores.selfLogins[o.token].value)]
                else if o.ElevateWaitFor? && o.token in s.stores.elevates
                        && o.now < s.stores.elevates[o.token].expires then
                  answer == Polling && t.pollers == s.pollers[o.pid := ElevateWait(o.token)]
                else answer == NotFound && t.pollers == s.pollers)
  {
  }

  // ---------- A ticket is taken once ----------

  // secrets.token_hex never repeats.
  ghost predicate FreshTokens(ops: seq<Op>) {
    forall i, j | 0 <= i < j < |ops| && ops[i].ElevateStart? && ops[j].ElevateStart? :: ops[i].token != ops[j].token
  }

  lemma TakeStep(s: State, o: Op, forgetful: bool, token: string)
    ensures Takes(s, o, token) ==> token in s.stores.elevates && token !in Step(s, o, forgetful).0.stores.elevates
    ensures token !in s.stores.elevates && token in Step(s, o, forgetful).0.stores.elevates ==>
            o.ElevateStart? && o.token == token
  {
    if token in Step(s, o, forgetful).0.stores.elevates {
      hide Step;
      ElevationMoves(s, o, forgetful, token);
    }
  }

  // A ticket that was offered and is gone stays gone.
  lemma {:induction false} GoneStays(ops: seq<Op>, i: nat, j: nat, n: nat, forgetful: bool, token: string)
    requires i < j <= n <= |ops| && FreshTokens(ops) && ops[i].ElevateStart? && ops[i].token == token
    requires token !in Run(ops[..j], forgetful).stores.elevates
    ensures token !in Run(ops[..n], forgetful).stores.elevates
    decreases n
  {
    if j < n {
      GoneStays(ops, i, j, n - 1, forgetful, token);
      assert ops[..n][..n - 1] == ops[..n - 1];
      hide Step;
      TakeStep(Run(ops[..n - 1], forgetful), ops[n - 1], forgetful, token);
    }
  }

  /** A resolved elevate ticket, and with it its assertion, is handed out to at most one caller. */
  lemma TicketTakenOnce(ops: seq<Op>, j: nat, k: nat, forgetful: bool, token: string)
    requires FreshTokens(ops) && j < k < |ops| && Takes(Run(ops[..j], forgetful), ops[j], token)
    ensures !Takes(Run(ops[..k], forgetful), ops[k], token)
  {
    hide Step, Takes;
    var s := Run(ops[..j], forgetful);
    TakeStep(s, ops[j], forgetful, token);
    TakeStep(Run(ops[..k], forgetful), ops[k], forgetful, token);
    assert ops[..j + 1][..j] == ops[..j];
    AllTraced(ops[..j], forgetful);
    assert ElevationTraced(ops[..j], token, s.stores.elevates[token]);
    var i: nat :| ElevationFrom(ops[..j], token, s.stores.elevates[token], i);
    assert ops[i] == ops[..j][i];
    GoneStays(ops, i, j + 1, k, forgetful, token);
  }

  // ---------- Forgetting does not show ----------

  function Start(o: Op): int {
    o.now
  }

  function End(o: Op): int {
    if o.Continue? then o.later else o.now
  }

  // The clock never runs backwards.
  ghost predicate Ordered(ops: seq<Op>) {
    && (forall i | 0 <= i < |ops| :: Start(ops[i]) <= End(ops[i]))
    && (forall i, j | 0 <= i < j < |ops| :: End(ops[i]) <= Start(ops[j]))
  }

  // What is still alive at a moment; the future depends on nothing else.
  ghost predicate SameLive(a: State, b: State, now: int) {
    PruneAll(a.stores, now) == PruneAll(b.stores, now) && a.pollers == b.pollers && a.count == b.count
  }

  lemma PruneAgain<V>(m: Store<V>, now: int, later: int)
    requires now <= later
    ensures Prune(Prune(m, now), later) == Prune(m, later)
  {
  }

  lemma LiveLater(a: State, b: State, now: int, later: int)
    requires SameLive(a, b, now) && now <= later
    ensures SameLive(a, b, later)
  {
    LiveStores(a.stores, b.stores, now, later);
  }

  lemma LiveStores(a: Stores, b: Stores, now: int, later: int)
    requires PruneAll(a, now) == PruneAll(b, now) && now <= later
    ensures PruneAll(a, later) == PruneAll(b, later) && PruneAll(PruneAll(a, now), later) == PruneAll(a, later)
  {
    PruneAgain(a.taps, now, later);
    PruneAgain(b.taps, now, later);
    PruneAgain(a.claims, now, later);
    PruneAgain(b.claims, now, later);
    PruneAgain(a.selfLogins, now, later);
    PruneAgain(b.selfLogins, now, later);
    PruneAgain(a.elevates, now, later);
    PruneAgain(b.elevates, now, later);
    hide Prune;
  }

  lemma LiveGet<V>(m: Store<V>, key: string, now: int)
    ensures Get(Prune(m, now), key, now) == Get(m, key, now)
  {
  }

  lemma PrunePut<V>(m: Store<V>, key: string, e: Entry<V>, now: int)
    requires e.expires > now
    ensures Prune(m[key := e], now) == Prune(m, now)[key := e]
  {
  }

  lemma PruneDrop<V>(m: Store<V>, key: string, now: int)
    ensures Prune(m - {key}, now) == Prune(m, now) - {key}
  {
  }

  // Whatever is looked up is the same in stores that agree on what is alive.
  lemma SameGets(a: Stores, b: Stores, now: int, key: string)
    requires PruneAll(a, now) == PruneAll(b, now)
    ensures Get(a.taps, key, now) == Get(b.taps, key, now) && Get(a.claims, key, now) == Get(b.claims, key, now)
    ensures Get(a.selfLogins, key, now) == Get(b.selfLogins, key, now)
            && Get(a.elevates, key, now) == Get(b.elevates, key, now)
  {
    LiveGet(a.taps, key, now);
    LiveGet(b.taps, key, now);
    LiveGet(a.claims, key, now);
    LiveGet(b.claims, key, now);
    LiveGet(a.selfLogins, key, now);
    LiveGet(b.selfLogins, key, now);
    LiveGet(a.elevates, key, now);
    LiveGet(b.elevates, key, now);
    hide Prune, Get;
  }

  lemma ConsumedLive(a: Stores, b: Stores, now: int, reader: string)
    requires PruneAll(a, now) == PruneAll(b, now)
    ensures PruneAll(Consumed(a, reader), now) == PruneAll(Consumed(b, reader), now)
  {
    PruneDrop(a.taps, reader, now);
    PruneDrop(b.taps, reader, now);
    hide Prune;
  }

  lemma TakeLive(a: Stores, b: Stores, now: int, token: string)
    requires PruneAll(a, now) == PruneAll(b, now)
    ensures Taken(a, now, token) == Taken(b, now, token)
    ensures PruneAll(AfterTake(a, now, token), now) == PruneAll(AfterTake(b, now, token), now)
  {
    SameGets(a, b, now, token);
    PruneDrop(a.elevates, token, now);
    PruneDrop(b.elevates, token, now);
    hide Prune, Get;
  }

  lemma LiveEntry<V>(a: Store<V>, b: Store<V>, key: string, now: int)
    requires Prune(a, now) == Prune(b, now) && Get(a, key, now).Some?
    ensures key in a && key in b && a[key] == b[key] && a[key].expires > now
  {
    assert key in Prune(a, now);
    assert key in Prune(b, now);
  }

  lemma ResolvedLive(a: Stores, b: Stores, now: int, token: string, assertion: Option<Assertion>)
    requires PruneAll(a, now) == PruneAll(b, now)
    ensures Resolvable(a, now, token) == Resolvable(b, now, token)
    ensures PruneAll(Resolved(a, now, token, assertion), now) == PruneAll(Resolved(b, now, token, assertion), now)
  {
    SameGets(a, b, now, token);
    if Resolvable(a, now, token) {
      LiveEntry(a.elevates, b.elevates, token, now);
      var e := Resolved(a, now, token, assertion).elevates[token];
      PrunePut(a.elevates, token, e, now);
      PrunePut(b.elevates, token, e, now);
    }
    hide Prune, Get;
  }

  lemma ContinuedLive(a: Stores, b: Stores, now: int, later: int, token: string, employee: Option<Employee>)
    requires PruneAll(a, now) == PruneAll(b, now) && now <= later
    ensures Continued(a, now, later, token, employee).1 == Continued(b, now, later, token, employee).1
    ensures PruneAll(Continued(a, now, later, token, employee).0, later) ==
            PruneAll(Continued(b, now, later, token, employee).0, later)
  {
    SameGets(a, b, now, token);
    LiveStores(a, b, now, later);
    ResolvedLive(a, b, later, token, None);
    if employee.Some? && Get(a.elevates, token, now).Some? {
      ResolvedLive(a, b, later, token,
        Some(Assertion(employee.value.badge, employee.value.apps, Get(a.elevates, token, now).value.app)));
    }
    hide Prune, Get, Resolved, Resolvable;
  }

  // The four additions, into pruned and unpruned stores.
  lemma PutsLive(a: Stores, b: Stores, now: int, key: string, tap: Tap, pairing: Pairing, text: string)
    requires PruneAll(a, now) == PruneAll(b, now)
    ensures PruneAll(PutTap(PruneAll(a, now), now, key, tap), now) == PruneAll(PutTap(b, now, key, tap), now)
    ensures PruneAll(PutClaim(PruneAll(a, now), now, key, pairing), now) ==
            PruneAll(PutClaim(b, now, key, pairing), now)
    ensures PruneAll(PutSelfLogin(PruneAll(a, now), now, key, text), now) ==
            PruneAll(PutSelfLogin(b, now, key, text), now)
    ensures PruneAll(PutElevate(PruneAll(a, now), now, key, text), now) == PruneAll(PutElevate(b, now, key, text), now)
  {
    LiveStores(a, b, now, now);
    PrunePut(PruneAll(a, now).taps, key, Entry(tap, now + TAP_TTL), now);
    PrunePut(b.taps, key, Entry(tap, now + TAP_TTL), now);
    PrunePut(PruneAll(a, now).claims, key, Entry(pairing, now + CLAIM_TTL), now);
    PrunePut(b.claims, key, Entry(pairing, now + CLAIM_TTL), now);
    PrunePut(PruneAll(a, now).selfLogins, key, Entry(text, now + SELF_LOGIN_TTL), now);
    PrunePut(b.selfLogins, key, Entry(text, now + SELF_LOGIN_TTL), now);
    PrunePut(PruneAll(a, now).elevates, key, Entry(Elevation(text, Pending, None), now + ELEVATE_TTL), now);
    PrunePut(b.elevates, key, Entry(Elevation(text, Pending, None), now + ELEVATE_TTL), now);
    hide Prune;
  }

  lemma AddLive(a: State, b: State, o: Op)
    requires SameLive(a, b, o.now) && (o.Scan? || o.Claim? || o.SelfStart? || o.ElevateStart?)
    ensures SameLive(Step(a, o, true).0, Step(b, o, false).0, o.now)
  {
    match o
    case Scan(now, reader, badge, apps) =>
      PutsLive(a.stores, b.stores, now, reader, Tap(a.count, badge, apps), Pairing("", ""), "");
      hide PruneAll, PutTap, Ids;
    case Claim(now, token, reader, app) =>
      PutsLive(a.stores, b.stores, now, token, Tap(0, "", {}), Pairing(reader, app), "");
      hide PruneAll, PutClaim, Ids;
    case SelfStart(now, token, reader) =>
      PutsLive(a.stores, b.stores, now, token, Tap(0, "", {}), Pairing("", ""), reader);
      hide PruneAll, PutSelfLogin, Ids;
    case ElevateStart(now, token, app) =>
      PutsLive(a.stores, b.stores, now, token, Tap(0, "", {}), Pairing("", ""), app);
      hide PruneAll, PutElevate, Ids;
  }

  lemma TickLive(a: State, b: State, o: Op)
    requires SameLive(a, b, o.now) && o.Tick?
    ensures SameLive(Step(a, o, true).0, Step(b, o, false).0, o.now) && Step(a, o, true).1 == Step(b, o, false).1
  {
    if o.pid in a.pollers {
      match a.pollers[o.pid]
      case AppWait(reader, _) =>
        SameGets(a.stores, b.stores, o.now, reader);
        ConsumedLive(a.stores, b.stores, o.now, reader);
        hide PruneAll, Get, Consumed;
      case SelfWait(reader) =>
        SameGets(a.stores, b.stores, o.now, reader);
        ConsumedLive(a.stores, b.stores, o.now, reader);
        hide PruneAll, Get, Consumed;
      case ElevateWait(token) =>
        TakeLive(a.stores, b.stores, o.now, token);
        hide PruneAll, Taken, AfterTake;
    }
  }

  lemma StepLive(a: State, b: State, o: Op)
    requires SameLive(a, b, Start(o)) && Start(o) <= End(o)
    ensures SameLive(Step(a, o, true).0, Step(b, o, false).0, End(o)) && Step(a, o, true).1 == Step(b, o, false).1
  {
    if o.Tick? {
      TickLive(a, b, o);
    } else if o.Continue? {
      ContinuedLive(a.stores, b.stores, o.now, o.later, o.token, o.employee);
      hide PruneAll, Continued;
    } else if o.Wait? || o.SelfLoginWait? || o.ElevateWaitFor? {
      SameGets(a.stores, b.stores, o.now, o.token);
      hide PruneAll, Get;
    } else {
      AddLive(a, b, o);
      hide PruneAll, SameLive;
    }
  }

  lemma OrderedBefore(ops: seq<Op>)
    requires Ordered(ops) && ops != []
    ensures var n := |ops| - 1;
            && Ordered(ops[..n]) && Start(ops[n]) <= End(ops[n])
            && (n > 0 ==> End(ops[..n][n - 1]) <= Start(ops[n]))
  {
    hide Start, End;
  }

  lemma StartsSame(now: int)
    ensures SameLive(Run([], true), Run([], false), now)
  {
  }

  // After a run, pruned and unpruned agree on what is alive, from the end of its last operation on.
  lemma {:induction false} RunsAgree(ops: seq<Op>, now: int)
    requires Ordered(ops) && (ops != [] ==> End(ops[|ops| - 1]) <= now)
    ensures SameLive(Run(ops, true), Run(ops, false), now)
  {
    hide Step, SameLive, Start, End, Ordered;
    if ops == [] {
      StartsSame(now);
    } else {
      var n := |ops| - 1;
      OrderedBefore(ops);
      RunsAgree(ops[..n], Start(ops[n]));
      StepLive(Run(ops[..n], true), Run(ops[..n], false), ops[n]);
      LiveLater(Run(ops, true), Run(ops, false), End(ops[n]), now);
    }
  }

  lemma OrderedPrefix(ops: seq<Op>, j: nat)
    requires Ordered(ops) && j < |ops|
    ensures Ordered(ops[..j]) && Start(ops[j]) <= End(ops[j]) && (j > 0 ==> End(ops[..j][j - 1]) <= Start(ops[j]))
  {
    hide Start, End;
  }

  /** Pruning does not show: with a clock that never runs backwards, the stores answer every request
      exactly as an archive that never forgets anything and only looks at expiry. */
  lemma PruningUnobservable(ops: seq<Op>, j: nat)
    requires Ordered(ops) && j < |ops|
    ensures AnswerAt(ops, j, true) == AnswerAt(ops, j, false)
  {
    hide Step, SameLive, Start, End, Ordered, Run;
    OrderedPrefix(ops, j);
    RunsAgree(ops[..j], Start(ops[j]));
    StepLive(Run(ops[..j], true), Run(ops[..j], false), ops[j]);
  }
}
