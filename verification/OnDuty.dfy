/**
 The on-duty rule for housekeeping escalations (app/services/hk_escalation_service.py): one pass over
 the day's punches in order of time, against the rule it is meant to decide. Instants are
 microseconds in UTC; Bangkok is seven hours ahead.
*/
module OnDuty {
  import opened Wrappers

  const HOUR: int := 3_600_000_000
  const DAY: int := 24 * HOUR

  const BRANCH_DEVICE_NAMES: map<string, string> := map["HF" := "HF", "HF_VILLE" := "HF Ville"]
  const MAID_ROLE: string := "housekeeping"
  const CHECK_IN: set<int> := {0, 255}
  const CHECK_OUT: set<int> := {1}

  /** The Bangkok calendar day that contains now: exactly 24 hours from one Bangkok midnight to the next. */
  function BangkokDayBounds(now: int): (bounds: (int, int))
    ensures bounds.1 - bounds.0 == 86_400_000_000 && bounds.0 <= now < bounds.1
    ensures (bounds.0 + 25_200_000_000) % 86_400_000_000 == 0
  {
    var midnight := (now + 7 * HOUR) / DAY * DAY;
    (midnight - 7 * HOUR, midnight + DAY - 7 * HOUR)
  }

  datatype Employee = Employee(badge: string, role: string, active: bool, lineUserId: Option<string>)

  datatype Punch = Punch(badge: string, device: nat, kind: int, ts: int, id: nat)

  // ---------- The queries ----------

  // Row ids are a primary key.
  ghost predicate UniqueIds(table: seq<Punch>) {
    forall i, j | 0 <= i < j < |table| :: table[i].id != table[j].id
  }

  predicate NoLater(p: Punch, q: Punch) {
    p.ts < q.ts || (p.ts == q.ts && p.id <= q.id)
  }

  ghost predicate Ascending(rows: seq<Punch>) {
    forall i, j | 0 <= i < j < |rows| :: NoLater(rows[i], rows[j])
  }

  function Insert(rows: seq<Punch>, p: Punch): seq<Punch> {
    if rows == [] || NoLater(rows[|rows| - 1], p) then rows + [p]
    else Insert(rows[..|rows| - 1], p) + [rows[|rows| - 1]]
  }

  // ORDER BY timestamp, id over the rows of these badges within the day.
  function Query(table: seq<Punch>, badges: set<string>, start: int, end: int): seq<Punch> {
    if table == [] then []
    else
      var rest, p := Query(table[..|table| - 1], badges, start, end), table[|table| - 1];
      if p.badge in badges && start <= p.ts < end then Insert(rest, p) else rest
  }

  predicate Eligible(e: Employee) {
    e.role == MAID_ROLE && e.active && e.lineUserId.Some? && e.lineUserId.value != ""
  }

  // The employees are in badge order.
  function Candidates(employees: seq<Employee>): seq<Employee> {
    if employees == [] then []
    else
      var rest, e := Candidates(employees[..|employees| - 1]), employees[|employees| - 1];
      if Eligible(e) then rest + [e] else rest
  }

  // ---------- The rule ----------

  predicate Today(p: Punch, badge: string, start: int, end: int) {
    p.badge == badge && start <= p.ts < end
  }

  predicate Arrives(p: Punch, devices: set<nat>) {
    p.device in devices && p.kind in CHECK_IN
  }

  // Her greatest punch of the day by time and id, on any device.
  ghost predicate Latest(table: seq<Punch>, p: Punch, badge: string, start: int, end: int) {
    p in table && Today(p, badge, start, end) && forall q | q in table && Today(q, badge, start, end) :: NoLater(q, p)
  }

  // She came in here today, and her last punch today on any device did not check her out.
  ghost predicate Works(table: seq<Punch>, badge: string, devices: set<nat>, start: int, end: int) {
    && (exists p :: p in table && Today(p, badge, start, end) && Arrives(p, devices))
    && exists p :: Latest(table, p, badge, start, end) && p.kind !in CHECK_OUT
  }

  ghost function Working(candidates: seq<Employee>, table: seq<Punch>, devices: set<nat>, start: int,
                         end: int): seq<Employee> {
    if candidates == [] then []
    else
      var rest, e := Working(candidates[..|candidates| - 1], table, devices, start, end), candidates[|candidates| - 1];
      if Works(table, e.badge, devices, start, end) then rest + [e] else rest
  }

  // ---------- The pass ----------

  // What the pass knows after some of the rows.
  ghost predicate Seen(rows: seq<Punch>, devices: set<nat>, here: set<string>, last: map<string, int>) {
    && (forall b :: b in here <==> exists i | 0 <= i < |rows| :: rows[i].badge == b && Arrives(rows[i], devices))
    && (forall b :: b in last <==> exists i | 0 <= i < |rows| :: rows[i].badge == b)
    && (forall b | b in last :: exists i | 0 <= i < |rows| :: IsLast(rows, i, b) && rows[i].kind == last[b])
  }

  ghost predicate IsLast(rows: seq<Punch>, i: nat, badge: string) {
    i < |rows| && rows[i].badge == badge && forall k | i < k < |rows| :: rows[k].badge != badge
  }

  lemma SeenNext(rows: seq<Punch>, p: Punch, devices: set<nat>, here: set<string>, last: map<string, int>)
    requires Seen(rows, devices, here, last)
    ensures Seen(rows + [p], devices, if Arrives(p, devices) then here + {p.badge} else here, last[p.badge := p.kind])
  {
    var more := rows + [p];
    var last' := last[p.badge := p.kind];
    assert forall i | 0 <= i < |rows| :: more[i] == rows[i];
    assert more[|rows|] == p;
    forall b | b in last' ensures exists i | 0 <= i < |more| :: IsLast(more, i, b) && more[i].kind == last'[b] {
      if b == p.badge {
        assert IsLast(more, |rows|, b);
      } else {
        var i :| 0 <= i < |rows| && IsLast(rows, i, b) && rows[i].kind == last[b];
        assert IsLast(more, i, b);
      }
    }
  }

  // ---------- The queries' rows ----------

  lemma Order(p: Punch, q: Punch, r: Punch)
    ensures NoLater(p, q) || NoLater(q, p)
    ensures NoLater(p, q) && NoLater(q, r) ==> NoLater(p, r)
  {
  }

  lemma AppendKeeps(rows: seq<Punch>, p: Punch)
    requires Ascending(rows) && forall q | q in rows :: NoLater(q, p)
    ensures Ascending(rows + [p])
  {
    hide NoLater;
  }

  lemma {:induction false} InsertKeeps(rows: seq<Punch>, p: Punch)
    requires Ascending(rows)
    ensures Ascending(Insert(rows, p)) && forall q :: q in Insert(rows, p) <==> q in rows || q == p
  {
    hide NoLater;
    if rows == [] {
      AppendKeeps(rows, p);
    } else {
      var n := |rows| - 1;
      var most, last := rows[..n], rows[n];
      assert rows == most + [last];
      forall q | q in rows ensures NoLater(q, last) || q == last {
        var k :| 0 <= k < |rows| && rows[k] == q;
        assert k < n ==> NoLater(rows[k], rows[n]);
      }
      if NoLater(last, p) {
        forall q | q in rows ensures NoLater(q, p) {
          Order(q, last, p);
        }
        AppendKeeps(rows, p);
      } else {
        InsertKeeps(most, p);
        Order(p, last, last);
        InsertBeforeLast(most, p, last);
      }
    }
  }

  lemma InsertBeforeLast(most: seq<Punch>, p: Punch, last: Punch)
    requires Ascending(most + [last]) && NoLater(p, last) && Ascending(Insert(most, p))
    requires forall q :: q in Insert(most, p) <==> q in most || q == p
    ensures Ascending(Insert(most, p) + [last])
  {
    hide NoLater, Insert;
    forall q | q in Insert(most, p) ensures NoLater(q, last) {
      if q != p {
        var k :| 0 <= k < |most| && most[k] == q;
        assert NoLater((most + [last])[k], (most + [last])[|most|]);
      }
    }
    AppendKeeps(Insert(most, p), last);
  }

  lemma {:induction false} QueryMeaning(table: seq<Punch>, badges: set<string>, start: int, end: int)
    ensures Ascending(Query(table, badges, start, end))
    ensures forall q :: q in Query(table, badges, start, end) <==>
            q in table && q.badge in badges && start <= q.ts < end
  {
    if table != [] {
      var n := |table| - 1;
      QueryMeaning(table[..n], badges, start, end);
      InsertKeeps(Query(table[..n], badges, start, end), table[n]);
      assert table == table[..n] + [table[n]];
    }
  }

  lemma LatestIsUnique(table: seq<Punch>, p: Punch, q: Punch, badge: string, start: int, end: int)
    requires UniqueIds(table) && Latest(table, p, badge, start, end) && Latest(table, q, badge, start, end)
    ensures p == q
  {
    SameId(table, p, q);
  }

  // The last row of a badge is her latest punch.
  lemma LastIsLatest(table: seq<Punch>, badges: set<string>, start: int, end: int, i: nat, badge: string)
    requires badge in badges && IsLast(Query(table, badges, start, end), i, badge)
    ensures Latest(table, Query(table, badges, start, end)[i], badge, start, end)
  {
    var rows := Query(table, badges, start, end);
    QueryMeaning(table, badges, start, end);
    hide Query;
    forall q | q in table && Today(q, badge, start, end) ensures NoLater(q, rows[i]) {
      assert q in rows;
      var k :| 0 <= k < |rows| && rows[k] == q;
      assert k <= i;
    }
    assert rows[i] in rows;
  }

  // After all rows, the two dictionaries decide the rule for each candidate.
  lemma PassDecides(table: seq<Punch>, badges: set<string>, devices: set<nat>, start: int, end: int,
                    here: set<string>, last: map<string, int>, badge: string)
    requires UniqueIds(table) && badge in badges && Seen(Query(table, badges, start, end), devices, here, last)
    ensures badge in here && (badge !in last || last[badge] !in CHECK_OUT) <==> Works(table, badge, devices, start, end)
  {
    hide Query, Arrives, Latest, IsLast;
    HereMeaning(table, badges, devices, start, end, here, last, badge);
    if badge in last {
      var rows := Query(table, badges, start, end);
      var i :| 0 <= i < |rows| && IsLast(rows, i, badge) && rows[i].kind == last[badge];
      LastIsLatest(table, badges, start, end, i, badge);
      forall p | Latest(table, p, badge, start, end) ensures p == rows[i] {
        LatestIsUnique(table, p, rows[i], badge, start, end);
      }
    }
  }

  lemma HereMeaning(table: seq<Punch>, badges: set<string>, devices: set<nat>, start: int, end: int,
                    here: set<string>, last: map<string, int>, badge: string)
    requires badge in badges && Seen(Query(table, badges, start, end), devices, here, last)
    ensures badge in here <==> exists p :: p in table && Today(p, badge, start, end) && Arrives(p, devices)
    ensures badge in here ==> badge in last
  {
    var rows := Query(table, badges, start, end);
    QueryMeaning(table, badges, start, end);
    hide Query, Arrives;
    if p :| p in table && Today(p, badge, start, end) && Arrives(p, devices) {
      assert p in rows;
      var i :| 0 <= i < |rows| && rows[i] == p;
    }
    if badge in here {
      var i :| 0 <= i < |rows| && rows[i].badge == badge && Arrives(rows[i], devices);
      assert rows[i] in rows;
    }
  }

  lemma SameId(table: seq<Punch>, p: Punch, q: Punch)
    requires UniqueIds(table) && p in table && q in table && p.id == q.id
    ensures p == q
  {
  }

  // Python's list comprehension over the candidates.
  function Select(candidates: seq<Employee>, here: set<string>, last: map<string, int>): seq<Employee> {
    if candidates == [] then []
    else
      var rest, e := Select(candidates[..|candidates| - 1], here, last), candidates[|candidates| - 1];
      if e.badge in here && (e.badge !in last || last[e.badge] !in CHECK_OUT) then rest + [e] else rest
  }

  lemma {:induction false} SelectWorking(candidates: seq<Employee>, table: seq<Punch>, badges: set<string>,
                                         devices: set<nat>, start: int, end: int, here: set<string>,
                                         last: map<string, int>)
    requires UniqueIds(table) && Seen(Query(table, badges, start, end), devices, here, last)
    requires forall e | e in candidates :: e.badge in badges
    ensures Select(candidates, here, last) == Working(candidates, table, devices, start, end)
  {
    if candidates != [] {
      var n := |candidates| - 1;
      SelectWorking(candidates[..n], table, badges, devices, start, end, here, last);
      hide Works, Seen, Query;
      PassDecides(table, badges, devices, start, end, here, last, candidates[n].badge);
    }
  }

  // Without a device of the branch nobody can have come in.
  lemma {:induction false} NobodyHere(candidates: seq<Employee>, table: seq<Punch>, start: int, end: int)
    ensures Working(candidates, table, {}, start, end) == []
  {
    if candidates != [] {
      NobodyHere(candidates[..|candidates| - 1], table, start, end);
    }
  }

  function DevicesNamed(devices: map<nat, string>, name: string): set<nat> {
    set d | d in devices && devices[d] == name
  }

  // The rule in its own words: a housekeeper, active and reachable on LINE, who has come in today on a device
  // of this name and whose last punch today, on any device, is no check-out.
  ghost predicate IsOnDuty(e: Employee, table: seq<Punch>, devices: map<nat, string>, name: string,
                           start: int, end: int) {
    && e.role == "housekeeping" && e.active && e.lineUserId.Some? && e.lineUserId.value != ""
    && CameIn(e.badge, table, devices, name, start, end) && NotGone(e.badge, table, start, end)
  }

  ghost predicate CameIn(badge: string, table: seq<Punch>, devices: map<nat, string>, name: string,
                         start: int, end: int) {
    exists p :: p in table && p.badge == badge && start <= p.ts < end
                && (p.device, name) in devices.Items && p.kind in {0, 255}
  }

  ghost predicate NotGone(badge: string, table: seq<Punch>, start: int, end: int) {
    exists p :: p in table && p.badge == badge && start <= p.ts < end && p.kind != 1
                && forall q | q in table && q.badge == badge && start <= q.ts < end ::
                     q.ts < p.ts || (q.ts == p.ts && q.id <= p.id)
  }

  ghost function DutyList(employees: seq<Employee>, table: seq<Punch>, devices: map<nat, string>, name: string,
                          start: int, end: int): seq<Employee> {
    if employees == [] then []
    else
      var rest := DutyList(employees[..|employees| - 1], table, devices, name, start, end);
      var e := employees[|employees| - 1];
      if IsOnDuty(e, table, devices, name, start, end) then rest + [e] else rest
  }

  lemma CameInMeaning(badge: string, table: seq<Punch>, devices: map<nat, string>, name: string, start: int, end: int)
    ensures CameIn(badge, table, devices, name, start, end) <==>
            exists p :: p in table && Today(p, badge, start, end) && Arrives(p, DevicesNamed(devices, name))
  {
    var ids := DevicesNamed(devices, name);
    assert forall p: Punch :: p.device in ids <==> (p.device, name) in devices.Items;
    hide DevicesNamed;
    if p :| p in table && Today(p, badge, start, end) && Arrives(p, ids) {
      assert p in table && p.badge == badge && start <= p.ts < end && (p.device, name) in devices.Items
             && p.kind in {0, 255};
    }
  }

  lemma NotGoneMeaning(badge: string, table: seq<Punch>, start: int, end: int)
    ensures NotGone(badge, table, start, end) <==>
            exists p :: Latest(table, p, badge, start, end) && p.kind !in CHECK_OUT
  {
    if p :| Latest(table, p, badge, start, end) && p.kind !in CHECK_OUT {
      assert forall q | q in table && q.badge == badge && start <= q.ts < end :: Today(q, badge, start, end);
      assert p in table && p.badge == badge && start <= p.ts < end && p.kind != 1;
    }
    if p :| p in table && p.badge == badge && start <= p.ts < end && p.kind != 1
            && forall q | q in table && q.badge == badge && start <= q.ts < end ::
                 q.ts < p.ts || (q.ts == p.ts && q.id <= p.id) {
      assert Latest(table, p, badge, start, end);
    }
  }

  lemma OnDutyMeaning(e: Employee, table: seq<Punch>, devices: map<nat, string>, name: string, start: int, end: int)
    ensures IsOnDuty(e, table, devices, name, start, end) <==>
            Eligible(e) && Works(table, e.badge, DevicesNamed(devices, name), start, end)
  {
    hide CameIn, NotGone, DevicesNamed, Latest, Arrives, Today;
    CameInMeaning(e.badge, table, devices, name, start, end);
    NotGoneMeaning(e.badge, table, start, end);
  }

  lemma {:induction false} DutyListMeaning(employees: seq<Employee>, table: seq<Punch>, devices: map<nat, string>,
                                           name: string, start: int, end: int)
    ensures Working(Candidates(employees), table, DevicesNamed(devices, name), start, end) ==
            DutyList(employees, table, devices, name, start, end)
  {
    if employees != [] {
      var n := |employees| - 1;
      DutyListMeaning(employees[..n], table, devices, name, start, end);
      OnDutyMeaning(employees[n], table, devices, name, start, end);
      var rest := Candidates(employees[..n]);
      assert (rest + [employees[n]])[..|rest|] == rest;
      hide Works, IsOnDuty, DevicesNamed, Eligible;
    }
  }

  /** The maids on duty at a branch: those of the rule, in the employees' order; an unknown branch has none. */
  method OnDutyMaids(branch: string, devices: map<nat, string>,
                     employees: seq<Employee>, table: seq<Punch>, now: int) returns (maids: seq<Employee>)
    requires UniqueIds(table)
    ensures var (start, end) := BangkokDayBounds(now);
            maids == if branch == "HF" then DutyList(employees, table, devices, "HF", start, end)
                     else if branch == "HF_VILLE" then DutyList(employees, table, devices, "HF Ville", start, end)
                     else []
  {
    if branch !in BRANCH_DEVICE_NAMES {
      return [];
    }
    var (start, end) := BangkokDayBounds(now);
    var candidates := Candidates(employees);
    var ids := DevicesNamed(devices, BRANCH_DEVICE_NAMES[branch]);
    DutyListMeaning(employees, table, devices, BRANCH_DEVICE_NAMES[branch], start, end);
    if ids == {} {
      NobodyHere(candidates, table, start, end);
      return [];
    }
    if candidates == [] {
      return [];
    }
    var badges := set e | e in candidates :: e.badge;
    var punches := Query(table, badges, start, end);
    hide Query, Seen, Arrives, Works, Candidates, DutyList, Working, DevicesNamed;
    var here: set<string>, last: map<string, int> := {}, map[];
    assert Seen([], ids, here, last) by {
      SeenNothing(ids);
    }
    assert punches[..0] == [];
    for i := 0 to |punches|
      invariant Seen(punches[..i], ids, here, last)
    {
      var p := punches[i];
      SeenNext(punches[..i], p, ids, here, last);
      assert punches[..i + 1] == punches[..i] + [p];
      if Arrives(p, ids) {
        here := here + {p.badge};
      }
      last := last[p.badge := p.kind];
    }
    assert punches[..|punches|] == punches;
    SelectWorking(candidates, table, badges, ids, start, end, here, last);
    maids := Select(candidates, here, last);
  }

  lemma SeenNothing(devices: set<nat>)
    ensures Seen([], devices, {}, map[])
  {
  }
}
