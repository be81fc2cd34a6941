/**
 The employee merge tool (app/api/admin_employees.py): child rows move from one badge to another,
 duplicates are dropped in favour of the target's rows, and the target's empty fields are filled.
 Tables are modelled at the level of the SQL effects inside one transaction.
*/
module EmployeeMerge {
  import opened Wrappers

  // The key is the rest of the table's UNIQUE(badge, ...) constraint. A badge "" stands for NULL.
  datatype Row = Row(id: nat, badge: string, key: string, data: int)

  // ---------- Moving rows ----------

  function MovedAll(rows: seq<Row>, source: string, target: string): (r: seq<Row>)
    ensures |r| == |rows|
    ensures forall i | 0 <= i < |rows| :: r[i] == if rows[i].badge == source then rows[i].(badge := target) else rows[i]
  {
    seq(|rows|, i requires 0 <= i < |rows| => if rows[i].badge == source then rows[i].(badge := target) else rows[i])
  }

  function CountOf(rows: seq<Row>, badge: string): nat {
    if rows == [] then 0
    else CountOf(rows[..|rows| - 1], badge) + if rows[|rows| - 1].badge == badge then 1 else 0
  }

  // Some row already has this badge and key.
  predicate Occupied(rows: seq<Row>, badge: string, key: string) {
    exists i | 0 <= i < |rows| :: rows[i].badge == badge && rows[i].key == key
  }

  // What the loop makes of a prefix of the rows, asking for collisions in the table as it was.
  function Merged(table: seq<Row>, rows: seq<Row>, source: string, target: string): seq<Row> {
    if rows == [] then []
    else
      var rest, row := Merged(table, rows[..|rows| - 1], source, target), rows[|rows| - 1];
      if row.badge != source then rest + [row]
      else if Occupied(table, target, row.key) then rest
      else rest + [row.(badge := target)]
  }

  function Dropped(table: seq<Row>, rows: seq<Row>, source: string, target: string): nat {
    if rows == [] then 0
    else
      var row := rows[|rows| - 1];
      Dropped(table, rows[..|rows| - 1], source, target) +
      if row.badge == source && Occupied(table, target, row.key) then 1 else 0
  }

  predicate Unique(rows: seq<Row>) {
    forall i, j | 0 <= i < j < |rows| :: rows[i].badge != rows[j].badge || rows[i].key != rows[j].key
  }

  // A badge's rows by key.
  function View(rows: seq<Row>, badge: string): map<string, (nat, int)> {
    if rows == [] then map[]
    else
      var rest, row := View(rows[..|rows| - 1], badge), rows[|rows| - 1];
      if row.badge == badge then rest[row.key := (row.id, row.data)] else rest
  }

  lemma ViewAppend(rows: seq<Row>, row: Row, badge: string)
    ensures View(rows + [row], badge) ==
            if row.badge == badge then View(rows, badge)[row.key := (row.id, row.data)] else View(rows, badge)
  {
    assert (rows + [row])[..|rows|] == rows;
  }

  lemma {:induction false} ViewKeys(rows: seq<Row>, badge: string, key: string)
    ensures key in View(rows, badge) <==> Occupied(rows, badge, key)
  {
    if rows != [] {
      var n := |rows| - 1;
      ViewKeys(rows[..n], badge, key);
      if i :| 0 <= i < |rows| && rows[i].badge == badge && rows[i].key == key {
        assert i < n ==> rows[..n][i] == rows[i];
      }
      if i :| 0 <= i < n && rows[..n][i].badge == badge && rows[..n][i].key == key {
        assert rows[i] == rows[..n][i];
      }
    }
  }

  // The views after a prefix of the rows.
  lemma {:induction false} MergedViews(table: seq<Row>, rows: seq<Row>, source: string, target: string, badge: string)
    requires source != target
    ensures View(Merged(table, rows, source, target), badge) ==
            if badge == source then map[]
            else if badge == target then (View(rows, source) - View(table, target).Keys) + View(rows, target)
            else View(rows, badge)
    requires forall i | 0 <= i < |rows| :: rows[i] in table
  {
    if rows != [] {
      var n := |rows| - 1;
      var row := rows[n];
      MergedViews(table, rows[..n], source, target, badge);
      ViewKeys(table, target, row.key);
      ViewKeys(rows[..n], target, row.key);
      OccupiedInPart(table, rows[..n], target, row.key);
      var rest := Merged(table, rows[..n], source, target);
      ViewAppend(rest, row, badge);
      ViewAppend(rest, row.(badge := target), badge);
      hide View, Occupied;
      var k, v := row.key, (row.id, row.data);
      if badge == target {
        UnionNext(View(rows[..n], source), View(table, target).Keys, View(rows[..n], target), k, v);
      }
    }
  }

  // One more pair in a right-biased union.
  lemma UnionNext<V>(f: map<string, V>, taken: set<string>, t: map<string, V>, k: string, v: V)
    ensures (f - taken) + t[k := v] == ((f - taken) + t)[k := v]
    ensures k in taken ==> (f[k := v] - taken) + t == (f - taken) + t
    ensures k !in taken && k !in t ==> (f[k := v] - taken) + t == ((f - taken) + t)[k := v]
  {
  }

  lemma OccupiedInPart(table: seq<Row>, rows: seq<Row>, badge: string, key: string)
    requires forall i | 0 <= i < |rows| :: rows[i] in table
    ensures Occupied(rows, badge, key) ==> Occupied(table, badge, key)
  {
  }

  /** The merge is a right-biased union: the target ends with its own row wherever it had one and the
      source's elsewhere, the source ends with none, and nobody else's rows change. */
  lemma MergeIsUnion(table: seq<Row>, source: string, target: string, badge: string)
    requires source != target
    ensures View(Merged(table, table, source, target), badge) ==
            if badge == source then map[]
            else if badge == target then View(table, source) + View(table, target)
            else View(table, badge)
  {
    MergedViews(table, table, source, target, badge);
  }

  // Where a row after the merge comes from.
  ghost predicate ComesFrom(table: seq<Row>, rows: seq<Row>, source: string, target: string, m: Row) {
    || (m in rows && m.badge != source)
    || exists j | 0 <= j < |rows| ::
         rows[j].badge == source && !Occupied(table, target, rows[j].key) && m == rows[j].(badge := target)
  }

  lemma {:induction false} MergedOrigin(table: seq<Row>, rows: seq<Row>, source: string, target: string)
    ensures forall m | m in Merged(table, rows, source, target) :: ComesFrom(table, rows, source, target, m)
    ensures forall m | m in rows && m.badge != source :: m in Merged(table, rows, source, target)
  {
    if rows != [] {
      var n := |rows| - 1;
      MergedOrigin(table, rows[..n], source, target);
      hide Occupied;
      assert rows == rows[..n] + [rows[n]];
      forall m | ComesFrom(table, rows[..n], source, target, m) ensures ComesFrom(table, rows, source, target, m) {
        if !(m in rows[..n] && m.badge != source) {
          var j :| 0 <= j < n && rows[..n][j].badge == source && !Occupied(table, target, rows[..n][j].key)
                   && m == rows[..n][j].(badge := target);
          assert m == rows[j].(badge := target);
        }
      }
    }
  }

  // The row the loop looks at next clashes with nothing already merged.
  lemma NextIsNew(table: seq<Row>, n: nat, source: string, target: string, m: Row)
    requires n < |table| && source != target && Unique(table)
    requires ComesFrom(table, table[..n], source, target, m)
    ensures table[n].badge != source ==> m.badge != table[n].badge || m.key != table[n].key
    ensures table[n].badge == source && !Occupied(table, target, table[n].key) ==>
            m.badge != target || m.key != table[n].key
  {
    var row := table[n];
    if m in table[..n] && m.badge != source {
      var j :| 0 <= j < n && table[j] == m;
      assert table[j].badge != row.badge || table[j].key != row.key;
    } else {
      var j :| 0 <= j < n && table[..n][j].badge == source && !Occupied(table, target, table[..n][j].key)
               && m == table[..n][j].(badge := target);
      assert table[j].badge != row.badge || table[j].key != row.key;
      assert row.badge == target && row.key == m.key ==> Occupied(table, target, m.key);
    }
  }

  lemma {:induction false} MergedUnique(table: seq<Row>, n: nat, source: string, target: string)
    requires n <= |table| && source != target && Unique(table)
    ensures Unique(Merged(table, table[..n], source, target))
  {
    if n > 0 {
      MergedUnique(table, n - 1, source, target);
      assert table[..n][..n - 1] == table[..n - 1];
      MergedOrigin(table, table[..n - 1], source, target);
      var rest := Merged(table, table[..n - 1], source, target);
      hide Occupied, ComesFrom;
      forall m | m in rest
        ensures table[n - 1].badge != source ==> m.badge != table[n - 1].badge || m.key != table[n - 1].key
        ensures table[n - 1].badge == source && !Occupied(table, target, table[n - 1].key) ==>
                  m.badge != target || m.key != table[n - 1].key
      {
        NextIsNew(table, n - 1, source, target, m);
      }
    }
  }

  /** The merged table keeps UNIQUE(badge, key), although every collision query reads the table as it
      was: no two source rows share a key, so the answer is the one the current rows would give. */
  lemma MergeKeepsUnique(table: seq<Row>, source: string, target: string)
    requires source != target && Unique(table)
    ensures Unique(Merged(table, table, source, target))
  {
    assert table[..|table|] == table;
    MergedUnique(table, |table|, source, target);
  }

  lemma QueriesAgree(table: seq<Row>, n: nat, source: string, target: string)
    requires n < |table| && source != target && Unique(table) && table[n].badge == source
    ensures Occupied(table, target, table[n].key) <==>
            Occupied(Merged(table, table[..n], source, target) + table[n..], target, table[n].key)
  {
    var done, key := Merged(table, table[..n], source, target), table[n].key;
    assert table == table[..n] + table[n..];
    OccupiedConcat(table[..n], table[n..], target, key);
    OccupiedConcat(done, table[n..], target, key);
    MergedOrigin(table, table[..n], source, target);
    hide Merged;
    if Occupied(table[..n], target, key) {
      var j :| 0 <= j < n && table[..n][j].badge == target && table[..n][j].key == key;
      assert table[..n][j] in done;
    }
    if Occupied(done, target, key) {
      var i :| 0 <= i < |done| && done[i].badge == target && done[i].key == key;
      NextIsNew(table, n, source, target, done[i]);
      hide Occupied;
      assert Occupied(table, target, key);
    }
  }

  lemma OccupiedConcat(a: seq<Row>, b: seq<Row>, badge: string, key: string)
    ensures Occupied(a + b, badge, key) <==> Occupied(a, badge, key) || Occupied(b, badge, key)
  {
    if i :| 0 <= i < |a| && a[i].badge == badge && a[i].key == key {
      assert (a + b)[i] == a[i];
    }
    if i :| 0 <= i < |b| && b[i].badge == badge && b[i].key == key {
      assert (a + b)[|a| + i] == b[i];
    }
  }

  // ---------- Counting ----------

  lemma {:induction false} MergeCounts(table: seq<Row>, rows: seq<Row>, source: string, target: string)
    requires source != target
    ensures Dropped(table, rows, source, target) <= CountOf(rows, source)
    ensures |Merged(table, rows, source, target)| == |rows| - Dropped(table, rows, source, target)
    ensures CountOf(Merged(table, rows, source, target), source) == 0
    ensures CountOf(Merged(table, rows, source, target), target) ==
            CountOf(rows, target) + CountOf(rows, source) - Dropped(table, rows, source, target)
  {
    if rows != [] {
      var n := |rows| - 1;
      MergeCounts(table, rows[..n], source, target);
      hide Occupied;
      var rest := Merged(table, rows[..n], source, target);
      assert (rest + [rows[n]])[..|rest|] == rest;
      assert (rest + [rows[n].(badge := target)])[..|rest|] == rest;
    }
  }

  // ---------- The plain move ----------

  predicate SharesKey(rows: seq<Row>, source: string, target: string) {
    exists i | 0 <= i < |rows| :: rows[i].badge == source && Occupied(rows, target, rows[i].key)
  }

  lemma {:induction false} MoveIsMerge(table: seq<Row>, n: nat, source: string, target: string)
    requires n <= |table| && !SharesKey(table, source, target)
    ensures Merged(table, table[..n], source, target) == MovedAll(table[..n], source, target)
  {
    if n > 0 {
      MoveIsMerge(table, n - 1, source, target);
      assert table[..n][..n - 1] == table[..n - 1];
      hide Occupied;
      assert table[n - 1].badge == source ==> !Occupied(table, target, table[n - 1].key);
      assert MovedAll(table[..n], source, target)[..n - 1] == MovedAll(table[..n - 1], source, target);
    }
  }

  /** The bulk move respects a UNIQUE(badge, key) exactly when source and target share no key; then
      it is the merge, with nothing to drop. */
  lemma MoveAllFits(rows: seq<Row>, source: string, target: string)
    requires source != target && Unique(rows)
    ensures Unique(MovedAll(rows, source, target)) <==> !SharesKey(rows, source, target)
    ensures !SharesKey(rows, source, target) ==> MovedAll(rows, source, target) == Merged(rows, rows, source, target)
  {
    var moved := MovedAll(rows, source, target);
    if SharesKey(rows, source, target) {
      var i :| 0 <= i < |rows| && rows[i].badge == source && Occupied(rows, target, rows[i].key);
      var j :| 0 <= j < |rows| && rows[j].badge == target && rows[j].key == rows[i].key;
      assert moved[i].badge == moved[j].badge && moved[i].key == moved[j].key;
    } else {
      assert rows[..|rows|] == rows;
      MoveIsMerge(rows, |rows|, source, target);
      MergeKeepsUnique(rows, source, target);
    }
  }

  lemma {:induction false} MoveCounts(rows: seq<Row>, source: string, target: string)
    requires source != target
    ensures CountOf(MovedAll(rows, source, target), source) == 0
    ensures CountOf(MovedAll(rows, source, target), target) == CountOf(rows, target) + CountOf(rows, source)
  {
    if rows != [] {
      var n := |rows| - 1;
      MoveCounts(rows[..n], source, target);
      assert MovedAll(rows, source, target)[..n] == MovedAll(rows[..n], source, target);
    }
  }

  // ---------- The employees ----------

  datatype Field = LineUserId | LineDisplayName | LinePictureUrl | LineLinkingCode | LineLinkingCodeGeneratedAt
                 | Email | NfcCardUid | EnglishName | ThaiName | Role | Location | Department | Position

  const COPYABLE_FIELDS: seq<Field> :=
    [LineUserId, LineDisplayName, LinePictureUrl, LineLinkingCode, LineLinkingCodeGeneratedAt, Email, NfcCardUid,
     EnglishName, ThaiName, Role, Location, Department, Position]

  const UNIQUE_FIELDS: set<Field> := {LineUserId, LineLinkingCode, Email, NfcCardUid}

  // The copyable columns that are not NULL, and the rest of the row.
  datatype Employee = Employee(fields: map<Field, string>, rest: int)

  predicate Filled(e: Employee, f: Field) {
    f in e.fields && e.fields[f] != ""
  }

  // The UNIQUE columns, in which NULLs never clash.
  ghost predicate UniqueColumns(employees: map<string, Employee>) {
    forall b, c, f | b in employees && c in employees && b != c && f in UNIQUE_FIELDS ::
      Apart(employees[b], employees[c], f)
  }

  predicate Apart(e: Employee, g: Employee, f: Field) {
    f in e.fields && f in g.fields ==> e.fields[f] != g.fields[f]
  }

  function Copies(source: Employee, target: Employee): map<Field, string> {
    map f | f in source.fields && Filled(source, f) && !Filled(target, f) :: source.fields[f]
  }

  function Enriched(source: Employee, target: Employee): Employee {
    target.(fields := target.fields + Copies(source, target))
  }

  function MergedEmployees(employees: map<string, Employee>, source: string, target: string): map<string, Employee>
    requires source in employees
  {
    (employees - {source})[target :=
      if target in employees then Enriched(employees[source], employees[target]) else employees[source]]
  }

  /** The UNIQUE columns stay unique, because the source row is gone before its values are copied. */
  lemma ColumnsStayUnique(employees: map<string, Employee>, source: string, target: string)
    requires source in employees && source != target && UniqueColumns(employees)
    ensures UniqueColumns(MergedEmployees(employees, source, target))
  {
    var after := MergedEmployees(employees, source, target);
    forall b, c, f | b in after && c in after && b != c && f in UNIQUE_FIELDS ensures Apart(after[b], after[c], f) {
      assert b != target ==> after[b] == employees[b];
      assert c != target ==> after[c] == employees[c];
      assert b != target ==> Apart(employees[b], employees[source], f);
      assert c != target ==> Apart(employees[source], employees[c], f);
      assert target in employees && b != target ==> Apart(employees[b], employees[target], f);
      assert target in employees && c != target ==> Apart(employees[target], employees[c], f);
    }
  }

  /** Copying before deleting would have broken them, exactly when a UNIQUE column is copied. */
  lemma DeleteBeforeCopy(employees: map<string, Employee>, source: string, target: string)
    requires source in employees && target in employees && source != target && UniqueColumns(employees)
    ensures UniqueColumns(employees[target := Enriched(employees[source], employees[target])]) <==>
            forall f | f in UNIQUE_FIELDS :: f !in Copies(employees[source], employees[target])
  {
    var e, g := employees[source], employees[target];
    var clash := employees[target := Enriched(e, g)];
    if f :| f in UNIQUE_FIELDS && f in Copies(e, g) {
      assert !Apart(clash[source], clash[target], f);
    } else {
      forall b, c, f | b in clash && c in clash && b != c && f in UNIQUE_FIELDS ensures Apart(clash[b], clash[c], f) {
        assert Apart(employees[b], employees[c], f);
      }
    }
  }

  /** Nobody's identity is lost: a filled column of the target stays, an empty one takes the source's;
      and where the request was not refused, the LINE account that was linked on either side is the
      target's afterwards. */
  lemma IdentityKept(employees: map<string, Employee>, source: string, target: string, f: Field)
    requires source in employees && source != target
    ensures var after, from := MergedEmployees(employees, source, target)[target], employees[source];
            && (target in employees && HasValue(employees[target], f) ==>
                  f in after.fields && after.fields[f] == employees[target].fields[f])
            && (!(target in employees && HasValue(employees[target], f)) && HasValue(from, f) ==>
                  f in after.fields && after.fields[f] == from.fields[f])
            && (HasValue(from, LineUserId)
                && !(target in employees && HasValue(employees[target], LineUserId)
                     && employees[target].fields[LineUserId] != from.fields[LineUserId]) ==>
                  LineUserId in after.fields && after.fields[LineUserId] == from.fields[LineUserId])
    ensures target in employees ==>
              MergedEmployees(employees, source, target)[target].rest == employees[target].rest
  {
    FilledMeaning(employees[source], f);
    FilledMeaning(employees[source], LineUserId);
    if target in employees {
      FilledMeaning(employees[target], f);
      FilledMeaning(employees[target], LineUserId);
    }
    hide HasValue, Filled;
  }

  lemma FilledMeaning(e: Employee, f: Field)
    ensures Filled(e, f) <==> HasValue(e, f)
    ensures HasValue(e, f) ==> f in e.fields
  {
    if f in e.fields {
      assert (f, e.fields[f]) in e.fields.Items;
    }
  }

  // The column holds more than NULL and the empty text.
  ghost predicate HasValue(e: Employee, f: Field) {
    exists text :: text != "" && (f, text) in e.fields.Items
  }

  predicate DifferentLine(employees: map<string, Employee>, source: string, target: string) {
    && source in employees && target in employees
    && Filled(employees[source], LineUserId) && Filled(employees[target], LineUserId)
    && employees[source].fields[LineUserId] != employees[target].fields[LineUserId]
  }

  // ---------- The request ----------

  datatype Table = AttendanceRecords | ApplicationLogs | ShiftAssignments | EmployeeSchedules | EmployeeLeaves
                 | EmployeeAppGrants | StaffLeaveRequests | StaffLeaveDays

  const SIMPLE_CHILD_TABLES: seq<Table> := [AttendanceRecords, ApplicationLogs]
  const UNIQUE_CHILD_TABLES: seq<Table> := [ShiftAssignments, EmployeeSchedules, EmployeeLeaves, EmployeeAppGrants]

  // The tables with a UNIQUE(badge, ...) constraint: the attendance records are among them.
  predicate Constrained(t: Table) {
    t != ApplicationLogs && t != StaffLeaveRequests
  }

  ghost predicate Distinct(order: seq<Table>) {
    forall i, j | 0 <= i < j < |order| :: order[i] != order[j]
  }

  predicate IsSimple(t: Table) {
    t == AttendanceRecords || t == ApplicationLogs
  }

  predicate IsUnique(t: Table) {
    t == ShiftAssignments || t == EmployeeSchedules || t == EmployeeLeaves || t == EmployeeAppGrants
  }

  lemma ListsMeaning(t: Table)
    ensures t in SIMPLE_CHILD_TABLES <==> IsSimple(t)
    ensures t in UNIQUE_CHILD_TABLES <==> IsUnique(t)
    ensures Distinct(SIMPLE_CHILD_TABLES) && Distinct(UNIQUE_CHILD_TABLES)
  {
    assert SIMPLE_CHILD_TABLES[0] == AttendanceRecords && SIMPLE_CHILD_TABLES[1] == ApplicationLogs;
    assert UNIQUE_CHILD_TABLES[0] == ShiftAssignments && UNIQUE_CHILD_TABLES[1] == EmployeeSchedules;
    assert UNIQUE_CHILD_TABLES[2] == EmployeeLeaves && UNIQUE_CHILD_TABLES[3] == EmployeeAppGrants;
  }

  predicate PlainMove(t: Table, rename: bool) {
    IsSimple(t) || (rename && IsUnique(t))
  }

  function After(t: Table, rows: seq<Row>, source: string, target: string, rename: bool): seq<Row> {
    if PlainMove(t, rename) then MovedAll(rows, source, target)
    else if IsUnique(t) then Merged(rows, rows, source, target)
    else rows
  }

  predicate Clashes(t: Table, rows: seq<Row>, source: string, target: string, rename: bool) {
    PlainMove(t, rename) && Constrained(t) && SharesKey(rows, source, target)
  }

  ghost predicate ValidTables(tables: map<Table, seq<Row>>) {
    && (forall t: Table :: t in tables)
    && (forall t | t in tables && Constrained(t) :: Unique(tables[t]))
  }

  /** What a merge that goes through does to a constrained table it lists: a right-biased union by key,
      with no row of the source left, no uniqueness lost and no row unaccounted for. */
  lemma TableMerged(t: Table, rows: seq<Row>, source: string, target: string, rename: bool, badge: string)
    requires source != target && (IsSimple(t) || IsUnique(t)) && Constrained(t) && Unique(rows)
             && !Clashes(t, rows, source, target, rename)
    ensures var after := After(t, rows, source, target, rename);
            && Unique(after) && CountOf(after, source) == 0
            && |after| + (if PlainMove(t, rename) then 0 else Dropped(rows, rows, source, target)) == |rows|
            && View(after, badge) == if badge == source then map[]
                                     else if badge == target then View(rows, source) + View(rows, target)
                                     else View(rows, badge)
  {
    hide View, Unique, CountOf, SharesKey, Merged;
    MergeIsUnion(rows, source, target, badge);
    MergeCounts(rows, rows, source, target);
    MergeKeepsUnique(rows, source, target);
    MoveAllFits(rows, source, target);
    MoveCounts(rows, source, target);
  }

  datatype Error = BadRequest | NotFound | Conflict | ServerError

  datatype Count = Count(moved: nat, dropped: nat)

  function StripLeft(s: string, isSpace: char -> bool): string {
    if s != "" && isSpace(s[0]) then StripLeft(s[1..], isSpace) else s
  }

  function Strip(s: string, isSpace: char -> bool): string
    decreases |s|
  {
    var l := StripLeft(s, isSpace);
    StripRight(l, isSpace)
  }

  function StripRight(s: string, isSpace: char -> bool): string {
    if s != "" && isSpace(s[|s| - 1]) then StripRight(s[..|s| - 1], isSpace) else s
  }

  /** What is cut off a badge: spaces on both sides, and nothing but spaces. */
  lemma StripMeaning(s: string, isSpace: char -> bool) returns (a: string, b: string)
    ensures var t := Strip(s, isSpace);
            && s == a + t + b && (forall c | c in a || c in b :: isSpace(c))
            && (t != "" ==> !isSpace(t[0]) && !isSpace(t[|t| - 1]))
  {
    a := LeftPart(s, isSpace);
    b := RightPart(StripLeft(s, isSpace), isSpace);
  }

  lemma {:induction false} LeftPart(s: string, isSpace: char -> bool) returns (a: string)
    ensures s == a + StripLeft(s, isSpace) && forall c | c in a :: isSpace(c)
    ensures StripLeft(s, isSpace) != "" ==> !isSpace(StripLeft(s, isSpace)[0])
  {
    if s != "" && isSpace(s[0]) {
      var rest := LeftPart(s[1..], isSpace);
      a := [s[0]] + rest;
    } else {
      a := "";
    }
  }

  lemma {:induction false} RightPart(s: string, isSpace: char -> bool) returns (b: string)
    ensures s == StripRight(s, isSpace) + b && forall c | c in b :: isSpace(c)
    ensures StripRight(s, isSpace) != "" ==> StripRight(s, isSpace)[0] == s[0]
    ensures var t := StripRight(s, isSpace); t != "" ==> !isSpace(t[|t| - 1])
  {
    if s != "" && isSpace(s[|s| - 1]) {
      var rest := RightPart(s[..|s| - 1], isSpace);
      b := rest + [s[|s| - 1]];
    } else {
      b := "";
    }
  }

  // The tables after the lists that `drop` duplicates or not.
  function MovedTables(order: seq<Table>, tables: map<Table, seq<Row>>, drop: bool, source: string,
                       target: string): map<Table, seq<Row>> {
    map t | t in tables ::
      if t !in order then tables[t]
      else if drop then Merged(tables[t], tables[t], source, target) else MovedAll(tables[t], source, target)
  }

  // A plain move that breaks a constraint.
  ghost predicate Breaks(t: Table, rows: seq<Row>, source: string, target: string) {
    Constrained(t) && SharesKey(rows, source, target)
  }

  lemma MovedTablesNext(order: seq<Table>, t: Table, tables: map<Table, seq<Row>>, drop: bool, source: string,
                        target: string)
    requires t !in order && t in tables
    ensures MovedTables(order + [t], tables, drop, source, target) ==
            MovedTables(order, tables, drop, source, target)[t :=
              if drop then Merged(tables[t], tables[t], source, target) else MovedAll(tables[t], source, target)]
    ensures MovedTables(order, tables, drop, source, target).Keys == tables.Keys
    ensures MovedTables(order, tables, drop, source, target)[t] == tables[t]
  {
  }

  // Every row of the source was moved or dropped.
  ghost predicate Accounts(summary: map<Table, Count>, order: seq<Table>, tables: map<Table, seq<Row>>,
                           source: string) {
    && summary.Keys == (set t | t in order)
    && forall t | t in order :: t in tables && summary[t].moved + summary[t].dropped == CountOf(tables[t], source)
  }

  lemma AccountsNext(summary: map<Table, Count>, order: seq<Table>, t: Table, count: Count,
                     tables: map<Table, seq<Row>>, source: string)
    requires Accounts(summary, order, tables, source) && t in tables
    requires count.moved + count.dropped == CountOf(tables[t], source)
    ensures Accounts(summary[t := count], order + [t], tables, source)
  {
  }

  // Why a request is refused. The last reason is the database's: two rows that would share a UNIQUE key
  // after a bulk move, which the merge proper risks only for attendance records.
  ghost function Refusal(employees: map<string, Employee>, tables: map<Table, seq<Row>>, source: string,
                         target: string): Option<Error>
    requires ValidTables(tables)
  {
    if source == "" || target == "" || source == target then Some(BadRequest)
    else if source !in employees then Some(NotFound)
    else if DifferentLine(employees, source, target) then Some(Conflict)
    else if exists t: Table :: Clashes(t, tables[t], source, target, target !in employees) then Some(ServerError)
    else None
  }

  lemma SharedRows(rows: seq<Row>, source: string, target: string)
    ensures SharesKey(rows, source, target) <==>
            exists p, q :: p in rows && q in rows && p.badge == source && q.badge == target && p.key == q.key
  {
    if SharesKey(rows, source, target) {
      var i :| 0 <= i < |rows| && rows[i].badge == source && Occupied(rows, target, rows[i].key);
      var j :| 0 <= j < |rows| && rows[j].badge == target && rows[j].key == rows[i].key;
      assert rows[i] in rows && rows[j] in rows;
    }
    if p, q :| p in rows && q in rows && p.badge == source && q.badge == target && p.key == q.key {
      var i :| 0 <= i < |rows| && rows[i] == p;
      var j :| 0 <= j < |rows| && rows[j] == q;
      assert Occupied(rows, target, rows[i].key);
    }
  }

  /** The code lists the attendance records as a table without a UNIQUE constraint on the badge; it has
      one. So merging into an existing employee fails, rolled back, exactly when both badges hold a
      punch of the same time and type; nothing else in the database can refuse it. */
  lemma OnlySharedPunchesRefuse(tables: map<Table, seq<Row>>, source: string, target: string)
    requires ValidTables(tables)
    ensures (exists t: Table :: Clashes(t, tables[t], source, target, false)) <==>
            exists p, q :: p in tables[AttendanceRecords] && q in tables[AttendanceRecords]
                           && p.badge == source && q.badge == target && p.key == q.key
  {
    SharedRows(tables[AttendanceRecords], source, target);
    hide SharesKey;
    assert SharesKey(tables[AttendanceRecords], source, target) ==>
      Clashes(AttendanceRecords, tables[AttendanceRecords], source, target, false);
  }

  const SHARED_PUNCH: seq<Row> := [Row(1, "A1", "08:00:00 in", 0), Row(2, "A2", "08:00:00 in", 0)]

  function SharedPunchRows(t: Table): seq<Row> {
    if t == AttendanceRecords then SHARED_PUNCH else []
  }

  /** Such a merge: two badges of one person, clocked in at the same terminal in the same second. */
  lemma SharedPunchRefused(source: Employee, target: Employee)
    requires !DifferentLine(map["A1" := source, "A2" := target], "A1", "A2")
    ensures var tables := map t: Table | true :: SharedPunchRows(t);
            ValidTables(tables) && Refusal(map["A1" := source, "A2" := target], tables, "A1", "A2") == Some(ServerError)
  {
    hide DifferentLine, ValidTables, Clashes, Unique;
    SharedPunchFacts();
    var tables := map t: Table | true :: SharedPunchRows(t);
    assert ValidTables(tables) by { SharedPunchTables(tables); }
    assert tables[AttendanceRecords] == SHARED_PUNCH;
    assert "A1" != "A2";
  }

  lemma SharedPunchFacts()
    ensures Clashes(AttendanceRecords, SHARED_PUNCH, "A1", "A2", false) && Unique(SHARED_PUNCH)
  {
    assert "A1"[1] != "A2"[1];
    assert SHARED_PUNCH[1].badge == "A2" && Occupied(SHARED_PUNCH, "A2", SHARED_PUNCH[0].key);
  }

  lemma SharedPunchTables(tables: map<Table, seq<Row>>)
    requires forall t: Table :: t in tables && tables[t] == SharedPunchRows(t)
    ensures ValidTables(tables)
  {
    SharedPunchFacts();
  }

  // The tables after a merge, with the log entry about it.
  function MergedDatabase(tables: map<Table, seq<Row>>, source: string, target: string, rename: bool,
                          entry: Row): map<Table, seq<Row>> {
    map t | t in tables ::
      var rows := After(t, tables[t], source, target, rename);
      if t == ApplicationLogs then rows + [entry] else rows
  }

  lemma CountNext(rows: seq<Row>, row: Row, badge: string)
    ensures CountOf(rows + [row], badge) == CountOf(rows, badge) + if row.badge == badge then 1 else 0
  {
    assert (rows + [row])[..|rows|] == rows;
  }

  /** A merge that goes through is to leave no row of the source behind. It does so exactly when the
      source has no staff-leave request and no staff-leave day: those two tables the code does not list,
      so their rows go on naming a badge that is gone. */
  lemma SourceGoneExactly(tables: map<Table, seq<Row>>, source: string, target: string, rename: bool, entry: Row)
    requires source != target && ValidTables(tables) && entry.badge == target
    requires forall t: Table :: !Clashes(t, tables[t], source, target, rename)
    ensures (forall t: Table :: CountOf(MergedDatabase(tables, source, target, rename, entry)[t], source) == 0) <==>
            CountOf(tables[StaffLeaveRequests], source) == 0 && CountOf(tables[StaffLeaveDays], source) == 0
  {
    hide CountOf, MovedAll, Merged, Unique, Clashes;
    var after := MergedDatabase(tables, source, target, rename, entry);
    forall t: Table
      ensures CountOf(after[t], source) == if IsSimple(t) || IsUnique(t) then 0 else CountOf(tables[t], source)
    {
      MoveCounts(tables[t], source, target);
      MergeCounts(tables[t], tables[t], source, target);
      CountNext(After(t, tables[t], source, target, rename), entry, source);
    }
    assert !IsSimple(StaffLeaveRequests) && !IsUnique(StaffLeaveRequests);
    assert !IsSimple(StaffLeaveDays) && !IsUnique(StaffLeaveDays);
  }

  const LEAVE_DAY: seq<Row> := [Row(1, "A1", "2025-01-06", 0)]

  function LeaveDayRows(t: Table): seq<Row> {
    if t == StaffLeaveDays then LEAVE_DAY else []
  }

  lemma LeaveDayTables(tables: map<Table, seq<Row>>)
    requires forall t: Table :: t in tables && tables[t] == LeaveDayRows(t)
    ensures ValidTables(tables) && forall t: Table :: !Clashes(t, tables[t], "A1", "A2", true)
  {
    hide Occupied;
    assert forall t: Table :: PlainMove(t, true) ==> tables[t] == [];
  }

  /** Such a merge: a badge with one day of leave is renamed, nothing refuses it, and the day keeps the old badge. */
  lemma LeaveDayLeft(source: Employee, entry: Row)
    ensures var tables := map t: Table | true :: LeaveDayRows(t);
            && ValidTables(tables) && Refusal(map["A1" := source], tables, "A1", "A2") == None
            && MergedDatabase(tables, "A1", "A2", true, entry)[StaffLeaveDays] == LEAVE_DAY
            && CountOf(LEAVE_DAY, "A1") == 1
  {
    hide ValidTables, Clashes, CountOf, MovedAll, Merged;
    var tables := map t: Table | true :: LeaveDayRows(t);
    LeaveDayTables(tables);
    assert "A1"[1] != "A2"[1];
    assert LEAVE_DAY == [] + [LEAVE_DAY[0]];
    CountNext([], LEAVE_DAY[0], "A1");
    UnlistedKept(StaffLeaveDays, LEAVE_DAY, "A1", "A2", true);
    NoneCounted("A1");
  }

  lemma NoneCounted(badge: string)
    ensures CountOf([], badge) == 0
  {
  }

  lemma DatabaseFits(tables: map<Table, seq<Row>>, source: string, target: string, rename: bool, entry: Row)
    requires source != target && ValidTables(tables)
    requires forall t: Table :: !Clashes(t, tables[t], source, target, rename)
    ensures ValidTables(MergedDatabase(tables, source, target, rename, entry))
  {
    hide After, Clashes, Unique, PlainMove, SharesKey, View, CountOf, Dropped;
    forall t: Table | Constrained(t) ensures Unique(MergedDatabase(tables, source, target, rename, entry)[t]) {
      if IsSimple(t) || IsUnique(t) {
        TableMerged(t, tables[t], source, target, rename, "");
      } else {
        UnlistedKept(t, tables[t], source, target, rename);
      }
    }
  }

  lemma UnlistedKept(t: Table, rows: seq<Row>, source: string, target: string, rename: bool)
    requires !IsSimple(t) && !IsUnique(t)
    ensures After(t, rows, source, target, rename) == rows
  {
  }

  // The two lists in turn.
  lemma ChildrenMoved(tables: map<Table, seq<Row>>, source: string, target: string, rename: bool, simple: seq<Table>,
                      unique: seq<Table>)
    requires forall t: Table :: t in tables && (t in simple <==> IsSimple(t)) && (t in unique <==> IsUnique(t))
    ensures var mid := MovedTables(simple, tables, false, source, target);
            && mid.Keys == tables.Keys
            && (forall t: Table | t in unique :: t !in simple && mid[t] == tables[t])
            && MovedTables(unique, mid, !rename, source, target) == map t | t in tables ::
              After(t, tables[t], source, target, rename)
  {
    hide MovedAll, Merged;
    var mid := MovedTables(simple, tables, false, source, target);
    var last := MovedTables(unique, mid, !rename, source, target);
    forall t: Table ensures last[t] == After(t, tables[t], source, target, rename) {
      assert mid[t] == if t in simple then MovedAll(tables[t], source, target) else tables[t];
    }
  }

  lemma ClashesMeaning(tables: map<Table, seq<Row>>, source: string, target: string, rename: bool, simple: seq<Table>,
                       unique: seq<Table>)
    requires forall t: Table :: t in tables && (t in simple <==> IsSimple(t)) && (t in unique <==> IsUnique(t))
    ensures (forall t: Table :: !Clashes(t, tables[t], source, target, rename)) <==>
            && (forall t | t in simple :: !Breaks(t, tables[t], source, target))
            && (!rename || forall t | t in unique :: !Breaks(t, tables[t], source, target))
  {
    hide SharesKey, IsSimple, IsUnique, Constrained;
  }

  lemma AccountsBoth(first: map<Table, Count>, more: map<Table, Count>, simple: seq<Table>, unique: seq<Table>,
                     tables: map<Table, seq<Row>>, mid: map<Table, seq<Row>>, source: string)
    requires Accounts(first, simple, tables, source) && Accounts(more, unique, mid, source)
    requires forall t | t in unique :: t !in simple && t in tables && mid[t] == tables[t]
    ensures Accounts(first + more, simple + unique, tables, source)
  {
  }

  class Registry {
    var employees: map<string, Employee>
    var tables: map<Table, seq<Row>>

    ghost predicate Valid()
      reads this
    {
      UniqueColumns(employees) && ValidTables(tables)
    }

    // One bulk UPDATE; the database refuses it when it breaks the table's constraint.
    method MoveAll(t: Table, source: string, target: string) returns (ok: bool, count: Count)
      requires source != target && t in tables && (Constrained(t) ==> Unique(tables[t]))
      modifies this`tables
      ensures ok <==> !Breaks(t, old(tables)[t], source, target)
      ensures tables == if ok then old(tables)[t := MovedAll(old(tables)[t], source, target)] else old(tables)
      ensures count.moved == CountOf(old(tables)[t], source) && count.dropped == 0
    {
      hide SharesKey, Unique;
      var moved := MovedAll(tables[t], source, target);
      count := Count(CountOf(tables[t], source), 0);
      if Constrained(t) {
        MoveAllFits(tables[t], source, target);
        if !Unique(moved) {
          return false, count;
        }
      }
      tables := tables[t := moved];
      return true, count;
    }

    // Row by row, the target's rows winning.
    method MoveOrDropDuplicates(t: Table, source: string, target: string) returns (count: Count)
      requires source != target && t in tables
      modifies this`tables
      ensures tables == old(tables)[t := Merged(old(tables)[t], old(tables)[t], source, target)]
      ensures count.dropped == Dropped(old(tables)[t], old(tables)[t], source, target)
      ensures count.moved + count.dropped == CountOf(old(tables)[t], source)
    {
      hide Occupied, MovedAll;
      var rows := tables[t];
      var moved, dropped, kept := 0, 0, [];
      for i := 0 to |rows|
        invariant kept == Merged(rows, rows[..i], source, target)
        invariant dropped == Dropped(rows, rows[..i], source, target)
        invariant moved + dropped == CountOf(rows[..i], source)
      {
        assert rows[..i + 1][..i] == rows[..i];
        var row := rows[i];
        if row.badge != source {
          kept := kept + [row];
        } else if Occupied(rows, target, row.key) {
          dropped := dropped + 1;
        } else {
          kept := kept + [row.(badge := target)];
          moved := moved + 1;
        }
      }
      assert rows[..|rows|] == rows;
      tables := tables[t := kept];
      return Count(moved, dropped);
    }

    method MoveTables(order: seq<Table>, drop: bool, source: string, target: string)
      returns (ok: bool, summary: map<Table, Count>)
      requires source != target && Distinct(order)
      requires forall t | t in order :: t in tables && (Constrained(t) ==> Unique(tables[t]))
      modifies this`tables
      ensures ok <==> drop || forall t | t in order :: !Breaks(t, old(tables)[t], source, target)
      ensures ok ==> tables == MovedTables(order, old(tables), drop, source, target)
      ensures ok ==> Accounts(summary, order, old(tables), source)
    {
      hide Breaks, MovedAll, Merged, Dropped, CountOf, Unique, MovedTables, Accounts;
      ghost var was := tables;
      summary := map[];
      MoveNone(tables, drop, source, target);
      var i := 0;
      assert order[..0] == [];
      while i < |order|
        invariant i <= |order|
        invariant tables == MovedTables(order[..i], was, drop, source, target)
        invariant drop || forall t | t in order[..i] :: !Breaks(t, was[t], source, target)
        invariant Accounts(summary, order[..i], was, source)
      {
        var t := order[i];
        assert t !in order[..i] && order[..i + 1] == order[..i] + [t];
        MovedTablesNext(order[..i], t, was, drop, source, target);
        var count;
        if drop {
          count := MoveOrDropDuplicates(t, source, target);
        } else {
          ok, count := MoveAll(t, source, target);
          if !ok {
            assert t in order;
            return;
          }
        }
        AccountsNext(summary, order[..i], t, count, was, source);
        summary := summary[t := count];
        i := i + 1;
      }
      assert order[..i] == order;
      ok := true;
    }

    method FieldsToCopy(source: Employee, target: Employee, order: seq<Field>) returns (copies: map<Field, string>)
      requires forall f: Field :: f in order
      ensures copies == Copies(source, target)
    {
      copies := map[];
      for i := 0 to |order|
        invariant copies == map f | f in Copies(source, target) && f in order[..i] :: source.fields[f]
      {
        var f := order[i];
        if Filled(source, f) && !Filled(target, f) {
          copies := copies[f := source.fields[f]];
        }
      }
      assert order[..|order|] == order;
    }

    // All the child tables, in one transaction.
    method MoveChildren(source: string, target: string, rename: bool, simple: seq<Table>, unique: seq<Table>)
      returns (ok: bool, summary: map<Table, Count>)
      requires source != target && ValidTables(tables) && Distinct(simple) && Distinct(unique)
      requires forall t: Table :: (t in simple <==> IsSimple(t)) && (t in unique <==> IsUnique(t))
      modifies this`tables
      ensures ok <==> forall t: Table :: !Clashes(t, old(tables)[t], source, target, rename)
      ensures ok ==> tables == map t | t in old(tables) :: After(t, old(tables)[t], source, target, rename)
      ensures ok ==> Accounts(summary, simple + unique, old(tables), source)
      ensures !ok ==> tables == old(tables)
    {
      hide SharesKey, Unique, MovedAll, Merged, CountOf, MovedTables, Accounts, After, Clashes, Breaks, IsSimple,
        IsUnique, Distinct;
      var saved := tables;
      ChildrenMoved(tables, source, target, rename, simple, unique);
      ClashesMeaning(tables, source, target, rename, simple, unique);
      var more;
      ok, summary := MoveTables(simple, false, source, target);
      if ok {
        ghost var first, mid := summary, tables;
        ok, more := MoveTables(unique, !rename, source, target);
        summary := summary + more;
        if ok {
          AccountsBoth(first, more, simple, unique, saved, mid, source);
        }
      }
      if !ok {
        tables := saved;
      }
    }

    // The employee row: renamed, or its values copied to the target after it is gone.
    method MoveEmployee(source: string, target: string)
      requires source != target && source in employees
      modifies this`employees
      ensures employees == MergedEmployees(old(employees), source, target)
    {
      if target !in employees {
        employees := (employees - {source})[target := employees[source]];
      } else {
        AllCopyable();
        hide Copies;
        var copies := FieldsToCopy(employees[source], employees[target], COPYABLE_FIELDS);
        employees := employees - {source};
        employees := employees[target := employees[target].(fields := employees[target].fields + copies)];
      }
    }

    // The work inside the transaction.
    method Commit(source: string, target: string, logId: nat) returns (ok: bool, summary: map<Table, Count>)
      requires Valid() && source != target && source in employees
      modifies this
      ensures Valid()
      ensures ok <==> forall t: Table :: !Clashes(t, old(tables)[t], source, target, target !in old(employees))
      ensures !ok ==> employees == old(employees) && tables == old(tables)
      ensures ok ==> Accounts(summary, SIMPLE_CHILD_TABLES + UNIQUE_CHILD_TABLES, old(tables), source)
      ensures ok ==> employees == MergedEmployees(old(employees), source, target)
      ensures ok ==>
              tables == MergedDatabase(old(tables), source, target, target !in old(employees),
                                       Row(logId, target, "", 0))
    {
      hide Clashes, After, Accounts, Unique, UniqueColumns, MergedEmployees, IsSimple, IsUnique;
      var rename := target !in employees;
      ColumnsStayUnique(employees, source, target);
      forall t: Table {
        ListsMeaning(t);
      }
      ok, summary := MoveChildren(source, target, rename, SIMPLE_CHILD_TABLES, UNIQUE_CHILD_TABLES);
      if ok {
        DatabaseFits(old(tables), source, target, rename, Row(logId, target, "", 0));
        MoveEmployee(source, target);
        tables := tables[ApplicationLogs := tables[ApplicationLogs] + [Row(logId, target, "", 0)]];
      }
    }

    /** One request: refused with everything rolled back, or both records merged into the target. */
    method Merge(rawSource: string, rawTarget: string, isSpace: char -> bool, logId: nat)
      returns (r: Result<map<Table, Count>, Error>)
      requires Valid()
      modifies this
      ensures Valid()
      ensures var source, target := Strip(rawSource, isSpace), Strip(rawTarget, isSpace);
              match Refusal(old(employees), old(tables), source, target)
              case Some(e) => r == Failure(e) && employees == old(employees) && tables == old(tables)
              case None =>
                && r.Success? && Accounts(r.value, SIMPLE_CHILD_TABLES + UNIQUE_CHILD_TABLES, old(tables), source)
                && employees == MergedEmployees(old(employees), source, target)
                && tables == MergedDatabase(old(tables), source, target, target !in old(employees),
                  Row(logId, target, "", 0))
    {
      hide Strip, Clashes, Accounts, MergedEmployees, MergedDatabase, UniqueColumns;
      var source, target := Strip(rawSource, isSpace), Strip(rawTarget, isSpace);
      if source == "" || target == "" || source == target {
        return Failure(BadRequest);
      }
      if source !in employees {
        return Failure(NotFound);
      }
      if target in employees && Filled(employees[source], LineUserId) && Filled(employees[target], LineUserId)
         && employees[source].fields[LineUserId] != employees[target].fields[LineUserId] {
        return Failure(Conflict);
      }
      var ok, summary := Commit(source, target, logId);
      r := if ok then Success(summary) else Failure(ServerError);
    }
  }

  lemma AllCopyable()
    ensures forall f: Field :: f in COPYABLE_FIELDS
  {
    forall f: Field ensures f in COPYABLE_FIELDS {
      match f
      case LineUserId => assert COPYABLE_FIELDS[0] == f;
      case LineDisplayName => assert COPYABLE_FIELDS[1] == f;
      case LinePictureUrl => assert COPYABLE_FIELDS[2] == f;
      case LineLinkingCode => assert COPYABLE_FIELDS[3] == f;
      case LineLinkingCodeGeneratedAt => assert COPYABLE_FIELDS[4] == f;
      case Email => assert COPYABLE_FIELDS[5] == f;
      case NfcCardUid => assert COPYABLE_FIELDS[6] == f;
      case EnglishName => assert COPYABLE_FIELDS[7] == f;
      case ThaiName => assert COPYABLE_FIELDS[8] == f;
      case Role => assert COPYABLE_FIELDS[9] == f;
      case Location => assert COPYABLE_FIELDS[10] == f;
      case Department => assert COPYABLE_FIELDS[11] == f;
      case Position => assert COPYABLE_FIELDS[12] == f;
    }
  }

  lemma MoveNone(tables: map<Table, seq<Row>>, drop: bool, source: string, target: string)
    ensures MovedTables([], tables, drop, source, target) == tables
    ensures Accounts(map[], [], tables, source)
  {
  }
}
