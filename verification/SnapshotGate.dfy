/**
 The pre-migration snapshot gate (app/services/deploy_backup.py): a lock, a staging folder, a
 verified rename and the caller's migration, with any number of attempts, a crash possible between
 any two steps, and retries. What SQLite reads in a file, what its backup writes and the checksum
 are abstract functions.
*/
module SnapshotGate {
  import opened Wrappers

  type Bytes = seq<int>

  datatype Reading = Reading(journal: string, integrity: seq<string>, tables: set<string>, versions: seq<string>)

  datatype Tools = Tools(read: Bytes -> Reading, digest: Bytes -> string, copied: Bytes -> Bytes)

  datatype Manifest = Manifest(format: string, runId: string, commit: string, bytes: nat, sha: string,
                               schema: seq<string>, integrity: string)

  // What can lie under snapshots/: a folder with a database and a readable manifest or without, or
  // something that is no folder.
  datatype Entry = Folder(db: Option<Bytes>, manifest: Option<Manifest>) | NoFolder

  const FORMAT: string := "hf-pre-migration-backup-v1"
  const REQUIRED_TABLES: set<string> := {"employees", "attendance_records"}

  // ---------- Names ----------

  predicate AllDigits(s: string) {
    forall i | 0 <= i < |s| :: '0' <= s[i] <= '9'
  }

  // [1-9][0-9]{0,max-1}
  predicate IsNumber(s: string, max: nat) {
    1 <= |s| <= max && s[0] != '0' && AllDigits(s)
  }

  predicate ValidRun(run: string) {
    exists k | 0 <= k < |run| :: run[k] == '-' && IsNumber(run[..k], 20) && IsNumber(run[k + 1..], 6)
  }

  predicate ValidCommit(commit: string) {
    |commit| == 40 && forall i | 0 <= i < 40 :: '0' <= commit[i] <= '9' || 'a' <= commit[i] <= 'f'
  }

  const STAGING: string := ".incomplete-"

  predicate IsStaging(name: string) {
    STAGING <= name
  }

  /** A staging folder can never be mistaken for a run's snapshot. */
  lemma StagingIsNoRun(name: string)
    requires IsStaging(name)
    ensures !ValidRun(name)
  {
    assert name[0] == '.';
    forall k | 0 <= k < |name| && name[k] == '-' ensures !IsNumber(name[..k], 20) {
      assert k > 0 ==> name[..k][0] == '.';
    }
  }

  // ---------- Inspection and verification ----------

  function Inspect(t: Tools, db: Bytes, deleteJournal: bool): Result<seq<string>, string> {
    var r := t.read(db);
    if deleteJournal && r.journal != "delete" then Failure("DELETE journal mode required")
    else if r.integrity != ["ok"] then Failure("integrity check failed")
    else if !(REQUIRED_TABLES <= r.tables) then Failure("attendance tables missing")
    else if "alembic_version" !in r.tables then Failure("migration version table missing")
    else Success(r.versions)
  }

  function VerifySnapshot(t: Tools, e: Entry, run: string, commit: string): Result<Manifest, string> {
    if e.NoFolder? then Failure("not a real directory")
    else if e.manifest.None? then Failure("no manifest")
    else
      var m := e.manifest.value;
      if m.format != FORMAT || m.runId != run || m.commit != commit then Failure("not this deployment")
      else if e.db.None? then Failure("no database")
      else if |e.db.value| != m.bytes || t.digest(e.db.value) != m.sha then Failure("checksum")
      else if Inspect(t, e.db.value, false) != Success(m.schema) then Failure("migration version")
      else if m.integrity != "ok" then Failure("not verified")
      else Success(m)
  }

  function ManifestOf(t: Tools, db: Bytes, run: string, commit: string): Manifest {
    Manifest(FORMAT, run, commit, |db|, t.digest(db), t.read(db).versions, "ok")
  }

  // A sound copy with the manifest made of it verifies; and a folder with that manifest verifies
  // only for that run and commit, with a database of the same size and checksum.
  lemma VerifiesExactly(t: Tools, image: Bytes, found: Option<Bytes>, run: string, commit: string, asRun: string,
                        asCommit: string)
    ensures VerifySnapshot(t, Folder(found, Some(ManifestOf(t, image, run, commit))), asRun, asCommit).Success? <==>
            && asRun == run && asCommit == commit
            && found.Some? && |found.value| == |image| && t.digest(found.value) == t.digest(image)
            && Inspect(t, found.value, false) == Success(t.read(image).versions)
  {
  }

  // ---------- What the checks mean ----------

  // What SQLite says of a sound attendance database with this schema.
  predicate SoundDatabase(t: Tools, db: Bytes, schema: seq<string>) {
    var r := t.read(db);
    r.integrity == ["ok"] && {"employees", "attendance_records", "alembic_version"} <= r.tables && r.versions == schema
  }

  // A folder with a sound database and the manifest that describes it.
  predicate SoundSnapshot(t: Tools, e: Entry, run: string, commit: string, info: Manifest) {
    && e.Folder? && e.manifest == Some(info) && e.db.Some?
    && info.format == "hf-pre-migration-backup-v1" && info.runId == run && info.commit == commit
    && info.bytes == |e.db.value| && info.sha == t.digest(e.db.value) && info.integrity == "ok"
    && SoundDatabase(t, e.db.value, info.schema)
  }

  // Up to 20 digits, a hyphen and up to 6 digits, neither number beginning with a zero.
  ghost predicate RunName(run: string, id: string, attempt: string) {
    && run == id + "-" + attempt && 1 <= |id| <= 20 && 1 <= |attempt| <= 6 && id[0] != '0' && attempt[0] != '0'
    && forall c | c in id || c in attempt :: c in "0123456789"
  }

  // A hash of 40 lower-case hexadecimal digits.
  predicate CommitName(commit: string) {
    |commit| == 40 && forall c | c in commit :: c in "0123456789abcdef"
  }

  lemma InspectMeaning(t: Tools, db: Bytes, deleteJournal: bool, schema: seq<string>)
    ensures Inspect(t, db, deleteJournal) == Success(schema) <==>
            SoundDatabase(t, db, schema) && (deleteJournal ==> t.read(db).journal == "delete")
  {
  }

  lemma VerifyMeaning(t: Tools, e: Entry, run: string, commit: string, info: Manifest)
    ensures VerifySnapshot(t, e, run, commit) == Success(info) <==> SoundSnapshot(t, e, run, commit, info)
  {
    if e.Folder? && e.db.Some? {
      InspectMeaning(t, e.db.value, false, info.schema);
    }
    hide Inspect, SoundDatabase;
  }

  lemma IsDigit(c: char)
    ensures c in "0123456789" <==> '0' <= c <= '9'
    ensures c in "0123456789abcdef" <==> '0' <= c <= '9' || 'a' <= c <= 'f'
  {
    assert "0123456789"[0] == '0';
    var digits := "0123456789abcdef";
    if '0' <= c <= '9' {
      var i := c as int - '0' as int;
      assert "0123456789"[i] == c && digits[i] == c;
    } else if 'a' <= c <= 'f' {
      assert digits[10 + c as int - 'a' as int] == c;
    }
  }

  lemma DigitsOnly(s: string)
    ensures AllDigits(s) <==> forall c | c in s :: c in "0123456789"
  {
    forall c ensures c in "0123456789" <==> '0' <= c <= '9' {
      IsDigit(c);
    }
    assert forall i | 0 <= i < |s| :: s[i] in s;
    if AllDigits(s) {
      forall c | c in s ensures '0' <= c <= '9' {
        var i :| 0 <= i < |s| && s[i] == c;
      }
    }
  }

  lemma NumberMeaning(s: string, max: nat)
    ensures IsNumber(s, max) <==> 1 <= |s| <= max && s[0] != '0' && forall c | c in s :: c in "0123456789"
  {
    DigitsOnly(s);
    hide AllDigits;
  }

  lemma RunMeaning(run: string)
    ensures ValidRun(run) <==> exists id, attempt :: RunName(run, id, attempt)
  {
    hide IsNumber, RunName;
    if ValidRun(run) {
      var k :| 0 <= k < |run| && run[k] == '-' && IsNumber(run[..k], 20) && IsNumber(run[k + 1..], 6);
      RunParts(run, k);
    }
    if id, attempt :| RunName(run, id, attempt) {
      RunSplit(run, id, attempt);
    }
  }

  lemma RunParts(run: string, k: nat)
    requires k < |run| && run[k] == '-' && IsNumber(run[..k], 20) && IsNumber(run[k + 1..], 6)
    ensures RunName(run, run[..k], run[k + 1..])
  {
    NumberMeaning(run[..k], 20);
    NumberMeaning(run[k + 1..], 6);
    hide IsNumber;
    assert run == run[..k] + "-" + run[k + 1..];
  }

  lemma RunSplit(run: string, id: string, attempt: string)
    requires RunName(run, id, attempt)
    ensures |id| < |run| && run[|id|] == '-' && IsNumber(run[..|id|], 20) && IsNumber(run[|id| + 1..], 6)
  {
    NumberMeaning(id, 20);
    NumberMeaning(attempt, 6);
    hide IsNumber;
    assert run[..|id|] == id && run[|id| + 1..] == attempt;
  }

  lemma CommitMeaning(commit: string)
    ensures ValidCommit(commit) <==> CommitName(commit)
  {
    forall c ensures c in "0123456789abcdef" <==> '0' <= c <= '9' || 'a' <= c <= 'f' {
      IsDigit(c);
    }
    assert forall i | 0 <= i < |commit| :: commit[i] in commit;
    if ValidCommit(commit) {
      forall c | c in commit ensures '0' <= c <= '9' || 'a' <= c <= 'f' {
        var i :| 0 <= i < |commit| && commit[i] == c;
      }
    }
  }

  // ---------- Attempts ----------

  datatype Phase = Waiting | Holding | Staged(temp: string) | Copied(temp: string) | Described(temp: string)
                 | Checked(temp: string) | Open(info: Manifest) | Gone

  datatype Attempt = Attempt(run: string, commit: string, deleteJournal: bool, phase: Phase)

  // begun and original are history: the runs whose migration has taken a step, and the last copy
  // an attempt of a run has made.
  datatype State = State(source: Bytes, entries: map<string, Entry>, holder: Option<nat>, attempts: map<nat, Attempt>,
                         begun: set<string>, original: map<string, Bytes>)

  datatype Action =
    | Start(pid: nat, run: string, commit: string, deleteJournal: bool)
    | Acquire(pid: nat)
    | Look(pid: nat, temp: string)
    | Copy(pid: nat)
    | Describe(pid: nat)
    | Check(pid: nat)
    | Publish(pid: nat)
    | Migrate(pid: nat, after: Bytes)
    | Leave(pid: nat)
    | Crash(pid: nat, debris: Entry)
    | AppWrite(after: Bytes)
    | Rot(name: string, left: Option<Bytes>)

  predicate Inside(a: Attempt) {
    a.phase != Waiting && a.phase != Gone
  }

  predicate HasStaging(a: Attempt) {
    a.phase.Staged? || a.phase.Copied? || a.phase.Described? || a.phase.Checked?
  }

  function At(s: State, pid: nat): Attempt {
    if pid in s.attempts then s.attempts[pid] else Attempt("", "", false, Gone)
  }

  function Moved(s: State, pid: nat, phase: Phase): State {
    s.(attempts := s.attempts[pid := At(s, pid).(phase := phase)])
  }

  // The lock is dropped, which the kernel does also when the process dies.
  function Dropped(s: State, pid: nat): State {
    Moved(s, pid, Gone).(holder := if s.holder == Some(pid) then None else s.holder)
  }

  // The process leaves by itself, normally or by an exception: its staging folder is removed first.
  function Left(s: State, pid: nat): State {
    var a := At(s, pid);
    Dropped(if HasStaging(a) then s.(entries := s.entries - {a.phase.temp}) else s, pid)
  }

  // The process dies: its staging folder stays behind, in whatever state.
  function Died(s: State, pid: nat, debris: Entry): State {
    var a := At(s, pid);
    Dropped(if HasStaging(a) then s.(entries := s.entries[a.phase.temp := debris]) else s, pid)
  }

  function StartStep(s: State, pid: nat, run: string, commit: string, deleteJournal: bool): State {
    if pid in s.attempts then s
    else
      var admitted := ValidRun(run) && ValidCommit(commit) && s.source != [];
      s.(attempts := s.attempts[pid := Attempt(run, commit, deleteJournal, if admitted then Waiting else Gone)])
  }

  function AcquireStep(s: State, pid: nat): State {
    if At(s, pid).phase == Waiting && s.holder.None? then Moved(s, pid, Holding).(holder := Some(pid)) else s
  }

  // An existing snapshot is verified again; otherwise the source is inspected and staging begins.
  function LookStep(t: Tools, s: State, pid: nat, temp: string): State {
    var a := At(s, pid);
    if a.phase != Holding then s
    else if a.run in s.entries then
      match VerifySnapshot(t, s.entries[a.run], a.run, a.commit)
      case Success(info) => Moved(s, pid, Open(info))
      case Failure(_) => Left(s, pid)
    else if Inspect(t, s.source, a.deleteJournal).Failure? then Left(s, pid)
    else if !IsStaging(temp) || temp in s.entries then s
    else Moved(s, pid, Staged(temp)).(entries := s.entries[temp := Folder(None, None)])
  }

  function CopyStep(t: Tools, s: State, pid: nat): State {
    var a := At(s, pid);
    if !a.phase.Staged? then s
    else
      var db := t.copied(s.source);
      Moved(s, pid, Copied(a.phase.temp)).(entries := s.entries[a.phase.temp := Folder(Some(db), None)],
                                           original := s.original[a.run := db])
  }

  function DescribeStep(t: Tools, s: State, pid: nat): State {
    var a := At(s, pid);
    if !a.phase.Copied? || a.phase.temp !in s.entries then s
    else
      match s.entries[a.phase.temp]
      case Folder(Some(db), _) =>
        if Inspect(t, db, false).Failure? then Left(s, pid)
        else Moved(s, pid, Described(a.phase.temp)).(entries :=
          s.entries[a.phase.temp := Folder(Some(db), Some(ManifestOf(t, db, a.run, a.commit)))])
      case _ => s
  }

  function CheckStep(t: Tools, s: State, pid: nat): State {
    var a := At(s, pid);
    if !a.phase.Described? || a.phase.temp !in s.entries then s
    else if VerifySnapshot(t, s.entries[a.phase.temp], a.run, a.commit).Failure? then Left(s, pid)
    else Moved(s, pid, Checked(a.phase.temp))
  }

  // The rename. It would replace whatever lies under the run's name.
  function PublishStep(s: State, pid: nat): State {
    var a := At(s, pid);
    if !a.phase.Checked? || a.phase.temp !in s.entries then s
    else
      match s.entries[a.phase.temp]
      case Folder(_, Some(m)) =>
        Moved(s, pid, Open(m)).(entries := (s.entries - {a.phase.temp})[a.run := s.entries[a.phase.temp]])
      case _ => s
  }

  function MigrateStep(s: State, pid: nat, after: Bytes): State {
    var a := At(s, pid);
    if !a.phase.Open? then s else s.(source := after, begun := s.begun + {a.run})
  }

  // Damage to a database file while nobody works under the lock.
  function RotStep(s: State, name: string, left: Option<Bytes>): State {
    if s.holder.Some? || name !in s.entries || s.entries[name].NoFolder? then s
    else s.(entries := s.entries[name := s.entries[name].(db := left)])
  }

  function Step(t: Tools, s: State, a: Action): State {
    match a
    case Start(pid, run, commit, dj) => StartStep(s, pid, run, commit, dj)
    case Acquire(pid) => AcquireStep(s, pid)
    case Look(pid, temp) => LookStep(t, s, pid, temp)
    case Copy(pid) => CopyStep(t, s, pid)
    case Describe(pid) => DescribeStep(t, s, pid)
    case Check(pid) => CheckStep(t, s, pid)
    case Publish(pid) => PublishStep(s, pid)
    case Migrate(pid, after) => MigrateStep(s, pid, after)
    case Leave(pid) => if At(s, pid).phase == Gone then s else Left(s, pid)
    case Crash(pid, debris) => if At(s, pid).phase == Gone then s else Died(s, pid, debris)
    case AppWrite(after) => s.(source := after)
    case Rot(name, left) => RotStep(s, name, left)
  }

  function Init(source: Bytes): State {
    State(source, map[], None, map[], {}, map[])
  }

  function Exec(t: Tools, s: State, actions: seq<Action>): State {
    if actions == [] then s
    else Step(t, Exec(t, s, actions[..|actions| - 1]), actions[|actions| - 1])
  }

  // A run from a fresh /backups folder.
  function Ran(t: Tools, source: Bytes, actions: seq<Action>): State {
    Exec(t, Init(source), actions)
  }

  // ---------- What every reachable state keeps ----------

  // How far a staging folder is filled.
  ghost predicate Filled(t: Tools, e: Entry, a: Attempt, original: map<string, Bytes>) {
    match a.phase
    case Staged(_) => true
    case Copied(_) => a.run in original && e == Folder(Some(original[a.run]), None)
    case Described(_) =>
      && a.run in original && e == Folder(Some(original[a.run]), Some(ManifestOf(t, original[a.run], a.run, a.commit)))
    case Checked(_) =>
      && a.run in original && e == Folder(Some(original[a.run]), Some(ManifestOf(t, original[a.run], a.run, a.commit)))
      && VerifySnapshot(t, e, a.run, a.commit).Success?
    case _ => true
  }

  ghost predicate AttemptOk(t: Tools, s: State, pid: nat, a: Attempt) {
    && (Inside(a) ==> s.holder == Some(pid) && ValidRun(a.run))
    && (a.phase == Waiting ==> ValidRun(a.run))
    && (HasStaging(a) ==> a.run !in s.entries && IsStaging(a.phase.temp) && a.phase.temp in s.entries
                          && Filled(t, s.entries[a.phase.temp], a, s.original))
    && (a.phase.Open? ==>
          a.run in s.entries && VerifySnapshot(t, s.entries[a.run], a.run, a.commit) == Success(a.phase.info))
  }

  // A run's folder carries the manifest of the copy made for that run.
  ghost predicate SnapshotOk(t: Tools, original: map<string, Bytes>, run: string, e: Entry) {
    && run in original && e.Folder? && e.manifest.Some?
    && e.manifest == Some(ManifestOf(t, original[run], run, e.manifest.value.commit))
  }

  ghost predicate Inv(t: Tools, s: State) {
    && (forall pid | pid in s.attempts :: AttemptOk(t, s, pid, s.attempts[pid]))
    && (forall run | run in s.entries && ValidRun(run) :: SnapshotOk(t, s.original, run, s.entries[run]))
    && (forall run | run in s.begun :: run in s.entries && ValidRun(run))
    && (s.holder.Some? ==> Inside(At(s, s.holder.value)))
  }

  ghost predicate Alone(s: State, pid: nat) {
    forall p | p in s.attempts && p != pid :: !Inside(s.attempts[p])
  }

  /** Mutual exclusion: only the holder of the lock works between taking it and leaving. */
  lemma HolderIsAlone(t: Tools, s: State, pid: nat)
    requires Inv(t, s) && (s.holder == None || s.holder == Some(pid))
    ensures Alone(s, pid)
  {
    forall p | p in s.attempts && p != pid ensures !Inside(s.attempts[p]) {
      assert AttemptOk(t, s, p, s.attempts[p]);
    }
  }

  // One attempt moves: alone, or without touching anything the others rely on.
  lemma OneMoves(t: Tools, s: State, q: State, pid: nat, a: Attempt)
    requires Inv(t, s) && pid in s.attempts && q.attempts == s.attempts[pid := a] && AttemptOk(t, q, pid, a)
    requires Alone(s, pid) || (q.entries == s.entries && q.original == s.original && q.holder == s.holder)
    requires q.holder.Some? ==> Inside(At(q, q.holder.value))
    requires forall run | run in q.entries && ValidRun(run) :: SnapshotOk(t, q.original, run, q.entries[run])
    requires forall run | run in q.begun :: run in q.entries && ValidRun(run)
    ensures Inv(t, q)
  {
    hide ValidRun, VerifySnapshot, SnapshotOk, Filled;
    forall p | p in q.attempts ensures AttemptOk(t, q, p, q.attempts[p]) {
      if p != pid {
        assert AttemptOk(t, s, p, s.attempts[p]);
      }
    }
  }

  lemma StartKeeps(t: Tools, s: State, pid: nat, run: string, commit: string, deleteJournal: bool)
    requires Inv(t, s)
    ensures Inv(t, StartStep(s, pid, run, commit, deleteJournal))
  {
    hide ValidRun, ValidCommit, VerifySnapshot, SnapshotOk, Filled;
    var q := StartStep(s, pid, run, commit, deleteJournal);
    forall p | p in q.attempts ensures AttemptOk(t, q, p, q.attempts[p]) {
      assert p in s.attempts ==> AttemptOk(t, s, p, s.attempts[p]);
    }
  }

  lemma AcquireKeeps(t: Tools, s: State, pid: nat)
    requires Inv(t, s)
    ensures Inv(t, AcquireStep(s, pid))
  {
    hide ValidRun, VerifySnapshot, SnapshotOk, Filled;
    if At(s, pid).phase == Waiting && s.holder.None? {
      var q := AcquireStep(s, pid);
      assert AttemptOk(t, s, pid, s.attempts[pid]);
      HolderIsAlone(t, s, pid);
      OneMoves(t, s, q, pid, q.attempts[pid]);
    }
  }

  // Leaving, whatever becomes of the staging folder.
  lemma DroppedKeeps(t: Tools, s: State, pid: nat, q: State)
    requires Inv(t, s) && At(s, pid).phase != Gone
    requires q == Dropped(s.(entries := q.entries), pid)
    requires if HasStaging(At(s, pid)) then
               var temp := At(s, pid).phase.temp;
               q.entries - {temp} == s.entries - {temp}
             else q.entries == s.entries
    ensures Inv(t, q)
  {
    hide ValidRun, VerifySnapshot, SnapshotOk, Filled;
    var a := s.attempts[pid];
    assert AttemptOk(t, s, pid, a);
    if Inside(a) {
      HolderIsAlone(t, s, pid);
    }
    forall run | run in q.entries && ValidRun(run) ensures run in s.entries && q.entries[run] == s.entries[run] {
      if HasStaging(a) {
        StagingIsNoRun(a.phase.temp);
        assert run in q.entries - {a.phase.temp};
      }
    }
    forall run | run in s.begun ensures run in q.entries {
      if HasStaging(a) {
        StagingIsNoRun(a.phase.temp);
        assert run in s.entries - {a.phase.temp};
      }
    }
    OneMoves(t, s, q, pid, q.attempts[pid]);
  }

  lemma LeftKeeps(t: Tools, s: State, pid: nat)
    requires Inv(t, s) && At(s, pid).phase != Gone
    ensures Inv(t, Left(s, pid))
  {
    hide Inv, IsStaging;
    DroppedKeeps(t, s, pid, Left(s, pid));
  }

  lemma DiedKeeps(t: Tools, s: State, pid: nat, debris: Entry)
    requires Inv(t, s) && At(s, pid).phase != Gone
    ensures Inv(t, Died(s, pid, debris))
  {
    hide Inv, IsStaging;
    DroppedKeeps(t, s, pid, Died(s, pid, debris));
  }

  // The holder of the lock moves on, changing at most one entry that is no run's snapshot.
  lemma HolderMoves(t: Tools, s: State, q: State, pid: nat, a: Attempt)
    requires Inv(t, s) && pid in s.attempts && Inside(s.attempts[pid]) && Inside(a)
    requires q == s.(attempts := s.attempts[pid := a], entries := q.entries, original := q.original)
    requires AttemptOk(t, q, pid, a)
    requires forall run | ValidRun(run) ::
             (run in q.entries <==> run in s.entries) && (run in s.entries ==> q.entries[run] == s.entries[run])
    requires forall run | run in s.original && run in s.entries ::
             run in q.original && q.original[run] == s.original[run]
    ensures Inv(t, q)
  {
    hide ValidRun, VerifySnapshot, Filled;
    assert AttemptOk(t, s, pid, s.attempts[pid]);
    HolderIsAlone(t, s, pid);
    OneMoves(t, s, q, pid, a);
  }

  lemma LookKeeps(t: Tools, s: State, pid: nat, temp: string)
    requires Inv(t, s)
    ensures Inv(t, LookStep(t, s, pid, temp))
  {
    hide ValidRun, VerifySnapshot, Inspect;
    var a, q := At(s, pid), LookStep(t, s, pid, temp);
    if a.phase == Holding {
      assert AttemptOk(t, s, pid, a);
      LeftKeeps(t, s, pid);
      if q != s && q != Left(s, pid) {
        if a.run !in s.entries {
          StagingIsNoRun(temp);
        }
        HolderMoves(t, s, q, pid, q.attempts[pid]);
      }
    }
  }

  lemma CopyKeeps(t: Tools, s: State, pid: nat)
    requires Inv(t, s)
    ensures Inv(t, CopyStep(t, s, pid))
  {
    hide ValidRun, VerifySnapshot;
    var a, q := At(s, pid), CopyStep(t, s, pid);
    if a.phase.Staged? {
      assert AttemptOk(t, s, pid, a);
      StagingIsNoRun(a.phase.temp);
      HolderMoves(t, s, q, pid, q.attempts[pid]);
    }
  }

  lemma DescribeKeeps(t: Tools, s: State, pid: nat)
    requires Inv(t, s)
    ensures Inv(t, DescribeStep(t, s, pid))
  {
    hide ValidRun, VerifySnapshot, Inspect;
    var a, q := At(s, pid), DescribeStep(t, s, pid);
    if a.phase.Copied? {
      assert AttemptOk(t, s, pid, a);
      LeftKeeps(t, s, pid);
      StagingIsNoRun(a.phase.temp);
      if q != Left(s, pid) {
        HolderMoves(t, s, q, pid, q.attempts[pid]);
      }
    }
  }

  lemma CheckKeeps(t: Tools, s: State, pid: nat)
    requires Inv(t, s)
    ensures Inv(t, CheckStep(t, s, pid))
  {
    hide ValidRun, VerifySnapshot;
    var a, q := At(s, pid), CheckStep(t, s, pid);
    if a.phase.Described? {
      assert AttemptOk(t, s, pid, a);
      LeftKeeps(t, s, pid);
      if q != Left(s, pid) {
        HolderMoves(t, s, q, pid, q.attempts[pid]);
      }
    }
  }

  lemma PublishKeeps(t: Tools, s: State, pid: nat)
    requires Inv(t, s)
    ensures Inv(t, PublishStep(s, pid))
  {
    hide ValidRun;
    var a, q := At(s, pid), PublishStep(s, pid);
    if a.phase.Checked? {
      assert AttemptOk(t, s, pid, a);
      StagingIsNoRun(a.phase.temp);
      HolderIsAlone(t, s, pid);
      OneMoves(t, s, q, pid, q.attempts[pid]);
    }
  }

  lemma StepKeeps(t: Tools, s: State, a: Action)
    requires Inv(t, s)
    ensures Inv(t, Step(t, s, a))
  {
    match a
    case Start(pid, run, commit, dj) => hide Inv; StartKeeps(t, s, pid, run, commit, dj);
    case Acquire(pid) => hide Inv; AcquireKeeps(t, s, pid);
    case Look(pid, temp) => hide Inv; LookKeeps(t, s, pid, temp);
    case Copy(pid) => hide Inv; CopyKeeps(t, s, pid);
    case Describe(pid) => hide Inv; DescribeKeeps(t, s, pid);
    case Check(pid) => hide Inv; CheckKeeps(t, s, pid);
    case Publish(pid) => hide Inv; PublishKeeps(t, s, pid);
    case Migrate(pid, after) => MigrateKeeps(t, s, pid, after);
    case Leave(pid) =>
      if At(s, pid).phase != Gone {
        LeftKeeps(t, s, pid);
      }
    case Crash(pid, debris) =>
      if At(s, pid).phase != Gone {
        DiedKeeps(t, s, pid, debris);
      }
    case AppWrite(after) => SourceKeeps(t, s, after, s.begun);
    case Rot(name, left) => RotKeeps(t, s, name, left);
  }

  lemma SourceKeeps(t: Tools, s: State, source: Bytes, begun: set<string>)
    requires Inv(t, s) && forall run | run in begun :: run in s.entries && ValidRun(run)
    ensures Inv(t, s.(source := source, begun := begun))
  {
    hide ValidRun, VerifySnapshot, SnapshotOk, Filled;
    var q := s.(source := source, begun := begun);
    forall p | p in q.attempts ensures AttemptOk(t, q, p, q.attempts[p]) {
      assert AttemptOk(t, s, p, s.attempts[p]);
    }
  }

  lemma MigrateKeeps(t: Tools, s: State, pid: nat, after: Bytes)
    requires Inv(t, s)
    ensures Inv(t, MigrateStep(s, pid, after))
  {
    hide ValidRun, VerifySnapshot, SnapshotOk, Filled;
    var a := At(s, pid);
    if a.phase.Open? {
      assert AttemptOk(t, s, pid, a);
      SourceKeeps(t, s, after, s.begun + {a.run});
    }
  }

  lemma RotKeeps(t: Tools, s: State, name: string, left: Option<Bytes>)
    requires Inv(t, s)
    ensures Inv(t, RotStep(s, name, left))
  {
    hide ValidRun, VerifySnapshot, Filled;
    if s.holder.None? {
      var q := RotStep(s, name, left);
      forall p | p in q.attempts ensures AttemptOk(t, q, p, q.attempts[p]) {
        assert AttemptOk(t, s, p, s.attempts[p]);
      }
    }
  }

  lemma {:induction false} Reachable(t: Tools, source: Bytes, actions: seq<Action>)
    ensures Inv(t, Ran(t, source, actions))
  {
    if actions != [] {
      Reachable(t, source, actions[..|actions| - 1]);
      hide Inv, Step;
      StepKeeps(t, Exec(t, Init(source), actions[..|actions| - 1]), actions[|actions| - 1]);
    }
  }

  // ---------- Theorems over every run ----------

  lemma {:induction false} ExecSplit(t: Tools, s: State, first: seq<Action>, rest: seq<Action>)
    ensures Exec(t, s, first + rest) == Exec(t, Exec(t, s, first), rest)
  {
    if rest == [] {
      assert first + rest == first;
    } else {
      var n := |rest| - 1;
      ExecSplit(t, s, first, rest[..n]);
      assert (first + rest)[..|first| + n] == first + rest[..n];
    }
  }

  // The image is the backup of the source as it was at some moment before the run had migrated anything.
  ghost predicate TakenBefore(t: Tools, source: Bytes, actions: seq<Action>, run: string, image: Bytes) {
    exists j | 0 <= j <= |actions| ::
      image == t.copied(Ran(t, source, actions[..j]).source) && run !in Ran(t, source, actions[..j]).begun
  }

  lemma TakenLater(t: Tools, source: Bytes, actions: seq<Action>, a: Action, run: string, image: Bytes)
    requires TakenBefore(t, source, actions, run, image)
    ensures TakenBefore(t, source, actions + [a], run, image)
  {
    hide Exec, Step;
    var j :| 0 <= j <= |actions| && image == t.copied(Ran(t, source, actions[..j]).source)
      && run !in Ran(t, source, actions[..j]).begun;
    assert (actions + [a])[..j] == actions[..j];
  }

  // The only step that records a copy is the copy itself, by an attempt whose run has no snapshot yet.
  lemma OriginalStep(t: Tools, s: State, a: Action, run: string)
    requires Inv(t, s) && run in Step(t, s, a).original
    ensures (run in s.original && Step(t, s, a).original[run] == s.original[run]) ||
            (run !in s.begun && Step(t, s, a).original[run] == t.copied(s.source))
  {
    hide ValidRun, VerifySnapshot, Inspect, Filled, SnapshotOk;
    if a.Copy? && At(s, a.pid).phase.Staged? {
      assert AttemptOk(t, s, a.pid, s.attempts[a.pid]);
    }
  }

  lemma {:induction false} OriginalTaken(t: Tools, source: Bytes, actions: seq<Action>, run: string)
    requires run in Ran(t, source, actions).original
    ensures TakenBefore(t, source, actions, run, Ran(t, source, actions).original[run])
  {
    if actions != [] {
      var before, a := actions[..|actions| - 1], actions[|actions| - 1];
      assert actions == before + [a] && actions[..|actions| - 1] == before;
      var s := Ran(t, source, before);
      Reachable(t, source, before);
      assert Ran(t, source, actions) == Step(t, s, a);
      hide Inv, Step;
      OriginalStep(t, s, a, run);
      if run in s.original && Step(t, s, a).original[run] == s.original[run] {
        OriginalTaken(t, source, before, run);
        TakenLater(t, source, before, a, run, s.original[run]);
      } else {
        assert actions[..|before|] == before;
      }
    }
  }

  ghost predicate CollisionFree(t: Tools) {
    forall x, y :: t.digest(x) == t.digest(y) ==> x == y
  }

  /** Whenever an attempt may migrate, a snapshot for its run and commit lies there, a sound database with the
      manifest that describes it; and unless two files share a checksum, that snapshot is the backup of the
      database as it was before this run's first migration step, whatever crashes, retries and damage came
      between. */
  lemma MigratesBehindSnapshot(t: Tools, source: Bytes, actions: seq<Action>, pid: nat)
    requires At(Ran(t, source, actions), pid).phase.Open?
    ensures var s, a := Ran(t, source, actions), At(Ran(t, source, actions), pid);
            && s.holder == Some(pid) && a.run in s.entries
            && SoundSnapshot(t, s.entries[a.run], a.run, a.commit, a.phase.info)
            && (CollisionFree(t) ==> TakenBefore(t, source, actions, a.run, s.entries[a.run].db.value))
  {
    var s := Ran(t, source, actions);
    var a := At(s, pid);
    Reachable(t, source, actions);
    hide Exec, ValidRun, Filled, Inspect, TakenBefore;
    assert AttemptOk(t, s, pid, s.attempts[pid]);
    assert SnapshotOk(t, s.original, a.run, s.entries[a.run]);
    VerifyMeaning(t, s.entries[a.run], a.run, a.commit, a.phase.info);
    OriginalTaken(t, source, actions, a.run);
  }

  ghost predicate MigratedIn(t: Tools, source: Bytes, actions: seq<Action>, run: string) {
    exists j | 0 <= j < |actions| :: Migrates(Ran(t, source, actions[..j]), actions[j], run)
  }

  lemma MigratedNext(t: Tools, source: Bytes, actions: seq<Action>, a: Action, run: string)
    ensures MigratedIn(t, source, actions + [a], run) <==>
            MigratedIn(t, source, actions, run) || Migrates(Ran(t, source, actions), a, run)
  {
    hide Ran, Migrates;
    var longer := actions + [a];
    assert longer[..|actions|] == actions;
    assert forall j | 0 <= j < |actions| :: longer[..j] == actions[..j] && longer[j] == actions[j];
    if MigratedIn(t, source, longer, run) {
      var j :| 0 <= j < |longer| && Migrates(Ran(t, source, longer[..j]), longer[j], run);
      assert j < |actions| ==> Migrates(Ran(t, source, actions[..j]), actions[j], run);
    }
    if MigratedIn(t, source, actions, run) {
      var j :| 0 <= j < |actions| && Migrates(Ran(t, source, actions[..j]), actions[j], run);
      assert Migrates(Ran(t, source, longer[..j]), longer[j], run);
    }
    assert Migrates(Ran(t, source, actions), a, run) ==>
      Migrates(Ran(t, source, longer[..|actions|]), longer[|actions|], run);
  }

  /** What the history variable records: the runs of the attempts that took a migration step. */
  lemma {:induction false} BegunMeaning(t: Tools, source: Bytes, actions: seq<Action>, run: string)
    ensures run in Ran(t, source, actions).begun <==> MigratedIn(t, source, actions, run)
  {
    if actions != [] {
      var before, a := actions[..|actions| - 1], actions[|actions| - 1];
      assert actions == before + [a];
      BegunMeaning(t, source, before, run);
      BegunStep(t, Ran(t, source, before), a, run);
      hide MigratedIn, Step, Migrates;
      MigratedNext(t, source, before, a, run);
    }
  }

  predicate Migrates(s: State, a: Action, run: string) {
    a.Migrate? && At(s, a.pid).phase.Open? && At(s, a.pid).run == run
  }

  lemma BegunStep(t: Tools, s: State, a: Action, run: string)
    ensures run in Step(t, s, a).begun <==> run in s.begun || Migrates(s, a, run)
  {
    hide VerifySnapshot, Inspect, ValidRun, ValidCommit, IsStaging;
  }

  // One step leaves a run's snapshot alone; only damage can touch its database file.
  lemma SnapshotKept(t: Tools, s: State, a: Action, run: string)
    requires Inv(t, s) && ValidRun(run) && run in s.entries
    ensures run in Step(t, s, a).entries && Step(t, s, a).entries[run].Folder?
    ensures Step(t, s, a).entries[run].manifest == s.entries[run].manifest
    ensures !(a.Rot? && a.name == run) ==> Step(t, s, a).entries[run] == s.entries[run]
  {
    hide VerifySnapshot, Inspect, ValidRun, ValidCommit, Filled;
    assert SnapshotOk(t, s.original, run, s.entries[run]);
    if !a.Start? && !a.AppWrite? && !a.Rot? && HasStaging(At(s, a.pid)) {
      assert AttemptOk(t, s, a.pid, s.attempts[a.pid]);
      StagingIsNoRun(At(s, a.pid).phase.temp);
    }
    if a.Look? {
      hide IsStaging;
    }
  }

  predicate Damages(a: Action, run: string) {
    a.Rot? && a.name == run
  }

  // From one entry to a later one: the same manifest, and the same database unless it was damaged.
  predicate Kept(before: Entry, after: Entry, damaged: bool) {
    before.Folder? && after.Folder? && after.manifest == before.manifest && (after == before || damaged)
  }

  lemma {:induction false} KeptOver(t: Tools, s: State, more: seq<Action>, run: string)
    requires Inv(t, s) && ValidRun(run) && run in s.entries
    ensures Inv(t, Exec(t, s, more)) && run in Exec(t, s, more).entries
    ensures Kept(s.entries[run], Exec(t, s, more).entries[run], exists i | 0 <= i < |more| :: Damages(more[i], run))
  {
    assert SnapshotOk(t, s.original, run, s.entries[run]);
    if more != [] {
      var n := |more| - 1;
      KeptOver(t, s, more[..n], run);
      hide Step, Inv, ValidRun, SnapshotOk;
      var mid := Exec(t, s, more[..n]);
      SnapshotKept(t, mid, more[n], run);
      StepKeeps(t, mid, more[n]);
      if exists i | 0 <= i < n :: Damages(more[..n][i], run) {
        var i :| 0 <= i < n && Damages(more[..n][i], run);
        assert Damages(more[i], run);
      }
    }
  }

  /** Once published, a run's snapshot is never replaced or removed by any later attempt. */
  lemma NeverReplaced(t: Tools, source: Bytes, actions: seq<Action>, more: seq<Action>, run: string)
    requires ValidRun(run) && run in Ran(t, source, actions).entries
    ensures run in Ran(t, source, actions + more).entries
    ensures Kept(Ran(t, source, actions).entries[run], Ran(t, source, actions + more).entries[run],
                 exists i | 0 <= i < |more| :: Damages(more[i], run))
  {
    Reachable(t, source, actions);
    ExecSplit(t, Init(source), actions, more);
    hide ValidRun, Inv, Exec;
    KeptOver(t, Ran(t, source, actions), more, run);
  }

  /** A retry that gets through works behind the very snapshot the first attempt took. */
  lemma RetriesShareSnapshot(t: Tools, source: Bytes, actions: seq<Action>, more: seq<Action>, first: nat, retry: nat)
    requires At(Ran(t, source, actions), first).phase.Open? && At(Ran(t, source, actions + more), retry).phase.Open?
    requires At(Ran(t, source, actions), first).run == At(Ran(t, source, actions + more), retry).run
    ensures At(Ran(t, source, actions), first).phase.info == At(Ran(t, source, actions + more), retry).phase.info
    ensures At(Ran(t, source, actions), first).commit == At(Ran(t, source, actions + more), retry).commit
  {
    var s, q := Ran(t, source, actions), Ran(t, source, actions + more);
    Reachable(t, source, actions);
    Reachable(t, source, actions + more);
    hide Ran, Inspect, ValidRun, Filled, SnapshotOk;
    assert AttemptOk(t, s, first, s.attempts[first]);
    assert AttemptOk(t, q, retry, q.attempts[retry]);
    NeverReplaced(t, source, actions, more, At(s, first).run);
  }

  // ---------- One attempt, as the code performs it ----------

  // What can fail besides the checks the model makes itself.
  datatype Fault = NoSpace | CopyFails | WriteFails | SyncFails | LateSyncFails

  // Nothing fails once there is room for a copy.
  predicate Unfailing(faults: set<Fault>) {
    CopyFails !in faults && WriteFails !in faults && SyncFails !in faults && LateSyncFails !in faults
  }

  // The checks under the lock.
  predicate Passes(t: Tools, source: Bytes, entries: map<string, Entry>, run: string, commit: string,
                   deleteJournal: bool, faults: set<Fault>) {
    if run in entries then VerifySnapshot(t, entries[run], run, commit).Success?
    else && Inspect(t, source, deleteJournal).Success? && Inspect(t, t.copied(source), false).Success?
         && NoSpace !in faults && Unfailing(faults)
  }

  // Whether an attempt gets to the migration.
  predicate Admits(t: Tools, s: State, run: string, commit: string, deleteJournal: bool, faults: set<Fault>) {
    ValidRun(run) && ValidCommit(commit) && s.source != [] && s.holder.None?
      && Passes(t, s.source, s.entries, run, commit, deleteJournal, faults)
  }

  // When an attempt is let through to the migration, in terms of what it finds.
  ghost predicate Opens(t: Tools, s: State, run: string, commit: string, deleteJournal: bool, faults: set<Fault>) {
    && (exists id, attempt :: RunName(run, id, attempt)) && CommitName(commit) && s.source != [] && s.holder.None?
    && if run in s.entries then exists info :: SoundSnapshot(t, s.entries[run], run, commit, info)
       else && (exists schema :: SoundDatabase(t, s.source, schema))
            && (deleteJournal ==> t.read(s.source).journal == "delete")
            && (exists schema :: SoundDatabase(t, t.copied(s.source), schema)) && faults == {}
  }

  lemma AdmitsMeaning(t: Tools, s: State, run: string, commit: string, deleteJournal: bool, faults: set<Fault>)
    ensures Admits(t, s, run, commit, deleteJournal, faults) <==> Opens(t, s, run, commit, deleteJournal, faults)
  {
    RunMeaning(run);
    CommitMeaning(commit);
    FaultsMeaning(faults);
    hide ValidRun, ValidCommit, RunName, CommitName, Inspect, VerifySnapshot, SoundDatabase, SoundSnapshot, Unfailing;
    if run in s.entries {
      var v := VerifySnapshot(t, s.entries[run], run, commit);
      forall info ensures v == Success(info) <==> SoundSnapshot(t, s.entries[run], run, commit, info) {
        VerifyMeaning(t, s.entries[run], run, commit, info);
      }
      assert v.Success? ==> v == Success(v.value);
    } else {
      SoundMeaning(t, s.source, deleteJournal);
      SoundMeaning(t, t.copied(s.source), false);
    }
  }

  lemma SoundMeaning(t: Tools, db: Bytes, deleteJournal: bool)
    ensures Inspect(t, db, deleteJournal).Success? <==>
            (exists schema :: SoundDatabase(t, db, schema)) && (deleteJournal ==> t.read(db).journal == "delete")
  {
    var v := Inspect(t, db, deleteJournal);
    forall schema
      ensures v == Success(schema) <==>
              SoundDatabase(t, db, schema) && (deleteJournal ==> t.read(db).journal == "delete")
    {
      InspectMeaning(t, db, deleteJournal, schema);
    }
    hide SoundDatabase, Inspect;
    assert v.Success? ==> v == Success(v.value);
  }

  lemma FaultsMeaning(faults: set<Fault>)
    ensures faults == {} <==> NoSpace !in faults && Unfailing(faults)
  {
    if NoSpace !in faults && Unfailing(faults) {
      forall f: Fault ensures f !in faults {
        match f
        case NoSpace =>
        case CopyFails =>
        case WriteFails =>
        case SyncFails =>
        case LateSyncFails =>
      }
    }
  }

  // The manifest made of a sound copy.
  lemma MadeIsSound(t: Tools, db: Bytes, run: string, commit: string)
    requires Inspect(t, db, false).Success?
    ensures SoundSnapshot(t, Folder(Some(db), Some(ManifestOf(t, db, run, commit))), run, commit,
                          ManifestOf(t, db, run, commit))
  {
    InspectMeaning(t, db, false, t.read(db).versions);
  }

  class Volume {
    const tools: Tools
    var source: Bytes
    var entries: map<string, Entry>
    var holder: Option<nat>
    ghost var attempts: map<nat, Attempt>
    ghost var begun: set<string>
    ghost var original: map<string, Bytes>

    ghost function Now(): State
      reads this
    {
      State(source, entries, holder, attempts, begun, original)
    }

    constructor (tools: Tools, source: Bytes)
      ensures this.tools == tools && Now() == Init(source) && Inv(tools, Now())
    {
      this.tools := tools;
      this.source := source;
      entries, holder, attempts, begun, original := map[], None, map[], {}, map[];
    }

    // What an attempt holding the lock sees of itself.
    ghost predicate Runs(pid: nat, a: Attempt)
      reads `holder, `attempts
    {
      holder == Some(pid) && pid in attempts && attempts[pid] == a && Inside(a)
    }

    // Closing the lock file, after removing what staging is left.
    method Abort(ghost pid: nat, ghost a: Attempt, staging: Option<string>)
      requires Runs(pid, a) && staging == if HasStaging(a) then Some(a.phase.temp) else None
      modifies this
      ensures Now() == Step(tools, old(Now()), Leave(pid))
      ensures holder == None && At(Now(), pid).phase == Gone && source == old(source)
      ensures entries == if staging.Some? then old(entries) - {staging.value} else old(entries)
    {
      ghost var s := Now();
      if staging.Some? {
        entries := entries - {staging.value};
      }
      holder := None;
      attempts := Left(s, pid).attempts;
    }

    // The entries before staging began, and the staging folder.
    ghost predicate Extends(before: map<string, Entry>, temp: string, e: Entry)
      reads `entries
    {
      temp !in before && entries == before[temp := e]
    }

    // The cleanup of a failed attempt.
    method Clean(ghost pid: nat, ghost a: Attempt, temp: string, ghost before: map<string, Entry>, ghost e: Entry)
      requires Runs(pid, a) && HasStaging(a) && a.phase.temp == temp && Extends(before, temp, e)
      modifies this
      ensures Now() == Step(tools, old(Now()), Leave(pid))
      ensures holder == None && At(Now(), pid).phase == Gone && source == old(source) && entries == before
    {
      Abort(pid, a, Some(temp));
    }

    // The checks before the lock.
    method Admit(pid: nat, run: string, commit: string, ghost deleteJournal: bool) returns (ok: bool)
      requires pid !in attempts
      modifies this`attempts
      ensures Now() == Step(tools, old(Now()), Start(pid, run, commit, deleteJournal))
      ensures ok <==> ValidRun(run) && ValidCommit(commit) && source != []
      ensures At(Now(), pid) == Attempt(run, commit, deleteJournal, if ok then Waiting else Gone)
    {
      hide ValidRun, ValidCommit;
      ok := ValidRun(run) && ValidCommit(commit) && source != [];
      attempts := attempts[pid := Attempt(run, commit, deleteJournal, if ok then Waiting else Gone)];
    }

    // flock; a lock that stays taken until the deadline ends the attempt.
    method Lock(pid: nat, ghost a: Attempt) returns (ok: bool, ghost action: Action)
      requires At(Now(), pid) == a && a.phase == Waiting && holder != Some(pid)
      modifies this`holder, this`attempts
      ensures Now() == Step(tools, old(Now()), action)
      ensures ok <==> old(holder).None?
      ensures ok ==> Runs(pid, a.(phase := Holding))
      ensures !ok ==> holder == old(holder) && At(Now(), pid).phase == Gone
    {
      if holder.Some? {
        attempts := attempts[pid := a.(phase := Gone)];
        return false, Leave(pid);
      }
      holder := Some(pid);
      attempts := attempts[pid := a.(phase := Holding)];
      return true, Acquire(pid);
    }

    // The folder of this run is there: verify it, never replace it.
    method Reuse(pid: nat, ghost a: Attempt, run: string, commit: string) returns (r: Result<Manifest, string>)
      requires Runs(pid, a) && a.phase == Holding && a.run == run && a.commit == commit && run in entries
      modifies this`holder, this`attempts
      ensures Now() == Step(tools, old(Now()), Look(pid, ""))
      ensures r == VerifySnapshot(tools, entries[run], run, commit)
      ensures r.Success? ==> Runs(pid, a.(phase := Open(r.value)))
      ensures r.Failure? ==> holder == None && At(Now(), pid).phase == Gone
    {
      hide VerifySnapshot;
      r := VerifySnapshot(tools, entries[run], run, commit);
      if r.Success? {
        attempts := attempts[pid := a.(phase := Open(r.value))];
      } else {
        holder := None;
        attempts := attempts[pid := a.(phase := Gone)];
      }
    }

    // mkdtemp: a name that is not taken.
    method MakeStaging(pid: nat, ghost a: Attempt, run: string, temp: string)
      requires Runs(pid, a) && a.phase == Holding && a.run == run && run !in entries
      requires Inspect(tools, source, a.deleteJournal).Success? && IsStaging(temp) && temp !in entries
      modifies this`entries, this`attempts
      ensures Now() == Step(tools, old(Now()), Look(pid, temp))
      ensures Runs(pid, a.(phase := Staged(temp))) && Extends(old(entries), temp, Folder(None, None))
    {
      hide Inspect, IsStaging;
      entries := entries[temp := Folder(None, None)];
      attempts := attempts[pid := a.(phase := Staged(temp))];
    }

    method CopyDatabase(pid: nat, ghost a: Attempt, temp: string, ghost before: map<string, Entry>) returns (db: Bytes)
      requires Runs(pid, a) && a.phase == Staged(temp) && Extends(before, temp, Folder(None, None))
      modifies this`entries, this`attempts, this`original
      ensures Now() == Step(tools, old(Now()), Copy(pid)) && db == tools.copied(source)
      ensures Runs(pid, a.(phase := Copied(temp))) && Extends(before, temp, Folder(Some(db), None))
    {
      db := tools.copied(source);
      entries := entries[temp := Folder(Some(db), None)];
      attempts, original := attempts[pid := a.(phase := Copied(temp))], original[a.run := db];
    }

    method WriteManifest(pid: nat, ghost a: Attempt, run: string, commit: string, temp: string, db: Bytes,
                         schema: seq<string>, ghost before: map<string, Entry>)
      returns (info: Manifest)
      requires Runs(pid, a) && a.phase == Copied(temp) && Extends(before, temp, Folder(Some(db), None))
      requires Inspect(tools, db, false) == Success(schema) && a.run == run && a.commit == commit
      modifies this`entries, this`attempts
      ensures Now() == Step(tools, old(Now()), Describe(pid)) && info == ManifestOf(tools, db, run, commit)
      ensures Runs(pid, a.(phase := Described(temp))) && Extends(before, temp, Folder(Some(db), Some(info)))
    {
      info := Manifest(FORMAT, run, commit, |db|, tools.digest(db), schema, "ok");
      entries := entries[temp := Folder(Some(db), Some(info))];
      attempts := attempts[pid := a.(phase := Described(temp))];
    }

    // The staging folder is verified like any snapshot; made the way it was, it always passes.
    method CheckStaging(pid: nat, ghost a: Attempt, run: string, commit: string, temp: string, ghost db: Bytes,
                        ghost before: map<string, Entry>)
      requires Runs(pid, a) && a.phase == Described(temp) && a.run == run && a.commit == commit
      requires Extends(before, temp, Folder(Some(db), Some(ManifestOf(tools, db, run, commit))))
      requires Inspect(tools, db, false).Success?
      modifies this`attempts
      ensures Now() == Step(tools, old(Now()), Check(pid)) && Runs(pid, a.(phase := Checked(temp)))
    {
      VerifiesExactly(tools, db, Some(db), run, commit, run, commit);
      var verdict := VerifySnapshot(tools, entries[temp], run, commit);
      hide VerifySnapshot, Inspect;
      if verdict.Failure? {
        assert false;
      }
      attempts := attempts[pid := a.(phase := Checked(temp))];
    }

    method Rename(pid: nat, ghost a: Attempt, run: string, temp: string, ghost before: map<string, Entry>,
                  ghost e: Entry)
      requires Runs(pid, a) && a.phase == Checked(temp) && a.run == run && Extends(before, temp, e)
      requires e.Folder? && e.manifest.Some?
      modifies this`entries, this`attempts
      ensures Now() == Step(tools, old(Now()), Publish(pid))
      ensures Runs(pid, a.(phase := Open(e.manifest.value))) && entries == before[run := e]
    {
      ghost var info := entries[temp].manifest.value;
      assert entries - {temp} == before;
      entries := (entries - {temp})[run := entries[temp]];
      attempts := attempts[pid := a.(phase := Open(info))];
    }

    // A verified copy in a staging folder, or nothing.
    method FillStaging(pid: nat, ghost a: Attempt, run: string, commit: string, temp: string, faults: set<Fault>)
      returns (r: Result<Manifest, string>, ghost did: seq<Action>)
      requires Runs(pid, a) && a.phase == Holding && a.run == run && a.commit == commit && run !in entries
      requires Inspect(tools, source, a.deleteJournal).Success? && IsStaging(temp) && temp !in entries
      modifies this
      ensures Now() == Exec(tools, old(Now()), did) && source == old(source)
      ensures r.Success? <==>
              Inspect(tools, tools.copied(source), false).Success? && CopyFails !in faults && WriteFails !in faults
      ensures r.Success? ==> Runs(pid, a.(phase := Checked(temp)))
      ensures r.Success? ==> r.value == ManifestOf(tools, tools.copied(source), run, commit)
      ensures r.Success? ==> Extends(old(entries), temp, Folder(Some(tools.copied(source)), Some(r.value)))
      ensures r.Failure? ==> holder == None && At(Now(), pid).phase == Gone && entries == old(entries)
    {
      hide *;
      ghost var s, before := Now(), entries;
      MakeStaging(pid, a, run, temp);
      did := Note(tools, s, [], Look(pid, temp));
      if CopyFails in faults {
        Clean(pid, a.(phase := Staged(temp)), temp, before, Folder(None, None));
        did := Note(tools, s, did, Leave(pid));
        return Failure("copy"), did;
      }
      var db := CopyDatabase(pid, a.(phase := Staged(temp)), temp, before);
      did := Note(tools, s, did, Copy(pid));
      var schema := Inspect(tools, db, false);
      if schema.Failure? || WriteFails in faults {
        Clean(pid, a.(phase := Copied(temp)), temp, before, Folder(Some(db), None));
        did := Note(tools, s, did, Leave(pid));
        return Failure("inspection or manifest"), did;
      }
      var info := WriteManifest(pid, a.(phase := Copied(temp)), run, commit, temp, db, schema.value, before);
      did := Note(tools, s, did, Describe(pid));
      CheckStaging(pid, a.(phase := Described(temp)), run, commit, temp, db, before);
      did := Note(tools, s, did, Check(pid));
      return Success(info), did;
    }

    // Backup first: staging, then the rename that makes it the run's snapshot.
    method TakeSnapshot(pid: nat, ghost a: Attempt, run: string, commit: string, temp: string, faults: set<Fault>)
      returns (r: Result<Manifest, string>, ghost did: seq<Action>)
      requires Runs(pid, a) && a.phase == Holding && a.run == run && a.commit == commit && run !in entries
      requires Inspect(tools, source, a.deleteJournal).Success? && IsStaging(temp) && temp !in entries
      modifies this
      ensures Now() == Exec(tools, old(Now()), did) && source == old(source)
      ensures r.Success? <==> Inspect(tools, tools.copied(source), false).Success? && Unfailing(faults)
      ensures r.Success? ==> Runs(pid, a.(phase := Open(r.value)))
      ensures r.Success? ==> r.value == ManifestOf(tools, tools.copied(source), run, commit)
      ensures r.Success? ==> entries == old(entries)[run := Folder(Some(tools.copied(source)), Some(r.value))]
      ensures r.Failure? ==> holder == None && At(Now(), pid).phase == Gone
      ensures r.Failure? && LateSyncFails !in faults ==> entries == old(entries)
    {
      hide Inspect, Exec, IsStaging, VerifySnapshot, Step, Runs, Extends, ManifestOf, Inside;
      ghost var s, before := Now(), entries;
      r, did := FillStaging(pid, a, run, commit, temp, faults);
      if r.Failure? {
        return;
      }
      ghost var e := Folder(Some(tools.copied(source)), Some(r.value));
      if SyncFails in faults {
        Clean(pid, a.(phase := Checked(temp)), temp, before, e);
        did := Note(tools, s, did, Leave(pid));
        return Failure("sync"), did;
      }
      Rename(pid, a.(phase := Checked(temp)), run, temp, before, e);
      did := Note(tools, s, did, Publish(pid));
      if LateSyncFails in faults {
        Abort(pid, a.(phase := Open(r.value)), None);
        did := Note(tools, s, did, Leave(pid));
        return Failure("sync of the snapshots folder"), did;
      }
    }

    /** One attempt: it opens the gate exactly when everything is in order, and then the run's snapshot is
        there; a failed attempt has left nothing behind and holds no lock. All it did is a run of steps. */
    method Gate(pid: nat, run: string, commit: string, deleteJournal: bool, temp: string, faults: set<Fault>)
      returns (r: Result<Manifest, string>, ghost did: seq<Action>)
      requires Inv(tools, Now()) && pid !in attempts && IsStaging(temp) && temp !in entries
      modifies this
      ensures Now() == Exec(tools, old(Now()), did) && source == old(source)
      ensures r.Success? <==> Opens(tools, old(Now()), run, commit, deleteJournal, faults)
      ensures r.Success? ==> Runs(pid, Attempt(run, commit, deleteJournal, Open(r.value)))
      ensures r.Success? ==> run in entries && SoundSnapshot(tools, entries[run], run, commit, r.value)
      ensures run in old(entries) ==> entries == old(entries)
      ensures r.Failure? ==> holder == old(holder) && At(Now(), pid).phase == Gone
      ensures r.Failure? && LateSyncFails !in faults ==> entries == old(entries)
    {
      ghost var s, a := Now(), Attempt(run, commit, deleteJournal, Waiting);
      hide Inv, ValidRun, ValidCommit, Passes, Admits, Opens, Step, Exec, Runs, IsStaging, SoundSnapshot;
      GateFacts(tools, s, pid, run, commit, deleteJournal, faults);
      AdmitsMeaning(tools, s, run, commit, deleteJournal, faults);
      var ok := Admit(pid, run, commit, deleteJournal);
      did := Note(tools, s, [], Start(pid, run, commit, deleteJournal));
      if !ok {
        return Failure("metadata or source"), did;
      }
      ghost var action;
      ok, action := Lock(pid, a);
      did := Note(tools, s, did, action);
      if !ok {
        return Failure("another backup or migration holds the lock"), did;
      }
      ghost var more;
      r, more := Work(pid, a.(phase := Holding), run, commit, deleteJournal, temp, faults);
      ExecSplit(tools, s, did, more);
      did := did + more;
    }

    // What happens under the lock.
    method Work(pid: nat, ghost a: Attempt, run: string, commit: string, deleteJournal: bool, temp: string,
                faults: set<Fault>)
      returns (r: Result<Manifest, string>, ghost did: seq<Action>)
      requires Runs(pid, a) && a == Attempt(run, commit, deleteJournal, Holding)
      requires IsStaging(temp) && temp !in entries
      modifies this
      ensures Now() == Exec(tools, old(Now()), did) && source == old(source)
      ensures r.Success? <==> Passes(tools, old(source), old(entries), run, commit, deleteJournal, faults)
      ensures r.Success? ==> Runs(pid, a.(phase := Open(r.value)))
      ensures r.Success? ==> run in entries && SoundSnapshot(tools, entries[run], run, commit, r.value)
      ensures run in old(entries) ==> entries == old(entries)
      ensures r.Failure? ==> holder == None && At(Now(), pid).phase == Gone
      ensures r.Failure? && LateSyncFails !in faults ==> entries == old(entries)
    {
      hide Inspect, Exec, IsStaging, VerifySnapshot, Step, Runs, Unfailing, SoundSnapshot;
      ghost var s := Now();
      if run in entries {
        r := Reuse(pid, a, run, commit);
        if r.Success? {
          VerifyMeaning(tools, entries[run], run, commit, r.value);
        }
        did := Note(tools, s, [], Look(pid, ""));
      } else if Inspect(tools, source, deleteJournal).Failure? || NoSpace in faults {
        Abort(pid, a, None);
        did := Note(tools, s, [], Leave(pid));
        return Failure("source or space"), did;
      } else {
        r, did := TakeSnapshot(pid, a, run, commit, temp, faults);
        if r.Success? {
          MadeIsSound(tools, tools.copied(source), run, commit);
        }
      }
    }
  }

  // One more action done.
  ghost method Note(t: Tools, s: State, did: seq<Action>, a: Action) returns (now: seq<Action>)
    ensures now == did + [a] && Exec(t, s, []) == s
    ensures Exec(t, s, now) == Step(t, Exec(t, s, did), a)
  {
    now := did + [a];
    ExecNext(t, s, did, a);
  }

  lemma GateFacts(t: Tools, s: State, pid: nat, run: string, commit: string, deleteJournal: bool, faults: set<Fault>)
    requires Inv(t, s) && pid !in s.attempts
    ensures s.holder != Some(pid)
    ensures Admits(t, s, run, commit, deleteJournal, faults) <==>
            ValidRun(run) && ValidCommit(commit) && s.source != [] && s.holder.None?
              && Passes(t, s.source, s.entries, run, commit, deleteJournal, faults)
  {
    hide AttemptOk, SnapshotOk, ValidRun, ValidCommit, Passes;
  }

  lemma ExecNext(t: Tools, s: State, did: seq<Action>, a: Action)
    ensures Exec(t, s, []) == s
    ensures Exec(t, s, did + [a]) == Step(t, Exec(t, s, did), a)
  {
    assert (did + [a])[..|did|] == did;
  }
}
