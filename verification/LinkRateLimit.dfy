/**
 Brute-force protection of the link-account endpoint (app/api/line_auth.py). Times are seconds.
 The class keeps the three pruned dictionaries; `History` is the full, unpruned list of failures
 that a run has recorded for one key since its last successful link, and the theorems speak of it.
*/
module LinkRateLimit {
  import opened Wrappers

  const WINDOW: real := 60.0
  const MAX_PER_WINDOW: nat := 5
  const LOCKOUT_THRESHOLD: nat := 20
  const LOCKOUT: real := 300.0
  const RETENTION: real := 300.0
  const CODE_THRESHOLD: nat := 5
  const CODE_TTL: real := 3600.0

  // (client ip, LINE user id)
  type Key = (string, string)

  datatype CodeInfo = CodeInfo(count: nat, lastUpdated: real)

  datatype State = State(attempts: map<Key, seq<real>>, lockouts: map<Key, real>, codes: map<string, CodeInfo>)

  datatype Decision = Allowed | Refused(retryAfter: int)

  // The timestamps later than the cutoff, in order.
  function After(ts: seq<real>, cutoff: real): (r: seq<real>)
    ensures forall i | 0 <= i < |r| :: r[i] > cutoff
  {
    if ts == [] then []
    else
      var rest := After(ts[..|ts| - 1], cutoff);
      if ts[|ts| - 1] > cutoff then rest + [ts[|ts| - 1]] else rest
  }

  // int(x): truncation toward zero.
  function Trunc(x: real): int {
    if x >= 0.0 then x.Floor else -((-x).Floor)
  }

  function Prune(s: State, now: real): State {
    State(map k | k in s.attempts && !(forall i | 0 <= i < |s.attempts[k]| :: s.attempts[k][i] <= now - RETENTION)
            :: s.attempts[k],
          map k | k in s.lockouts && s.lockouts[k] > now :: s.lockouts[k],
          map c | c in s.codes && s.codes[c].lastUpdated > now - CODE_TTL :: s.codes[c])
  }

  function EnforceStep(s: State, key: Key, now: real): (State, Decision) {
    var p := Prune(s, now);
    if key in p.lockouts && p.lockouts[key] != 0.0 && now < p.lockouts[key] then
      (p, Refused(Trunc(p.lockouts[key] - now) + 1))
    else
      if key !in p.attempts then (p, Allowed)
      else
        var ts := After(p.attempts[key], now - RETENTION);
        if ts == [] then (p.(attempts := p.attempts - {key}), Allowed)
        else
          var inWindow := After(ts, now - WINDOW);
          (p.(attempts := p.attempts[key := ts]),
           if |inWindow| >= MAX_PER_WINDOW
           then Refused(Max(1, Trunc(WINDOW - (now - inWindow[0])) + 1)) else Allowed)
  }

  function Max(a: int, b: int): int {
    if a >= b then a else b
  }

  function Timestamps(s: State, key: Key): seq<real> {
    if key in s.attempts then s.attempts[key] else []
  }

  function RecordStep(s: State, key: Key, now: real): State {
    var ts := After(Timestamps(s, key) + [now], now - RETENTION);
    s.(attempts := s.attempts[key := ts],
       lockouts := if |ts| >= LOCKOUT_THRESHOLD then s.lockouts[key := now + LOCKOUT] else s.lockouts)
  }

  function ClearStep(s: State, key: Key): State {
    s.(attempts := s.attempts - {key}, lockouts := s.lockouts - {key})
  }

  function CodeCount(s: State, code: string): nat {
    if code in s.codes then s.codes[code].count else 0
  }

  // ---------- One request to link-account ----------

  // The employee row that holds the presented code, and where the database fails.
  datatype Holder = Holder(active: bool, expired: bool, linked: bool)

  datatype Fault = NoFault | LookupFails | CommitFails | ReplyFails

  // The clock is read once when the limit is enforced and again for each thing recorded.
  datatype Attempt = Attempt(key: Key, code: string, holder: Option<Holder>, fault: Fault,
                             enforceAt: real, recordAt: real, codeAt: real)

  // A code is nulled when an employee row that held it has lost it.
  datatype Response = TooMany(retryAfter: int) | Rejected(codeNulled: bool) | LinkOk | Error

  // An active employee is found by the code, or the code counts as wrong.
  datatype Branch = WrongCode | OtherFailure | Links

  function BranchOf(holder: Option<Holder>): Branch {
    if holder.None? || !holder.value.active then WrongCode
    else if holder.value.expired || holder.value.linked then OtherFailure
    else Links
  }

  // The request recorded a failure, or cleared the failures of its key and code.
  predicate Recorded(a: Attempt, r: Response) {
    !r.TooMany? && a.fault != LookupFails && BranchOf(a.holder) != Links
  }

  predicate Cleared(a: Attempt, r: Response) {
    !r.TooMany? && BranchOf(a.holder) == Links && (a.fault == NoFault || a.fault == ReplyFails)
  }

  // A wrong code: both counters grow; at the fifth the code is nulled if a row holds it, and its
  // counter is dropped, unless the database fails first.
  function WrongCodeStep(s: State, a: Attempt): (State, Response) {
    var r := RecordStep(s, a.key, a.recordAt);
    var count := CodeCount(r, a.code) + 1;
    var counted := r.(codes := r.codes[a.code := CodeInfo(count, a.codeAt)]);
    if count < CODE_THRESHOLD then (counted, Rejected(false))
    else if a.fault == CommitFails then (counted, Error)
    else (r.(codes := r.codes - {a.code}), Rejected(a.holder.Some?))
  }

  function LinkStep(s: State, a: Attempt): (State, Response) {
    if a.fault == CommitFails then (s, Error)
    else
      var c := ClearStep(s, a.key);
      (c.(codes := c.codes - {a.code}), if a.fault == ReplyFails then Error else LinkOk)
  }

  // A request that was let through.
  function ProceedStep(s: State, a: Attempt): (State, Response) {
    if a.fault == LookupFails then (s, Error)
    else match BranchOf(a.holder)
      case OtherFailure => (RecordStep(s, a.key, a.recordAt), Rejected(false))
      case Links => LinkStep(s, a)
      case WrongCode => WrongCodeStep(s, a)
  }

  function AttemptStep(s: State, a: Attempt): (State, Response) {
    var (q, d) := EnforceStep(s, a.key, a.enforceAt);
    if d.Refused? then (q, TooMany(d.retryAfter)) else ProceedStep(q, a)
  }

  class Limiter {
    var attempts: map<Key, seq<real>>
    var lockouts: map<Key, real>
    var codes: map<string, CodeInfo>

    ghost function Abs(): State
      reads this
    {
      State(attempts, lockouts, codes)
    }

    constructor ()
      ensures Abs() == State(map[], map[], map[])
    {
      attempts, lockouts, codes := map[], map[], map[];
    }

    method PruneState(now: real)
      modifies this
      ensures Abs() == Prune(old(Abs()), now)
    {
      var expired := set k | k in lockouts && lockouts[k] <= now;
      while expired != {}
        invariant expired <= lockouts.Keys && attempts == old(attempts) && codes == old(codes)
        invariant forall k | k in lockouts :: k in old(lockouts) && lockouts[k] == old(lockouts)[k]
        invariant forall k | k in old(lockouts) :: k !in lockouts ==> old(lockouts)[k] <= now
        invariant forall k | k in lockouts :: lockouts[k] <= now <==> k in expired
        decreases |expired|
      {
        var k :| k in expired;
        lockouts := lockouts - {k};
        expired := expired - {k};
      }
      assert lockouts == Prune(old(Abs()), now).lockouts;
      PruneAttempts(now);
      PruneCodes(now);
    }

    method PruneAttempts(now: real)
      modifies this`attempts
      ensures attempts == Prune(old(Abs()), now).attempts
    {
      var cutoff := now - RETENTION;
      var empty := set k | k in attempts && forall i | 0 <= i < |attempts[k]| :: attempts[k][i] <= cutoff;
      while empty != {}
        invariant empty <= attempts.Keys
        invariant forall k | k in attempts :: k in old(attempts) && attempts[k] == old(attempts)[k]
        invariant forall k | k in old(attempts) :: k !in attempts ==>
                  forall i | 0 <= i < |old(attempts)[k]| :: old(attempts)[k][i] <= cutoff
        invariant forall k | k in attempts :: (forall i | 0 <= i < |attempts[k]| :: attempts[k][i] <= cutoff) <==>
                  k in empty
        decreases |empty|
      {
        var k :| k in empty;
        attempts := attempts - {k};
        empty := empty - {k};
      }
    }

    method PruneCodes(now: real)
      modifies this`codes
      ensures codes == Prune(old(Abs()), now).codes
    {
      var stale := set c | c in codes && codes[c].lastUpdated <= now - CODE_TTL;
      while stale != {}
        invariant stale <= codes.Keys
        invariant forall c | c in codes :: c in old(codes) && codes[c] == old(codes)[c]
        invariant forall c | c in old(codes) :: c !in codes ==> old(codes)[c].lastUpdated <= now - CODE_TTL
        invariant forall c | c in codes :: codes[c].lastUpdated <= now - CODE_TTL <==> c in stale
        decreases |stale|
      {
        var c :| c in stale;
        codes := codes - {c};
        stale := stale - {c};
      }
    }

    method Enforce(key: Key, now: real) returns (d: Decision)
      modifies this
      ensures (Abs(), d) == EnforceStep(old(Abs()), key, now)
    {
      PruneState(now);
      if key in lockouts && lockouts[key] != 0.0 {
        if now < lockouts[key] {
          return Refused(Trunc(lockouts[key] - now) + 1);
        } else {
          assert false;  // a lockout that is over was dropped by the pruning above
        }
      }
      if key !in attempts {
        return Allowed;
      }
      var timestamps := After(attempts[key], now - RETENTION);
      if timestamps == [] {
        attempts := attempts - {key};
        return Allowed;
      }
      attempts := attempts[key := timestamps];
      var inWindow := After(timestamps, now - WINDOW);
      if |inWindow| >= MAX_PER_WINDOW {
        return Refused(Max(1, Trunc(WINDOW - (now - inWindow[0])) + 1));
      }
      return Allowed;
    }

    method RecordFailure(key: Key, now: real)
      modifies this
      ensures Abs() == RecordStep(old(Abs()), key, now)
    {
      var timestamps := if key in attempts then attempts[key] else [];
      timestamps := After(timestamps + [now], now - RETENTION);
      attempts := attempts[key := timestamps];
      if |timestamps| >= LOCKOUT_THRESHOLD {
        lockouts := lockouts[key := now + LOCKOUT];
      }
    }

    method RecordCodeFailure(code: string, now: real) returns (count: nat)
      modifies this
      ensures count == CodeCount(old(Abs()), code) + 1
      ensures Abs() == old(Abs()).(codes := old(codes)[code := CodeInfo(count, now)])
    {
      count := (if code in codes then codes[code].count else 0) + 1;
      codes := codes[code := CodeInfo(count, now)];
    }

    method LinkAccount(a: Attempt) returns (r: Response)
      modifies this
      ensures (Abs(), r) == AttemptStep(old(Abs()), a)
    {
      var d := Enforce(a.key, a.enforceAt);
      if d.Refused? {
        return TooMany(d.retryAfter);
      }
      if a.fault == LookupFails {
        return Error;
      }
      match BranchOf(a.holder) {
        case OtherFailure =>
          RecordFailure(a.key, a.recordAt);
          return Rejected(false);
        case Links =>
          if a.fault == CommitFails {
            return Error;
          }
          attempts := attempts - {a.key};
          lockouts := lockouts - {a.key};
          codes := codes - {a.code};
          return if a.fault == ReplyFails then Error else LinkOk;
        case WrongCode =>
          r := RejectCode(a);
      }
    }

    method RejectCode(a: Attempt) returns (r: Response)
      modifies this
      ensures (Abs(), r) == WrongCodeStep(old(Abs()), a)
    {
      RecordFailure(a.key, a.recordAt);
      ghost var recorded := Abs();
      var count := RecordCodeFailure(a.code, a.codeAt);
      if count < CODE_THRESHOLD {
        return Rejected(false);
      }
      if a.fault == CommitFails {
        return Error;
      }
      codes := codes - {a.code};
      assert codes == recorded.codes - {a.code};
      return Rejected(a.holder.Some?);
    }
  }

  // ---------- Filtered histories ----------

  predicate Sorted(h: seq<real>) {
    forall i, j | 0 <= i < j < |h| :: h[i] <= h[j]
  }

  lemma AfterAppend(h: seq<real>, t: real, c: real)
    ensures After(h + [t], c) == if t > c then After(h, c) + [t] else After(h, c)
  {
    assert (h + [t])[..|h|] == h;
  }

  lemma {:induction false} AfterTwice(h: seq<real>, c: real, d: real)
    requires c <= d
    ensures After(After(h, c), d) == After(h, d)
  {
    if h != [] {
      var n := |h| - 1;
      AfterTwice(h[..n], c, d);
      AfterAppend(After(h[..n], c), h[n], d);
    }
  }

  // On a sorted history the filter keeps exactly a suffix.
  lemma {:induction false} AfterIsSuffix(h: seq<real>, c: real)
    requires Sorted(h)
    ensures |After(h, c)| <= |h| && After(h, c) == h[|h| - |After(h, c)|..]
    ensures forall i | 0 <= i < |h| :: h[i] > c <==> i >= |h| - |After(h, c)|
  {
    if h != [] {
      var n := |h| - 1;
      AfterIsSuffix(h[..n], c);
      var rest := After(h[..n], c);
      assert forall i | 0 <= i < n :: h[..n][i] == h[i];
      assert h[n] <= c ==> rest == [];
      assert h[n - |rest|..] == h[..n][n - |rest|..] + [h[n]];
    }
  }

  // ---------- What the full history says ----------

  // When the lockout set by the latest triggering failure of the history ends.
  function LockEnd(h: seq<real>): Option<real> {
    if h == [] then None
    else if |After(h, h[|h| - 1] - RETENTION)| >= LOCKOUT_THRESHOLD then Some(h[|h| - 1] + LOCKOUT)
    else LockEnd(h[..|h| - 1])
  }

  // The decision read off the unpruned history.
  function Judge(h: seq<real>, now: real): Decision {
    var lock := LockEnd(h);
    var inWindow := After(h, now - WINDOW);
    if lock.Some? && now < lock.value then Refused((lock.value - now).Floor + 1)
    else if |inWindow| >= MAX_PER_WINDOW then Refused((inWindow[0] + WINDOW - now).Floor + 1)
    else Allowed
  }

  function StateAt(run: seq<Attempt>, n: nat): State
    requires n <= |run|
  {
    if n == 0 then State(map[], map[], map[]) else AttemptStep(StateAt(run, n - 1), run[n - 1]).0
  }

  function ResponseAt(run: seq<Attempt>, n: nat): Response
    requires n < |run|
  {
    AttemptStep(StateAt(run, n), run[n]).1
  }

  // The failures recorded for `key` by the first n requests since its last successful link.
  function History(run: seq<Attempt>, n: nat, key: Key): seq<real>
    requires n <= |run|
  {
    if n == 0 then []
    else
      var a := run[n - 1];
      Extend(History(run, n - 1, key), a, key, ResponseAt(run, n - 1))
  }

  function Extend(h: seq<real>, a: Attempt, key: Key, r: Response): seq<real> {
    if a.key != key then h
    else if Cleared(a, r) then []
    else if Recorded(a, r) then h + [a.recordAt]
    else h
  }

  ghost predicate Clocked(run: seq<Attempt>) {
    && (forall i | 0 <= i < |run| :: 0.0 <= run[i].enforceAt <= run[i].recordAt <= run[i].codeAt)
    && (forall i, j | 0 <= i < j < |run| :: run[i].codeAt <= run[j].enforceAt)
  }

  // What the dictionaries hold about one key.
  datatype View = View(ts: seq<real>, lock: Option<real>)

  function ViewOf(s: State, key: Key): View {
    View(Timestamps(s, key), if key in s.lockouts then Some(s.lockouts[key]) else None)
  }

  // The view agrees with the key's full history h on everything that can still matter after `clock`.
  ghost predicate Agrees(v: View, h: seq<real>, clock: real) {
    && After(v.ts, clock - RETENTION) == After(h, clock - RETENTION)
    && (v.lock.Some? ==> LockEnd(h) == v.lock)
    && (LockEnd(h).Some? && LockEnd(h).value > clock ==> v.lock.Some?)
  }

  lemma AgreesLater(v: View, h: seq<real>, clock: real, now: real)
    requires Agrees(v, h, clock) && clock <= now
    ensures Agrees(v, h, now)
  {
    AfterTwice(v.ts, clock - RETENTION, now - RETENTION);
    AfterTwice(h, clock - RETENTION, now - RETENTION);
  }

  lemma {:induction false} AfterEmpty(ts: seq<real>, c: real)
    ensures After(ts, c) == [] <==> forall i | 0 <= i < |ts| :: ts[i] <= c
  {
    if ts != [] {
      AfterEmpty(ts[..|ts| - 1], c);
      assert forall i | 0 <= i < |ts| - 1 :: ts[..|ts| - 1][i] == ts[i];
    }
  }

  // What pruning leaves of a view.
  ghost predicate PrunedView(v: View, p: View, now: real) {
    && (p.ts == v.ts || (p.ts == [] && After(v.ts, now - RETENTION) == []))
    && p.lock == (if v.lock.Some? && v.lock.value > now then v.lock else None)
  }

  lemma PruneView(s: State, key: Key, now: real)
    ensures PrunedView(ViewOf(s, key), ViewOf(Prune(s, now), key), now)
  {
    AfterEmpty(Timestamps(s, key), now - RETENTION);
  }

  lemma PruneAgrees(v: View, p: View, h: seq<real>, now: real)
    requires Agrees(v, h, now) && PrunedView(v, p, now)
    ensures Agrees(p, h, now)
  {
  }

  // Enforcing the limit, seen from one key whose dictionaries have been pruned.
  function EnforceView(p: View, now: real): (View, Decision) {
    if p.lock.Some? && p.lock.value != 0.0 && now < p.lock.value then (p, Refused(Trunc(p.lock.value - now) + 1))
    else
      var ts := After(p.ts, now - RETENTION);
      var inWindow := After(ts, now - WINDOW);
      (p.(ts := ts), if |inWindow| >= MAX_PER_WINDOW then Refused(Max(1, Trunc(WINDOW - (now - inWindow[0])) + 1))
        else Allowed)
  }

  lemma EnforceIsView(s: State, key: Key, now: real)
    ensures EnforceStep(s, key, now).1 == EnforceView(ViewOf(Prune(s, now), key), now).1
    ensures ViewOf(EnforceStep(s, key, now).0, key) == EnforceView(ViewOf(Prune(s, now), key), now).0
  {
    hide Prune;
  }

  lemma ViewJudges(p: View, h: seq<real>, now: real)
    requires Agrees(p, h, now) && now >= 0.0 && (p.lock.Some? ==> p.lock.value > now)
    ensures EnforceView(p, now).1 == Judge(h, now)
    ensures Agrees(EnforceView(p, now).0, h, now)
  {
    hide LockEnd, After;
    AfterTwice(p.ts, now - RETENTION, now - WINDOW);
    AfterTwice(h, now - RETENTION, now - WINDOW);
    AfterTwice(p.ts, now - RETENTION, now - RETENTION);
  }

  /** The pruned dictionaries decide exactly as the full history would, Retry-After included. */
  lemma EnforceJudges(s: State, key: Key, h: seq<real>, now: real)
    requires Agrees(ViewOf(s, key), h, now) && now >= 0.0
    ensures EnforceStep(s, key, now).1 == Judge(h, now)
    ensures Agrees(ViewOf(EnforceStep(s, key, now).0, key), h, now)
  {
    hide EnforceStep, EnforceView, Agrees, Judge, Prune, ViewOf;
    PruneView(s, key, now);
    PruneAgrees(ViewOf(s, key), ViewOf(Prune(s, now), key), h, now);
    EnforceIsView(s, key, now);
    ViewJudges(ViewOf(Prune(s, now), key), h, now);
  }

  lemma EnforceOtherKey(s: State, other: Key, key: Key, h: seq<real>, now: real)
    requires Agrees(ViewOf(s, key), h, now) && other != key
    ensures Agrees(ViewOf(EnforceStep(s, other, now).0, key), h, now)
  {
    PruneView(s, key, now);
    PruneAgrees(ViewOf(s, key), ViewOf(Prune(s, now), key), h, now);
    hide Prune, Agrees, After;
    assert ViewOf(EnforceStep(s, other, now).0, key) == ViewOf(Prune(s, now), key);
  }

  lemma LockEndAppend(h: seq<real>, t: real)
    ensures LockEnd(h + [t]) ==
            if |After(h + [t], t - RETENTION)| >= LOCKOUT_THRESHOLD then Some(t + LOCKOUT) else LockEnd(h)
  {
    hide After;
    assert (h + [t])[..|h|] == h;
  }

  // One more failure, in the view and in the history.
  lemma RecordAgrees(v: View, h: seq<real>, now: real, ts: seq<real>, w: View)
    requires Agrees(v, h, now) && ts == After(v.ts + [now], now - RETENTION)
    requires w == View(ts, if |ts| >= LOCKOUT_THRESHOLD then Some(now + LOCKOUT) else v.lock)
    ensures Agrees(w, h + [now], now)
  {
    AfterAppend(v.ts, now, now - RETENTION);
    AfterAppend(h, now, now - RETENTION);
    AfterTwice(v.ts + [now], now - RETENTION, now - RETENTION);
    LockEndAppend(h, now);
    hide After, LockEnd;
  }

  // What one request leaves about `key`, given what enforcing the limit left.
  function ViewAfter(q: View, a: Attempt, key: Key, r: Response): View {
    if a.key == key && Cleared(a, r) then View([], None)
    else if a.key == key && Recorded(a, r) then
      var ts := After(q.ts + [a.recordAt], a.recordAt - RETENTION);
      View(ts, if |ts| >= LOCKOUT_THRESHOLD then Some(a.recordAt + LOCKOUT) else q.lock)
    else q
  }

  // The codes have no part in what is left about `key`.
  lemma WrongCodeView(q: State, a: Attempt, key: Key)
    ensures ViewOf(WrongCodeStep(q, a).0, key) == ViewOf(RecordStep(q, a.key, a.recordAt), key)
  {
    hide RecordStep, CodeCount;
  }

  lemma RecordedView(q: State, a: Attempt, key: Key)
    ensures var v := ViewOf(RecordStep(q, a.key, a.recordAt), key);
            var ts := After(ViewOf(q, key).ts + [a.recordAt], a.recordAt - RETENTION);
            v == if a.key != key then ViewOf(q, key)
                 else View(ts, if |ts| >= LOCKOUT_THRESHOLD then Some(a.recordAt + LOCKOUT) else ViewOf(q, key).lock)
  {
    hide After;
  }

  lemma ProceedView(q: State, a: Attempt, key: Key)
    ensures ViewOf(ProceedStep(q, a).0, key) == ViewAfter(ViewOf(q, key), a, key, ProceedStep(q, a).1)
  {
    hide After, WrongCodeStep, RecordStep;
    WrongCodeView(q, a, key);
    RecordedView(q, a, key);
    WrongCodeAnswer(q, a);
  }

  lemma WrongCodeAnswer(q: State, a: Attempt)
    ensures !WrongCodeStep(q, a).1.TooMany? && !WrongCodeStep(q, a).1.LinkOk?
  {
    hide RecordStep, CodeCount;
  }

  lemma AttemptView(s: State, a: Attempt, key: Key)
    ensures ViewOf(AttemptStep(s, a).0, key) ==
            ViewAfter(ViewOf(EnforceStep(s, a.key, a.enforceAt).0, key), a, key, AttemptStep(s, a).1)
  {
    hide EnforceStep, After, ProceedStep, ViewOf;
    ProceedView(EnforceStep(s, a.key, a.enforceAt).0, a, key);
  }

  lemma NothingAgrees(now: real)
    ensures Agrees(View([], None), [], now)
  {
  }

  lemma ViewAfterAgrees(q: View, a: Attempt, key: Key, r: Response, h: seq<real>)
    requires a.enforceAt <= a.recordAt <= a.codeAt && Agrees(q, h, a.enforceAt)
    ensures Agrees(ViewAfter(q, a, key, r), Extend(h, a, key, r), a.codeAt)
  {
    hide After, LockEnd, Agrees;
    AgreesLater(q, h, a.enforceAt, a.recordAt);
    AgreesLater(q, h, a.enforceAt, a.codeAt);
    NothingAgrees(a.codeAt);
    if a.key == key && Recorded(a, r) {
      var ts := After(q.ts + [a.recordAt], a.recordAt - RETENTION);
      var w := ViewAfter(q, a, key, r);
      RecordAgrees(q, h, a.recordAt, ts, w);
      AgreesLater(w, h + [a.recordAt], a.recordAt, a.codeAt);
    }
  }

  // What a request does to the dictionaries and to the history of `key` keeps them in agreement.
  lemma AttemptAgrees(s: State, a: Attempt, key: Key, h: seq<real>)
    requires 0.0 <= a.enforceAt <= a.recordAt <= a.codeAt && Agrees(ViewOf(s, key), h, a.enforceAt)
    ensures Agrees(ViewOf(AttemptStep(s, a).0, key), Extend(h, a, key, AttemptStep(s, a).1), a.codeAt)
  {
    hide EnforceStep, Judge, AttemptStep, ViewOf, Agrees, ViewAfter, Extend;
    if a.key == key { EnforceJudges(s, key, h, a.enforceAt); } else { EnforceOtherKey(s, a.key, key, h, a.enforceAt); }
    AttemptView(s, a, key);
    ViewAfterAgrees(ViewOf(EnforceStep(s, a.key, a.enforceAt).0, key), a, key, AttemptStep(s, a).1, h);
  }

  function Clock(run: seq<Attempt>, n: nat): real
    requires n <= |run|
  {
    if n == 0 then 0.0 else run[n - 1].codeAt
  }

  lemma EmptyAgrees(key: Key)
    ensures Agrees(ViewOf(State(map[], map[], map[]), key), [], 0.0)
  {
  }

  lemma {:induction false} RunAgrees(run: seq<Attempt>, n: nat, key: Key)
    requires Clocked(run) && n <= |run|
    ensures Agrees(ViewOf(StateAt(run, n), key), History(run, n, key), Clock(run, n))
  {
    hide AttemptStep, Agrees, Extend, ViewOf, EnforceStep, After, LockEnd;
    if n == 0 {
      EmptyAgrees(key);
    } else {
      RunAgrees(run, n - 1, key);
      AgreesLater(ViewOf(StateAt(run, n - 1), key), History(run, n - 1, key), Clock(run, n - 1), run[n - 1].enforceAt);
      AttemptAgrees(StateAt(run, n - 1), run[n - 1], key, History(run, n - 1, key));
    }
  }

  // How the limiter rules on request n.
  function DecisionAt(run: seq<Attempt>, n: nat): Decision
    requires n < |run|
  {
    EnforceStep(StateAt(run, n), run[n].key, run[n].enforceAt).1
  }

  lemma RefusalAnswered(s: State, a: Attempt)
    ensures AttemptStep(s, a).1.TooMany? <==> EnforceStep(s, a.key, a.enforceAt).1.Refused?
  {
    hide EnforceStep;
  }

  /** In every run, every request is let through or refused exactly as the complete failure history
      of its key says, although the dictionaries have been pruned all along. */
  lemma DecidedByHistory(run: seq<Attempt>, n: nat)
    requires Clocked(run) && n < |run|
    ensures DecisionAt(run, n) == Judge(History(run, n, run[n].key), run[n].enforceAt)
    ensures ResponseAt(run, n).TooMany? <==> DecisionAt(run, n).Refused?
  {
    hide Agrees, Judge, ViewOf, EnforceStep, After, LockEnd, StateAt, History, AttemptStep, Extend;
    var key := run[n].key;
    RefusalAnswered(StateAt(run, n), run[n]);
    RunAgrees(run, n, key);
    AgreesLater(ViewOf(StateAt(run, n), key), History(run, n, key), Clock(run, n), run[n].enforceAt);
    EnforceJudges(StateAt(run, n), key, History(run, n, key), run[n].enforceAt);
  }

  // ---------- What a request does ----------

  /** A link is granted exactly to a request that is let through with a code that an active employee's row holds,
      in time and not linked yet, while the database works. */
  lemma LinksExactly(run: seq<Attempt>, n: nat)
    requires n < |run|
    ensures ResponseAt(run, n) == LinkOk <==>
            && DecisionAt(run, n).Allowed? && run[n].fault == NoFault && run[n].holder.Some?
            && run[n].holder.value.active && !run[n].holder.value.expired && !run[n].holder.value.linked
  {
    hide EnforceStep, RecordStep, ClearStep, CodeCount, StateAt;
  }

  /** What a request leaves of its key's failures: one that is let through with a missing, inactive, expired or
      linked code adds one, a link that is committed clears them, and nothing else touches them. */
  lemma HistoryExactly(run: seq<Attempt>, n: nat, key: Key)
    requires n < |run|
    ensures var a, h := run[n], History(run, n, key);
            History(run, n + 1, key) ==
              if key != a.key || !DecisionAt(run, n).Allowed? || a.fault == LookupFails then h
              else if a.holder.None? || !a.holder.value.active || a.holder.value.expired || a.holder.value.linked then
                h + [a.recordAt]
              else if a.fault == CommitFails then h
              else []
  {
    hide EnforceStep, RecordStep, ClearStep, CodeCount, StateAt;
  }

  // ---------- How many failures there can be ----------

  // Failure i is the twentieth within five minutes, which sets the lockout.
  predicate Triggers(h: seq<real>, i: int)
    requires i < |h|
  {
    i >= LOCKOUT_THRESHOLD - 1 && h[i - (LOCKOUT_THRESHOLD - 1)] > h[i] - RETENTION
  }

  // Any six failures span a minute and any twenty-one span five; after a trigger there is a pause.
  ghost predicate Spaced(h: seq<real>) {
    && Sorted(h)
    && (forall i | MAX_PER_WINDOW <= i < |h| :: Apart(h, i, MAX_PER_WINDOW, WINDOW))
    && (forall i | LOCKOUT_THRESHOLD <= i < |h| :: Apart(h, i, LOCKOUT_THRESHOLD, RETENTION))
    && (forall i | 1 <= i < |h| && Triggers(h, i - 1) :: Apart(h, i, 1, LOCKOUT))
  }

  // Failure i comes at least w seconds after the k-th failure before it.
  predicate Apart(h: seq<real>, i: nat, k: nat, w: real)
    requires k <= i < |h|
  {
    h[i] >= h[i - k] + w
  }

  // The count of the latest failure tells whether it triggers.
  lemma TriggerCounted(h: seq<real>)
    requires Sorted(h) && h != []
    ensures |After(h, h[|h| - 1] - RETENTION)| >= LOCKOUT_THRESHOLD <==> Triggers(h, |h| - 1)
  {
    AfterIsSuffix(h, h[|h| - 1] - RETENTION);
    hide After;
  }

  lemma TriggersBefore(h: seq<real>, n: nat)
    requires n <= |h|
    ensures forall i | 0 <= i < n :: Triggers(h[..n], i) == Triggers(h, i)
  {
  }

  lemma {:induction false} LockEndIsLatestTrigger(h: seq<real>)
    requires Sorted(h)
    ensures LockEnd(h).None? ==> forall i | 0 <= i < |h| :: !Triggers(h, i)
    ensures LockEnd(h).Some? ==> exists i | 0 <= i < |h| :: Triggers(h, i) && LockEnd(h) == Some(h[i] + LOCKOUT)
                                  && forall j | i < j < |h| :: !Triggers(h, j)
  {
    hide After, Triggers;
    if h != [] {
      var n := |h| - 1;
      TriggerCounted(h);
      if !Triggers(h, n) {
        TriggersBefore(h, n);
        LockEndIsLatestTrigger(h[..n]);
      }
    }
  }

  lemma AllowedKeepsSpacing(h: seq<real>, e: real, r: real)
    requires Spaced(h) && Judge(h, e) == Allowed && e <= r && UpTo(h, e)
    ensures Spaced(h + [r])
  {
    var n := |h|;
    AfterIsSuffix(h, e - WINDOW);
    LockEndIsLatestTrigger(h);
    assert n >= MAX_PER_WINDOW ==> r >= h[n - MAX_PER_WINDOW] + WINDOW;
    assert n > 0 && Triggers(h, n - 1) ==> LockEnd(h) == Some(h[n - 1] + LOCKOUT);
    hide After, LockEnd, Judge;
    SpacingExtends(h, e, r);
  }

  lemma SpacingExtends(h: seq<real>, e: real, r: real)
    requires Spaced(h) && e <= r && UpTo(h, e)
    requires |h| >= MAX_PER_WINDOW ==> r >= h[|h| - MAX_PER_WINDOW] + WINDOW
    requires |h| > 0 && Triggers(h, |h| - 1) ==> e >= h[|h| - 1] + LOCKOUT
    ensures Spaced(h + [r])
  {
    var n, g := |h|, h + [r];
    forall i | MAX_PER_WINDOW <= i <= n ensures Apart(g, i, MAX_PER_WINDOW, WINDOW) {
      assert i < n ==> Apart(h, i, MAX_PER_WINDOW, WINDOW);
    }
    forall i | LOCKOUT_THRESHOLD <= i <= n ensures Apart(g, i, LOCKOUT_THRESHOLD, RETENTION) {
      assert i < n ==> Apart(h, i, LOCKOUT_THRESHOLD, RETENTION);
    }
    forall i | 1 <= i <= n && Triggers(g, i - 1) ensures Apart(g, i, 1, LOCKOUT) {
      assert Triggers(h, i - 1);
      assert i < n ==> Apart(h, i, 1, LOCKOUT);
    }
  }

  predicate UpTo(h: seq<real>, t: real) {
    forall i | 0 <= i < |h| :: h[i] <= t
  }

  lemma ExtendSpaced(h: seq<real>, a: Attempt, key: Key, r: Response)
    requires Spaced(h) && UpTo(h, a.enforceAt) && a.enforceAt <= a.recordAt <= a.codeAt
    requires a.key == key && Recorded(a, r) ==> Judge(h, a.enforceAt) == Allowed
    ensures Spaced(Extend(h, a, key, r)) && UpTo(Extend(h, a, key, r), a.codeAt)
  {
    if a.key == key && Recorded(a, r) {
      AllowedKeepsSpacing(h, a.enforceAt, a.recordAt);
      hide Spaced, Judge;
    }
  }

  lemma {:induction false} HistorySpaced(run: seq<Attempt>, n: nat, key: Key)
    requires Clocked(run) && n <= |run|
    ensures Spaced(History(run, n, key)) && UpTo(History(run, n, key), Clock(run, n))
  {
    hide AttemptStep, Judge, EnforceStep, Spaced, Extend, UpTo, DecisionAt, ResponseAt, StateAt;
    if n == 0 {
      SpacedEmpty();
    } else {
      HistorySpaced(run, n - 1, key);
      var a, h := run[n - 1], History(run, n - 1, key);
      UpToLater(h, Clock(run, n - 1), a.enforceAt);
      if a.key == key {
        DecidedByHistory(run, n - 1);
      }
      ExtendSpaced(h, a, key, ResponseAt(run, n - 1));
    }
  }

  lemma UpToLater(h: seq<real>, t: real, u: real)
    requires UpTo(h, t) && t <= u
    ensures UpTo(h, u)
  {
  }

  lemma SpacedEmpty()
    ensures Spaced([]) && UpTo([], 0.0)
  {
  }

  // The failures in the half-open interval (t - w, t].
  function InWindow(h: seq<real>, t: real, w: real): set<int> {
    set i | 0 <= i < |h| && t - w < h[i] <= t
  }

  function Range(lo: int, k: nat): (r: set<int>)
    ensures |r| == k && forall i :: i in r <==> lo <= i < lo + k
  {
    if k == 0 then {} else Range(lo, k - 1) + {lo + k - 1}
  }

  lemma ApartBounds(h: seq<real>, k: nat, w: real, t: real)
    requires Sorted(h) && forall i | k <= i < |h| :: Apart(h, i, k, w)
    ensures |InWindow(h, t, w)| <= k
  {
    AfterIsSuffix(h, t - w);
    var lo := |h| - |After(h, t - w)|;
    forall i | i in InWindow(h, t, w) ensures i in Range(lo, k) {
      assert lo + k < |h| ==> Apart(h, lo + k, k, w);
    }
    assert Range(lo, k) == InWindow(h, t, w) + (Range(lo, k) - InWindow(h, t, w));
  }

  /** In every run, the failures recorded for a key since its last successful link number at most 5
      in any minute and at most 20 in any five minutes. */
  lemma FailuresBounded(run: seq<Attempt>, n: nat, key: Key, t: real)
    requires Clocked(run) && n <= |run|
    ensures |InWindow(History(run, n, key), t, 60.0)| <= 5
    ensures |InWindow(History(run, n, key), t, 300.0)| <= 20
  {
    HistorySpaced(run, n, key);
    ApartBounds(History(run, n, key), MAX_PER_WINDOW, WINDOW, t);
    ApartBounds(History(run, n, key), LOCKOUT_THRESHOLD, RETENTION, t);
  }

  /** While the lockout set by the latest failure lasts, every request of the key is answered 429 and
      nothing is recorded or cleared for it, whatever the requests would have done. */
  lemma {:induction false} LockoutHolds(run: seq<Attempt>, n: nat, m: nat, key: Key)
    requires Clocked(run) && n <= m <= |run| && History(run, n, key) != []
    requires var h := History(run, n, key); |After(h, h[|h| - 1] - RETENTION)| >= LOCKOUT_THRESHOLD
    requires var h := History(run, n, key);
             forall i | n <= i < m && run[i].key == key :: run[i].enforceAt < h[|h| - 1] + LOCKOUT
    ensures History(run, m, key) == History(run, n, key)
    ensures forall i | n <= i < m && run[i].key == key :: ResponseAt(run, i).TooMany?
    decreases m
  {
    hide After, AttemptStep, StateAt, EnforceStep;
    if n < m {
      LockoutHolds(run, n, m - 1, key);
      if run[m - 1].key == key {
        DecidedByHistory(run, m - 1);
      }
    }
  }

  // Wrong guesses at 0, 60, 120 and 180 seconds, five of each, and then one at t and one at u.
  function Guess(key: Key, at: real): Attempt {
    Attempt(key, "0000", None, NoFault, at, at, at)
  }

  function GuessTime(i: nat): real {
    if i < 5 then 0.0 else if i < 10 then 60.0 else if i < 15 then 120.0 else 180.0
  }

  function Guesses(key: Key, t: real, u: real): seq<Attempt> {
    seq(LOCKOUT_THRESHOLD, i requires 0 <= i < LOCKOUT_THRESHOLD => Guess(key, GuessTime(i)))
    + [Guess(key, t), Guess(key, u)]
  }

  function GuessTimes(n: nat): seq<real> {
    seq(n, i requires 0 <= i < n => GuessTime(i))
  }

  lemma GuessesClocked(key: Key, t: real, u: real)
    requires 180.0 <= t <= u
    ensures Clocked(Guesses(key, t, u))
  {
  }

  // While there have been fewer than twenty, the next guess is let through.
  lemma GuessAllowed(n: nat)
    requires n < LOCKOUT_THRESHOLD
    ensures Judge(GuessTimes(n), GuessTime(n)) == Allowed
  {
    NoLockYet(n);
    FewInWindow(n);
    hide After, LockEnd, GuessTime;
  }

  lemma NoLockYet(n: nat)
    requires n < LOCKOUT_THRESHOLD
    ensures LockEnd(GuessTimes(n)).None?
  {
    LockEndIsLatestTrigger(GuessTimes(n));
    hide LockEnd, GuessTimes;
  }

  lemma FewInWindow(n: nat)
    requires n < LOCKOUT_THRESHOLD
    ensures |After(GuessTimes(n), GuessTime(n) - WINDOW)| < MAX_PER_WINDOW
  {
    var h := GuessTimes(n);
    AfterIsSuffix(h, GuessTime(n) - WINDOW);
    hide After;
    assert n >= 5 ==> h[n - 5] == GuessTime(n) - WINDOW;
  }

  // A request that is let through with a wrong code is recorded.
  lemma GuessRecorded(run: seq<Attempt>, n: nat, key: Key, at: real)
    requires Clocked(run) && n < |run| && run[n] == Guess(key, at)
    ensures var h := History(run, n, key);
            && (ResponseAt(run, n).TooMany? <==> Judge(h, at).Refused?)
            && History(run, n + 1, key) == if Judge(h, at).Refused? then h else h + [at]
  {
    hide Judge, EnforceStep, StateAt, AttemptStep;
    DecidedByHistory(run, n);
  }

  lemma {:induction false} GuessHistory(key: Key, t: real, u: real, n: nat)
    requires 180.0 <= t <= u && n <= LOCKOUT_THRESHOLD
    ensures History(Guesses(key, t, u), n, key) == GuessTimes(n)
    ensures forall i | 0 <= i < n :: !ResponseAt(Guesses(key, t, u), i).TooMany?
  {
    hide Judge, ResponseAt, Clocked, GuessTime;
    if n > 0 {
      var run := Guesses(key, t, u);
      GuessHistory(key, t, u, n - 1);
      GuessesClocked(key, t, u);
      assert run[n - 1] == Guess(key, GuessTime(n - 1));
      GuessRecorded(run, n - 1, key, GuessTime(n - 1));
      GuessAllowed(n - 1);
      assert GuessTimes(n) == GuessTimes(n - 1) + [GuessTime(n - 1)];
    }
  }

  // Twenty of them set the lockout, and after them a guess is refused exactly while it lasts.
  lemma GuessesLockOut(at: real)
    requires 180.0 <= at
    ensures var h := GuessTimes(LOCKOUT_THRESHOLD);
            && h[LOCKOUT_THRESHOLD - 1] == 180.0 && |After(h, 180.0 - RETENTION)| == LOCKOUT_THRESHOLD
            && (Judge(h, at).Refused? <==> at < 480.0)
  {
    var h := GuessTimes(LOCKOUT_THRESHOLD);
    AllTwenty(h);
    AfterEmpty(h, at - WINDOW);
    hide After;
  }

  lemma AllTwenty(h: seq<real>)
    requires h == GuessTimes(LOCKOUT_THRESHOLD)
    ensures |After(h, 180.0 - RETENTION)| == LOCKOUT_THRESHOLD
  {
    AfterIsSuffix(h, 180.0 - RETENTION);
    hide After;
    assert h[0] == 0.0;
  }

  /** Lockouts do happen: five wrong guesses at each of 0, 60, 120 and 180 seconds are all let through and set
      one; a guess from then until 480 seconds is refused and leaves the history as it is, and a later one is
      refused exactly until 480 seconds. */
  lemma LockoutReached(key: Key, t: real, u: real)
    requires 180.0 <= t < 480.0 && t <= u
    ensures var run, n := Guesses(key, t, u), LOCKOUT_THRESHOLD;
            && Clocked(run) && (forall i | 0 <= i < n :: !ResponseAt(run, i).TooMany?)
            && ResponseAt(run, n).TooMany? && History(run, n + 1, key) == History(run, n, key)
            && (ResponseAt(run, n + 1).TooMany? <==> u < 480.0)
    ensures var h := History(Guesses(key, t, u), LOCKOUT_THRESHOLD, key);
            h != [] && h[|h| - 1] == 180.0 && |After(h, h[|h| - 1] - RETENTION)| == LOCKOUT_THRESHOLD
  {
    hide Judge, ResponseAt, After, LockEnd, History, Clocked;
    var run, n := Guesses(key, t, u), LOCKOUT_THRESHOLD;
    GuessesClocked(key, t, u);
    GuessHistory(key, t, u, n);
    GuessesLockOut(t);
    GuessesLockOut(u);
    GuessRecorded(run, n, key, t);
    GuessRecorded(run, n + 1, key, u);
  }

  /** Once a failure sets the lockout, it was exactly the twentieth in five minutes, the next one comes
      300 seconds later at the earliest, and when the lockout ends no counted failure is left in the
      window. That no link intervenes is LockoutHolds. */
  lemma LockoutPauses(run: seq<Attempt>, n: nat, key: Key, i: nat)
    requires Clocked(run) && n <= |run| && i < |History(run, n, key)|
    requires var h := History(run, n, key); |After(h[..i + 1], h[i] - RETENTION)| >= LOCKOUT_THRESHOLD
    ensures var h := History(run, n, key);
            && |After(h[..i + 1], h[i] - RETENTION)| == 20
            && (i + 1 < |h| ==> h[i + 1] >= h[i] + 300.0)
            && After(h[..i + 1], h[i] + LOCKOUT - RETENTION) == []
  {
    hide History, Spaced, After, UpTo;
    HistorySpaced(run, n, key);
    SpacedPauses(History(run, n, key), i);
  }

  lemma SpacedPauses(h: seq<real>, i: nat)
    requires Spaced(h) && i < |h| && |After(h[..i + 1], h[i] - RETENTION)| >= LOCKOUT_THRESHOLD
    ensures |After(h[..i + 1], h[i] - RETENTION)| == LOCKOUT_THRESHOLD
    ensures i + 1 < |h| ==> h[i + 1] >= h[i] + LOCKOUT
    ensures After(h[..i + 1], h[i] + LOCKOUT - RETENTION) == []
  {
    var g := h[..i + 1];
    AfterIsSuffix(g, h[i] - RETENTION);
    AfterEmpty(g, h[i] + LOCKOUT - RETENTION);
    hide After;
    assert g[i - (LOCKOUT_THRESHOLD - 1)] == h[i - (LOCKOUT_THRESHOLD - 1)];
    assert i + 1 < |h| ==> Apart(h, i + 1, 1, LOCKOUT);
    assert i >= LOCKOUT_THRESHOLD ==>
      Apart(h, i, LOCKOUT_THRESHOLD, RETENTION) && g[i - LOCKOUT_THRESHOLD] == h[i - LOCKOUT_THRESHOLD];
  }

  /** When a request is refused: while a lockout that twenty failures within 300 seconds set is not over, or when
      five failures lie in the last minute. */
  lemma RefusedExactly(run: seq<Attempt>, n: nat)
    requires Clocked(run) && n < |run|
    ensures var h, now := History(run, n, run[n].key), run[n].enforceAt;
            DecisionAt(run, n).Refused? <==>
              || (exists i | 19 <= i < |h| :: h[i - 19] > h[i] - 300.0 && now < h[i] + 300.0)
              || (|h| >= 5 && h[|h| - 5] > now - 60.0)
    ensures ResponseAt(run, n).TooMany? <==> DecisionAt(run, n).Refused?
    ensures DecisionAt(run, n).Refused? ==> ResponseAt(run, n).retryAfter == DecisionAt(run, n).retryAfter
  {
    hide EnforceStep, StateAt, History, Judge, Spaced, UpTo, ProceedStep;
    DecidedByHistory(run, n);
    HistorySpaced(run, n, run[n].key);
    JudgedRefused(History(run, n, run[n].key), run[n].enforceAt);
  }

  lemma JudgedRefused(h: seq<real>, now: real)
    requires Spaced(h)
    ensures Judge(h, now).Refused? <==>
              || (exists i | 19 <= i < |h| :: h[i - 19] > h[i] - 300.0 && now < h[i] + 300.0)
              || (|h| >= 5 && h[|h| - 5] > now - 60.0)
  {
    hide Spaced, After, LockEnd;
    SpacedSorted(h);
    LockLasts(h, now);
    AfterIsSuffix(h, now - WINDOW);
  }

  lemma LockLasts(h: seq<real>, now: real)
    requires Sorted(h)
    ensures LockEnd(h).Some? && now < LockEnd(h).value <==>
            exists i | 19 <= i < |h| :: h[i - 19] > h[i] - 300.0 && now < h[i] + 300.0
  {
    hide LockEnd;
    LockEndIsLatestTrigger(h);
    if i :| 19 <= i < |h| && h[i - 19] > h[i] - 300.0 && now < h[i] + 300.0 {
      assert Triggers(h, i);
    }
  }

  // ---------- Retry-After ----------

  // When a key with history h, refused at `now`, is next let through.
  function ReleaseTime(h: seq<real>, now: real): real
    requires Judge(h, now).Refused?
  {
    var lock := LockEnd(h);
    if lock.Some? && now < lock.value then lock.value else After(h, now - WINDOW)[0] + WINDOW
  }

  // Retry-After exceeds the remaining wait by at most one second and never falls short of it.
  lemma RetryAfterRoundsUp(h: seq<real>, now: real)
    requires Judge(h, now).Refused?
    ensures now < ReleaseTime(h, now) < now + Judge(h, now).retryAfter as real <= ReleaseTime(h, now) + 1.0
  {
    hide LockEnd;
  }

  lemma SpacedSorted(h: seq<real>)
    requires Spaced(h)
    ensures Sorted(h)
  {
    hide Triggers, Apart, Sorted;
  }

  lemma PauseAfterTrigger(h: seq<real>, i: nat)
    requires Spaced(h) && i < |h| && Triggers(h, i)
    ensures i + 1 < |h| ==> h[i + 1] >= h[i] + LOCKOUT
  {
    hide Triggers, Sorted;
    assert i + 1 < |h| ==> Apart(h, i + 1, 1, LOCKOUT);
  }

  lemma LastTriggerIsLast(h: seq<real>, now: real)
    requires Spaced(h) && UpTo(h, now) && LockEnd(h).Some? && now < LockEnd(h).value
    ensures h != [] && LockEnd(h).value == h[|h| - 1] + LOCKOUT
  {
    hide LockEnd, Triggers, Spaced, Sorted;
    SpacedSorted(h);
    LockEndIsLatestTrigger(h);
    var i :| 0 <= i < |h| && Triggers(h, i) && LockEnd(h) == Some(h[i] + LOCKOUT);
    PauseAfterTrigger(h, i);
  }

  lemma ReleasedFromLockout(h: seq<real>, now: real, t: real)
    requires Spaced(h) && UpTo(h, now) && now <= t && LockEnd(h).Some? && now < LockEnd(h).value
    ensures Judge(h, t).Refused? <==> t < LockEnd(h).value
  {
    LastTriggerIsLast(h, now);
    AfterEmpty(h, t - WINDOW);
    hide After, LockEnd, Triggers, Apart;
  }

  // The sixth latest failure has left the window.
  lemma SixthHasLeft(h: seq<real>, now: real)
    requires Spaced(h) && UpTo(h, now)
    ensures Sorted(h) && (|h| > MAX_PER_WINDOW ==> h[|h| - 1 - MAX_PER_WINDOW] <= now - WINDOW)
  {
    hide Triggers;
    assert |h| > MAX_PER_WINDOW ==> Apart(h, |h| - 1, MAX_PER_WINDOW, WINDOW) && h[|h| - 1] <= now;
  }

  // A full window holds exactly the five latest failures.
  lemma WindowIsFive(h: seq<real>, now: real)
    requires Spaced(h) && UpTo(h, now) && |After(h, now - WINDOW)| >= MAX_PER_WINDOW
    ensures |h| >= MAX_PER_WINDOW && After(h, now - WINDOW) == h[|h| - MAX_PER_WINDOW..]
  {
    hide After, Spaced, UpTo, Sorted;
    SixthHasLeft(h, now);
    AfterIsSuffix(h, now - WINDOW);
  }

  lemma ReleasedFromWindow(h: seq<real>, now: real, t: real)
    requires Spaced(h) && UpTo(h, now) && now <= t && |After(h, now - WINDOW)| >= MAX_PER_WINDOW
    requires LockEnd(h).None? || LockEnd(h).value <= now
    ensures Judge(h, t).Refused? <==> t < After(h, now - WINDOW)[0] + WINDOW
  {
    WindowIsFive(h, now);
    AfterIsSuffix(h, t - WINDOW);
    hide After, LockEnd, Triggers, Apart, Spaced, Sorted, UpTo;
    assert h[|h| - MAX_PER_WINDOW] > t - WINDOW <==> |After(h, t - WINDOW)| >= MAX_PER_WINDOW;
  }

  /** A 429's Retry-After is honest: if no failure is recorded for the key meanwhile, every attempt
      before the release time is refused and every attempt after it passes both checks; the header
      is at least the remaining wait and at most one second more. */
  lemma RetryAfterHonest(run: seq<Attempt>, n: nat, m: nat)
    requires Clocked(run) && n < m < |run| && run[m].key == run[n].key
    requires DecisionAt(run, n).Refused?
    requires History(run, m, run[n].key) == History(run, n, run[n].key)
    ensures var h := History(run, n, run[n].key);
            var now := run[n].enforceAt;
            && Judge(h, now).Refused?
            && now < ReleaseTime(h, now) < now + DecisionAt(run, n).retryAfter as real <= ReleaseTime(h, now) + 1.0
            && (DecisionAt(run, m).Refused? <==> run[m].enforceAt < ReleaseTime(h, now))
  {
    var key, h, now := run[n].key, History(run, n, run[n].key), run[n].enforceAt;
    hide Judge, Spaced, UpTo, LockEnd, After, ReleaseTime, EnforceStep, History, DecisionAt, StateAt, ResponseAt;
    DecidedByHistory(run, n);
    DecidedByHistory(run, m);
    HistorySpaced(run, n, key);
    UpToLater(h, Clock(run, n), now);
    RetryAfterRoundsUp(h, now);
    ReleasedExactly(h, now, run[m].enforceAt);
  }

  lemma ReleasedExactly(h: seq<real>, now: real, t: real)
    requires Spaced(h) && UpTo(h, now) && now <= t && Judge(h, now).Refused?
    ensures Judge(h, t).Refused? <==> t < ReleaseTime(h, now)
  {
    hide Spaced, After;
    if LockEnd(h).Some? && now < LockEnd(h).value {
      ReleasedFromLockout(h, now, t);
    } else {
      ReleasedFromWindow(h, now, t);
    }
  }

  // ---------- Wrong guesses of one code ----------

  // The failures of a code that still count at `e`: a chain breaks after an hour without one.
  function Chain(c: Option<CodeInfo>, e: real): nat {
    if c.Some? && c.value.lastUpdated > e - 3600.0 then c.value.count else 0
  }

  // The latest unbroken count for `code`, never pruned.
  function CodeHistory(run: seq<Attempt>, n: nat, code: string): Option<CodeInfo>
    requires n <= |run|
  {
    if n == 0 then None else CodeExtend(CodeHistory(run, n - 1, code), run[n - 1], code, ResponseAt(run, n - 1))
  }

  function CodeExtend(c: Option<CodeInfo>, a: Attempt, code: string, r: Response): Option<CodeInfo> {
    if a.code != code then c
    else if Cleared(a, r) then None
    else if Recorded(a, r) && BranchOf(a.holder) == WrongCode then
      var k := Chain(c, a.enforceAt) + 1;
      if k >= CODE_THRESHOLD && a.fault != CommitFails then None else Some(CodeInfo(k, a.codeAt))
    else c
  }

  ghost predicate CodeAgrees(codes: map<string, CodeInfo>, code: string, c: Option<CodeInfo>, clock: real) {
    && (code in codes ==> c == Some(codes[code]))
    && (c.Some? && c.value.lastUpdated > clock - CODE_TTL ==> code in codes)
  }

  lemma EnforceCodes(s: State, key: Key, now: real)
    ensures EnforceStep(s, key, now).0.codes == Prune(s, now).codes
  {
    hide After;
  }

  // After pruning the counter of a code is the length of its chain.
  lemma PrunedCodes(s: State, code: string, c: Option<CodeInfo>, now: real)
    requires CodeAgrees(s.codes, code, c, now)
    ensures CodeAgrees(Prune(s, now).codes, code, c, now) && CodeCount(Prune(s, now), code) == Chain(c, now)
  {
  }

  lemma ProceedCodes(q: State, a: Attempt, code: string, c: Option<CodeInfo>)
    requires a.enforceAt <= a.codeAt && CodeAgrees(q.codes, code, c, a.enforceAt)
    requires CodeCount(q, code) == Chain(c, a.enforceAt)
    ensures CodeAgrees(ProceedStep(q, a).0.codes, code, CodeExtend(c, a, code, ProceedStep(q, a).1), a.codeAt)
    ensures a.code == code ==>
              (ProceedStep(q, a).1 == Rejected(true) <==> Nulls(a) && Chain(c, a.enforceAt) + 1 >= CODE_THRESHOLD)
  {
    hide After;
  }

  lemma AttemptCodes(s: State, a: Attempt, code: string, c: Option<CodeInfo>)
    requires a.enforceAt <= a.codeAt && CodeAgrees(s.codes, code, c, a.enforceAt)
    ensures CodeAgrees(AttemptStep(s, a).0.codes, code, CodeExtend(c, a, code, AttemptStep(s, a).1), a.codeAt)
    ensures a.code == code ==>
              (AttemptStep(s, a).1 == Rejected(true) <==>
               EnforceStep(s, a.key, a.enforceAt).1.Allowed? && Nulls(a) && Chain(c, a.enforceAt) + 1 >= CODE_THRESHOLD)
  {
    hide EnforceStep, Prune, ProceedStep, Nulls, Chain, CodeCount, CodeAgrees;
    var q := EnforceStep(s, a.key, a.enforceAt).0;
    EnforceCodes(s, a.key, a.enforceAt);
    PrunedCodes(s, code, c, a.enforceAt);
    SameCodes(Prune(s, a.enforceAt), q, code);
    ProceedCodes(q, a, code, c);
    CodeAgreesLater(q.codes, code, c, a.enforceAt, a.codeAt);
  }

  lemma SameCodes(s: State, q: State, code: string)
    requires s.codes == q.codes
    ensures CodeCount(s, code) == CodeCount(q, code)
  {
  }

  lemma NoCodes(code: string)
    ensures CodeAgrees(map[], code, None, 0.0)
  {
  }

  lemma {:induction false} RunCodes(run: seq<Attempt>, n: nat, code: string)
    requires Clocked(run) && n <= |run|
    ensures CodeAgrees(StateAt(run, n).codes, code, CodeHistory(run, n, code), Clock(run, n))
  {
    hide AttemptStep, CodeExtend, CodeAgrees, EnforceStep;
    if n == 0 {
      NoCodes(code);
    } else {
      RunCodes(run, n - 1, code);
      var c := CodeHistory(run, n - 1, code);
      CodeAgreesLater(StateAt(run, n - 1).codes, code, c, Clock(run, n - 1), run[n - 1].enforceAt);
      AttemptCodes(StateAt(run, n - 1), run[n - 1], code, c);
    }
  }

  // The code is wrong, although a row, of an inactive employee then, holds it; and the database works.
  predicate Nulls(a: Attempt) {
    a.holder.Some? && !a.holder.value.active && (a.fault == NoFault || a.fault == ReplyFails)
  }

  /** A code is taken from the employee row that holds it by exactly those guesses, counted over the
      whole unpruned run, that bring an unbroken chain to five; that row is always an inactive
      employee's, because an active one's code is not wrong. */
  lemma InvalidatedAtFifth(run: seq<Attempt>, n: nat)
    requires Clocked(run) && n < |run|
    ensures ResponseAt(run, n) == Rejected(true) <==>
            && DecisionAt(run, n) == Allowed && Nulls(run[n])
            && Chain(CodeHistory(run, n, run[n].code), run[n].enforceAt) + 1 >= 5
  {
    hide AttemptStep, StateAt, CodeHistory, EnforceStep, CodeExtend, CodeAgrees, Chain, Nulls;
    RunCodes(run, n, run[n].code);
    CodeAgreesLater(StateAt(run, n).codes, run[n].code, CodeHistory(run, n, run[n].code), Clock(run, n),
      run[n].enforceAt);
    AttemptCodes(StateAt(run, n), run[n], run[n].code, CodeHistory(run, n, run[n].code));
  }

  lemma CodeAgreesLater(codes: map<string, CodeInfo>, code: string, c: Option<CodeInfo>, clock: real, now: real)
    requires CodeAgrees(codes, code, c, clock) && clock <= now
    ensures CodeAgrees(codes, code, c, now)
  {
  }

  /** How a code's chain grows: by an admitted guess whose row is missing or inactive, unless that is the fifth;
      a committed link ends it, and nothing else touches it. */
  lemma CodeHistoryExactly(run: seq<Attempt>, n: nat, code: string)
    requires n < |run|
    ensures var a, c := run[n], CodeHistory(run, n, code);
            var k := if c.Some? && c.value.lastUpdated > a.enforceAt - 3600.0 then c.value.count + 1 else 1;
            CodeHistory(run, n + 1, code) ==
              if code != a.code || !DecisionAt(run, n).Allowed? || a.fault == LookupFails then c
              else if a.holder.None? || !a.holder.value.active then
                (if k >= 5 && a.fault != CommitFails then None else Some(CodeInfo(k, a.codeAt)))
              else if a.holder.value.expired || a.holder.value.linked || a.fault == CommitFails then c
              else None
  {
    hide EnforceStep, RecordStep, ClearStep, CodeCount, StateAt;
  }

  /** While no commit fails, a chain never goes beyond four: it is the fifth guess that invalidates. */
  lemma {:induction false} ChainsStopAtFive(run: seq<Attempt>, n: nat, code: string, e: real)
    requires n <= |run| && forall i | 0 <= i < n :: run[i].fault != CommitFails
    ensures Chain(CodeHistory(run, n, code), e) + 1 <= 5
  {
    hide AttemptStep, StateAt, Cleared, Recorded;
    if n > 0 {
      ChainsStopAtFive(run, n - 1, code, run[n - 1].enforceAt);
      ChainsStopAtFive(run, n - 1, code, e);
    }
  }
}
