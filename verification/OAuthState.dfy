/**
 The one-time OAuth state store (the `_state_storage` field of app/services/line_auth_service.py).
 Times are seconds; each call reads the clock twice, the second reading never before the first.
*/
module OAuthState {
  import opened Wrappers

  const STATE_TTL: real := 600.0

  datatype Stored = Stored(timestamp: real, hint: Option<string>)

  datatype Verdict = Invalid | Valid(hint: Option<string>)

  type States = map<string, Stored>

  function Sweep(states: States, now: real): States {
    map s | s in states && now - states[s].timestamp <= STATE_TTL :: states[s]
  }

  class StateStore {
    var states: States

    constructor ()
      ensures states == map[]
    {
      states := map[];
    }

    method CleanupExpiredStates(now: real)
      modifies this
      ensures states == Sweep(old(states), now)
    {
      var expired := set s | s in states && now - states[s].timestamp > STATE_TTL;
      while expired != {}
        invariant expired <= states.Keys
        invariant forall s | s in states :: s in old(states) && states[s] == old(states)[s]
        invariant forall s | s in old(states) :: s !in states ==> now - old(states)[s].timestamp > STATE_TTL
        invariant forall s | s in states :: now - states[s].timestamp > STATE_TTL <==> s in expired
        decreases |expired|
      {
        var s :| s in expired;
        states := states - {s};
        expired := expired - {s};
      }
    }

    method GenerateAuthorizationUrl(state: string, hint: Option<string>, now: real, sweepAt: real)
      modifies this
      ensures states == Next(old(states), Generate(state, hint, now, sweepAt)).0
    {
      states := states[state := Stored(now, hint)];
      CleanupExpiredStates(sweepAt);
    }

    method ValidateState(state: string, sweepAt: real, now: real) returns (v: Verdict)
      modifies this
      ensures (states, v) == Next(old(states), Validate(state, sweepAt, now))
    {
      CleanupExpiredStates(sweepAt);
      if state !in states {
        return Invalid;
      }
      var stored := states[state];
      states := states - {state};
      if now - stored.timestamp > STATE_TTL {
        return Invalid;
      }
      return Valid(stored.hint);
    }
  }

  datatype Op =
    | Generate(state: string, hint: Option<string>, first: real, second: real)
    | Validate(state: string, first: real, second: real)

  function Next(states: States, op: Op): (States, Verdict) {
    match op
    case Generate(state, hint, now, sweepAt) => (Sweep(states[state := Stored(now, hint)], sweepAt), Invalid)
    case Validate(state, sweepAt, now) =>
      var swept := Sweep(states, sweepAt);
      if state !in swept then (swept, Invalid)
      else if now - swept[state].timestamp > STATE_TTL then (swept - {state}, Invalid)
      else (swept - {state}, Valid(swept[state].hint))
  }

  function StatesAt(ops: seq<Op>, n: nat): States
    requires n <= |ops|
  {
    if n == 0 then map[] else Next(StatesAt(ops, n - 1), ops[n - 1]).0
  }

  // What the store answers to call j; only a Validate can be answered Valid.
  function VerdictAt(ops: seq<Op>, j: nat): Verdict
    requires j < |ops|
  {
    Next(StatesAt(ops, j), ops[j]).1
  }

  ghost predicate Clocked(ops: seq<Op>) {
    && (forall i | 0 <= i < |ops| :: ops[i].first <= ops[i].second)
    && (forall i, j | 0 <= i < j < |ops| :: ops[i].second <= ops[j].first)
  }

  // Call i is the latest Generate of `state` before call n, and no Validate has used it up since.
  ghost predicate Open(ops: seq<Op>, i: int, n: nat, state: string) {
    && 0 <= i < n <= |ops| && ops[i].Generate? && ops[i].state == state
    && forall m | i < m < n && ops[m].state == state :: ops[m].Validate? && VerdictAt(ops, m) == Invalid
  }

  // The table after n calls: every entry is an open state, and every open unexpired state is an entry.
  ghost predicate Holds(ops: seq<Op>, n: nat, now: real, states: States) {
    && (forall s | s in states :: exists i: nat ::
          Open(ops, i, n, s) && states[s] == Stored(ops[i].first, ops[i].hint))
    && (forall i: nat, s | Open(ops, i, n, s) && now - ops[i].first <= STATE_TTL :: s in states)
  }

  lemma OpenIsUnique(ops: seq<Op>, i: nat, j: nat, n: nat, state: string)
    requires Open(ops, i, n, state) && Open(ops, j, n, state)
    ensures i == j
  {
  }

  lemma StillOpen(ops: seq<Op>, i: nat, n: nat, state: string)
    requires Open(ops, i, n, state) && n < |ops|
    requires ops[n].state == state ==> ops[n].Validate? && VerdictAt(ops, n) == Invalid
    ensures Open(ops, i, n + 1, state)
  {
    hide VerdictAt;
  }

  // An open state that has not expired survives call n, unless that call uses it.
  lemma KeptEntry(ops: seq<Op>, n: nat, i: nat, s: string)
    requires Clocked(ops) && 0 < n < |ops| && Holds(ops, n, ops[n - 1].second, StatesAt(ops, n))
    requires Open(ops, i, n + 1, s) && i < n && ops[n].second - ops[i].first <= STATE_TTL
    ensures s in StatesAt(ops, n + 1)
  {
    var before := StatesAt(ops, n);
    assert Open(ops, i, n, s);
    assert s in before;
    var k: nat :| Open(ops, k, n, s) && before[s] == Stored(ops[k].first, ops[k].hint);
    OpenIsUnique(ops, i, k, n, s);
    hide Open, Holds;
  }

  lemma HoldsEntries(ops: seq<Op>, n: nat, s: string)
    requires n < |ops| && (n == 0 ==> StatesAt(ops, 0) == map[])
    requires n > 0 ==> Holds(ops, n, ops[n - 1].second, StatesAt(ops, n))
    requires s in StatesAt(ops, n + 1)
    ensures exists i: nat :: Open(ops, i, n + 1, s) && StatesAt(ops, n + 1)[s] == Stored(ops[i].first, ops[i].hint)
  {
    var op := ops[n];
    if op.Generate? && op.state == s {
      assert Open(ops, n, n + 1, s);
    } else {
      var i: nat :| Open(ops, i, n, s) && StatesAt(ops, n)[s] == Stored(ops[i].first, ops[i].hint);
      hide Holds;
      StillOpen(ops, i, n, s);
    }
  }

  lemma {:induction false} TableHolds(ops: seq<Op>, n: nat)
    requires Clocked(ops) && n <= |ops|
    ensures n == 0 ==> StatesAt(ops, n) == map[]
    ensures n > 0 ==> Holds(ops, n, ops[n - 1].second, StatesAt(ops, n))
  {
    if n > 0 {
      TableHolds(ops, n - 1);
      forall s | s in StatesAt(ops, n)
        ensures exists i: nat :: Open(ops, i, n, s) && StatesAt(ops, n)[s] == Stored(ops[i].first, ops[i].hint)
      {
        HoldsEntries(ops, n - 1, s);
      }
      forall i: nat, s | Open(ops, i, n, s) && ops[n - 1].second - ops[i].first <= STATE_TTL
        ensures s in StatesAt(ops, n)
      {
        if i < n - 1 {
          KeptEntry(ops, n - 1, i, s);
        }
      }
    }
  }

  /** A state is accepted exactly once and only in time: a Validate succeeds if and only if the
      state's latest Generate is at most 600 seconds old and has not been used since, and it then
      returns that Generate's hint. */
  lemma ValidExactly(ops: seq<Op>, j: nat, hint: Option<string>)
    requires Clocked(ops) && j < |ops| && ops[j].Validate?
    ensures VerdictAt(ops, j) == Valid(hint) <==>
            exists i: nat :: Open(ops, i, j, ops[j].state) && ops[j].second - ops[i].first <= 600.0
                             && ops[i].hint == hint
  {
    TableHolds(ops, j);
    var s := ops[j].state;
    if VerdictAt(ops, j) == Valid(hint) {
      var i: nat :| Open(ops, i, j, s) && StatesAt(ops, j)[s] == Stored(ops[i].first, ops[i].hint);
    }
    if i: nat :| Open(ops, i, j, s) && ops[j].second - ops[i].first <= STATE_TTL && ops[i].hint == hint {
      assert s in StatesAt(ops, j);
      var k: nat :| Open(ops, k, j, s) && StatesAt(ops, j)[s] == Stored(ops[k].first, ops[k].hint);
      OpenIsUnique(ops, i, k, j, s);
    }
  }
}
