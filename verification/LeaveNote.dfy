/**
 The half-day marker in a leave note (app/api/leaves.py): "|half=am" or "|half=pm" followed by "|",
 by the end, or by the final newline, which is where the pattern's "$" also matches.
*/
module LeaveNote {
  import opened Wrappers

  datatype Portion = Full | Am | Pm

  const AM: string := "|half=am"
  const PM: string := "|half=pm"

  // ---------- The pattern ----------

  // The eight characters of a marker.
  predicate TextAt(s: string, i: nat) {
    i + 8 <= |s| && (s[i..i + 8] == AM || s[i..i + 8] == PM)
  }

  // A marker where the pattern finds it.
  predicate MarkerAt(s: string, i: nat) {
    TextAt(s, i) && (i + 8 == |s| || s[i + 8] == '|' || (i + 9 == |s| && s[i + 8] == '\n'))
  }

  predicate MarkerFree(s: string) {
    forall i | 0 <= i < |s| :: !MarkerAt(s, i)
  }

  function PortionAt(s: string, i: nat): Portion
    requires TextAt(s, i)
  {
    if s[i..i + 8] == AM then Am else Pm
  }

  // The leftmost match decides.
  function SearchFrom(s: string, i: nat): Portion
    decreases |s| - i
  {
    if i >= |s| then Full else if MarkerAt(s, i) then PortionAt(s, i) else SearchFrom(s, i + 1)
  }

  // Every match removed, left to right.
  function RemoveFrom(s: string, i: nat): string
    decreases |s| - i
  {
    if i >= |s| then "" else if MarkerAt(s, i) then RemoveFrom(s, i + 8) else [s[i]] + RemoveFrom(s, i + 1)
  }

  predicate Trimmed(c: char) {
    c == ' ' || c == '|'
  }

  function StripLeft(s: string): string {
    if s != "" && Trimmed(s[0]) then StripLeft(s[1..]) else s
  }

  function StripRight(s: string): string {
    if s != "" && Trimmed(s[|s| - 1]) then StripRight(s[..|s| - 1]) else s
  }

  // ---------- The three helpers ----------

  function PortionFromNote(note: Option<string>): Portion {
    SearchFrom(note.GetOr(""), 0)
  }

  function Cleaned(note: string): string {
    StripRight(StripLeft(RemoveFrom(note, 0)))
  }

  function OrNone(s: string): Option<string> {
    if s == "" then None else Some(s)
  }

  function CleanLeaveNote(note: Option<string>): Option<string> {
    OrNone(Cleaned(note.GetOr("")))
  }

  function NoteWithPortion(note: Option<string>, portion: Portion): Option<string> {
    var clean := CleanLeaveNote(note);
    match portion
    case Full => clean
    case Am => Some(clean.GetOr("") + AM)
    case Pm => Some(clean.GetOr("") + PM)
  }

  // ---------- What removal leaves ----------

  // A removed marker was followed by a bar, by nothing, or by the final newline.
  lemma {:induction false} AfterMarker(s: string, i: nat)
    requires MarkerAt(s, i)
    ensures var r := RemoveFrom(s, i); r == "" || r[0] == '|' || r == "\n"
    decreases |s| - i
  {
    if i + 8 < |s| && MarkerAt(s, i + 8) {
      AfterMarker(s, i + 8);
    } else if i + 8 < |s| && s[i + 8] == '\n' {
      assert RemoveFrom(s, i + 9) == "";
    }
  }

  // Text without bars and newlines in the result stood there before.
  lemma {:induction false} StoodThere(s: string, i: nat, w: string)
    requires i <= |s| && w <= RemoveFrom(s, i) && forall k | 0 <= k < |w| :: w[k] != '|' && w[k] != '\n'
    ensures i + |w| <= |s| && s[i..i + |w|] == w && RemoveFrom(s, i) == w + RemoveFrom(s, i + |w|)
    decreases |w|
  {
    hide MarkerAt;
    if w == "" {
    } else {
      var r := RemoveFrom(s, i);
      assert w[0] == r[0];
      if MarkerAt(s, i) {
        AfterMarker(s, i);
      }
      assert !MarkerAt(s, i);
      assert r == [s[i]] + RemoveFrom(s, i + 1);
      assert w[1..] <= RemoveFrom(s, i + 1);
      StoodThere(s, i + 1, w[1..]);
      assert s[i..i + |w|] == [s[i]] + s[i + 1..i + |w|];
    }
  }

  lemma TextShape(s: string, i: nat)
    ensures TextAt(s, i) ==> s[i] == '|' && forall j | i < j < i + 8 :: s[j] != '|' && s[j] != '\n'
  {
    if TextAt(s, i) {
      var text := s[i..i + 8];
      assert s[i] == text[0];
      forall j | i < j < i + 8 ensures s[j] != '|' && s[j] != '\n' {
        assert s[j] == text[j - i];
      }
    }
  }

  lemma Interior(s: string, i: nat, j: nat)
    requires TextAt(s, i) && i < j < i + 8
    ensures s[j] != '|' && s[i] == '|' && !TextAt(s, j) && s[j] != '\n'
  {
    TextShape(s, i);
    TextShape(s, j);
  }

  lemma RemoveStep(s: string, i: nat)
    requires i < |s|
    ensures MarkerAt(s, i) ==> i + 8 <= |s|
    ensures RemoveFrom(s, i) == if MarkerAt(s, i) then RemoveFrom(s, i + 8) else [s[i]] + RemoveFrom(s, i + 1)
  {
  }

  // ---------- What is kept ----------

  // Position k is part of a marker.
  predicate InMarker(s: string, k: nat) {
    exists m | 0 <= m <= k :: k < m + 8 && MarkerAt(s, m)
  }

  // A space or a bar, or part of a marker.
  predicate Blank(s: string, k: nat)
    requires k < |s|
  {
    Trimmed(s[k]) || InMarker(s, k)
  }

  // No marker runs across position j.
  ghost predicate Boundary(s: string, j: nat) {
    forall m | 0 <= m < j :: MarkerAt(s, m) ==> m + 8 <= j
  }

  lemma BarIsBoundary(s: string, j: nat)
    requires j <= |s| && (j < |s| ==> s[j] == '|')
    ensures Boundary(s, j)
  {
    forall m | 0 <= m < j && MarkerAt(s, m) ensures m + 8 <= j {
      TextShape(s, m);
    }
  }

  lemma NextBoundary(s: string, i: nat)
    requires i < |s| && Boundary(s, i)
    ensures if MarkerAt(s, i) then i + 8 <= |s| && Boundary(s, i + 8) && forall k | i <= k < i + 8 :: InMarker(s, k)
            else Boundary(s, i + 1) && !InMarker(s, i)
  {
    if MarkerAt(s, i) {
      forall m | 0 <= m < i + 8 && MarkerAt(s, m) ensures m + 8 <= i + 8 {
        if m > i {
          Interior(s, i, m);
        }
      }
    }
  }

  // A kept text and the character after it end at a boundary.
  lemma TextBoundary(s: string, j: nat)
    requires TextAt(s, j) && !MarkerAt(s, j) && j + 8 < |s| && s[j + 8] != '|'
    ensures Boundary(s, j) && Boundary(s, j + 9)
  {
    TextShape(s, j);
    BarIsBoundary(s, j);
    forall m | 0 <= m < j + 9 && MarkerAt(s, m) ensures m + 8 <= j + 9 {
      TextShape(s, m);
    }
  }

  lemma AllInCons(c: char, rest: string)
    ensures (forall d | d in [c] + rest :: Trimmed(d)) <==> Trimmed(c) && forall d | d in rest :: Trimmed(d)
  {
    hide Trimmed;
    assert ([c] + rest)[0] == c && forall d :: d in [c] + rest <==> d == c || d in rest;
  }

  lemma BlankWhere(s: string, k: nat)
    requires k < |s|
    ensures Blank(s, k) <==> InMarker(s, k) || Trimmed(s[k])
  {
  }

  // What removal makes of the positions from i to j.
  lemma {:induction false} Segment(s: string, i: nat, j: nat) returns (x: string)
    requires i <= j <= |s| && Boundary(s, i) && Boundary(s, j)
    ensures RemoveFrom(s, i) == x + RemoveFrom(s, j) && |x| <= j - i
    ensures x == "" <==> forall k | i <= k < j :: InMarker(s, k)
    ensures (forall c | c in x :: Trimmed(c)) <==> forall k | i <= k < j :: Blank(s, k)
    decreases |s| - i
  {
    hide RemoveFrom, MarkerAt, InMarker, Trimmed, Blank;
    if i == j {
      x := "";
    } else {
      RemoveStep(s, i);
      NextBoundary(s, i);
      if MarkerAt(s, i) {
        x := Segment(s, i + 8, j);
        forall k | i <= k < i + 8 ensures Blank(s, k) {
          BlankWhere(s, k);
        }
      } else {
        var rest := Segment(s, i + 1, j);
        x := [s[i]] + rest;
        BlankWhere(s, i);
        AllInCons(s[i], rest);
      }
    }
  }

  // ---------- The helpers in terms of the pattern ----------

  // The pattern matches at m.
  predicate MarkerHere(s: string, m: nat) {
    m + 8 <= |s| && s[m..m + 8] in {"|half=am", "|half=pm"} && (s[m + 8..] in {"", "\n"} || "|" <= s[m + 8..])
  }

  lemma MarkerMeaning(s: string, m: nat)
    ensures MarkerAt(s, m) <==> MarkerHere(s, m)
  {
    if m + 8 <= |s| {
      assert s[m + 8..] == "\n" <==> m + 9 == |s| && s[m + 8] == '\n';
    }
  }

  // The positions of the text that no match covers.
  ghost function Remaining(s: string, i: nat): string
    decreases |s| - i
  {
    if i >= |s| then ""
    else (if exists m: nat :: m <= i < m + 8 && MarkerHere(s, m) then "" else [s[i]]) + Remaining(s, i + 1)
  }

  lemma {:induction false} DropRun(s: string, i: nat, j: nat)
    requires i <= j <= |s| && forall k | i <= k < j :: InMarker(s, k)
    ensures Remaining(s, i) == Remaining(s, j)
    decreases j - i
  {
    if i < j {
      InMarkerMeaning(s, i);
      DropRun(s, i + 1, j);
    }
  }

  lemma InMarkerMeaning(s: string, k: nat)
    ensures InMarker(s, k) <==> exists m: nat :: m <= k < m + 8 && MarkerHere(s, m)
  {
    hide MarkerAt, MarkerHere;
    if InMarker(s, k) {
      var m :| 0 <= m <= k && k < m + 8 && MarkerAt(s, m);
      MarkerMeaning(s, m);
    }
    if m: nat :| m <= k < m + 8 && MarkerHere(s, m) {
      MarkerMeaning(s, m);
    }
  }

  lemma {:induction false} RemainingFrom(s: string, i: nat)
    requires i <= |s| && Boundary(s, i)
    ensures RemoveFrom(s, i) == Remaining(s, i)
    decreases |s| - i
  {
    hide MarkerAt, InMarker, MarkerHere;
    if i < |s| {
      RemoveStep(s, i);
      NextBoundary(s, i);
      if MarkerAt(s, i) {
        DropRun(s, i, i + 8);
        RemainingFrom(s, i + 8);
      } else {
        InMarkerMeaning(s, i);
        RemainingFrom(s, i + 1);
      }
    }
  }

  lemma {:induction false} SearchStops(s: string, i: nat)
    requires i <= |s|
    ensures var p := SearchFrom(s, i);
            if exists m | i <= m < |s| :: MarkerAt(s, m)
            then exists m | i <= m < |s| ::
                   MarkerAt(s, m) && (forall n | i <= n < m :: !MarkerAt(s, n)) && p == PortionAt(s, m)
            else p == Full
    decreases |s| - i
  {
    hide PortionAt;
    if i < |s| && !MarkerAt(s, i) {
      SearchStops(s, i + 1);
      hide MarkerAt;
      if exists m | i <= m < |s| :: MarkerAt(s, m) {
        var m :| i + 1 <= m < |s| && MarkerAt(s, m) && (forall n | i + 1 <= n < m :: !MarkerAt(s, n))
                 && SearchFrom(s, i + 1) == PortionAt(s, m);
        assert forall n | i <= n < m :: !MarkerAt(s, n);
      }
    }
  }

  // A marker's text, a newline, and then nothing but markers.
  ghost predicate HidesMarker(s: string) {
    exists j: nat :: TextAt(s, j) && j + 9 < |s| && s[j + 8] == '\n' && forall k | j + 9 <= k < |s| :: InMarker(s, k)
  }

  // A marker's text at the head of the result stood there and was no marker.
  lemma HeadText(s: string, i: nat)
    requires i < |s| && !MarkerAt(s, i) && TextAt(RemoveFrom(s, i), 0)
    ensures TextAt(s, i) && i + 8 < |s| && s[i + 8] != '|'
    ensures RemoveFrom(s, i) == s[i..i + 9] + RemoveFrom(s, i + 9)
  {
    hide RemoveFrom, MarkerAt;
    var r := RemoveFrom(s, i);
    RemoveStep(s, i);
    var rest, w := RemoveFrom(s, i + 1), r[1..8];
    TextShape(r, 0);
    assert r == [s[i]] + rest;
    assert w == rest[..7];
    StoodThere(s, i + 1, w);
    assert s[i..i + 8] == [s[i]] + s[i + 1..i + 8];
    assert r[0..8] == [r[0]] + w;
    assert TextAt(s, i);
    NoBarAfter(s, i);
    KeptChar(s, i + 8);
    assert s[i..i + 9] == [s[i]] + w + [s[i + 8]];
  }

  lemma NoBarAfter(s: string, i: nat)
    requires TextAt(s, i) && !MarkerAt(s, i)
    ensures i + 8 < |s| && s[i + 8] != '|'
  {
  }

  lemma KeptChar(s: string, j: nat)
    requires j < |s| && s[j] != '|'
    ensures RemoveFrom(s, j) == [s[j]] + RemoveFrom(s, j + 1)
  {
    TextShape(s, j);
  }

  // From position k on, r is t.
  predicate TailIs(r: string, k: nat, t: string) {
    |r| == k + |t| && r[k..] == t
  }

  lemma TailAfter(c: char, rest: string, k: nat, t: string)
    ensures k > 0 && TailIs(rest, k - 1, t) ==> TailIs([c] + rest, k, t)
    ensures TailIs(rest, 0, rest)
  {
  }

  // Where a marker's text in the result stood before.
  lemma {:induction false} Origin(s: string, i: nat, k: nat) returns (j: nat)
    requires i <= |s| && TextAt(RemoveFrom(s, i), k)
    ensures i <= j && TextAt(s, j) && !MarkerAt(s, j) && j + 8 < |s| && s[j + 8] != '|'
    ensures TailIs(RemoveFrom(s, i), k, RemoveFrom(s, j))
    ensures RemoveFrom(s, j) == s[j..j + 9] + RemoveFrom(s, j + 9)
    decreases |s| - i
  {
    hide RemoveFrom, TextAt, MarkerAt, TailIs;
    RemoveStepAt(s, i);
    if MarkerAt(s, i) {
      j := Origin(s, i + 8, k);
    } else if k > 0 {
      var rest := RemoveFrom(s, i + 1);
      LaterText(s[i], rest, k);
      j := Origin(s, i + 1, k - 1);
      TailAfter(s[i], rest, k, RemoveFrom(s, j));
    } else {
      HeadText(s, i);
      j := i;
      TailAfter(s[i], RemoveFrom(s, i), 0, "");
    }
  }

  lemma RemoveStepAt(s: string, i: nat)
    requires i <= |s|
    ensures i < |s| ==>
              RemoveFrom(s, i) ==
              if MarkerAt(s, i) then RemoveFrom(s, i + 8) else [s[i]] + RemoveFrom(s, i + 1)
    ensures MarkerAt(s, i) ==> i + 8 <= |s|
    ensures i == |s| ==> RemoveFrom(s, i) == "" && forall k :: !TextAt(RemoveFrom(s, i), k)
  {
  }

  lemma LaterText(c: char, rest: string, k: nat)
    requires k > 0 && TextAt([c] + rest, k)
    ensures TextAt(rest, k - 1)
  {
    assert ([c] + rest)[k..k + 8] == rest[k - 1..k + 7];
  }

  /** What removal leaves of a marker's text is followed by a character that is no bar: never by the
      end, and by a final newline only where the note hides a marker. */
  lemma NoneLeft(s: string, k: nat)
    requires TextAt(RemoveFrom(s, 0), k)
    ensures var r := RemoveFrom(s, 0); k + 8 < |r| && r[k + 8] != '|'
    ensures var r := RemoveFrom(s, 0); k + 9 == |r| && r[k + 8] == '\n' ==> HidesMarker(s)
  {
    hide RemoveFrom, MarkerAt, InMarker;
    var r := RemoveFrom(s, 0);
    var j := Origin(s, 0, k);
    assert r[k + 8] == r[k..][8] == s[j..j + 9][8];
    if k + 9 == |r| && r[k + 8] == '\n' {
      TextBoundary(s, j);
      BarIsBoundary(s, |s|);
      RemoveStepAt(s, |s|);
      var x := Segment(s, j + 9, |s|);
      NoMarkerBeforeEnd(s, j);
    }
  }

  lemma NoMarkerBeforeEnd(s: string, j: nat)
    requires TextAt(s, j) && !MarkerAt(s, j) && j + 8 < |s| && s[j + 8] == '\n'
    ensures j + 9 < |s|
  {
  }

  // A marker on the way makes the result shorter.
  lemma {:induction false} Shrinks(s: string, i: nat, k: nat, j: nat)
    requires i <= k < j <= |s| && Boundary(s, i) && Boundary(s, j) && MarkerAt(s, k)
    ensures |RemoveFrom(s, i)| <= j - i - 8 + |RemoveFrom(s, j)|
    decreases |s| - i
  {
    hide RemoveFrom, MarkerAt, InMarker;
    RemoveStep(s, i);
    NextBoundary(s, i);
    if MarkerAt(s, i) {
      var x := Segment(s, i + 8, j);
    } else {
      Shrinks(s, i + 1, k, j);
    }
  }

  /** Removal leaves no marker, except where markers after a newline gave way and made it the final one. */
  lemma RemovalIsFree(s: string)
    ensures MarkerFree(RemoveFrom(s, 0)) <==> !HidesMarker(s)
  {
    hide RemoveFrom, TextAt, InMarker;
    var r := RemoveFrom(s, 0);
    if k :| 0 <= k < |r| && MarkerAt(r, k) {
      NoneLeft(s, k);
    }
    if HidesMarker(s) {
      var j: nat :| TextAt(s, j) && j + 9 < |s| && s[j + 8] == '\n' && forall k | j + 9 <= k < |s| :: InMarker(s, k);
      HiddenAppears(s, j);
    }
  }

  lemma HiddenAppears(s: string, j: nat)
    requires TextAt(s, j) && j + 9 < |s| && s[j + 8] == '\n' && forall k | j + 9 <= k < |s| :: InMarker(s, k)
    ensures !MarkerFree(RemoveFrom(s, 0))
  {
    hide RemoveFrom, InMarker, TextAt, MarkerFree;
    TextBoundary(s, j);
    BarIsBoundary(s, |s|);
    RemoveStepAt(s, |s|);
    var x := Segment(s, 0, j);
    var y := Segment(s, j + 9, |s|);
    KeptText(s, j);
    assert y == "" && RemoveFrom(s, |s|) == "";
    assert RemoveFrom(s, 0) == x + s[j..j + 9];
    FinalText(x, s, j);
  }

  // A marker's text and a newline at the end of a result are a marker.
  lemma FinalText(x: string, s: string, j: nat)
    requires TextAt(s, j) && j + 9 <= |s| && s[j + 8] == '\n'
    ensures !MarkerFree(x + s[j..j + 9])
  {
    TextInside(x, s[j..j + 9], "");
    assert s[j..j + 9][..8] == s[j..j + 8] && x + (s[j..j + 9] + "") == x + s[j..j + 9];
    assert MarkerAt(x + s[j..j + 9], |x|);
  }

  // The text of a longer piece between two others.
  lemma TextInside(x: string, t: string, y: string)
    requires |t| == 9
    ensures var r := x + (t + y); r[|x|..|x| + 8] == t[..8] && r[|x| + 8] == t[8]
  {
  }

  // A text that is no marker is kept, with the character after it.
  lemma KeptText(s: string, j: nat)
    requires TextAt(s, j) && !MarkerAt(s, j) && j + 8 < |s| && s[j + 8] != '|'
    ensures RemoveFrom(s, j) == s[j..j + 9] + RemoveFrom(s, j + 9)
  {
    hide RemoveFrom;
    TextShape(s, j);
    TextShape(s, j + 8);
    forall k | j <= k < j + 9 ensures !MarkerAt(s, k) {
      TextShape(s, k);
    }
    KeptRun(s, j, j + 9);
  }

  lemma {:induction false} KeptRun(s: string, i: nat, j: nat)
    requires i <= j <= |s| && forall k | i <= k < j :: !MarkerAt(s, k)
    ensures RemoveFrom(s, i) == s[i..j] + RemoveFrom(s, j)
    decreases j - i
  {
    hide MarkerAt, RemoveFrom;
    if i < j {
      RemoveStep(s, i);
      KeptRun(s, i + 1, j);
      assert s[i..j] == [s[i]] + s[i + 1..j];
    }
  }

  // ---------- Trimming ----------

  lemma {:induction false} StripLeftMeaning(s: string) returns (a: nat)
    ensures a <= |s| && StripLeft(s) == s[a..] && (a < |s| ==> !Trimmed(s[a])) && forall k | 0 <= k < a :: Trimmed(s[k])
  {
    a := 0;
    if s != "" && Trimmed(s[0]) {
      var b := StripLeftMeaning(s[1..]);
      a := b + 1;
      assert s[1..][b..] == s[a..];
      assert forall k | 1 <= k < a :: s[k] == s[1..][k - 1];
    }
  }

  lemma {:induction false} StripRightMeaning(s: string) returns (b: nat)
    ensures b <= |s| && StripRight(s) == s[..b] && (b > 0 ==> !Trimmed(s[b - 1]))
            && forall k | b <= k < |s| :: Trimmed(s[k])
    ensures s != "" && !Trimmed(s[0]) ==> b > 0
  {
    b := |s|;
    if s != "" && Trimmed(s[|s| - 1]) {
      b := StripRightMeaning(s[..|s| - 1]);
      assert s[..|s| - 1][..b] == s[..b];
    }
  }

  predicate Tight(c: string) {
    c == "" || (!Trimmed(c[0]) && !Trimmed(c[|c| - 1]))
  }

  // Trimming keeps a middle part, without bars and spaces at its ends, and drops only bars and spaces.
  lemma Stripped(s: string) returns (a: nat, b: nat)
    ensures a <= b <= |s| && StripRight(StripLeft(s)) == s[a..b] && Tight(s[a..b])
    ensures forall k | 0 <= k < |s| :: k < a || b <= k ==> Trimmed(s[k])
  {
    a := StripLeftMeaning(s);
    var l := StripLeft(s);
    var n := StripRightMeaning(l);
    b := a + n;
    assert l[..n] == s[a..b];
    assert forall k | a <= k < |s| :: s[k] == l[k - a];
  }

  lemma TightStays(c: string)
    requires Tight(c)
    ensures StripRight(StripLeft(c)) == c
  {
  }

  // ---------- The cleaned note ----------

  predicate EndsWithMarker(c: string) {
    |c| >= 8 && TextAt(c, |c| - 8)
  }

  predicate EndsWithMarkerLine(c: string) {
    |c| >= 9 && TextAt(c, |c| - 9) && c[|c| - 1] == '\n'
  }

  lemma SliceText(r: string, a: nat, b: nat, i: nat)
    requires a <= b <= |r| && TextAt(r[a..b], i)
    ensures TextAt(r, a + i)
  {
    var c := r[a..b];
    var text, there := c[i..i + 8], r[a + i..a + i + 8];
    assert forall k | 0 <= k < 8 :: text[k] == c[i + k] && c[i + k] == there[k];
    assert text == there;
  }

  // In a cleaned note a marker's text is followed by no bar.
  lemma CleanedShape(note: string, i: nat)
    requires TextAt(Cleaned(note), i)
    ensures i + 8 < |Cleaned(note)| ==> Cleaned(note)[i + 8] != '|'
    ensures Tight(Cleaned(note))
  {
    hide RemoveFrom, TextAt, StripLeft, StripRight;
    var r := RemoveFrom(note, 0);
    var a, b := Stripped(r);
    SliceText(r, a, b, i);
    NoneLeft(note, a + i);
  }

  lemma CleanedTight(note: string)
    ensures Tight(Cleaned(note))
  {
    var a, b := Stripped(RemoveFrom(note, 0));
  }

  // The first match is at m and reads `text`.
  ghost predicate FirstMarker(s: string, m: nat, text: string) {
    MarkerHere(s, m) && s[m..m + 8] == text && forall n: nat | n < m :: !MarkerHere(s, n)
  }

  /** The portion of a note is that of the first match of the pattern, full without one. */
  lemma PortionMeaning(note: string)
    ensures var p := PortionFromNote(Some(note));
            && (p == Full <==> forall m: nat :: !MarkerHere(note, m))
            && (p == Am ==> exists m: nat :: FirstMarker(note, m, "|half=am"))
            && (p == Pm ==> exists m: nat :: FirstMarker(note, m, "|half=pm"))
  {
    SearchStops(note, 0);
    forall m: nat ensures MarkerAt(note, m) <==> MarkerHere(note, m) {
      MarkerMeaning(note, m);
    }
    hide SearchFrom, MarkerAt, MarkerHere;
    if exists m | 0 <= m < |note| :: MarkerAt(note, m) {
      var m: nat :| m < |note| && MarkerAt(note, m) && (forall n | 0 <= n < m :: !MarkerAt(note, n))
                    && SearchFrom(note, 0) == PortionAt(note, m);
      MarkerFits(note, m);
      assert FirstMarker(note, m, if SearchFrom(note, 0) == Am then "|half=am" else "|half=pm");
    } else {
      forall m: nat ensures !MarkerHere(note, m) {
        if MarkerHere(note, m) {
          MarkerFits(note, m);
        }
      }
    }
  }

  lemma MarkerFits(s: string, m: nat)
    requires MarkerHere(s, m)
    ensures m + 8 <= |s| && (s[m..m + 8] == "|half=am" || s[m..m + 8] == "|half=pm")
  {
  }

  lemma TrimmedParts(r: string, i: nat, j: nat)
    requires i <= j <= |r| && forall k | 0 <= k < |r| :: k < i || j <= k ==> Trimmed(r[k])
    ensures r == r[..i] + r[i..j] + r[j..]
    ensures forall x | x in r[..i] || x in r[j..] :: x in {' ', '|'}
  {
    forall x | x in r[..i] ensures x in {' ', '|'} {
      var k :| 0 <= k < i && r[..i][k] == x;
    }
    forall x | x in r[j..] ensures x in {' ', '|'} {
      var k :| 0 <= k < |r| - j && r[j..][k] == x;
      assert r[j + k] == x;
    }
  }

  /** Cleaning takes away every character that a match covers, then spaces and bars on both sides, and
      nothing else. */
  lemma CleaningMeaning(note: string) returns (a: string, b: string)
    ensures var c := Cleaned(note);
            && Remaining(note, 0) == a + c + b && (forall x | x in a || x in b :: x in {' ', '|'})
            && (c != "" ==> c[0] !in {' ', '|'} && c[|c| - 1] !in {' ', '|'})
    ensures var c := Cleaned(note);
            && CleanLeaveNote(Some(note)) == NoteWithPortion(Some(note), Full) == (if c == "" then None else Some(c))
            && NoteWithPortion(Some(note), Am) == Some(c + "|half=am")
            && NoteWithPortion(Some(note), Pm) == Some(c + "|half=pm")
  {
    assert Boundary(note, 0);
    hide RemoveFrom, Remaining, StripLeft, StripRight, Boundary;
    RemainingFrom(note, 0);
    var r := RemoveFrom(note, 0);
    var i, j := Stripped(r);
    a, b := r[..i], r[j..];
    TrimmedParts(r, i, j);
  }

  // The cleaned note has a marker only where trimming exposes one: at the very end, or before a final newline.
  lemma CleanedEnds(note: string)
    ensures MarkerFree(Cleaned(note)) <==> !EndsWithMarker(Cleaned(note)) && !EndsWithMarkerLine(Cleaned(note))
  {
    var c := Cleaned(note);
    if i :| 0 <= i < |c| && MarkerAt(c, i) {
      CleanedShape(note, i);
    }
    hide RemoveFrom, Cleaned;
    assert EndsWithMarker(c) ==> MarkerAt(c, |c| - 8);
    assert EndsWithMarkerLine(c) ==> MarkerAt(c, |c| - 9);
  }

  // ---------- The notes that expose a marker ----------

  // At j stands the text of a marker that is none, because the gap character follows; after that come only
  // spaces, bars and markers; and before it something else, which keeps its own bar from being trimmed.
  ghost predicate ExposesAt(note: string, j: nat, gap: char) {
    && TextAt(note, j) && !MarkerAt(note, j) && j + 8 < |note| && note[j + 8] == gap
    && (forall k | j + 9 <= k < |note| :: Blank(note, k))
    && exists k | 0 <= k < j :: !Blank(note, k)
  }

  ghost predicate Exposes(note: string, gap: char) {
    exists j :: ExposesAt(note, j, gap)
  }

  // The result of removal around a kept text: what came before it, the text with the gap, what comes after.
  lemma Parts(note: string, j: nat) returns (x: string, y: string)
    requires TextAt(note, j) && !MarkerAt(note, j) && j + 8 < |note| && note[j + 8] != '|'
    ensures RemoveFrom(note, 0) == x + (note[j..j + 9] + y) && RemoveFrom(note, j + 9) == y
    ensures RemoveFrom(note, 0) == x + RemoveFrom(note, j)
    ensures (forall c | c in x :: Trimmed(c)) <==> forall k | 0 <= k < j :: Blank(note, k)
    ensures (forall c | c in y :: Trimmed(c)) <==> forall k | j + 9 <= k < |note| :: Blank(note, k)
  {
    hide RemoveFrom, MarkerAt, TextAt, Blank, Trimmed;
    TextBoundary(note, j);
    BarIsBoundary(note, |note|);
    RemoveStepAt(note, |note|);
    x := Segment(note, 0, j);
    y := Segment(note, j + 9, |note|);
    KeptText(note, j);
  }

  // A tight part of x + (t + y) outside of which all is trimmed ends where t does, if t ends with something
  // solid and y is blank, and begins inside x, if x is not.
  lemma TightPart(x: string, t: string, y: string, a: nat, b: nat, n: nat)
    requires var r := x + (t + y);
             && a <= b <= |r| && Tight(r[a..b]) && forall k | 0 <= k < |r| :: k < a || b <= k ==> Trimmed(r[k])
    requires 0 < n <= |t| && !Trimmed(t[n - 1]) && (forall k | n <= k < |t| :: Trimmed(t[k]))
             && forall c | c in y :: Trimmed(c)
    requires exists c :: c in x && !Trimmed(c)
    ensures b == |x| + n && a < |x|
  {
    hide Trimmed;
    var r := x + (t + y);
    var c :| c in x && !Trimmed(c);
    var i :| 0 <= i < |x| && x[i] == c;
    assert r[i] == c && r[|x| + n - 1] == t[n - 1];
    assert forall k | |x| + n <= k < |x| + |t| :: r[k] == t[k - |x|];
    assert forall k | |x| + |t| <= k < |r| :: r[k] == y[k - |x| - |t|];
    assert r[a..b][b - a - 1] == r[b - 1];
  }

  lemma TextEnd(s: string, i: nat)
    requires TextAt(s, i)
    ensures s[i + 7] == 'm' && Trimmed(s[i]) && !Trimmed(s[i + 7])
  {
    assert s[i] == s[i..i + 8][0] && s[i + 7] == s[i..i + 8][7];
  }

  lemma ExposedEnds(note: string, j: nat, gap: char)
    requires ExposesAt(note, j, gap) && (gap == ' ' || gap == '\n')
    ensures gap == ' ' ==> EndsWithMarker(Cleaned(note))
    ensures gap == '\n' ==> EndsWithMarkerLine(Cleaned(note))
  {
    hide RemoveFrom, Blank, StripLeft, StripRight, MarkerAt;
    var x, y := Parts(note, j);
    var r, t := RemoveFrom(note, 0), note[j..j + 9];
    var a, b := Stripped(r);
    TextEnd(note, j);
    assert t[7] == note[j + 7] && t[8] == gap;
    var n := if gap == ' ' then 8 else 9;
    TightPart(x, t, y, a, b, n);
    var c := r[a..b];
    assert c == Cleaned(note);
    PartText(r, a, b, x, t, y);
    assert t[..8] == note[j..j + 8];
  }

  // The text of t in a part of the whole that reaches over it.
  lemma PartText(r: string, a: nat, b: nat, x: string, t: string, y: string)
    requires r == x + (t + y) && |t| == 9 && a <= |x| && |x| + 8 <= b <= |r|
    ensures r[a..b][|x| - a..|x| - a + 8] == t[..8]
    ensures b >= |x| + 9 ==> r[a..b][|x| - a + 8] == t[8]
  {
    var c := r[a..b];
    var text := c[|x| - a..|x| - a + 8];
    forall k | 0 <= k < 8 ensures text[k] == t[k] {
      assert text[k] == c[|x| - a + k] == r[|x| + k] == t[k];
    }
    assert text == t[..8];
  }

  // The parts around a marker's text in the result.
  lemma Around(note: string, p: nat) returns (j: nat, x: string, y: string)
    requires TextAt(RemoveFrom(note, 0), p)
    ensures TextAt(note, j) && !MarkerAt(note, j) && j + 8 < |note| && note[j + 8] != '|'
    ensures |x| == p && RemoveFrom(note, 0) == x + (note[j..j + 9] + y)
    ensures (forall c | c in x :: Trimmed(c)) <==> forall k | 0 <= k < j :: Blank(note, k)
    ensures (forall c | c in y :: Trimmed(c)) <==> forall k | j + 9 <= k < |note| :: Blank(note, k)
  {
    hide RemoveFrom, Blank, MarkerAt, TextAt, Trimmed;
    j := Origin(note, 0, p);
    x, y := Parts(note, j);
  }

  // The cleaned note's end, as a part of the result of removal.
  lemma EndText(note: string, n: nat) returns (a: nat, b: nat)
    requires 8 <= n <= |Cleaned(note)| && TextAt(Cleaned(note), |Cleaned(note)| - n)
    ensures var r := RemoveFrom(note, 0);
            && a <= b <= |r| && n <= b - a && Cleaned(note) == r[a..b] && Tight(r[a..b]) && TextAt(r, b - n)
            && forall k | 0 <= k < |r| :: k < a || b <= k ==> Trimmed(r[k])
  {
    hide RemoveFrom, TextAt, StripLeft, StripRight, Trimmed, Tight;
    var r := RemoveFrom(note, 0);
    a, b := Stripped(r);
    SliceText(r, a, b, b - a - n);
  }

  lemma EndsExposed(note: string, gap: char)
    requires (gap == ' ' && EndsWithMarker(Cleaned(note))) || (gap == '\n' && EndsWithMarkerLine(Cleaned(note)))
    ensures Exposes(note, gap)
  {
    hide RemoveFrom, Blank, MarkerAt, TextAt, Trimmed, Tight, Cleaned, Exposes;
    var n := if gap == ' ' then 8 else 9;
    var a, b := EndText(note, n);
    var j, x, y := Around(note, b - n);
    GapFollows(note, RemoveFrom(note, 0), a, b, n, x, j, y, gap);
  }

  lemma GapFollows(note: string, r: string, a: nat, b: nat, n: nat, x: string, j: nat, y: string, gap: char)
    requires TextAt(note, j) && !MarkerAt(note, j) && j + 8 < |note| && note[j + 8] != '|'
    requires r == x + (note[j..j + 9] + y) && a <= b <= |r| && |x| == b - n && a <= |x| && Tight(r[a..b])
    requires forall k | 0 <= k < |r| :: k < a || b <= k ==> Trimmed(r[k])
    requires (gap == ' ' && n == 8) || (gap == '\n' && n == 9 && r[a..b][b - a - 1] == '\n')
    requires (forall c | c in x :: Trimmed(c)) <==> forall k | 0 <= k < j :: Blank(note, k)
    requires (forall c | c in y :: Trimmed(c)) <==> forall k | j + 9 <= k < |note| :: Blank(note, k)
    ensures Exposes(note, gap)
  {
    hide Blank, MarkerAt;
    var t := note[j..j + 9];
    TextEnd(note, j);
    assert t[0] == note[j] && t[8] == note[j + 8];
    assert r[|x|] == t[0] && r[|x| + 8] == t[8];
    assert r[a..b][0] == r[a];
    assert a < |x| && r[a] == x[a];
    assert n == 9 ==> r[a..b][b - a - 1] == r[b - 1] == t[8];
    assert note[j + 8] == gap;
    forall c | c in y ensures Trimmed(c) {
      var k :| 0 <= k < |y| && y[k] == c;
      assert r[|x| + 9 + k] == c;
    }
    assert x[a] in x && !Trimmed(x[a]);
    assert exists k | 0 <= k < j :: !Blank(note, k);
    assert ExposesAt(note, j, gap);
  }

  /** Where the end of a cleaned note comes from: it is a marker, or one and a newline, exactly when the raw
      note exposes a marker before a space, or before a newline. */
  lemma EndsExactly(note: string)
    ensures EndsWithMarker(Cleaned(note)) <==> Exposes(note, ' ')
    ensures EndsWithMarkerLine(Cleaned(note)) <==> Exposes(note, '\n')
  {
    hide Cleaned, EndsWithMarker, EndsWithMarkerLine, ExposesAt;
    if EndsWithMarker(Cleaned(note)) {
      EndsExposed(note, ' ');
    }
    if EndsWithMarkerLine(Cleaned(note)) {
      EndsExposed(note, '\n');
    }
    if j :| ExposesAt(note, j, ' ') {
      ExposedEnds(note, j, ' ');
    }
    if j :| ExposesAt(note, j, '\n') {
      ExposedEnds(note, j, '\n');
    }
  }

  /** Cleaning leaves a marker exactly in the notes that expose one, before a space or before a newline. */
  lemma CleanedIsFree(note: string)
    ensures MarkerFree(Cleaned(note)) <==> !Exposes(note, ' ') && !Exposes(note, '\n')
  {
    hide Cleaned, MarkerFree, EndsWithMarker, EndsWithMarkerLine, Exposes;
    CleanedEnds(note);
    EndsExactly(note);
  }

  lemma RemoveNothing(s: string)
    requires MarkerFree(s)
    ensures RemoveFrom(s, 0) == s && SearchFrom(s, 0) == Full
  {
    KeptRun(s, 0, |s|);
    assert s[0..|s|] == s;
    SearchSkips(s, 0, |s|);
  }

  lemma {:induction false} SearchSkips(s: string, i: nat, j: nat)
    requires i <= j <= |s| && forall k | i <= k < j :: !MarkerAt(s, k)
    ensures SearchFrom(s, i) == SearchFrom(s, j)
    decreases j - i
  {
    hide MarkerAt;
    if i < j {
      SearchSkips(s, i + 1, j);
    }
  }

  // Cleaning what has a marker makes it shorter.
  lemma CleaningShrinks(s: string, k: nat)
    requires k < |s| && MarkerAt(s, k)
    ensures |Cleaned(s)| <= |s| - 8
  {
    BarIsBoundary(s, |s|);
    Shrinks(s, 0, k, |s|);
    assert RemoveFrom(s, |s|) == "";
    var a, b := Stripped(RemoveFrom(s, 0));
  }

  // Search finds nothing exactly where there is nothing.
  lemma {:induction false} SearchFinds(s: string, i: nat, k: nat)
    requires i <= k < |s| && MarkerAt(s, k)
    ensures SearchFrom(s, i) != Full
    decreases |s| - i
  {
    hide MarkerAt, TextAt;
    if i < k && !MarkerAt(s, i) {
      SearchFinds(s, i + 1, k);
    }
  }

  // ---------- The round trip ----------

  predicate RoundTrips(note: Option<string>, portion: Portion) {
    var stored := NoteWithPortion(note, portion);
    PortionFromNote(stored) == portion && CleanLeaveNote(stored) == CleanLeaveNote(note)
  }

  lemma FullRoundTrip(note: Option<string>)
    ensures RoundTrips(note, Full) <==> MarkerFree(Cleaned(note.GetOr("")))
  {
    var c := Cleaned(note.GetOr(""));
    CleanedTight(note.GetOr(""));
    hide Cleaned, MarkerAt;
    if MarkerFree(c) {
      RemoveNothing(c);
      CleanedOf(c);
    } else {
      var k :| 0 <= k < |c| && MarkerAt(c, k);
      SearchFinds(c, 0, k);
    }
  }

  lemma CleanedOf(c: string)
    requires Tight(c) && RemoveFrom(c, 0) == c
    ensures Cleaned(c) == c
  {
    TightStays(c);
  }

  lemma AppendedMarker(c: string, marker: string)
    requires marker == AM || marker == PM
    ensures TextAt(c + marker, |c|) && MarkerAt(c + marker, |c|) && (c + marker)[|c|] == '|'
    ensures PortionAt(c + marker, |c|) == (if marker == AM then Am else Pm)
    ensures RemoveFrom(c + marker, |c|) == ""
  {
    var s := c + marker;
    assert s[|c|..|c| + 8] == marker;
    assert AM[7] == 'm' && AM[6] == 'a' && PM[6] == 'p';
    assert marker[0] == '|';
  }

  lemma HalfRoundTrip(note: Option<string>, marker: string)
    requires marker == AM || marker == PM
    ensures RoundTrips(note, if marker == AM then Am else Pm) <==> !EndsWithMarker(Cleaned(note.GetOr("")))
  {
    var c := Cleaned(note.GetOr(""));
    var s := c + marker;
    CleanedTight(note.GetOr(""));
    AppendedMarker(c, marker);
    if EndsWithMarker(c) {
      TwoMarkers(c, marker);
    } else {
      forall k | 0 <= k < |c| ensures !MarkerAt(s, k) {
        NoEarlierMarker(note.GetOr(""), marker, k);
      }
      hide Cleaned, MarkerAt, TextAt;
      KeptRun(s, 0, |c|);
      SearchSkips(s, 0, |c|);
      assert s[0..|c|] == c;
      assert RemoveFrom(s, 0) == c;
      CleanedTo(s, c);
    }
  }

  lemma CleanedTo(s: string, c: string)
    requires Tight(c) && RemoveFrom(s, 0) == c
    ensures Cleaned(s) == c
  {
    TightStays(c);
  }

  // With a marker at the end of the cleaned note, decoding removes two.
  lemma TwoMarkers(c: string, marker: string)
    requires (marker == AM || marker == PM) && EndsWithMarker(c)
    ensures |Cleaned(c + marker)| <= |c| - 8
  {
    var s := c + marker;
    AppendedMarker(c, marker);
    assert s[|c| - 8..|c|] == c[|c| - 8..];
    assert MarkerAt(s, |c| - 8);
    BarIsBoundary(s, |c|);
    Shrinks(s, 0, |c| - 8, |c|);
    var a, b := Stripped(RemoveFrom(s, 0));
  }

  lemma NoEarlierMarker(note: string, marker: string, k: nat)
    requires (marker == AM || marker == PM) && !EndsWithMarker(Cleaned(note)) && k < |Cleaned(note)|
    ensures !MarkerAt(Cleaned(note) + marker, k)
  {
    var c := Cleaned(note);
    var s := c + marker;
    AppendedMarker(c, marker);
    if TextAt(s, k) {
      if k + 8 > |c| {
        Interior(s, k, |c|);
      }
      assert s[k..k + 8] == c[k..k + 8];
      CleanedShape(note, k);
    }
  }

  /** Encoding a portion into a note and decoding it gives back the portion and the cleaned note exactly
      when the note exposes no marker before a space nor, for a full day, before a newline. */
  lemma RoundTripExactly(note: Option<string>, portion: Portion)
    ensures var text := note.GetOr("");
            RoundTrips(note, portion) <==> !Exposes(text, ' ') && (portion == Full ==> !Exposes(text, '\n'))
  {
    hide RoundTrips, Cleaned, EndsWithMarker, EndsWithMarkerLine, MarkerFree, Exposes;
    EndsExactly(note.GetOr(""));
    match portion
    case Full =>
      FullRoundTrip(note);
      CleanedEnds(note.GetOr(""));
    case Am => HalfRoundTrip(note, AM);
    case Pm =>
      assert PM[6] != AM[6];
      HalfRoundTrip(note, PM);
  }

  /** Cleaning a second time changes nothing exactly when the note exposes no marker. */
  lemma CleaningIsIdempotent(note: string)
    ensures Cleaned(Cleaned(note)) == Cleaned(note) <==> !Exposes(note, ' ') && !Exposes(note, '\n')
  {
    hide Cleaned, MarkerAt, Exposes;
    var c := Cleaned(note);
    CleanedTight(note);
    CleanedIsFree(note);
    if MarkerFree(c) {
      RemoveNothing(c);
      CleanedOf(c);
    } else {
      var k :| 0 <= k < |c| && MarkerAt(c, k);
      CleaningShrinks(c, k);
    }
  }

  // Two portions on two lines: removing the second uncovers the first.
  lemma NewlineExposes()
    ensures !MarkerFree(RemoveFrom("|half=am\n|half=pm", 0))
  {
    var s := "|half=am\n|half=pm";
    assert s[0..8] == AM && s[9..17] == PM && |s| == 17;
    assert MarkerAt(s, 9);
    HiddenAppears(s, 0);
  }

  // The trimmed space hid the marker from the removal.
  lemma SpaceTrimmed()
    ensures Cleaned("x|half=am ") == "x|half=am" && EndsWithMarker("x|half=am")
  {
    var s := "x|half=am ";
    assert s[8] == 'm' && s[9] == ' ' && s[0] == 'x' && |s| == 10;
    forall k | 0 <= k < |s| ensures !MarkerAt(s, k) {
      TextShape(s, k);
    }
    RemoveNothing(s);
    hide RemoveFrom, MarkerAt;
    assert s[..9] == "x|half=am";
    assert StripRight(s) == "x|half=am";
    assert "x|half=am"[1..9] == AM;
  }

  lemma TrimmingExposes()
    ensures Cleaned("x|half=am ") == "x|half=am" && EndsWithMarker("x|half=am")
    ensures forall portion :: !RoundTrips(Some("x|half=am "), portion)
  {
    hide Cleaned, EndsWithMarker, RoundTrips, Exposes;
    SpaceTrimmed();
    forall portion ensures !RoundTrips(Some("x|half=am "), portion) {
      RoundTripExactly(Some("x|half=am "), portion);
      EndsExactly("x|half=am ");
    }
  }
}
