/**
 The line wrapper of the leave receipt (app/services/staff_leave_image.py): characters are grouped
 into clusters, a base with its combining marks, and clusters greedily into lines. The Unicode
 category and the font's text width are functions of the caller.
*/
module TextWrap {

  datatype Kind = Mark | Control | Base

  // ---------- Strings of strings ----------

  function Concat(parts: seq<string>): string {
    if parts == [] then "" else Concat(parts[..|parts| - 1]) + parts[|parts| - 1]
  }

  lemma ConcatNext(parts: seq<string>, part: string)
    ensures Concat(parts + [part]) == Concat(parts) + part
  {
    assert (parts + [part])[..|parts|] == parts;
  }

  lemma ConcatNone()
    ensures Concat([]) == ""
  {
  }

  lemma {:induction false} ConcatBoth(a: seq<string>, b: seq<string>)
    ensures Concat(a + b) == Concat(a) + Concat(b)
  {
    hide Concat;
    if b == [] {
      ConcatNone();
      assert a + b == a;
    } else {
      var n := |b| - 1;
      ConcatBoth(a, b[..n]);
      ConcatNext(a + b[..n], b[n]);
      ConcatNext(b[..n], b[n]);
      assert a + b == (a + b[..n]) + [b[n]] && b == b[..n] + [b[n]];
    }
  }

  function Flat(groups: seq<seq<string>>): seq<string> {
    if groups == [] then [] else Flat(groups[..|groups| - 1]) + groups[|groups| - 1]
  }

  lemma FlatNext(groups: seq<seq<string>>, group: seq<string>)
    ensures Flat(groups + [group]) == Flat(groups) + group
  {
    assert (groups + [group])[..|groups|] == groups;
  }

  // ---------- Clusters ----------

  function Shown(c: char): char {
    if c == '\n' then ' ' else c
  }

  // The characters that are to be read: a newline is a space, and control characters are nothing.
  function Readable(text: string, kind: char -> Kind): string {
    if text == "" then ""
    else if text[0] == '\n' then (if kind(' ') == Control then "" else " ") + Readable(text[1..], kind)
    else (if kind(text[0]) == Control then "" else [text[0]]) + Readable(text[1..], kind)
  }

  lemma ReadableStart(c: char, rest: string, kind: char -> Kind)
    ensures Readable([c] + rest, kind) == Readable([c], kind) + Readable(rest, kind)
    ensures Readable("", kind) == ""
  {
    assert ([c] + rest)[1..] == rest && [c][1..] == "";
  }

  lemma {:induction false} ReadableEnd(text: string, c: char, kind: char -> Kind)
    ensures Readable(text + [c], kind) == Readable(text, kind) + Readable([c], kind)
  {
    hide Readable;
    if text == "" {
      ReadableStart(c, "", kind);
      assert text + [c] == [c];
    } else {
      ReadableEnd(text[1..], c, kind);
      ReadableStart(text[0], text[1..], kind);
      ReadableStart(text[0], text[1..] + [c], kind);
      assert text == [text[0]] + text[1..] && text + [c] == [text[0]] + (text[1..] + [c]);
    }
  }

  // One more character: a mark joins the cluster before it.
  function AddChar(clusters: seq<string>, c: char, kind: char -> Kind): seq<string> {
    if kind(c) == Mark && clusters != [] then clusters[..|clusters| - 1] + [clusters[|clusters| - 1] + [c]]
    else if kind(c) == Control then clusters
    else clusters + [[c]]
  }

  function Clusters(text: string, kind: char -> Kind): seq<string> {
    if text == "" then [] else AddChar(Clusters(text[..|text| - 1], kind), Shown(text[|text| - 1]), kind)
  }

  // One character followed by marks; only the first cluster of a text may itself begin with a mark.
  predicate IsCluster(cluster: string, first: bool, kind: char -> Kind) {
    && cluster != "" && (first || kind(cluster[0]) != Mark)
    && forall i | 1 <= i < |cluster| :: kind(cluster[i]) == Mark
  }

  ghost predicate AreClusters(clusters: seq<string>, kind: char -> Kind) {
    forall i | 0 <= i < |clusters| :: IsCluster(clusters[i], i == 0, kind)
  }

  lemma AddCharKeeps(clusters: seq<string>, c: char, kind: char -> Kind)
    requires AreClusters(clusters, kind)
    ensures AreClusters(AddChar(clusters, c, kind), kind)
    ensures Concat(AddChar(clusters, c, kind)) == Concat(clusters) + if kind(c) == Control then "" else [c]
  {
    ConcatNext(clusters, [c]);
    hide Concat;
    if kind(c) == Mark && clusters != [] {
      var n := |clusters| - 1;
      assert IsCluster(clusters[n], n == 0, kind);
      ConcatNext(clusters[..n], clusters[n] + [c]);
      ConcatNext(clusters[..n], clusters[n]);
      assert clusters == clusters[..n] + [clusters[n]];
    }
  }

  /** The clusters are the cleaned text, cut before every character that is not a mark and nowhere else. */
  lemma {:induction false} ClustersMeaning(text: string, kind: char -> Kind)
    ensures Concat(Clusters(text, kind)) == Readable(text, kind)
    ensures AreClusters(Clusters(text, kind), kind)
  {
    if text != "" {
      var n := |text| - 1;
      ReadableEnd(text[..n], text[n], kind);
      assert text == text[..n] + [text[n]];
      ClustersMeaning(text[..|text| - 1], kind);
      hide Concat, AddChar, AreClusters;
      AddCharKeeps(Clusters(text[..|text| - 1], kind), Shown(text[|text| - 1]), kind);
    }
  }

  method Cluster(text: string, kind: char -> Kind) returns (clusters: seq<string>)
    ensures clusters == Clusters(text, kind)
  {
    clusters := [];
    for i := 0 to |text|
      invariant clusters == Clusters(text[..i], kind)
    {
      assert text[..i + 1][..i] == text[..i];
      var c := Shown(text[i]);
      if kind(c) == Mark && clusters != [] {
        clusters := clusters[..|clusters| - 1] + [clusters[|clusters| - 1] + [c]];
      } else if kind(c) != Control {
        clusters := clusters + [[c]];
      }
    }
    assert text[..|text|] == text;
  }

  // ---------- Lines ----------

  datatype Layout = Layout(done: seq<seq<string>>, line: seq<string>)

  function Groups(l: Layout): seq<seq<string>> {
    l.done + if l.line == [] then [] else [l.line]
  }

  function Place(l: Layout, cluster: string, textWidth: string -> real, width: real): Layout {
    if l.line != [] && textWidth(Concat(l.line) + cluster) > width then Layout(l.done + [l.line], [cluster])
    else l.(line := l.line + [cluster])
  }

  function Greedy(clusters: seq<string>, textWidth: string -> real, width: real): Layout {
    if clusters == [] then Layout([], [])
    else Place(Greedy(clusters[..|clusters| - 1], textWidth, width), clusters[|clusters| - 1], textWidth, width)
  }

  function Joined(groups: seq<seq<string>>): seq<string> {
    seq(|groups|, i requires 0 <= i < |groups| => Concat(groups[i]))
  }

  const DASH: string := "\U{2014}"

  lemma JoinedNext(groups: seq<seq<string>>, group: seq<string>)
    ensures Joined(groups + [group]) == Joined(groups) + [Concat(group)]
  {
  }

  // What the loop over the clusters has in hand.
  ghost predicate Holds(lines: seq<string>, line: string, l: Layout) {
    && lines == Joined(l.done) && line == Concat(l.line)
    && (line == "" <==> l.line == []) && (l.line == [] ==> l.done == [])
  }

  lemma PlaceHolds(lines: seq<string>, line: string, l: Layout, cluster: string, textWidth: string -> real, width: real)
    requires Holds(lines, line, l) && cluster != ""
    ensures if line != "" && textWidth(line + cluster) > width
            then Holds(lines + [line], cluster, Place(l, cluster, textWidth, width))
            else Holds(lines, line + cluster, Place(l, cluster, textWidth, width))
  {
    ConcatNext(l.line, cluster);
    ConcatNext([], cluster);
    assert [] + [cluster] == [cluster];
    JoinedNext(l.done, l.line);
    assert Concat([]) == "";
    hide Concat, Joined;
  }

  function Wrapped(text: string, kind: char -> Kind, textWidth: string -> real, width: real): seq<string> {
    var groups := Groups(Greedy(Clusters(text, kind), textWidth, width));
    if groups == [] then [DASH] else Joined(groups)
  }

  method Wrap(text: string, kind: char -> Kind, textWidth: string -> real, width: real) returns (lines: seq<string>)
    ensures lines == Wrapped(text, kind, textWidth, width)
  {
    var clusters := Cluster(text, kind);
    ClustersMeaning(text, kind);
    hide Concat, Joined, Clusters, IsCluster, Place, Holds;
    var line := "";
    lines := [];
    ghost var layout := Layout([], []);
    assert Holds(lines, line, layout) by {
      NothingHeld();
    }
    for i := 0 to |clusters|
      invariant layout == Greedy(clusters[..i], textWidth, width) && Holds(lines, line, layout)
    {
      assert clusters[..i + 1][..i] == clusters[..i];
      assert clusters[i] != "" by {
        NotEmpty(clusters, i, kind);
      }
      PlaceHolds(lines, line, layout, clusters[i], textWidth, width);
      layout := Place(layout, clusters[i], textWidth, width);
      if line != "" && textWidth(line + clusters[i]) > width {
        lines := lines + [line];
        line := clusters[i];
      } else {
        line := line + clusters[i];
      }
    }
    assert clusters[..|clusters|] == clusters;
    LastLine(lines, line, layout);
    lines := lines + [if line != "" then line else DASH];
  }

  lemma NothingHeld()
    ensures Holds([], "", Layout([], []))
  {
  }

  lemma NotEmpty(clusters: seq<string>, i: nat, kind: char -> Kind)
    requires i < |clusters| && AreClusters(clusters, kind)
    ensures clusters[i] != ""
  {
    assert IsCluster(clusters[i], i == 0, kind);
  }

  lemma LastLine(lines: seq<string>, line: string, l: Layout)
    requires Holds(lines, line, l)
    ensures lines + [if line != "" then line else DASH] == if Groups(l) == [] then [DASH] else Joined(Groups(l))
  {
    JoinedNext(l.done, l.line);
  }

  // ---------- What the lines are ----------

  lemma {:induction false} ConcatJoined(groups: seq<seq<string>>)
    ensures Concat(Joined(groups)) == Concat(Flat(groups))
  {
    if groups != [] {
      var n := |groups| - 1;
      ConcatJoined(groups[..n]);
      assert groups == groups[..n] + [groups[n]];
      JoinedNext(groups[..n], groups[n]);
      ConcatNext(Joined(groups[..n]), Concat(groups[n]));
      ConcatBoth(Flat(groups[..n]), groups[n]);
    }
  }

  // A line is one cluster, or fits.
  predicate Admissible(group: seq<string>, textWidth: string -> real, width: real) {
    group != [] && (|group| == 1 || textWidth(Concat(group)) <= width)
  }

  // A way to set the clusters in lines.
  ghost predicate IsSplit(groups: seq<seq<string>>, clusters: seq<string>, textWidth: string -> real, width: real) {
    Flat(groups) == clusters && forall i | 0 <= i < |groups| :: Admissible(groups[i], textWidth, width)
  }

  // The state of the loop is a split of the clusters so far.
  ghost predicate Sets(l: Layout, clusters: seq<string>, textWidth: string -> real, width: real) {
    && Flat(l.done) + l.line == clusters && (l.line == [] ==> l.done == [])
    && (forall i | 0 <= i < |l.done| :: Admissible(l.done[i], textWidth, width))
    && (l.line != [] ==> Admissible(l.line, textWidth, width))
  }

  lemma PlaceSets(l: Layout, clusters: seq<string>, cluster: string, textWidth: string -> real, width: real)
    requires Sets(l, clusters, textWidth, width)
    ensures Sets(Place(l, cluster, textWidth, width), clusters + [cluster], textWidth, width)
  {
    FlatNext(l.done, l.line);
    ConcatNext(l.line, cluster);
    hide Concat, Flat;
  }

  lemma {:induction false} GreedySets(clusters: seq<string>, textWidth: string -> real, width: real)
    ensures Sets(Greedy(clusters, textWidth, width), clusters, textWidth, width)
    ensures IsSplit(Groups(Greedy(clusters, textWidth, width)), clusters, textWidth, width)
  {
    hide Place, Sets, IsSplit, Groups;
    if clusters == [] {
      SetsNothing(textWidth, width);
    } else {
      var n := |clusters| - 1;
      GreedySets(clusters[..n], textWidth, width);
      assert clusters == clusters[..n] + [clusters[n]];
      PlaceSets(Greedy(clusters[..n], textWidth, width), clusters[..n], clusters[n], textWidth, width);
    }
    SetsSplit(Greedy(clusters, textWidth, width), clusters, textWidth, width);
  }

  lemma SetsNothing(textWidth: string -> real, width: real)
    ensures Sets(Layout([], []), [], textWidth, width)
  {
  }

  lemma SetsSplit(l: Layout, clusters: seq<string>, textWidth: string -> real, width: real)
    requires Sets(l, clusters, textWidth, width)
    ensures IsSplit(Groups(l), clusters, textWidth, width)
  {
    FlatNext(l.done, l.line);
  }

  /** Nothing is lost or reordered: joined, the lines are the text with newlines as spaces and control
      characters dropped, or a single dash when nothing is left. Every line is one cluster or fits the
      width, and no line but the first begins with a combining mark. */
  lemma Lossless(text: string, kind: char -> Kind, textWidth: string -> real, width: real)
    ensures var lines := Wrapped(text, kind, textWidth, width);
            if Readable(text, kind) == "" then lines == ["\U{2014}"]
            else && Concat(lines) == Readable(text, kind)
                 && (forall i | 0 <= i < |lines| :: lines[i] != "" && (i > 0 ==> kind(lines[i][0]) != Mark))
                 && (forall i | 0 <= i < |lines| :: textWidth(lines[i]) <= width || IsCluster(lines[i], i == 0, kind))
  {
    var clusters := Clusters(text, kind);
    var groups := Groups(Greedy(clusters, textWidth, width));
    ClustersMeaning(text, kind);
    GreedySets(clusters, textWidth, width);
    ConcatJoined(groups);
    if groups == [] {
      assert clusters == [];
    } else {
      var lines := Joined(groups);
      hide Concat, Flat, Readable, Clusters, Greedy, IsCluster;
      forall i | 0 <= i < |lines|
        ensures lines[i] != "" && (i > 0 ==> kind(lines[i][0]) != Mark)
        ensures textWidth(lines[i]) <= width || IsCluster(lines[i], i == 0, kind)
      {
        LineMeaning(groups, clusters, i, kind, textWidth, width);
      }
      assert lines[0] != "";
      assert Readable(text, kind) != "" by {
        FirstShows(lines);
      }
    }
  }

  lemma {:induction false} FirstShows(lines: seq<string>)
    requires lines != [] && forall i | 0 <= i < |lines| :: lines[i] != ""
    ensures Concat(lines) != ""
  {
  }

  // Where a group of the split lies among the clusters.
  lemma {:induction false} GroupAt(groups: seq<seq<string>>, i: nat) returns (start: nat)
    requires i < |groups|
    ensures start + |groups[i]| <= |Flat(groups)| && Flat(groups)[start..start + |groups[i]|] == groups[i]
    ensures (forall j | 0 <= j < |groups| :: groups[j] != []) && i > 0 ==> start > 0
    ensures i == 0 ==> start == 0
  {
    var n := |groups| - 1;
    if i == n {
      start := |Flat(groups[..n])|;
      if i > 0 && forall j | 0 <= j < |groups| :: groups[j] != [] {
        assert Flat(groups[..n]) == Flat(groups[..n][..n - 1]) + groups[n - 1];
      }
    } else {
      start := GroupAt(groups[..n], i);
    }
  }

  lemma LineMeaning(groups: seq<seq<string>>, clusters: seq<string>, i: nat, kind: char -> Kind,
                    textWidth: string -> real, width: real)
    requires i < |groups| && IsSplit(groups, clusters, textWidth, width) && AreClusters(clusters, kind)
    ensures var line := Concat(groups[i]);
            && line != "" && (i > 0 ==> kind(line[0]) != Mark)
            && (textWidth(line) <= width || IsCluster(line, i == 0, kind))
  {
    var start := GroupAt(groups, i);
    var group := groups[i];
    assert Admissible(group, textWidth, width);
    assert group[0] == clusters[start];
    assert IsCluster(group[0], start == 0, kind);
    ConcatFirst(group);
    hide Flat;
    if |group| == 1 {
      assert group == [] + [group[0]];
      ConcatNext([], group[0]);
    }
  }

  lemma {:induction false} ConcatFirst(parts: seq<string>)
    requires parts != [] && parts[0] != ""
    ensures Concat(parts) != "" && Concat(parts)[0] == parts[0][0]
  {
    if |parts| == 1 {
      assert Concat(parts[..0]) == "";
    } else {
      ConcatFirst(parts[..|parts| - 1]);
    }
  }

  // ---------- No split is shorter ----------

  // A run of text is at least as wide as any part of it.
  ghost predicate Monotone(textWidth: string -> real) {
    forall s: string, i, j | 0 <= i <= j <= |s| :: textWidth(s[i..j]) <= textWidth(s)
  }

  lemma PartFits(whole: seq<string>, i: nat, j: nat, textWidth: string -> real, width: real)
    requires Monotone(textWidth) && i <= j <= |whole| && textWidth(Concat(whole)) <= width
    ensures textWidth(Concat(whole[i..j])) <= width
  {
    hide Concat;
    var a, b, c := whole[..i], whole[i..j], whole[j..];
    assert whole == (a + b) + c;
    ConcatBoth(a + b, c);
    ConcatBoth(a, b);
    var k := |Concat(a)|;
    assert Concat(whole)[k..k + |Concat(b)|] == Concat(b);
  }

  // Fewer lines, or as many with no more on the last one.
  predicate Ahead(lines: nat, last: nat, otherLines: nat, otherLast: nat) {
    lines < otherLines || (lines == otherLines && last <= otherLast)
  }

  // Without its last cluster, a split is a split of the rest.
  function Shortened(groups: seq<seq<string>>): seq<seq<string>>
    requires groups != [] && groups[|groups| - 1] != []
  {
    var n := |groups| - 1;
    var last := groups[n];
    if |last| == 1 then groups[..n] else groups[..n] + [last[..|last| - 1]]
  }

  lemma ShortenedSplits(groups: seq<seq<string>>, clusters: seq<string>, textWidth: string -> real, width: real)
    requires Monotone(textWidth) && IsSplit(groups, clusters, textWidth, width) && clusters != []
    ensures groups != [] && groups[|groups| - 1] != []
    ensures IsSplit(Shortened(groups), clusters[..|clusters| - 1], textWidth, width)
    ensures groups[|groups| - 1][|groups[|groups| - 1]| - 1] == clusters[|clusters| - 1]
  {
    var n := |groups| - 1;
    var last := groups[n];
    assert Admissible(last, textWidth, width);
    var rest := last[..|last| - 1];
    assert Flat(groups[..n]) + last == clusters;
    assert clusters[..|clusters| - 1] == Flat(groups[..n]) + rest;
    FlatNext(groups[..n], rest);
    hide Flat, Concat;
    if |last| > 1 {
      PartFits(last, 0, |rest|, textWidth, width);
      assert last[0..|rest|] == rest;
    }
  }

  ghost function LastSize(groups: seq<seq<string>>): nat {
    if groups == [] then 0 else |groups[|groups| - 1]|
  }

  // The last m clusters of a split lie on its last line when that line holds at least m.
  lemma LastIsSuffix(groups: seq<seq<string>>, clusters: seq<string>, textWidth: string -> real, width: real, m: nat)
    requires IsSplit(groups, clusters, textWidth, width) && m <= LastSize(groups)
    ensures m <= |clusters| && (m > 0 ==> clusters[|clusters| - m..] == groups[|groups| - 1][LastSize(groups) - m..])
  {
    if m > 0 {
      var last := groups[|groups| - 1];
      assert clusters == Flat(groups[..|groups| - 1]) + last;
    }
  }

  lemma {:induction false} GreedyAhead(clusters: seq<string>, groups: seq<seq<string>>, textWidth: string -> real,
                                       width: real)
    requires Monotone(textWidth) && IsSplit(groups, clusters, textWidth, width)
    ensures var l := Greedy(clusters, textWidth, width);
            Ahead(|Groups(l)|, |l.line|, |groups|, LastSize(groups))
    decreases |clusters|
  {
    if clusters != [] {
      var n := |clusters| - 1;
      ShortenedSplits(groups, clusters, textWidth, width);
      GreedyAhead(clusters[..n], Shortened(groups), textWidth, width);
      GreedySets(clusters[..n], textWidth, width);
      GreedyStep(Greedy(clusters[..n], textWidth, width), clusters, groups, textWidth, width);
    }
  }

  lemma GreedyStep(l: Layout, clusters: seq<string>, groups: seq<seq<string>>, textWidth: string -> real, width: real)
    requires Monotone(textWidth) && IsSplit(groups, clusters, textWidth, width) && clusters != []
    requires groups != [] && groups[|groups| - 1] != []
    requires Sets(l, clusters[..|clusters| - 1], textWidth, width)
    requires Ahead(|Groups(l)|, |l.line|, |Shortened(groups)|, LastSize(Shortened(groups)))
    ensures var next := Place(l, clusters[|clusters| - 1], textWidth, width);
            Ahead(|Groups(next)|, |next.line|, |groups|, LastSize(groups))
  {
    var cluster, last := clusters[|clusters| - 1], groups[|groups| - 1];
    if |last| > 1 && l.line != [] && |Groups(l)| == |groups| && |l.line| < |last| {
      var m := |l.line| + 1;
      LastIsSuffix(groups, clusters, textWidth, width, m);
      assert clusters[|clusters| - m..] == l.line + [cluster];
      assert Admissible(last, textWidth, width);
      PartFits(last, |last| - m, |last|, textWidth, width);
      assert last[|last| - m..|last|] == l.line + [cluster];
      ConcatNext(l.line, cluster);
    }
  }

  /** No way to set the clusters in lines, each one cluster or fitting, uses fewer lines. */
  lemma GreedyIsOptimal(text: string, kind: char -> Kind, textWidth: string -> real, width: real,
                        groups: seq<seq<string>>)
    requires Monotone(textWidth) && Readable(text, kind) != ""
    requires IsSplit(groups, Clusters(text, kind), textWidth, width)
    ensures |Wrapped(text, kind, textWidth, width)| <= |groups|
  {
    ClustersMeaning(text, kind);
    GreedySets(Clusters(text, kind), textWidth, width);
    GreedyAhead(Clusters(text, kind), groups, textWidth, width);
  }
}
