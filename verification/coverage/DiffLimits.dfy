/** Exactly when the parser is right about a covered file: no added line's text
    begins with "++ ", and no end-of-file marker precedes an added line. */
module DiffLimits {
  import opened UnifiedDiff
  import opened DiffSpec
  import opened DiffCoverage
  import opened DiffStates
  import opened DiffProperties

  /** A side can lack its last newline only in the last hunk. */
  predicate MarkersLast(segments: seq<Segment>) {
    |segments| <= 1
    || ((segments[0].Hunk? ==> forall k :: 0 <= k < |segments[0].ops| ==> !segments[0].ops[k].NoNewline?)
        && MarkersLast(segments[1..]))
  }

  // ---- a masked line is lost ---------------------------------------------------------

  function Found(result: map<string, set<nat>>, path: string): set<nat> {
    if path in result then result[path] else {}
  }

  predicate Plus(line: string) { "+" <= line && !("+++ " <= line) }

  function Pluses(lines: seq<string>): nat {
    if lines == [] then 0 else (if Plus(lines[0]) then 1 else 0) + Pluses(lines[1..])
  }

  lemma {:induction false} PlusesJoin(a: seq<string>, b: seq<string>)
    ensures Pluses(a + b) == Pluses(a) + Pluses(b)
  {
    if a == [] {
      assert a + b == b;
    } else {
      assert (a + b)[1..] == a[1..] + b;
      PlusesJoin(a[1..], b);
    }
  }

  lemma {:induction false} StepFindsOne(st: State, line: string, covered: string -> bool, path: string)
    ensures |Found(Step(st, line, covered).result, path)| <= |Found(st.result, path)| + if Plus(line) then 1 else 0
  {
  }

  /** The parser reports no more lines than there are lines beginning with "+". */
  lemma {:induction false} FoundAtMost(st: State, lines: seq<string>, covered: string -> bool, path: string)
    ensures |Found(Run(st, lines, covered).result, path)| <= |Found(st.result, path)| + Pluses(lines)
    decreases |lines|
  {
    if lines != [] {
      StepFindsOne(st, lines[0], covered, path);
      FoundAtMost(Step(st, lines[0], covered), lines[1..], covered, path);
    }
  }

  function Adds(ops: seq<Op>): nat {
    if ops == [] then 0 else (if ops[0].Add? then 1 else 0) + Adds(ops[1..])
  }

  function AllAdds(segments: seq<Segment>): nat {
    if segments == [] then 0
    else (if segments[0].Hunk? then Adds(segments[0].ops) else 0) + AllAdds(segments[1..])
  }

  lemma {:induction false} AddedAreAbove(ops: seq<Op>, before: nat)
    ensures |AddedByOps(ops, before)| == Adds(ops)
    ensures forall n :: n in AddedByOps(ops, before) ==> before < n <= before + NewLines(ops)
    decreases |ops|
  {
    if ops != [] {
      AddedAreAbove(ops[1..], before);
      AddedAreAbove(ops[1..], before + 1);
    }
  }

  lemma {:induction false} AddedAreCounted(segments: seq<Segment>, before: nat)
    ensures |Added(segments, before)| == AllAdds(segments) && forall n :: n in Added(segments, before) ==> before < n
    decreases |segments|
  {
    if segments != [] {
      var rest := segments[1..];
      match segments[0]
      case Hidden(count) => AddedAreCounted(rest, before + count);
      case Hunk(ops, _) =>
        AddedAreAbove(ops, before);
        AddedAreCounted(rest, before + NewLines(ops));
        Disjoint(AddedByOps(ops, before), Added(rest, before + NewLines(ops)));
    }
  }

  lemma {:induction false} Disjoint(a: set<nat>, b: set<nat>)
    requires a !! b
    ensures |a + b| == |a| + |b|
  {
  }

  lemma {:induction false} OpPluses(ops: seq<Op>)
    ensures Pluses(OpLines(ops)) <= Adds(ops)
    ensures !Unmasked(ops) ==> Pluses(OpLines(ops)) < Adds(ops)
    decreases |ops|
  {
    if ops != [] {
      OpIsNoHeader(ops[0]);
      assert OpLines(ops)[1..] == OpLines(ops[1..]);
      OpPluses(ops[1..]);
      if Unmasked(ops[1..]) && !Masked(ops[0]) { FirstUnmasked(ops); }
    }
  }

  lemma {:induction false} FirstUnmasked(ops: seq<Op>)
    requires ops != [] && Unmasked(ops[1..]) && !Masked(ops[0])
    ensures Unmasked(ops)
  {
    forall k | 0 <= k < |ops| ensures !Masked(ops[k]) {
      if k > 0 { assert ops[1..][k - 1] == ops[k]; }
    }
  }

  lemma {:induction false} HunkPluses(left: nat, right: nat, ops: seq<Op>, section: string)
    ensures Pluses(HunkLines(left, right, ops, section)) <= Adds(ops)
    ensures !Unmasked(ops) ==> Pluses(HunkLines(left, right, ops, section)) < Adds(ops)
  {
    var line := HunkLine(left, right, ops, section);
    HunkStartIsRead(left, right, ops, section);
    assert line[0] == '@';
    DifferentStart("+", line);
    assert HunkLines(left, right, ops, section)[1..] == OpLines(ops);
    OpPluses(ops);
  }

  lemma {:induction false} SegmentPluses(segments: seq<Segment>, left: nat, right: nat)
    ensures Pluses(SegmentLines(segments, left, right)) <= AllAdds(segments)
    ensures !AllUnmasked(segments) ==> Pluses(SegmentLines(segments, left, right)) < AllAdds(segments)
    decreases |segments|
  {
    if segments != [] {
      var rest := segments[1..];
      if segments[0].Hidden? {
        SegmentPluses(rest, left + segments[0].count, right + segments[0].count);
      } else {
        var ops := segments[0].ops;
        var l, r := left + OldLines(ops), right + NewLines(ops);
        HunkComesFirst(segments, left, right);
        PlusesJoin(HunkLines(left, right, ops, segments[0].section), SegmentLines(rest, l, r));
        HunkPluses(left, right, ops, segments[0].section);
        SegmentPluses(rest, l, r);
      }
      if AllUnmasked(rest) && (segments[0].Hunk? ==> Unmasked(segments[0].ops)) { FirstAllUnmasked(segments); }
    }
  }

  lemma {:induction false} FirstAllUnmasked(segments: seq<Segment>)
    requires segments != [] && AllUnmasked(segments[1..]) && (segments[0].Hunk? ==> Unmasked(segments[0].ops))
    ensures AllUnmasked(segments)
  {
    forall k | 0 <= k < |segments| && segments[k].Hunk? ensures Unmasked(segments[k].ops) {
      if k > 0 { assert segments[1..][k - 1] == segments[k]; }
    }
  }

  lemma {:induction false} MaskedIsLost(f: FileDiff, covered: string -> bool)
    requires WellFormed(f) && !AllUnmasked(f.segments) && InScope(f.path, covered).Some?
    ensures Run(EMPTY, FileLines(f), covered).result
         != ExtendIfCovered(map[], InScope(f.path, covered), Added(f.segments, 0))
  {
    var path := InScope(f.path, covered).value;
    var lines := SegmentLines(f.segments, 0, 0);
    assert FileLines(f) == Front(f) + lines;
    RunOn(EMPTY, Front(f), lines, covered);
    FrontIsRead(EMPTY, f, covered);
    var st := Run(EMPTY, Front(f), covered);
    FoundAtMost(st, lines, covered, path);
    SegmentPluses(f.segments, 0, 0);
    AddedAreCounted(f.segments, 0);
  }

  // ---- a marker shifts what follows ------------------------------------------------------

  predicate Shifted(ops: seq<Op>) { !MarkersAfter(ops) }

  /** Lines numbered too high, or a marker still to come before an added line:
      some reported number is above every right one. */
  lemma {:induction false} ShiftedIsHigher(ops: seq<Op>, before: nat, lineno: nat) returns (n: nat)
    requires lineno > before && (Shifted(ops) || (lineno > before + 1 && Adds(ops) > 0))
    ensures n in Numbered(ops, lineno) && forall m :: m in AddedByOps(ops, before) ==> m < n
    decreases |ops|
  {
    var rest := ops[1..];
    if ops[0].NoNewline? {
      SomeAdd(ops);
      n := ShiftedIsHigher(rest, before, lineno + 1);
    } else {
      if Shifted(ops) { ShiftedTail(ops); }
      if ops[0].Remove? {
        n := ShiftedIsHigher(rest, before, lineno);
      } else if Shifted(rest) || Adds(rest) > 0 {
        n := ShiftedIsHigher(rest, before + 1, lineno + 1);
        AboveStart(rest, before + 1, lineno + 1);
      } else {
        n := lineno;
        AddedAreAbove(rest, before + 1);
        assert AddedByOps(rest, before + 1) == {};
      }
    }
  }

  lemma {:induction false} AboveStart(ops: seq<Op>, before: nat, lineno: nat)
    ensures forall n :: n in Numbered(ops, lineno) ==> n >= lineno
    decreases |ops|
  {
    if ops != [] {
      AboveStart(ops[1..], before, lineno);
      AboveStart(ops[1..], before, lineno + 1);
    }
  }

  lemma {:induction false} SomeAdd(ops: seq<Op>)
    requires ops != [] && (Shifted(ops) || Adds(ops) > 0)
    ensures Adds(ops) > 0 && (!ops[0].Add? ==> Adds(ops[1..]) > 0)
  {
    if Shifted(ops) {
      var j, k :| 0 <= j < k < |ops| && ops[j].NoNewline? && ops[k].Add?;
      AddAt(ops, k);
    }
  }

  lemma {:induction false} AddAt(ops: seq<Op>, k: nat)
    requires k < |ops| && ops[k].Add?
    ensures Adds(ops) > 0
  {
    if k > 0 { AddAt(ops[1..], k - 1); }
  }

  lemma {:induction false} ShiftedTail(ops: seq<Op>)
    requires Shifted(ops) && ops != [] && !ops[0].NoNewline?
    ensures Shifted(ops[1..])
  {
    var j, k :| 0 <= j < k < |ops| && ops[j].NoNewline? && ops[k].Add?;
    assert ops[1..][j - 1].NoNewline? && ops[1..][k - 1].Add?;
  }

  lemma {:induction false} NoMarkersNoShift(ops: seq<Op>)
    requires forall k :: 0 <= k < |ops| ==> !ops[k].NoNewline?
    ensures MarkersAfter(ops)
  {
  }

  lemma {:induction false} MarkerShifts(segments: seq<Segment>, right: nat) returns (n: nat)
    requires MarkersLast(segments) && AllUnmasked(segments) && !Clean(segments)
    ensures n in Reported(segments, right) && n > right && forall m :: m in Added(segments, right) ==> m < n
    decreases |segments|
  {
    var rest := segments[1..];
    if segments[0].Hunk? && Shifted(segments[0].ops) {
      var ops := segments[0].ops;
      if |segments| > 1 { NoMarkersNoShift(ops); }
      assert rest == [];
      SomeAdd(ops);
      SomeNewLine(ops);
      n := ShiftedIsHigher(ops, right, right + 1);
      AboveStart(ops, right, right + 1);
    } else {
      NotCleanTail(segments);
      if segments[0].Hidden? {
        n := MarkerShifts(rest, right + segments[0].count);
      } else {
        var ops := segments[0].ops;
        n := MarkerShifts(rest, right + NewLines(ops));
        AddedAreAbove(ops, right);
      }
    }
  }

  lemma {:induction false} SomeNewLine(ops: seq<Op>)
    requires Adds(ops) > 0
    ensures NewLines(ops) > 0
  {
    if !ops[0].Add? { SomeNewLine(ops[1..]); }
  }

  lemma {:induction false} NotCleanTail(segments: seq<Segment>)
    requires AllUnmasked(segments) && !Clean(segments) && (segments[0].Hunk? ==> MarkersAfter(segments[0].ops))
    ensures AllUnmasked(segments[1..]) && !Clean(segments[1..])
  {
    var k :| 0 <= k < |segments| && segments[k].Hunk? && !(Unmasked(segments[k].ops) && MarkersAfter(segments[k].ops));
    assert k > 0 && segments[1..][k - 1] == segments[k];
  }

  /** For a covered file the report is right if and only if the diff is clean. */
  lemma {:induction false} RightIffClean(f: FileDiff, covered: string -> bool)
    requires WellFormed(f) && MarkersLast(f.segments) && InScope(f.path, covered).Some?
    ensures var wanted := ExtendIfCovered(map[], InScope(f.path, covered), Added(f.segments, 0));
            Run(EMPTY, FileLines(f), covered).result == wanted <==> Clean(f.segments)
  {
    if !AllUnmasked(f.segments) {
      MaskedIsLost(f, covered);
    } else {
      FileIsReported(EMPTY, f, covered);
      if Clean(f.segments) {
        ReportedIsAdded(f.segments, 0);
      } else {
        var n := MarkerShifts(f.segments, 0);
        assert n !in Added(f.segments, 0);
      }
    }
  }

  /** The only line of a file without a final newline is replaced: line 1 was
      added, line 2 is reported. */
  lemma {:induction false} ReplacedLine(f: FileDiff, was: string, now: string, covered: string -> bool)
    requires WellFormed(f) && InScope(f.path, covered).Some? && !Masked(Add(now))
    requires f.segments == [Hunk([Remove(was), NoNewline, Add(now), NoNewline], "")]
    ensures Added(f.segments, 0) == {1}
    ensures Run(EMPTY, FileLines(f), covered).result == ExtendIfCovered(map[], f.path, {2})
  {
    var ops := f.segments[0].ops;
    FileIsReported(EMPTY, f, covered);
    LineIsShifted(ops, was, now);
    assert f.segments[1..] == [];
    assert Reported(f.segments, 0) == {2} + {} == {2};
  }

  lemma {:induction false} LineIsShifted(ops: seq<Op>, was: string, now: string)
    requires ops == [Remove(was), NoNewline, Add(now), NoNewline]
    ensures NewLines(ops) == 1 && Numbered(ops, 1) == {2} && AddedByOps(ops, 0) == {1}
  {
    var a, b, c := ops[1..], ops[2..], ops[3..];
    assert a[1..] == b && b[1..] == c && c[1..] == [];
    assert NewLines(c) == 0 && Numbered(c, 3) == {} && AddedByOps(c, 1) == {};
    assert NewLines(b) == 1 && Numbered(b, 2) == {2} && AddedByOps(b, 0) == {1};
  }
}
