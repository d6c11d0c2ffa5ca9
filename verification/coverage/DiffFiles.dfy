/** Exactly when the parser is right about a diff of several files. */
module DiffFiles {
  import opened Options
  import opened Text
  import opened UnifiedDiff
  import opened DiffSpec
  import opened DiffCoverage
  import opened DiffStates
  import opened DiffProperties
  import opened DiffLimits

  // ---- files that are not covered -----------------------------------------------------------

  function AllOps(segments: seq<Segment>): seq<Op> {
    if segments == [] then [] else (if segments[0].Hunk? then segments[0].ops else []) + AllOps(segments[1..])
  }

  /** The file that a masked line turns the parser to. */
  function Retarget(op: Op, covered: string -> bool): Option<string>
    requires Masked(op)
  {
    OpIsNoHeader(op);
    InScope(Some(TargetPath(OpLine(op))), covered)
  }

  /** With the parser at `current`, some line is reported: it was added, and the last masked line before
      it names a covered file. */
  predicate Strays(ops: seq<Op>, current: Option<string>, covered: string -> bool) {
    ops != []
    && if Masked(ops[0]) then Strays(ops[1..], Retarget(ops[0], covered), covered)
       else (ops[0].Add? && current.Some?) || Strays(ops[1..], current, covered)
  }

  lemma {:induction false} OpsDontStray(st: State, ops: seq<Op>, more: seq<Op>, covered: string -> bool)
    requires !Strays(ops + more, st.current, covered)
    ensures var t := Run(st, OpLines(ops), covered); Alike(t, st) && !Strays(more, t.current, covered)
    decreases |ops|
  {
    if ops == [] {
      assert ops + more == more;
    } else {
      var t := Step(st, OpLine(ops[0]), covered);
      assert (ops + more)[0] == ops[0] && (ops + more)[1..] == ops[1..] + more;
      assert OpLines(ops)[1..] == OpLines(ops[1..]);
      OpIsNoHeader(ops[0]);
      if !Masked(ops[0]) {
        OpIsNumbered(st, ops[0], covered);
      }
      OpsDontStray(t, ops[1..], more, covered);
    }
  }

  lemma {:induction false} SegmentsDontStray(st: State, segments: seq<Segment>, left: nat, right: nat, ops: seq<Op>,
                                             lines: seq<string>, covered: string -> bool)
    requires ops == AllOps(segments) && lines == SegmentLines(segments, left, right)
    requires !Strays(ops, st.current, covered)
    ensures Alike(Run(st, lines, covered), st)
    decreases |segments|
  {
    if segments != [] {
      var rest, more := segments[1..], AllOps(segments[1..]);
      if segments[0].Hidden? {
        HiddenComesFirst(segments, left, right);
        SegmentsDontStray(st, rest, left + segments[0].count, right + segments[0].count, ops, lines, covered);
      } else {
        var l, r, head, tail := HunkSplit(segments, left, right, ops, lines, more);
        var t := Run(st, head, covered);
        HunkDoesntStray(st, left, right, segments[0].ops, segments[0].section, more, ops, covered);
        SegmentsDontStray(t, rest, l, r, more, tail, covered);
        SilentThen(st, head, t, tail, lines, covered);
      }
    }
  }

  lemma {:induction false} HiddenComesFirst(segments: seq<Segment>, left: nat, right: nat)
    requires segments != [] && segments[0].Hidden?
    ensures AllOps(segments) == AllOps(segments[1..])
    ensures SegmentLines(segments, left, right)
         == SegmentLines(segments[1..], left + segments[0].count, right + segments[0].count)
  {
  }

  /** The lines of the first hunk, and the rest. */
  lemma {:induction false} HunkSplit(segments: seq<Segment>, left: nat, right: nat, ops: seq<Op>, lines: seq<string>,
                                     more: seq<Op>) returns (l: nat, r: nat, head: seq<string>, tail: seq<string>)
    requires segments != [] && segments[0].Hunk? && more == AllOps(segments[1..])
    requires ops == AllOps(segments) && lines == SegmentLines(segments, left, right)
    ensures tail == SegmentLines(segments[1..], l, r) && lines == head + tail && ops == segments[0].ops + more
    ensures head == HunkLines(left, right, segments[0].ops, segments[0].section)
  {
    l, r := left + OldLines(segments[0].ops), right + NewLines(segments[0].ops);
    head, tail := HunkLines(left, right, segments[0].ops, segments[0].section), SegmentLines(segments[1..], l, r);
    HunkComesFirst(segments, left, right);
  }

  lemma {:induction false} SilentThen(st: State, lines: seq<string>, t: State, more: seq<string>, all: seq<string>,
                                      covered: string -> bool)
    requires t == Run(st, lines, covered) && Alike(t, st) && all == lines + more && Alike(Run(t, more, covered), t)
    ensures Alike(Run(st, all, covered), st)
  {
    RunOn(st, lines, more, covered);
  }

  lemma {:induction false} HunkDoesntStray(st: State, left: nat, right: nat, ops: seq<Op>, section: string,
                                           more: seq<Op>, all: seq<Op>, covered: string -> bool)
    requires all == ops + more && !Strays(all, st.current, covered)
    ensures var t := Run(st, HunkLines(left, right, ops, section), covered);
            Alike(t, st) && !Strays(more, t.current, covered)
  {
    var line := HunkLine(left, right, ops, section);
    HunkStartIsRead(left, right, ops, section);
    var t := Step(st, line, covered);
    assert HunkLines(left, right, ops, section)[1..] == OpLines(ops);
    OpsDontStray(t, ops, more, covered);
  }

  predicate DoesNotStray(f: FileDiff, covered: string -> bool) { !Strays(AllOps(f.segments), None, covered) }

  lemma {:induction false} UncoveredIsSilent(st: State, f: FileDiff, covered: string -> bool)
    requires WellFormed(f) && InScope(f.path, covered).None? && DoesNotStray(f, covered)
    ensures Run(st, FileLines(f), covered).result == st.result
  {
    if f.segments == [] {
      assert FileLines(f) == f.headers;
      HeadersAreSkipped(st, f.headers, covered);
    } else {
      FrontThen(f);
      RunOn(st, Front(f), SegmentLines(f.segments, 0, 0), covered);
      FrontIsRead(st, f, covered);
      SegmentsDontStray(Run(st, Front(f), covered), f.segments, 0, 0, AllOps(f.segments),
                        SegmentLines(f.segments, 0, 0), covered);
    }
  }

  lemma {:induction false} FrontThen(f: FileDiff)
    requires f.segments != []
    ensures FileLines(f) == Front(f) + SegmentLines(f.segments, 0, 0)
  {
  }

  // ---- what the parser makes of a list of files ---------------------------------------------

  /** What the parser makes of a list of files without masked lines. */
  function Attributed(result: map<string, set<nat>>, files: seq<FileDiff>,
                      covered: string -> bool): map<string, set<nat>>
    decreases |files|
  {
    if files == [] then result
    else
      Attributed(ExtendIfCovered(result, InScope(files[0].path, covered), Reported(files[0].segments, 0)), files[1..],
                 covered)
  }

  lemma {:induction false} FilesAreAttributed(st: State, files: seq<FileDiff>, covered: string -> bool)
    requires forall k :: 0 <= k < |files| ==>
               WellFormed(files[k])
               && if InScope(files[k].path, covered).Some? then AllUnmasked(files[k].segments)
                  else DoesNotStray(files[k], covered)
    ensures Run(st, DiffLines(files), covered).result == Attributed(st.result, files, covered)
    decreases |files|
  {
    if files != [] {
      RunOn(st, FileLines(files[0]), DiffLines(files[1..]), covered);
      if InScope(files[0].path, covered).Some? {
        FileIsReported(st, files[0], covered);
      } else {
        UncoveredIsSilent(st, files[0], covered);
      }
      FilesAreAttributed(Run(st, FileLines(files[0]), covered), files[1..], covered);
    }
  }

  /** Each covered file appears once. */
  predicate Separate(files: seq<FileDiff>, covered: string -> bool) {
    forall j, k :: 0 <= j < k < |files| && InScope(files[j].path, covered).Some? ==>
      InScope(files[j].path, covered) != InScope(files[k].path, covered)
  }

  lemma {:induction false} FoundNowhere(result: map<string, set<nat>>, files: seq<FileDiff>, covered: string -> bool,
                                        path: string)
    requires forall k :: 0 <= k < |files| ==> InScope(files[k].path, covered) != Some(path)
    ensures Found(Attributed(result, files, covered), path) == Found(result, path)
    ensures Found(Wanted(result, files, covered), path) == Found(result, path)
    decreases |files|
  {
    if files != [] {
      assert InScope(files[0].path, covered) != Some(path);
      var scope := InScope(files[0].path, covered);
      FoundNowhere(ExtendIfCovered(result, scope, Reported(files[0].segments, 0)), files[1..], covered, path);
      FoundNowhere(ExtendIfCovered(result, scope, Added(files[0].segments, 0)), files[1..], covered, path);
    }
  }

  /** What is found and what is wanted for the k-th file. */
  lemma {:induction false} FoundOnce(a: map<string, set<nat>>, b: map<string, set<nat>>, files: seq<FileDiff>,
                                     covered: string -> bool, k: nat)
    requires Separate(files, covered) && k < |files| && InScope(files[k].path, covered).Some?
    requires var path := InScope(files[k].path, covered).value; Found(a, path) == Found(b, path) == {}
    ensures var path := InScope(files[k].path, covered).value;
            && Found(Attributed(a, files, covered), path) == Reported(files[k].segments, 0)
            && Found(Wanted(b, files, covered), path) == Added(files[k].segments, 0)
    decreases |files|
  {
    var path, scope := InScope(files[k].path, covered).value, InScope(files[0].path, covered);
    var a' := ExtendIfCovered(a, scope, Reported(files[0].segments, 0));
    var b' := ExtendIfCovered(b, scope, Added(files[0].segments, 0));
    assert Separate(files[1..], covered);
    if k == 0 {
      forall j | 0 <= j < |files[1..]| ensures InScope(files[1..][j].path, covered) != Some(path) {
        assert files[1..][j] == files[j + 1];
      }
      FoundNowhere(a', files[1..], covered, path);
      FoundNowhere(b', files[1..], covered, path);
    } else {
      assert scope != Some(path);
      assert files[1..][k - 1] == files[k];
      FoundOnce(a', b', files[1..], covered, k - 1);
    }
  }

  lemma {:induction false} CleanAttributed(result: map<string, set<nat>>, files: seq<FileDiff>, covered: string -> bool)
    requires forall k :: 0 <= k < |files| && InScope(files[k].path, covered).Some? ==> Clean(files[k].segments)
    ensures Attributed(result, files, covered) == Wanted(result, files, covered)
    decreases |files|
  {
    if files != [] {
      var scope := InScope(files[0].path, covered);
      if scope.Some? {
        assert Clean(files[0].segments);
        ReportedIsAdded(files[0].segments, 0);
      }
      CleanAttributed(ExtendIfCovered(result, scope, Added(files[0].segments, 0)), files[1..], covered);
    }
  }

  // ---- counting ------------------------------------------------------------------------------

  function Pairs(result: map<string, set<nat>>): set<(string, nat)> {
    set path, n | path in result && n in result[path] :: (path, n)
  }

  lemma {:induction false} StepAddsOne(st: State, line: string, covered: string -> bool)
    ensures |Pairs(Step(st, line, covered).result)| <= |Pairs(st.result)| + if Plus(line) then 1 else 0
  {
    if Plus(line) && st.current.Some? && !("@@" <= line) {
      RecordPairs(st.result, st.current.value, st.lineno);
    }
  }

  lemma {:induction false} RecordPairs(result: map<string, set<nat>>, path: string, n: nat)
    ensures Pairs(Record(result, path, n)) == Pairs(result) + {(path, n)}
  {
    var after := Record(result, path, n);
    forall p, m ensures (p, m) in Pairs(after) <==> (p, m) in Pairs(result) + {(path, n)} {
      assert after[path] == (if path in result then result[path] else {}) + {n};
    }
  }

  lemma {:induction false} PairsAtMost(st: State, lines: seq<string>, covered: string -> bool)
    ensures |Pairs(Run(st, lines, covered).result)| <= |Pairs(st.result)| + Pluses(lines)
    decreases |lines|
  {
    if lines != [] {
      StepAddsOne(st, lines[0], covered);
      PairsAtMost(Step(st, lines[0], covered), lines[1..], covered);
    }
  }

  /** How many lines are wanted of a file. */
  function Due(f: FileDiff, covered: string -> bool): nat {
    if InScope(f.path, covered).Some? then AllAdds(f.segments) else 0
  }

  function AllDue(files: seq<FileDiff>, covered: string -> bool): nat {
    if files == [] then 0 else Due(files[0], covered) + AllDue(files[1..], covered)
  }

  lemma {:induction false} FileGivesAtMost(st: State, f: FileDiff, covered: string -> bool)
    requires WellFormed(f) && (InScope(f.path, covered).None? ==> DoesNotStray(f, covered))
    ensures |Pairs(Run(st, FileLines(f), covered).result)| <= |Pairs(st.result)| + Due(f, covered)
    ensures InScope(f.path, covered).Some? && !AllUnmasked(f.segments) ==>
              |Pairs(Run(st, FileLines(f), covered).result)| < |Pairs(st.result)| + Due(f, covered)
  {
    if InScope(f.path, covered).None? {
      UncoveredIsSilent(st, f, covered);
    } else if f.segments == [] {
      assert FileLines(f) == f.headers;
      HeadersAreSkipped(st, f.headers, covered);
    } else {
      var lines := SegmentLines(f.segments, 0, 0);
      FrontThen(f);
      RunOn(st, Front(f), lines, covered);
      FrontIsRead(st, f, covered);
      PairsAtMost(Run(st, Front(f), covered), lines, covered);
      SegmentPluses(f.segments, 0, 0);
    }
  }

  lemma {:induction false} FilesGiveAtMost(st: State, files: seq<FileDiff>, covered: string -> bool)
    requires forall k :: 0 <= k < |files| ==>
               WellFormed(files[k]) && (InScope(files[k].path, covered).None? ==> DoesNotStray(files[k], covered))
    ensures |Pairs(Run(st, DiffLines(files), covered).result)| <= |Pairs(st.result)| + AllDue(files, covered)
    ensures (exists k :: 0 <= k < |files| && InScope(files[k].path, covered).Some?
                         && !AllUnmasked(files[k].segments)) ==>
              |Pairs(Run(st, DiffLines(files), covered).result)| < |Pairs(st.result)| + AllDue(files, covered)
    decreases |files|
  {
    if files != [] {
      RunOn(st, FileLines(files[0]), DiffLines(files[1..]), covered);
      FileGivesAtMost(st, files[0], covered);
      FilesGiveAtMost(Run(st, FileLines(files[0]), covered), files[1..], covered);
      if k :| 0 <= k < |files| && InScope(files[k].path, covered).Some? && !AllUnmasked(files[k].segments) {
        assert k > 0 ==> files[1..][k - 1] == files[k];
      }
    }
  }

  lemma {:induction false} ExtendAdds(result: map<string, set<nat>>, path: string, lines: set<nat>)
    requires Found(result, path) == {}
    ensures |Pairs(Extend(result, path, lines))| == |Pairs(result)| + |lines|
  {
    var more := Tagged(path, lines);
    TaggedSize(path, lines);
    if lines == {} {
      assert more == {};
    } else {
      assert Pairs(result) !! more;
      ExtendPairs(result, path, lines, more);
    }
  }

  lemma {:induction false} ExtendPairs(result: map<string, set<nat>>, path: string, lines: set<nat>,
                                       more: set<(string, nat)>)
    requires lines != {} && more == Tagged(path, lines)
    ensures Pairs(Extend(result, path, lines)) == Pairs(result) + more
  {
    var after := Extend(result, path, lines);
    forall p, n ensures (p, n) in Pairs(after) <==> (p, n) in Pairs(result) + more {
      assert after[path] == (if path in result then result[path] else {}) + lines;
    }
  }

  function Tagged(path: string, lines: set<nat>): set<(string, nat)> { set n | n in lines :: (path, n) }

  lemma {:induction false} TaggedSize(path: string, lines: set<nat>)
    ensures |Tagged(path, lines)| == |lines|
  {
    if lines == {} {
      assert Tagged(path, lines) == {};
    } else {
      var m :| m in lines;
      TaggedSize(path, lines - {m});
      assert Tagged(path, lines) == Tagged(path, lines - {m}) + {(path, m)};
    }
  }

  lemma {:induction false} WantedIsDue(result: map<string, set<nat>>, files: seq<FileDiff>, covered: string -> bool)
    requires Separate(files, covered)
    requires forall k :: 0 <= k < |files| && InScope(files[k].path, covered).Some? ==>
               Found(result, InScope(files[k].path, covered).value) == {}
    ensures |Pairs(Wanted(result, files, covered))| == |Pairs(result)| + AllDue(files, covered)
    decreases |files|
  {
    if files != [] {
      var scope, lines := InScope(files[0].path, covered), Added(files[0].segments, 0);
      var now := ExtendIfCovered(result, scope, lines);
      AddedAreCounted(files[0].segments, 0);
      if scope.Some? {
        ExtendAdds(result, scope.value, lines);
      }
      forall k | 0 <= k < |files[1..]| && InScope(files[1..][k].path, covered).Some?
        ensures Found(now, InScope(files[1..][k].path, covered).value) == {}
      {
        assert files[1..][k] == files[k + 1];
        if scope.Some? {
          assert InScope(files[0].path, covered) != InScope(files[k + 1].path, covered);
        }
      }
      assert Separate(files[1..], covered);
      WantedIsDue(now, files[1..], covered);
    }
  }

  /** As long as no file that is not covered strays, the report is right if and only if every covered
      file is clean. */
  lemma {:induction false} AllRightIffClean(files: seq<FileDiff>, covered: string -> bool)
    requires Separate(files, covered)
    requires forall k :: 0 <= k < |files| ==>
               && WellFormed(files[k]) && MarkersLast(files[k].segments)
               && (InScope(files[k].path, covered).None? ==> DoesNotStray(files[k], covered))
    ensures Run(EMPTY, DiffLines(files), covered).result == Wanted(map[], files, covered)
       <==> (forall k :: 0 <= k < |files| && InScope(files[k].path, covered).Some? ==> Clean(files[k].segments))
  {
    if k :| 0 <= k < |files| && InScope(files[k].path, covered).Some? && !AllUnmasked(files[k].segments) {
      FilesGiveAtMost(EMPTY, files, covered);
      WantedIsDue(map[], files, covered);
      assert !Clean(files[k].segments);
    } else {
      FilesAreAttributed(EMPTY, files, covered);
      UnmaskedRightIffClean(files, covered);
    }
  }

  lemma {:induction false} UnmaskedRightIffClean(files: seq<FileDiff>, covered: string -> bool)
    requires Separate(files, covered)
    requires forall k :: 0 <= k < |files| ==> MarkersLast(files[k].segments)
    requires forall k :: 0 <= k < |files| && InScope(files[k].path, covered).Some? ==> AllUnmasked(files[k].segments)
    ensures Attributed(map[], files, covered) == Wanted(map[], files, covered)
       <==> (forall k :: 0 <= k < |files| && InScope(files[k].path, covered).Some? ==> Clean(files[k].segments))
  {
    if k :| 0 <= k < |files| && InScope(files[k].path, covered).Some? && !Clean(files[k].segments) {
      FoundOnce(map[], map[], files, covered, k);
      var n := MarkerShifts(files[k].segments, 0);
      assert n !in Added(files[k].segments, 0);
    } else {
      CleanAttributed(map[], files, covered);
    }
  }

  /** A masked line in a file that is not covered can turn the parser to one that
      is: the next added line is reported for a file the diff does not touch. */
  lemma {:induction false} MaskRetargets(f: FileDiff, path: string, text: string, covered: string -> bool)
    requires WellFormed(f) && InScope(f.path, covered).None? && InScope(Some(path), covered).Some?
    requires Plain(path) && !Masked(Add(text))
    requires f.segments == [Hunk([Add("++ b/" + path), Add(text)], "")]
    ensures Run(EMPTY, FileLines(f), covered).result == map[path := {1}]
    ensures Wanted(map[], [f], covered) == map[]
  {
    Retargets(EMPTY, f, path, text, covered);
    assert [f][1..] == [];
  }

  lemma {:induction false} Retargets(st: State, f: FileDiff, path: string, text: string, covered: string -> bool)
    requires WellFormed(f) && InScope(f.path, covered).None? && InScope(Some(path), covered).Some?
    requires Plain(path) && !Masked(Add(text)) && st.result == map[]
    requires f.segments == [Hunk([Add("++ b/" + path), Add(text)], "")]
    ensures Run(st, FileLines(f), covered).result == map[path := {1}]
  {
    var ops := f.segments[0].ops;
    var lines := SegmentLines(f.segments, 0, 0);
    TwoAdded(f.segments, ops);
    RunOn(st, Front(f), lines, covered);
    FrontIsRead(st, f, covered);
    RetargetedLines(Run(st, Front(f), covered), lines, ops, path, text, covered);
    FrontThen(f);
  }

  /** The lines of a single hunk of two added lines. */
  lemma {:induction false} TwoAdded(segments: seq<Segment>, ops: seq<Op>)
    requires segments == [Hunk(ops, "")] && |ops| == 2 && ops[0].Add? && ops[1].Add?
    ensures SegmentLines(segments, 0, 0) == [HunkLine(0, 0, ops, ""), OpLine(ops[0]), OpLine(ops[1])]
    ensures NewLines(ops) == 2
  {
    assert segments[1..] == [] && ops[1..] == [ops[1]] && ops[1..][1..] == [];
    HunkComesFirst(segments, 0, 0);
    assert OpLines(ops) == [OpLine(ops[0])] + OpLines(ops[1..]);
    assert OpLines(ops[1..]) == [OpLine(ops[1])] + OpLines([]);
    assert NewLines(ops[1..][1..]) == 0 && NewLines(ops[1..]) == 1;
  }

  lemma {:induction false} RetargetedLines(st: State, lines: seq<string>, ops: seq<Op>, path: string, text: string,
                                           covered: string -> bool)
    requires ops == [Add("++ b/" + path), Add(text)] && NewLines(ops) == 2
    requires lines == [HunkLine(0, 0, ops, ""), OpLine(ops[0]), OpLine(ops[1])]
    requires st.current == None && st.result == map[] && InScope(Some(path), covered).Some?
    requires Plain(path) && !Masked(Add(text))
    ensures Run(st, lines, covered).result == map[path := {1}]
  {
    HunkStartIsRead(0, 0, ops, "");
    var a := Step(st, lines[0], covered);
    assert a == State(None, 1, map[]);
    MaskIsTarget(path);
    var b := Step(a, lines[1], covered);
    assert b == State(Some(path), 1, map[]);
    OpIsNumbered(b, ops[1], covered);
    var c := Step(b, lines[2], covered);
    assert c.result == map[path := {1}] by { assert {} + {1} == {1}; }
    assert lines[1..][1..][1..] == [] && lines[1..][1..] == [lines[2]];
    assert Run(st, lines, covered) == Run(a, lines[1..], covered) == Run(b, lines[1..][1..], covered)
        == Run(c, [], covered);
  }

  lemma {:induction false} MaskIsTarget(path: string)
    requires Plain(path)
    ensures var line := OpLine(Add("++ b/" + path)); "+++ " <= line && TargetPath(line) == path
  {
    var line := OpLine(Add("++ b/" + path));
    OpIsNoHeader(Add("++ b/" + path));
    assert line == "+++ " + ("b/" + path);
    assert line[4..] == ("b/" + path) + "";
    assert ("b/" + path)[|"b/" + path| - 1] == path[|path| - 1];
    StripEnd("b/" + path, "");
    assert ("b/" + path)[2..] == path;
  }

  /** A file's masked line can make up for one that another file lost: the report is right, though the
      covered file is not clean. */
  lemma {:induction false} StraysCompensate(f: FileDiff, g: FileDiff, path: string, other: string, text: string,
                                            covered: string -> bool)
    requires WellFormed(f) && f.path == Some(path) && InScope(f.path, covered).Some?
    requires Plain(other) && InScope(Some(other), covered).None?
    requires f.segments == [Hunk([Add("++ b/" + other)], "")]
    requires WellFormed(g) && InScope(g.path, covered).None? && !Masked(Add(text))
    requires g.segments == [Hunk([Add("++ b/" + path), Add(text)], "")]
    ensures Run(EMPTY, DiffLines([f, g]), covered).result == Wanted(map[], [f, g], covered) == map[path := {1}]
    ensures !Clean(f.segments)
  {
    var st := Run(EMPTY, FileLines(f), covered);
    OnlyMasked(f, path, other, covered);
    Retargets(st, g, path, text, covered);
    assert DiffLines([f, g]) == FileLines(f) + FileLines(g) by {
      assert [f, g][1..] == [g] && [g][1..] == [];
      assert DiffLines([g]) == FileLines(g) + DiffLines([]) && DiffLines([]) == [];
    }
    RunOn(EMPTY, FileLines(f), FileLines(g), covered);
    OneWanted(f, g, path, covered);
    assert Masked(f.segments[0].ops[0]);
  }

  lemma {:induction false} OneWanted(f: FileDiff, g: FileDiff, path: string, covered: string -> bool)
    requires InScope(f.path, covered) == Some(path) && InScope(g.path, covered).None?
    requires |f.segments| == 1 && f.segments[0].Hunk? && |f.segments[0].ops| == 1 && f.segments[0].ops[0].Add?
    ensures Wanted(map[], [f, g], covered) == map[path := {1}]
  {
    var ops := f.segments[0].ops;
    assert ops[1..] == [] && f.segments[1..] == [] && [f, g][1..] == [g] && [g][1..] == [];
    assert AddedByOps(ops, 0) == {1} + AddedByOps([], 1) == {1};
    assert Added(f.segments, 0) == {1} + Added([], NewLines(ops)) == {1};
    var r := ExtendIfCovered(map[], Some(path), {1});
    assert r == map[path := {1}] by { assert {} + {1} == {1}; }
    assert Wanted(map[], [f, g], covered) == Wanted(r, [g], covered);
    assert Wanted(r, [g], covered) == Wanted(r, [], covered) == r;
  }

  /** A file whose only added line is masked is not reported. */
  lemma {:induction false} OnlyMasked(f: FileDiff, path: string, other: string, covered: string -> bool)
    requires WellFormed(f) && Plain(other) && InScope(Some(other), covered).None?
    requires f.segments == [Hunk([Add("++ b/" + other)], "")]
    ensures Run(EMPTY, FileLines(f), covered).result == map[]
  {
    var ops := f.segments[0].ops;
    var lines := SegmentLines(f.segments, 0, 0);
    FrontThen(f);
    RunOn(EMPTY, Front(f), lines, covered);
    FrontIsRead(EMPTY, f, covered);
    OneAdded(f.segments, ops);
    MaskedLine(Run(EMPTY, Front(f), covered), lines, ops, other, covered);
  }

  lemma {:induction false} OneAdded(segments: seq<Segment>, ops: seq<Op>)
    requires segments == [Hunk(ops, "")] && |ops| == 1
    ensures SegmentLines(segments, 0, 0) == [HunkLine(0, 0, ops, ""), OpLine(ops[0])]
  {
    HunkComesFirst(segments, 0, 0);
    assert segments[1..] == [] && ops[1..] == [];
    assert OpLines(ops) == [OpLine(ops[0])] + OpLines([]);
  }

  lemma {:induction false} MaskedLine(st: State, lines: seq<string>, ops: seq<Op>, path: string,
                                      covered: string -> bool)
    requires ops == [Add("++ b/" + path)] && lines == [HunkLine(0, 0, ops, ""), OpLine(ops[0])]
    requires Plain(path) && InScope(Some(path), covered).None? && st.result == map[]
    ensures Run(st, lines, covered).result == map[]
  {
    HunkStartIsRead(0, 0, ops, "");
    MaskIsTarget(path);
    var a := Step(st, lines[0], covered);
    var b := Step(a, lines[1], covered);
    assert lines[1..][1..] == [];
    assert Run(st, lines, covered) == Run(a, lines[1..], covered) == Run(b, lines[1..][1..], covered) == b;
  }

  // ---- the report is the union of the files' own reports ---------------------------------------

  /** What the parser reports of a file by itself. */
  function Alone(f: FileDiff, covered: string -> bool): set<(string, nat)> {
    Pairs(Run(EMPTY, FileLines(f), covered).result)
  }

  lemma {:induction false} ResultsJoin(st: State, bare: State, lines: seq<string>, covered: string -> bool)
    requires bare == st.(result := map[])
    ensures Pairs(Run(st, lines, covered).result) == Pairs(st.result) + Pairs(Run(bare, lines, covered).result)
    decreases |lines|
  {
    if lines != [] {
      var s, b := Step(st, lines[0], covered), Step(bare, lines[0], covered);
      var none := s.(result := map[]);
      StepJoins(st, bare, lines[0], covered);
      ResultsJoin(s, none, lines[1..], covered);
      ResultsJoin(b, none, lines[1..], covered);
    }
  }

  lemma {:induction false} StepJoins(st: State, bare: State, line: string, covered: string -> bool)
    requires bare == st.(result := map[])
    ensures var s, b := Step(st, line, covered), Step(bare, line, covered);
            Pairs(s.result) == Pairs(st.result) + Pairs(b.result) && s.(result := map[]) == b.(result := map[])
  {
    if Plus(line) && st.current.Some? && !("@@" <= line) {
      RecordPairs(st.result, st.current.value, st.lineno);
      RecordPairs(map[], st.current.value, st.lineno);
    }
  }

  /** The number before the first hunk does not matter. */
  lemma {:induction false} AnyStart(st: State, lineno: nat, segments: seq<Segment>, left: nat, right: nat,
                                    covered: string -> bool)
    ensures Alike(Run(st, SegmentLines(segments, left, right), covered),
                  Run(st.(lineno := lineno), SegmentLines(segments, left, right), covered))
    decreases |segments|
  {
    if segments != [] {
      if segments[0].Hidden? {
        var count := segments[0].count;
        AnyStart(st, lineno, segments[1..], left + count, right + count, covered);
      } else {
        var lines := SegmentLines(segments, left, right);
        var line := HunkLine(left, right, segments[0].ops, segments[0].section);
        HunkComesFirst(segments, left, right);
        assert lines[0] == line;
        HunkStartIsRead(left, right, segments[0].ops, segments[0].section);
        SameAfter(st, st.(lineno := lineno), lines, covered);
      }
    }
  }

  lemma {:induction false} SameAfter(a: State, b: State, lines: seq<string>, covered: string -> bool)
    requires lines != [] && Step(a, lines[0], covered) == Step(b, lines[0], covered)
    ensures Alike(Run(a, lines, covered), Run(b, lines, covered))
  {
  }

  lemma {:induction false} FileJoins(st: State, f: FileDiff, covered: string -> bool)
    requires WellFormed(f)
    ensures Pairs(Run(st, FileLines(f), covered).result) == Pairs(st.result) + Alone(f, covered)
  {
    if f.segments == [] {
      assert FileLines(f) == f.headers;
      HeadersAreSkipped(st, f.headers, covered);
      HeadersAreSkipped(EMPTY, f.headers, covered);
    } else {
      var lines := SegmentLines(f.segments, 0, 0);
      var a, b := Run(st, Front(f), covered), Run(EMPTY, Front(f), covered);
      FrontThen(f);
      RunOn(st, Front(f), lines, covered);
      RunOn(EMPTY, Front(f), lines, covered);
      FrontIsRead(st, f, covered);
      FrontIsRead(EMPTY, f, covered);
      AnyStart(a, b.lineno, f.segments, 0, 0, covered);
      ResultsJoin(a.(lineno := b.lineno), b, lines, covered);
    }
  }

  function AllAlone(files: seq<FileDiff>, covered: string -> bool): set<(string, nat)> {
    if files == [] then {} else Alone(files[0], covered) + AllAlone(files[1..], covered)
  }

  /** The report of a diff is the union of the reports of its files, each by itself. */
  lemma {:induction false} ReportIsUnion(st: State, files: seq<FileDiff>, covered: string -> bool)
    requires forall k :: 0 <= k < |files| ==> WellFormed(files[k])
    ensures Pairs(Run(st, DiffLines(files), covered).result) == Pairs(st.result) + AllAlone(files, covered)
    decreases |files|
  {
    if files != [] {
      RunOn(st, FileLines(files[0]), DiffLines(files[1..]), covered);
      FileJoins(st, files[0], covered);
      ReportIsUnion(Run(st, FileLines(files[0]), covered), files[1..], covered);
    }
  }

  /** What is wanted of a file. */
  function Asked(f: FileDiff, covered: string -> bool): set<(string, nat)> {
    Pairs(ExtendIfCovered(map[], InScope(f.path, covered), Added(f.segments, 0)))
  }

  function AllAsked(files: seq<FileDiff>, covered: string -> bool): set<(string, nat)> {
    if files == [] then {} else Asked(files[0], covered) + AllAsked(files[1..], covered)
  }

  lemma {:induction false} ExtendJoins(result: map<string, set<nat>>, path: string, lines: set<nat>)
    ensures Pairs(Extend(result, path, lines)) == Pairs(result) + Tagged(path, lines)
  {
    if lines == {} {
      assert Tagged(path, lines) == {};
    } else {
      ExtendPairs(result, path, lines, Tagged(path, lines));
    }
  }

  lemma {:induction false} WantedIsAsked(result: map<string, set<nat>>, files: seq<FileDiff>, covered: string -> bool)
    ensures Pairs(Wanted(result, files, covered)) == Pairs(result) + AllAsked(files, covered)
    decreases |files|
  {
    if files != [] {
      var scope, lines := InScope(files[0].path, covered), Added(files[0].segments, 0);
      if scope.Some? {
        ExtendJoins(result, scope.value, lines);
        ExtendJoins(map[], scope.value, lines);
      }
      WantedIsAsked(ExtendIfCovered(result, scope, lines), files[1..], covered);
    }
  }

  predicate NoEmpty(result: map<string, set<nat>>) { forall path :: path in result ==> result[path] != {} }

  lemma {:induction false} RunNoEmpty(st: State, lines: seq<string>, covered: string -> bool)
    requires NoEmpty(st.result)
    ensures NoEmpty(Run(st, lines, covered).result)
    decreases |lines|
  {
    if lines != [] {
      RunNoEmpty(Step(st, lines[0], covered), lines[1..], covered);
    }
  }

  lemma {:induction false} WantedNoEmpty(result: map<string, set<nat>>, files: seq<FileDiff>, covered: string -> bool)
    requires NoEmpty(result)
    ensures NoEmpty(Wanted(result, files, covered))
    decreases |files|
  {
    if files != [] {
      WantedNoEmpty(ExtendIfCovered(result, InScope(files[0].path, covered), Added(files[0].segments, 0)), files[1..],
                    covered);
    }
  }

  lemma {:induction false} SamePairs(a: map<string, set<nat>>, b: map<string, set<nat>>)
    requires NoEmpty(a) && NoEmpty(b) && Pairs(a) <= Pairs(b)
    ensures forall path :: path in a ==> path in b && a[path] <= b[path]
  {
    forall path | path in a ensures path in b && a[path] <= b[path] {
      forall n | n in a[path] ensures path in b && n in b[path] {
        assert (path, n) in Pairs(a);
      }
      var n :| n in a[path];
    }
  }

  lemma {:induction false} SameIfPairs(a: map<string, set<nat>>, b: map<string, set<nat>>, p: set<(string, nat)>,
                                       q: set<(string, nat)>)
    requires NoEmpty(a) && NoEmpty(b) && Pairs(a) == p && Pairs(b) == q && q <= p
    ensures a == b <==> p <= q
  {
    if p <= q {
      SamePairs(a, b);
      SamePairs(b, a);
      assert a.Keys == b.Keys && forall path :: path in a ==> a[path] == b[path];
    }
  }

  /** If every covered file is clean, the report is right if and only if whatever strays from the other
      files was wanted anyway. */
  lemma {:induction false} RightIffStraysWanted(files: seq<FileDiff>, covered: string -> bool)
    requires forall k :: 0 <= k < |files| ==>
               WellFormed(files[k]) && (InScope(files[k].path, covered).Some? ==> Clean(files[k].segments))
    ensures Run(EMPTY, DiffLines(files), covered).result == Wanted(map[], files, covered)
       <==> (forall k :: 0 <= k < |files| ==> Within(files[k], covered, Pairs(Wanted(map[], files, covered))))
  {
    var result, wanted := Run(EMPTY, DiffLines(files), covered).result, Wanted(map[], files, covered);
    ReportIsUnion(EMPTY, files, covered);
    WantedIsAsked(map[], files, covered);
    UnionsAgree(files, covered, AllAsked(files, covered));
    assert Pairs(map[]) == {};
    RunNoEmpty(EMPTY, DiffLines(files), covered);
    WantedNoEmpty(map[], files, covered);
    SameIfPairs(result, wanted, AllAlone(files, covered), AllAsked(files, covered));
  }

  lemma {:induction false} CleanAlone(f: FileDiff, covered: string -> bool)
    requires WellFormed(f) && Clean(f.segments)
    ensures Alone(f, covered) == Asked(f, covered)
  {
    FileIsReported(EMPTY, f, covered);
    ReportedIsAdded(f.segments, 0);
  }

  lemma {:induction false} UnionsAgree(files: seq<FileDiff>, covered: string -> bool, all: set<(string, nat)>)
    requires forall k :: 0 <= k < |files| ==>
               WellFormed(files[k]) && (InScope(files[k].path, covered).Some? ==> Clean(files[k].segments))
    requires AllAsked(files, covered) <= all
    ensures AllAsked(files, covered) <= AllAlone(files, covered)
    ensures AllAlone(files, covered) <= all
       <==> (forall k :: 0 <= k < |files| ==> Within(files[k], covered, all))
    decreases |files|
  {
    if files != [] {
      UnionsAgree(files[1..], covered, all);
      if InScope(files[0].path, covered).Some? {
        CleanAlone(files[0], covered);
      }
      OthersWithin(files, covered, all);
    }
  }

  /** What the files that are not covered report lies within `all`. */
  predicate Within(f: FileDiff, covered: string -> bool, all: set<(string, nat)>) {
    InScope(f.path, covered).None? ==> Alone(f, covered) <= all
  }

  lemma {:induction false} OthersWithin(files: seq<FileDiff>, covered: string -> bool, all: set<(string, nat)>)
    requires files != []
    ensures (forall k :: 0 <= k < |files| ==> Within(files[k], covered, all))
       <==> Within(files[0], covered, all) && forall k :: 0 <= k < |files[1..]| ==> Within(files[1..][k], covered, all)
  {
    if forall k :: 0 <= k < |files[1..]| ==> Within(files[1..][k], covered, all) {
      forall k | 1 <= k < |files| ensures Within(files[k], covered, all) {
        assert files[1..][k - 1] == files[k];
      }
    } else {
      var k :| 0 <= k < |files[1..]| && !Within(files[1..][k], covered, all);
      assert files[1..][k] == files[k + 1];
    }
  }
}
