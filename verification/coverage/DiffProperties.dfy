/** The parser inverts the printer, and exactly when it does. */
module DiffProperties {
  import opened Options
  import opened Text
  import opened UnifiedDiff
  import opened DiffSpec
  import opened DiffCoverage
  import opened DiffStates

  // ---- hunk headers ---------------------------------------------------------------

  lemma {:induction false} RangeIsRead(before: nat, count: nat, rest: string)
    requires rest != [] && rest[0] == ' '
    ensures AfterRange(Range(before, count) + rest) == Some(rest)
    ensures var s := Range(before, count) + rest;
            Digits(s) > 0 && (forall i :: 0 <= i < Digits(s) ==> IsDigit(s[i]))
            && Number(s[..Digits(s)]) == if count == 0 then before else before + 1
  {
    var start := if count == 0 then before else before + 1;
    var digits, tail := Decimal(start), CountThen(count, rest);
    assert Range(before, count) + rest == digits + tail;
    CountIsRead(count, rest);
    DecimalIsNumber(start);
    DigitsRead(digits, tail, digits + tail);
  }

  lemma {:induction false} DigitsRead(digits: string, tail: string, s: string)
    requires s == digits + tail && tail != [] && !IsDigit(tail[0])
    requires digits != [] && forall i :: 0 <= i < |digits| ==> IsDigit(digits[i])
    ensures Digits(s) == |digits| && s[..|digits|] == digits && s[|digits|..] == tail
  {
    DigitsThen(digits, tail);
  }

  /** What follows the start of a range. */
  function CountThen(count: nat, rest: string): string { (if count == 1 then "" else "," + Decimal(count)) + rest }

  lemma {:induction false} CountIsRead(count: nat, rest: string)
    requires rest != [] && rest[0] == ' '
    ensures var t := CountThen(count, rest);
            && t != [] && !IsDigit(t[0])
            && (if t[0] == ',' && Digits(t[1..]) > 0 then t[1 + Digits(t[1..])..] else t) == rest
  {
    var t := CountThen(count, rest);
    if count == 1 {
      assert t == rest;
    } else {
      assert t[1..] == Decimal(count) + rest;
      DigitsThen(Decimal(count), rest);
      assert t[1 + |Decimal(count)|..] == rest;
    }
  }

  lemma {:induction false} Dropped(p: string, s: string)
    ensures p <= p + s && (p + s)[|p|..] == s
  {
  }

  lemma {:induction false} DifferentStart(p: string, s: string)
    requires p != [] && s != [] && p[0] != s[0]
    ensures !(p <= s)
  {
  }

  lemma {:induction false} PrefixOfPrefix(p: string, q: string, s: string)
    requires p <= q <= s
    ensures p <= s
  {
  }

  lemma {:induction false} PrefixAfter(c: char, p: string, s: string)
    ensures [c] + p <= [c] + s <==> p <= s
  {
    if p <= s { assert ([c] + s)[..1 + |p|] == [c] + s[..|p|]; }
    if [c] + p <= [c] + s {
      forall i | 0 <= i < |p| ensures p[i] == s[i] { assert ([c] + p)[i + 1] == ([c] + s)[i + 1]; }
    }
  }

  lemma {:induction false} HunkStartIsRead(left: nat, right: nat, ops: seq<Op>, section: string)
    ensures var line := HunkLine(left, right, ops, section);
            "@@" <= line && !("+++ " <= line)
            && HunkStart(line) == if NewLines(ops) == 0 then right else right + 1
  {
    var line := HunkLine(left, right, ops, section);
    var a, b := Range(left, OldLines(ops)), Range(right, NewLines(ops));
    var rest := " @@" + section;
    var afterNew := b + rest;
    var afterOld := " +" + afterNew;
    Dropped("@@ -", a + afterOld);
    RangeIsRead(left, OldLines(ops), afterOld);
    Dropped(" +", afterNew);
    RangeIsRead(right, NewLines(ops), rest);
    Dropped(" @@", section);
    PrefixOfPrefix("@@", "@@ -", line);
    DifferentStart("+++ ", line);
    StartOf(line, a, afterOld, afterNew, rest);
  }

  /** The pattern, matched piece by piece. */
  lemma {:induction false} StartOf(line: string, a: string, afterOld: string, afterNew: string, rest: string)
    requires "@@ -" <= line && line[4..] == a + afterOld && AfterRange(a + afterOld) == Some(afterOld)
    requires " +" <= afterOld && afterOld[2..] == afterNew && AfterRange(afterNew) == Some(rest) && " @@" <= rest
    ensures forall i :: 0 <= i < Digits(afterNew) ==> IsDigit(afterNew[i])
    ensures HunkStart(line) == Number(afterNew[..Digits(afterNew)])
  {
    AllDigits(afterNew);
  }

  // ---- target lines -----------------------------------------------------------------

  lemma {:induction false} TargetIsRead(path: string)
    requires Plain(path)
    ensures "+++ " <= TargetLine(Some(path)) && TargetPath(TargetLine(Some(path))) == path
  {
    var line := TargetLine(Some(path));
    var blank := if ' ' in path then "\t" else "";
    assert line == "+++ " + (("b/" + path) + blank);
    assert line[4..] == ("b/" + path) + blank;
    assert ("b/" + path)[|"b/" + path| - 1] == path[|path| - 1];
    StripEnd("b/" + path, blank);
    assert ("b/" + path)[2..] == path;
  }

  lemma {:induction false} DeletedIsRead()
    ensures var line := TargetLine(None); "+++ " <= line && TargetPath(line) == "/dev/null"
  {
    var line := TargetLine(None);
    assert line[4..] == "/dev/null" + "";
    assert "/dev/null"[8] == 'l';
    StripEnd("/dev/null", "");
  }

  // ---- one hunk --------------------------------------------------------------------------

  lemma {:induction false} OpIsNoHeader(op: Op)
    ensures !("@@" <= OpLine(op))
    ensures "+++ " <= OpLine(op) <==> Masked(op)
    ensures "+" <= OpLine(op) <==> op.Add?
    ensures "-" <= OpLine(op) <==> op.Remove?
  {
    var line := OpLine(op);
    DifferentStart("@@", line);
    if op.Add? {
      Dropped("+", op.text);
      DifferentStart("-", line);
      PrefixAfter('+', "++ ", op.text);
      assert ['+'] + "++ " == "+++ ";
    } else {
      DifferentStart("+", line);
      DifferentStart("+++ ", line);
      if op.Remove? { Dropped("-", op.text); } else { DifferentStart("-", line); }
    }
  }

  lemma {:induction false} ExtendTwice(result: map<string, set<nat>>, path: string, a: set<nat>, b: set<nat>)
    ensures Extend(Extend(result, path, a), path, b) == Extend(result, path, a + b)
  {
    if a == {} { assert a + b == b; }
    if b == {} { assert a + b == a; }
    var old_ := if path in result then result[path] else {};
    assert old_ + (a + b) == (old_ + a) + b;
  }

  /** One line of a hunk. */
  lemma {:induction false} OpIsNumbered(st: State, op: Op, covered: string -> bool)
    requires !Masked(op)
    ensures var t := Step(st, OpLine(op), covered);
            && t.current == st.current
            && t.result == ExtendIfCovered(st.result, st.current, if op.Add? then {st.lineno} else {})
            && (st.current.Some? ==> t.lineno == if op.Remove? then st.lineno else st.lineno + 1)
  {
    OpIsNoHeader(op);
  }

  lemma {:induction false} OpsAreNumbered(st: State, ops: seq<Op>, covered: string -> bool)
    requires Unmasked(ops)
    ensures var t := Run(st, OpLines(ops), covered);
            t.current == st.current
            && t.result == ExtendIfCovered(st.result, st.current, Numbered(ops, st.lineno))
    decreases |ops|
  {
    if ops != [] {
      var st' := Step(st, OpLine(ops[0]), covered);
      OpIsNumbered(st, ops[0], covered);
      OpsAreNumbered(st', ops[1..], covered);
      OpThenRest(st, st', ops, ops[1..], OpLines(ops[1..]), covered);
    }
  }

  lemma {:induction false} OpThenRest(st: State, t: State, ops: seq<Op>, rest: seq<Op>, lines: seq<string>,
                                      covered: string -> bool)
    requires ops != [] && rest == ops[1..] && lines == OpLines(rest)
    requires t == Step(st, OpLine(ops[0]), covered) && t.current == st.current
    requires t.result == ExtendIfCovered(st.result, st.current, if ops[0].Add? then {st.lineno} else {})
    requires st.current.Some? ==> t.lineno == if ops[0].Remove? then st.lineno else st.lineno + 1
    requires var u := Run(t, lines, covered);
             u.current == t.current && u.result == ExtendIfCovered(t.result, t.current, Numbered(rest, t.lineno))
    ensures var u := Run(st, OpLines(ops), covered);
            u.current == st.current && u.result == ExtendIfCovered(st.result, st.current, Numbered(ops, st.lineno))
  {
    assert OpLines(ops)[0] == OpLine(ops[0]) && OpLines(ops)[1..] == lines;
    assert Run(st, OpLines(ops), covered) == Run(t, lines, covered);
    if st.current.Some? {
      NumberedNext(ops, rest, st.lineno, t.lineno);
      ExtendTwice(st.result, st.current.value, if ops[0].Add? then {st.lineno} else {}, Numbered(rest, t.lineno));
    }
  }

  lemma {:induction false} NumberedNext(ops: seq<Op>, rest: seq<Op>, n: nat, next: nat)
    requires ops != [] && rest == ops[1..] && next == if ops[0].Remove? then n else n + 1
    ensures Numbered(ops, n) == (if ops[0].Add? then {n} else {}) + Numbered(rest, next)
  {
  }

  /** Where no marker precedes an added line, the numbers are right. */
  lemma {:induction false} NumberedIsAdded(ops: seq<Op>, before: nat, lineno: nat)
    requires MarkersAfter(ops) && (NewLines(ops) > 0 ==> lineno == before + 1)
    ensures Numbered(ops, lineno) == AddedByOps(ops, before)
    decreases |ops|
  {
    if ops != [] {
      assert MarkersAfter(ops[1..]) by {
        forall j, k | 0 <= j < k < |ops[1..]| && ops[1..][j].NoNewline? ensures !ops[1..][k].Add? {
          assert ops[j + 1].NoNewline? && !ops[k + 1].Add?;
        }
      }
      match ops[0]
      case NoNewline =>
        forall k | 0 <= k < |ops[1..]| ensures !ops[1..][k].Add? { assert !ops[k + 1].Add?; }
        NothingAdded(ops[1..], before, lineno + 1);
      case Remove(_) => NumberedIsAdded(ops[1..], before, lineno);
      case _ => NumberedIsAdded(ops[1..], before + 1, lineno + 1);
    }
  }

  lemma {:induction false} NothingAdded(ops: seq<Op>, before: nat, lineno: nat)
    requires forall k :: 0 <= k < |ops| ==> !ops[k].Add?
    ensures Numbered(ops, lineno) == AddedByOps(ops, before) == {}
    decreases |ops|
  {
    if ops != [] {
      NothingAdded(ops[1..], before, lineno);
      NothingAdded(ops[1..], before, lineno + 1);
      NothingAdded(ops[1..], before + 1, lineno + 1);
    }
  }

  // ---- files ---------------------------------------------------------------------------

  lemma {:induction false} HunkIsRead(st: State, left: nat, right: nat, ops: seq<Op>, section: string,
                                      covered: string -> bool)
    requires Unmasked(ops)
    ensures Advances(st, Run(st, HunkLines(left, right, ops, section), covered),
                     Numbered(ops, Start(ops, right)))
  {
    var line := HunkLine(left, right, ops, section);
    HunkStartIsRead(left, right, ops, section);
    var st' := Step(st, line, covered);
    assert HunkLines(left, right, ops, section)[1..] == OpLines(ops);
    OpsAreNumbered(st', ops, covered);
  }

  lemma {:induction false} FirstHunkIsRead(st: State, left: nat, right: nat, ops: seq<Op>, section: string,
                                           tail: seq<string>, lines: seq<string>, a: set<nat>, covered: string -> bool)
      returns (t: State)
    requires Unmasked(ops) && lines == HunkLines(left, right, ops, section) + tail
    requires a == Numbered(ops, Start(ops, right))
    ensures Run(st, lines, covered) == Run(t, tail, covered) && Advances(st, t, a)
  {
    RunOn(st, HunkLines(left, right, ops, section), tail, covered);
    HunkIsRead(st, left, right, ops, section, covered);
    t := Run(st, HunkLines(left, right, ops, section), covered);
  }

  lemma {:induction false} Joined(st: State, t: State, lines: seq<string>, tail: seq<string>,
                                  a: set<nat>, b: set<nat>, both: set<nat>, covered: string -> bool)
    requires Run(st, lines, covered) == Run(t, tail, covered) && both == a + b
    requires Advances(st, t, a) && Advances(t, Run(t, tail, covered), b)
    ensures Advances(st, Run(st, lines, covered), both)
  {
    if st.current.Some? { ExtendTwice(st.result, st.current.value, a, b); }
  }

  lemma {:induction false} HunkComesFirst(segments: seq<Segment>, left: nat, right: nat)
    requires segments != [] && segments[0].Hunk?
    ensures var ops := segments[0].ops;
            SegmentLines(segments, left, right) == HunkLines(left, right, ops, segments[0].section)
              + SegmentLines(segments[1..], left + OldLines(ops), right + NewLines(ops))
            && Reported(segments, right) == Numbered(ops, Start(ops, right)) + Reported(segments[1..],
                                                                                        right + NewLines(ops))
  {
  }

  lemma {:induction false} HunkThenRest(segments: seq<Segment>, left: nat, right: nat, ops: seq<Op>, section: string,
                                        l: nat, r: nat)
    requires segments != [] && segments[0] == Hunk(ops, section)
    requires l == left + OldLines(ops) && r == right + NewLines(ops)
    ensures SegmentLines(segments, left, right)
            == HunkLines(left, right, ops, section) + SegmentLines(segments[1..], l, r)
    ensures Reported(segments, right) == Numbered(ops, Start(ops, right)) + Reported(segments[1..], r)
  {
    HunkComesFirst(segments, left, right);
  }

  lemma {:induction false} HiddenComesFirst(segments: seq<Segment>, left: nat, right: nat, l: nat, r: nat)
    requires segments != [] && segments[0].Hidden?
    requires l == left + segments[0].count && r == right + segments[0].count
    ensures SegmentLines(segments, left, right) == SegmentLines(segments[1..], l, r)
    ensures Reported(segments, right) == Reported(segments[1..], r)
  {
  }

  lemma {:induction false} NothingReported(st: State, segments: seq<Segment>, left: nat, right: nat,
                                           covered: string -> bool)
    requires segments == []
    ensures Advances(st, Run(st, SegmentLines(segments, left, right), covered), Reported(segments, right))
  {
  }

  lemma {:induction false} SegmentsAreReported(st: State, segments: seq<Segment>, left: nat, right: nat,
                                               covered: string -> bool)
    requires AllUnmasked(segments)
    ensures Advances(st, Run(st, SegmentLines(segments, left, right), covered), Reported(segments, right))
    decreases |segments|
  {
    if segments == [] {
      NothingReported(st, segments, left, right, covered);
    } else if segments[0].Hidden? {
      var l, r := left + segments[0].count, right + segments[0].count;
      HiddenComesFirst(segments, left, right, l, r);
      SegmentsAreReported(st, segments[1..], l, r, covered);
    } else {
      var rest, ops, section := segments[1..], segments[0].ops, segments[0].section;
      var l, r := left + OldLines(ops), right + NewLines(ops);
      var tail, lines := SegmentLines(rest, l, r), SegmentLines(segments, left, right);
      var a, b, both := Numbered(ops, Start(ops, right)), Reported(rest, r), Reported(segments, right);
      HunkThenRest(segments, left, right, ops, section, l, r);
      var t := FirstHunkIsRead(st, left, right, ops, section, tail, lines, a, covered);
      SegmentsAreReported(t, rest, l, r, covered);
      Joined(st, t, lines, tail, a, b, both, covered);
    }
  }

  lemma {:induction false} ReportedIsAdded(segments: seq<Segment>, right: nat)
    requires Clean(segments)
    ensures Reported(segments, right) == Added(segments, right)
    decreases |segments|
  {
    if segments != [] {
      assert Clean(segments[1..]);
      match segments[0]
      case Hidden(count) => ReportedIsAdded(segments[1..], right + count);
      case Hunk(ops, _) =>
        NumberedIsAdded(ops, right, Start(ops, right));
        ReportedIsAdded(segments[1..], right + NewLines(ops));
    }
  }

  lemma {:induction false} HeadersAreSkipped(st: State, headers: seq<string>, covered: string -> bool)
    requires forall k :: 0 <= k < |headers| ==> Header(headers[k])
    ensures var t := Run(st, headers, covered); t.result == st.result && t.current == st.current
    decreases |headers|
  {
    if headers != [] {
      assert Header(headers[0]);
      if "+++ " <= headers[0] {
        PrefixOfPrefix("+", "+++ ", headers[0]);
        assert false;
      }
      HeadersAreSkipped(Step(st, headers[0], covered), headers[1..], covered);
    }
  }

  lemma {:induction false} NameLinesAreRead(st: State, f: FileDiff, covered: string -> bool)
    requires WellFormed(f)
    ensures var t := Run(st, ["--- " + f.oldName, TargetLine(f.path)], covered);
            t.result == st.result && t.current == InScope(f.path, covered)
  {
    var a, b := "--- " + f.oldName, TargetLine(f.path);
    Dropped("--- ", f.oldName);
    PrefixOfPrefix("-", "--- ", a);
    DifferentStart("+++ ", a);
    DifferentStart("@@", a);
    DifferentStart("+", a);
    if f.path.Some? { TargetIsRead(f.path.value); } else { DeletedIsRead(); }
    assert Step(st, a, covered) == st;
    assert [a, b][1..] == [b] && [b][1..] == [];
    assert Run(st, [a, b], covered) == Run(st, [b], covered) == Run(Step(st, b, covered), [], covered);
  }

  /** What precedes the hunks. */
  function Front(f: FileDiff): seq<string> { f.headers + ["--- " + f.oldName, TargetLine(f.path)] }

  lemma {:induction false} FrontIsRead(st: State, f: FileDiff, covered: string -> bool)
    requires WellFormed(f)
    ensures var t := Run(st, Front(f), covered); t.result == st.result && t.current == InScope(f.path, covered)
  {
    RunOn(st, f.headers, ["--- " + f.oldName, TargetLine(f.path)], covered);
    HeadersAreSkipped(st, f.headers, covered);
    NameLinesAreRead(Run(st, f.headers, covered), f, covered);
  }

  lemma {:induction false} FileIsReported(st: State, f: FileDiff, covered: string -> bool)
    requires WellFormed(f) && AllUnmasked(f.segments)
    ensures Run(st, FileLines(f), covered).result
         == ExtendIfCovered(st.result, InScope(f.path, covered), Reported(f.segments, 0))
  {
    if f.segments == [] {
      assert FileLines(f) == f.headers;
      HeadersAreSkipped(st, f.headers, covered);
    } else {
      assert FileLines(f) == Front(f) + SegmentLines(f.segments, 0, 0);
      RunOn(st, Front(f), SegmentLines(f.segments, 0, 0), covered);
      FrontIsRead(st, f, covered);
      SegmentsAreReported(Run(st, Front(f), covered), f.segments, 0, 0, covered);
    }
  }

  /** The parser inverts the printer: for every diff, whatever its context, the
      covered files map to exactly the numbers of their added lines. */
  lemma {:induction false} DiffIsRead(st: State, files: seq<FileDiff>, covered: string -> bool)
    requires forall k :: 0 <= k < |files| ==> WellFormed(files[k]) && Clean(files[k].segments)
    ensures Run(st, DiffLines(files), covered).result == Wanted(st.result, files, covered)
    decreases |files|
  {
    if files != [] {
      RunOn(st, FileLines(files[0]), DiffLines(files[1..]), covered);
      FileIsReported(st, files[0], covered);
      ReportedIsAdded(files[0].segments, 0);
      DiffIsRead(Run(st, FileLines(files[0]), covered), files[1..], covered);
    }
  }

  // ---- what is wanted, line by line ----------------------------------------------------

  /** For each line of the new file, whether it was added. */
  function MarksOfOps(ops: seq<Op>): seq<bool> {
    if ops == [] then []
    else (if ops[0].Keep? || ops[0].Add? then [ops[0].Add?] else []) + MarksOfOps(ops[1..])
  }

  function Marks(segments: seq<Segment>): seq<bool> {
    if segments == [] then []
    else
      (match segments[0]
       case Hidden(count) => seq(count, _ => false)
       case Hunk(ops, _) => MarksOfOps(ops)) + Marks(segments[1..])
  }

  lemma {:induction false} AddedByOpsAreMarked(ops: seq<Op>, before: nat, n: nat)
    ensures |MarksOfOps(ops)| == NewLines(ops)
    ensures n in AddedByOps(ops, before) <==> before < n <= before + NewLines(ops) && MarksOfOps(ops)[n - before - 1]
    decreases |ops|
  {
    if ops != [] {
      var marks, rest := MarksOfOps(ops), MarksOfOps(ops[1..]);
      if ops[0].Keep? || ops[0].Add? {
        AddedByOpsAreMarked(ops[1..], before + 1, n);
        assert marks == [ops[0].Add?] + rest;
        if before + 1 < n <= before + |marks| { assert marks[n - before - 1] == rest[n - before - 2]; }
      } else {
        AddedByOpsAreMarked(ops[1..], before, n);
        assert marks == rest;
      }
    }
  }

  lemma {:induction false} AddedAreMarked(segments: seq<Segment>, before: nat, n: nat)
    ensures n in Added(segments, before) <==>
              before < n <= before + |Marks(segments)| && Marks(segments)[n - before - 1]
    decreases |segments|
  {
    if segments != [] {
      var rest, count := Marks(segments[1..]), FirstLines(segments[0]);
      AddedAreMarked(segments[1..], before + count, n);
      FirstIsMarked(segments, before, n);
      JoinedMarks(FirstMarks(segments[0]), rest, before, n);
    }
  }

  function FirstLines(s: Segment): nat { if s.Hidden? then s.count else NewLines(s.ops) }

  function FirstMarks(s: Segment): seq<bool> { if s.Hidden? then seq(s.count, _ => false) else MarksOfOps(s.ops) }

  lemma {:induction false} FirstIsMarked(segments: seq<Segment>, before: nat, n: nat)
    requires segments != []
    ensures var first, rest := FirstMarks(segments[0]), segments[1..];
            && |first| == FirstLines(segments[0]) && Marks(segments) == first + Marks(rest)
            && (n in Added(segments, before) <==>
                  (before < n <= before + |first| && first[n - before - 1]) || n in Added(rest, before + |first|))
  {
    if segments[0].Hunk? {
      AddedByOpsAreMarked(segments[0].ops, before, n);
    }
  }

  lemma {:induction false} JoinedMarks(a: seq<bool>, b: seq<bool>, before: nat, n: nat)
    ensures before < n <= before + |a + b| && (a + b)[n - before - 1]
       <==> (before < n <= before + |a| && a[n - before - 1])
            || (before + |a| < n <= before + |a| + |b| && b[n - before - |a| - 1])
  {
  }

  predicate AddedIn(files: seq<FileDiff>, covered: string -> bool, path: string, n: nat) {
    exists k :: 0 <= k < |files| && InScope(files[k].path, covered) == Some(path) && n in Added(files[k].segments, 0)
  }

  lemma {:induction false} WantedIsUnion(result: map<string, set<nat>>, files: seq<FileDiff>, covered: string -> bool,
                                         path: string, n: nat)
    ensures var w := Wanted(result, files, covered);
            path in w && n in w[path] <==> (path in result && n in result[path]) || AddedIn(files, covered, path, n)
    decreases |files|
  {
    if files != [] {
      var now := ExtendIfCovered(result, InScope(files[0].path, covered), Added(files[0].segments, 0));
      WantedIsUnion(now, files[1..], covered, path, n);
      assert AddedIn(files[1..], covered, path, n) ==> AddedIn(files, covered, path, n) by {
        if AddedIn(files[1..], covered, path, n) {
          var k :| 0 <= k < |files[1..]| && InScope(files[1..][k].path, covered) == Some(path)
                   && n in Added(files[1..][k].segments, 0);
          assert files[1..][k] == files[k + 1];
        }
      }
      if AddedIn(files, covered, path, n) {
        var k :| 0 <= k < |files| && InScope(files[k].path, covered) == Some(path) && n in Added(files[k].segments, 0);
        if k > 0 { assert files[1..][k - 1] == files[k]; }
      }
    }
  }

  /** changed_lines on a printed diff: a number is reported for a file exactly if
      that line of the file was added. */
  lemma {:induction false} ReportedIffAdded(files: seq<FileDiff>, covered: string -> bool, path: string, n: nat)
    requires forall k :: 0 <= k < |files| ==> WellFormed(files[k]) && Clean(files[k].segments)
    ensures var result := Run(EMPTY, DiffLines(files), covered).result;
            path in result && n in result[path] <==> MarkedIn(files, covered, path, n)
  {
    DiffIsRead(EMPTY, files, covered);
    WantedIsUnion(map[], files, covered, path, n);
    AddedIsMarked(files, covered, path, n);
  }

  /** Line `n` of the new file was added. */
  predicate IsMarked(segments: seq<Segment>, n: nat) { 0 < n <= |Marks(segments)| && Marks(segments)[n - 1] }

  predicate MarkedIn(files: seq<FileDiff>, covered: string -> bool, path: string, n: nat) {
    exists k :: 0 <= k < |files| && InScope(files[k].path, covered) == Some(path) && IsMarked(files[k].segments, n)
  }

  lemma {:induction false} AddedIsMarked(files: seq<FileDiff>, covered: string -> bool, path: string, n: nat)
    ensures AddedIn(files, covered, path, n) <==> MarkedIn(files, covered, path, n)
  {
    forall k | 0 <= k < |files| ensures n in Added(files[k].segments, 0) <==> IsMarked(files[k].segments, n) {
      AddedAreMarked(files[k].segments, 0, n);
    }
  }
}
