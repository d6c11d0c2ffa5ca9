/** The parser of the patch-coverage gate (changed_lines). */
module DiffCoverage {
  import opened Options
  import opened Text

  /** What the loop carries from line to line. */
  datatype State = State(current: Option<string>, lineno: nat, result: map<string, set<nat>>)

  const EMPTY := State(None, 0, map[])

  /** \d+(?:,\d+)? at the start of s: what is left after it. */
  function AfterRange(s: string): Option<string> {
    var d := Digits(s);
    if d == 0 then None
    else
      var t := s[d..];
      if t != [] && t[0] == ',' && Digits(t[1..]) > 0 then Some(t[1 + Digits(t[1..])..]) else Some(t)
  }

  /** The new-side start that the hunk pattern captures, or 0 without a match. */
  function HunkStart(line: string): nat {
    if !("@@ -" <= line) then 0
    else
      match AfterRange(line[4..])
      case None => 0
      case Some(s) =>
        if !(" +" <= s) then 0
        else
          var t := s[2..];
          match AfterRange(t)
          case None => 0
          case Some(u) =>
            AllDigits(t);
            if " @@" <= u then Number(t[..Digits(t)]) else 0
  }

  function TargetPath(line: string): string
    requires "+++ " <= line
  {
    var path := Strip(line[4..]);
    if "b/" <= path then path[2..] else path
  }

  function Record(result: map<string, set<nat>>, path: string, n: nat): map<string, set<nat>> {
    result[path := (if path in result then result[path] else {}) + {n}]
  }

  function Step(st: State, line: string, covered: string -> bool): State {
    if "+++ " <= line then
      var path := TargetPath(line);
      st.(current := if path != "/dev/null" && covered(path) then Some(path) else None)
    else if "@@" <= line then st.(lineno := HunkStart(line))
    else if st.current.None? then st
    else if "+" <= line then
      st.(result := Record(st.result, st.current.value, st.lineno), lineno := st.lineno + 1)
    else if "-" <= line then st
    else st.(lineno := st.lineno + 1)
  }

  function Run(st: State, lines: seq<string>, covered: string -> bool): State
    decreases |lines|
  {
    if lines == [] then st else Run(Step(st, lines[0], covered), lines[1..], covered)
  }

  lemma {:induction false} RunOn(st: State, lines: seq<string>, more: seq<string>, covered: string -> bool)
    ensures Run(st, lines + more, covered) == Run(Run(st, lines, covered), more, covered)
    decreases |lines|
  {
    if lines == [] {
      assert lines + more == more;
    } else {
      assert (lines + more)[1..] == lines[1..] + more;
      RunOn(Step(st, lines[0], covered), lines[1..], more, covered);
    }
  }

  method ChangedLines(diff: seq<string>, covered: string -> bool) returns (result: map<string, set<nat>>)
    ensures result == Run(EMPTY, diff, covered).result
  {
    result := map[];
    var current: Option<string> := None;
    var newLineno: nat := 0;
    for i := 0 to |diff|
      invariant Run(State(current, newLineno, result), diff[i..], covered) == Run(EMPTY, diff, covered)
    {
      var line := diff[i];
      assert diff[i..][1..] == diff[i + 1..];
      if "+++ " <= line {
        var path := Strip(line[4..]);
        if "b/" <= path { path := path[2..]; }
        current := if path != "/dev/null" && covered(path) then Some(path) else None;
      } else if "@@" <= line {
        newLineno := HunkStart(line);
      } else if current.Some? {
        if "+" <= line {
          var lines := if current.value in result then result[current.value] else {};
          result := result[current.value := lines + {newLineno}];
          newLineno := newLineno + 1;
        } else if !("-" <= line) {
          newLineno := newLineno + 1;
        }
      }
    }
  }
}
