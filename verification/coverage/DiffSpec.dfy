/** Which diffs the parser is meant for, and what it should make of them. */
module DiffSpec {
  import opened Options
  import opened Text
  import opened UnifiedDiff

  /** A path that survives strip() and the quoting of git. */
  predicate Plain(path: string) { path != [] && !IsSpace(path[|path| - 1]) }

  // ---- what a diff must look like -----------------------------------------------------

  /** An added line whose text looks like the end of a target line. */
  predicate Masked(op: Op) { op.Add? && "++ " <= op.text }

  predicate Unmasked(ops: seq<Op>) { forall k :: 0 <= k < |ops| ==> !Masked(ops[k]) }

  /** No marker comes before an added line. */
  predicate MarkersAfter(ops: seq<Op>) {
    forall j, k :: 0 <= j < k < |ops| && ops[j].NoNewline? ==> !ops[k].Add?
  }

  predicate Clean(segments: seq<Segment>) {
    forall k :: 0 <= k < |segments| && segments[k].Hunk? ==> Unmasked(segments[k].ops) && MarkersAfter(segments[k].ops)
  }

  /** Extended headers begin with a word. */
  predicate Header(line: string) { !("+" <= line) && !("@@" <= line) }

  predicate WellFormed(f: FileDiff) {
    (forall k :: 0 <= k < |f.headers| ==> Header(f.headers[k])) && (f.path.Some? ==> Plain(f.path.value))
  }

  /** The file the parser attributes lines to. */
  function InScope(path: Option<string>, covered: string -> bool): Option<string> {
    if path.Some? && path.value != "/dev/null" && covered(path.value) then path else None
  }

  function Extend(result: map<string, set<nat>>, path: string, lines: set<nat>): map<string, set<nat>> {
    if lines == {} then result
    else result[path := (if path in result then result[path] else {}) + lines]
  }

  /** What the gate wants to know of a diff: the added lines of each covered file. */
  function ExtendIfCovered(result: map<string, set<nat>>, current: Option<string>,
                           lines: set<nat>): map<string, set<nat>> {
    if current.None? then result else Extend(result, current.value, lines)
  }

  function Wanted(result: map<string, set<nat>>, files: seq<FileDiff>, covered: string -> bool): map<string, set<nat>>
    decreases |files|
  {
    if files == [] then result
    else
      Wanted(ExtendIfCovered(result, InScope(files[0].path, covered), Added(files[0].segments, 0)), files[1..], covered)
  }
}
