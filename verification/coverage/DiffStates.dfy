/** How a stretch of lines moves the parser. */
module DiffStates {
  import opened UnifiedDiff
  import opened DiffSpec
  import opened DiffCoverage

  /** The state after a hunk: its lines are added to the current file. */
  predicate Advances(st: State, t: State, added: set<nat>) {
    t.current == st.current && t.result == ExtendIfCovered(st.result, st.current, added)
  }

  /** The same has been reported. */
  predicate Alike(s: State, t: State) { s.result == t.result }

  /** The numbers the parser gives to the added lines of a hunk: a marker counts
      as a line. */
  function Numbered(ops: seq<Op>, lineno: nat): set<nat> {
    if ops == [] then {}
    else
      match ops[0]
      case Add(_) => {lineno} + Numbered(ops[1..], lineno + 1)
      case Remove(_) => Numbered(ops[1..], lineno)
      case _ => Numbered(ops[1..], lineno + 1)
  }

  function Start(ops: seq<Op>, right: nat): nat { if NewLines(ops) == 0 then right else right + 1 }

  function Reported(segments: seq<Segment>, right: nat): set<nat> {
    if segments == [] then {}
    else
      match segments[0]
      case Hidden(count) => Reported(segments[1..], right + count)
      case Hunk(ops, _) => Numbered(ops, Start(ops, right)) + Reported(segments[1..], right + NewLines(ops))
  }

  predicate AllUnmasked(segments: seq<Segment>) {
    forall k :: 0 <= k < |segments| && segments[k].Hunk? ==> Unmasked(segments[k].ops)
  }
}
