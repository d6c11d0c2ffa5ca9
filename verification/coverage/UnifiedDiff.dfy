/** Unified diffs as git prints them, for any choice of context. */
module UnifiedDiff {
  import opened Options
  import opened Text

  /** One line of a hunk; NoNewline follows a line that ends its side without a
      newline. */
  datatype Op = Keep(text: string) | Add(text: string) | Remove(text: string) | NoNewline

  /** A file is compared in stretches: kept lines that are not shown, and hunks. */
  datatype Segment = Hidden(count: nat) | Hunk(ops: seq<Op>, section: string)

  /** `headers` are the lines from "diff --git" to "index"; a deleted file has
      no path. */
  datatype FileDiff = FileDiff(headers: seq<string>, oldName: string, path: Option<string>, segments: seq<Segment>)

  function OpLine(op: Op): string {
    match op
    case Keep(text) => " " + text
    case Add(text) => "+" + text
    case Remove(text) => "-" + text
    case NoNewline => "\\ No newline at end of file"
  }

  function NewLines(ops: seq<Op>): nat {
    if ops == [] then 0 else (if ops[0].Keep? || ops[0].Add? then 1 else 0) + NewLines(ops[1..])
  }

  function OldLines(ops: seq<Op>): nat {
    if ops == [] then 0 else (if ops[0].Keep? || ops[0].Remove? then 1 else 0) + OldLines(ops[1..])
  }

  /** start,count; a count of one is left out, and an empty range names the line
      before it. */
  function Range(before: nat, count: nat): string {
    Decimal(if count == 0 then before else before + 1) + if count == 1 then "" else "," + Decimal(count)
  }

  function HunkLine(left: nat, right: nat, ops: seq<Op>, section: string): string {
    "@@ -" + (Range(left, OldLines(ops)) + (" +" + (Range(right, NewLines(ops)) + (" @@" + section))))
  }

  function OpLines(ops: seq<Op>): seq<string> {
    if ops == [] then [] else [OpLine(ops[0])] + OpLines(ops[1..])
  }

  function HunkLines(left: nat, right: nat, ops: seq<Op>, section: string): seq<string> {
    [HunkLine(left, right, ops, section)] + OpLines(ops)
  }

  function SegmentLines(segments: seq<Segment>, left: nat, right: nat): seq<string> {
    if segments == [] then []
    else
      match segments[0]
      case Hidden(count) => SegmentLines(segments[1..], left + count, right + count)
      case Hunk(ops, section) =>
        HunkLines(left, right, ops, section)
        + SegmentLines(segments[1..], left + OldLines(ops), right + NewLines(ops))
  }

  /** A path with a blank in it is followed by a tab. */
  function TargetLine(path: Option<string>): string {
    match path
    case None => "+++ /dev/null"
    case Some(p) => "+++ b/" + p + if ' ' in p then "\t" else ""
  }

  function FileLines(f: FileDiff): seq<string> {
    f.headers + (if f.segments == [] then [] else ["--- " + f.oldName, TargetLine(f.path)] + SegmentLines(f.segments,
                                                                                                          0, 0))
  }

  function DiffLines(files: seq<FileDiff>): seq<string> {
    if files == [] then [] else FileLines(files[0]) + DiffLines(files[1..])
  }

  // ---- what the diff says -------------------------------------------------------

  /** The numbers, in the new file, of the added lines; `before` lines precede. */
  function AddedByOps(ops: seq<Op>, before: nat): set<nat> {
    if ops == [] then {}
    else
      match ops[0]
      case Add(_) => {before + 1} + AddedByOps(ops[1..], before + 1)
      case Keep(_) => AddedByOps(ops[1..], before + 1)
      case _ => AddedByOps(ops[1..], before)
  }

  function Added(segments: seq<Segment>, before: nat): set<nat> {
    if segments == [] then {}
    else
      match segments[0]
      case Hidden(count) => Added(segments[1..], before + count)
      case Hunk(ops, _) => AddedByOps(ops, before) + Added(segments[1..], before + NewLines(ops))
  }
}
