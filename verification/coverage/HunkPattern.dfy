/** The pattern of a hunk header, ^@@ -\d+(?:,\d+)? \+(\d+)(?:,(\d+))? @@, apart from how it is matched. */
module HunkPattern {
  import opened Options
  import opened Text
  import opened DiffCoverage
  import opened DiffProperties

  ghost predicate IsNumber(s: string) { s != [] && forall i :: 0 <= i < |s| ==> IsDigit(s[i]) }

  ghost predicate IsCount(s: string) { s == [] || (s[0] == ',' && IsNumber(s[1..])) }

  /** The line matches, and the pattern captures `start`. */
  ghost predicate Captures(line: string, left: string, leftCount: string, start: string, count: string, rest: string) {
    && IsNumber(left) && IsCount(leftCount) && IsNumber(start) && IsCount(count)
    && line == "@@ -" + (left + (leftCount + (" +" + (start + (count + (" @@" + rest))))))
  }

  lemma {:induction false} CountTaken(count: string, rest: string, t: string)
    requires IsCount(count) && rest != [] && rest[0] == ' ' && t == count + rest
    ensures t != [] && !IsDigit(t[0])
    ensures (if t[0] == ',' && Digits(t[1..]) > 0 then t[1 + Digits(t[1..])..] else t) == rest
  {
    if count != [] {
      assert t[1..] == count[1..] + rest;
      DigitsThen(count[1..], rest);
      assert t[|count|..] == rest;
    } else {
      assert t == rest;
    }
  }

  lemma {:induction false} RangeTaken(number: string, count: string, rest: string, s: string)
    requires IsNumber(number) && IsCount(count) && rest != [] && rest[0] == ' ' && s == number + (count + rest)
    ensures AfterRange(s) == Some(rest) && Digits(s) == |number| && s[..|number|] == number
  {
    CountTaken(count, rest, count + rest);
    DigitsRead(number, count + rest, s);
  }

  /** Greedy matching finds every match, and the number it captures. */
  lemma {:induction false} CapturedIsRead(line: string, left: string, leftCount: string, start: string, count: string,
                                          rest: string)
    requires Captures(line, left, leftCount, start, count, rest)
    ensures HunkStart(line) == Number(start)
  {
    var end := " @@" + rest;
    var afterNew := start + (count + end);
    var afterOld := " +" + afterNew;
    var s := left + (leftCount + afterOld);
    Dropped("@@ -", s);
    RangeTaken(left, leftCount, afterOld, s);
    Dropped(" +", afterNew);
    RangeTaken(start, count, end, afterNew);
    Dropped(" @@", rest);
    AllDigits(afterNew);
  }

  lemma {:induction false} CountSplit(t: string) returns (count: string)
    ensures IsCount(count)
    ensures t == count + if t != [] && t[0] == ',' && Digits(t[1..]) > 0 then t[1 + Digits(t[1..])..] else t
  {
    count := [];
    if t != [] && t[0] == ',' && Digits(t[1..]) > 0 {
      var e := Digits(t[1..]);
      AllDigits(t[1..]);
      count := t[..1 + e];
      assert count[1..] == t[1..][..e];
    }
  }

  lemma {:induction false} RangeSplit(s: string) returns (number: string, count: string)
    requires AfterRange(s).Some?
    ensures IsNumber(number) && IsCount(count) && s == number + (count + AfterRange(s).value)
    ensures number == s[..Digits(s)]
  {
    AllDigits(s);
    number := s[..Digits(s)];
    count := CountSplit(s[Digits(s)..]);
  }

  lemma {:induction false} Rejoined(p: string, s: string)
    requires p <= s
    ensures s == p + s[|p|..]
  {
  }

  lemma {:induction false} ReadIsCaptured(line: string)
      returns (left: string, leftCount: string, start: string, count: string, rest: string)
    requires HunkStart(line) != 0
    ensures Captures(line, left, leftCount, start, count, rest) && HunkStart(line) == Number(start)
  {
    Rejoined("@@ -", line);
    left, leftCount := RangeSplit(line[4..]);
    var s := AfterRange(line[4..]).value;
    Rejoined(" +", s);
    start, count := RangeSplit(s[2..]);
    var u := AfterRange(s[2..]).value;
    Rejoined(" @@", u);
    rest := u[3..];
  }

  /** A positive number is read exactly from the lines that match and capture it; every other line gives 0. */
  lemma {:induction false} HunkStartIff(line: string, n: nat)
    requires n > 0
    ensures HunkStart(line) == n <==>
            exists left, leftCount, start, count, rest ::
              Captures(line, left, leftCount, start, count, rest) && Number(start) == n
  {
    if HunkStart(line) == n {
      var left, leftCount, start, count, rest := ReadIsCaptured(line);
      assert Captures(line, left, leftCount, start, count, rest) && Number(start) == n;
    }
    forall left, leftCount, start, count, rest | Captures(line, left, leftCount, start, count, rest)
      ensures HunkStart(line) == Number(start)
    {
      CapturedIsRead(line, left, leftCount, start, count, rest);
    }
  }
}
