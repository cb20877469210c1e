/** The capped line reader of the history import (src/history_import.rs): lines out
    of a buffered stream whose buffer refills in pieces of any size, with overlong
    lines consumed and reported but never held. */
module BoundedLines {
  import opened Basics

  const LINE_BYTES_CAP := 1024 * 1024
  const NEWLINE: bv8 := 10

  datatype BoundedLine = Line(bytes: Bytes) | Overlong | Eof

  // ------------------------------------------------------- the newline split

  /** The first newline of `s` is at `k`, or there is none and `k` is the length. */
  ghost predicate FirstNewline(s: Bytes, k: nat)
  {
    k <= |s| && (forall i | 0 <= i < k :: s[i] != NEWLINE) && (k < |s| ==> s[k] == NEWLINE)
  }

  function NewlineAt(s: Bytes): (k: nat)
    ensures FirstNewline(s, k)
  {
    if s == [] || s[0] == NEWLINE then 0 else NewlineAt(s[1..]) + 1
  }

  lemma NewlineAtUnique(s: Bytes, k: nat)
    requires FirstNewline(s, k)
    ensures NewlineAt(s) == k
  {
    hide NewlineAt;
  }

  function AfterLine(s: Bytes): (rest: Bytes)
    requires s != []
    ensures |rest| < |s|
  {
    var k := NewlineAt(s);
    if k < |s| then s[k + 1..] else []
  }

  /** The lines of a stream; a final line need not be terminated. */
  function Split(s: Bytes): seq<Bytes>
    decreases |s|
  {
    if s == [] then [] else [s[..NewlineAt(s)]] + Split(AfterLine(s))
  }

  /** Lines back to a stream, the last one terminated or not. */
  function Join(lines: seq<Bytes>, terminated: bool): Bytes
  {
    if lines == [] then []
    else if |lines| == 1 && !terminated then lines[0]
    else lines[0] + [NEWLINE] + Join(lines[1..], terminated)
  }

  /** No line contains a newline, and an unterminated last line is not empty. */
  ghost predicate Splittable(lines: seq<Bytes>, terminated: bool)
  {
    lines == [] || (FirstNewline(lines[0], |lines[0]|) && (|lines| == 1 && !terminated ==> lines[0] != [])
                    && Splittable(lines[1..], terminated))
  }

  /** Splitting recovers the lines of every stream that was put together from lines. */
  lemma {:induction false} SplitJoin(lines: seq<Bytes>, terminated: bool)
    requires Splittable(lines, terminated)
    ensures Split(Join(lines, terminated)) == lines
  {
    if lines != [] {
      var s := Join(lines, terminated);
      assert s[..|lines[0]|] == lines[0];
      assert FirstNewline(s, |lines[0]|) by {
        assert forall i | 0 <= i < |lines[0]| :: s[i] == lines[0][i];
      }
      NewlineAtUnique(s, |lines[0]|);
      if |lines| > 1 || terminated {
        assert s[|lines[0]| + 1..] == Join(lines[1..], terminated);
        SplitJoin(lines[1..], terminated);
      }
    }
  }

  /** The stream ends in a newline, as far as it has an end. */
  predicate EndsLike(s: Bytes, terminated: bool)
  {
    s != [] ==> (terminated <==> s[|s| - 1] == NEWLINE)
  }

  /** The first line and what follows it. */
  lemma FirstLine(s: Bytes, terminated: bool)
    requires s != [] && EndsLike(s, terminated)
    ensures EndsLike(AfterLine(s), terminated)
    ensures var k := NewlineAt(s);
      if k < |s| then s == s[..k] + [NEWLINE] + AfterLine(s) && (AfterLine(s) == [] ==> terminated)
      else s[..k] == s && AfterLine(s) == [] && !terminated
  {
    hide NewlineAt, FirstNewline;
    var k := NewlineAt(s);
    NewlineFacts(s, k);
    if k < |s| {
      Reassemble(s, k);
    } else {
      assert s[..k] == s;
    }
  }

  lemma NewlineFacts(s: Bytes, k: nat)
    requires FirstNewline(s, k)
    ensures k <= |s| && (k < |s| ==> s[k] == NEWLINE) && (k == |s| > 0 ==> s[k - 1] != NEWLINE)
  {
  }

  lemma Reassemble(s: Bytes, k: nat)
    requires k < |s| && s[k] == NEWLINE
    ensures s == s[..k] + [NEWLINE] + s[k + 1..]
    ensures s[k + 1..] != [] ==> s[k + 1..][|s[k + 1..]| - 1] == s[|s| - 1]
    ensures s[k + 1..] == [] ==> s[|s| - 1] == NEWLINE
  {
  }

  /** Every stream is put together from the lines that splitting finds. */
  lemma {:induction false} JoinSplit(s: Bytes, terminated: bool)
    requires EndsLike(s, terminated)
    ensures Splittable(Split(s), terminated) && Join(Split(s), terminated) == s
    decreases |s|
  {
    if s != [] {
      hide NewlineAt, AfterLine;
      FirstLine(s, terminated);
      assert FirstNewline(s[..NewlineAt(s)], NewlineAt(s));
      JoinSplit(AfterLine(s), terminated);
      Rejoin(s[..NewlineAt(s)], AfterLine(s), Split(AfterLine(s)), terminated);
    }
  }

  lemma Rejoin(line: Bytes, rest: Bytes, lines: seq<Bytes>, terminated: bool)
    requires Join(lines, terminated) == rest
    ensures ([line] + lines)[1..] == lines
    ensures lines == [] && !terminated ==> Join([line] + lines, terminated) == line
    ensures lines != [] || terminated ==> Join([line] + lines, terminated) == line + [NEWLINE] + rest
  {
    assert ([line] + lines)[1..] == lines;
  }

  function Capped(line: Bytes): BoundedLine
  {
    if |line| > LINE_BYTES_CAP then Overlong else Line(line)
  }

  function CappedLines(lines: seq<Bytes>): (r: seq<BoundedLine>)
    ensures |r| == |lines| && forall i | 0 <= i < |r| :: r[i] == Capped(lines[i])
  {
    seq(|lines|, i requires 0 <= i < |lines| => Capped(lines[i]))
  }

  // -------------------------------------------------------------- the reader

  /** A buffered reader: `window` bytes of what is left are in its buffer, and a
      refill takes as many bytes as the schedule says, at least one. */
  class Reader {
    var rest: Bytes
    var window: nat
    var refills: nat
    const schedule: nat -> nat

    ghost predicate Valid()
      reads this
    {
      window <= |rest|
    }

    constructor (stream: Bytes, schedule: nat -> nat)
      ensures Valid() && rest == stream
    {
      rest, window, refills := stream, 0, 0;
      this.schedule := schedule;
    }

    method FillBuf() returns (available: Bytes)
      requires Valid()
      modifies this`window, this`refills
      ensures Valid()
      ensures available == rest[..window] && (available == [] <==> rest == [])
    {
      if window == 0 && rest != [] {
        var n := schedule(refills);
        window := if n == 0 then 1 else if n > |rest| then |rest| else n;
        refills := refills + 1;
      }
      available := rest[..window];
    }

    method Consume(n: nat)
      requires Valid() && n <= window
      modifies this`rest, this`window
      ensures Valid() && rest == old(rest)[n..]
    {
      rest, window := rest[n..], window - n;
    }
  }

  /** One line per call.  Whatever the refills, the call takes exactly the next line and
      its newline off the stream and never holds more than the cap (`peak`). */
  method ReadBoundedLine(reader: Reader) returns (line: BoundedLine, ghost peak: nat)
    requires reader.Valid()
    modifies reader
    ensures reader.Valid() && peak <= LINE_BYTES_CAP
    ensures old(reader.rest) == [] ==> line == Eof && reader.rest == []
    ensures old(reader.rest) != [] ==>
      line == Capped(old(reader.rest)[..NewlineAt(old(reader.rest))]) && reader.rest == AfterLine(old(reader.rest))
  {
    hide NewlineAt, Reading;
    ghost var start := reader.rest;
    ghost var taken: nat := 0;
    var buf: Bytes := [];
    var overflowing := false;
    peak := 0;
    ReadingStarts(start);
    while true
      invariant reader.Valid() && Reading(start, taken, buf, overflowing)
      invariant taken <= |start| && reader.rest == start[taken..]
      invariant |buf| <= LINE_BYTES_CAP && peak <= LINE_BYTES_CAP
      decreases |reader.rest|
    {
      var available := reader.FillBuf();
      if available == [] {
        ReadingEnds(start, taken, buf, overflowing);
        line := if overflowing then Overlong else if buf == [] then Eof else Line(buf);
        return;
      }
      var at := NewlineAt(available);
      ReadingGoesOn(start, taken, buf, overflowing, available, at);
      if at < |available| {
        if !overflowing && |buf| + at > LINE_BYTES_CAP {
          overflowing, buf := true, [];
        }
        if !overflowing {
          buf := buf + available[..at];
        }
        peak := if |buf| > peak then |buf| else peak;
        ReadingEnds(start, taken + at, buf, overflowing);
        reader.Consume(at + 1);
        line := if overflowing then Overlong else Line(buf);
        return;
      }
      assert available[..at] == available;
      if !overflowing {
        if |buf| + |available| > LINE_BYTES_CAP {
          overflowing, buf := true, [];
        } else {
          buf := buf + available;
        }
      }
      peak := if |buf| > peak then |buf| else peak;
      reader.Consume(|available|);
      taken := taken + |available|;
    }
  }

  /** The line so far: no newline yet, and either held whole or given up for its length. */
  ghost predicate Reading(start: Bytes, taken: nat, buf: Bytes, overflowing: bool)
  {
    && taken <= |start| && (forall i | 0 <= i < taken :: start[i] != NEWLINE)
    && (if overflowing then buf == [] && taken > LINE_BYTES_CAP else buf == start[..taken] && taken <= LINE_BYTES_CAP)
  }

  lemma ReadingStarts(start: Bytes)
    ensures Reading(start, 0, [], false)
  {
  }

  lemma ReadingGoesOn(start: Bytes, taken: nat, buf: Bytes, overflowing: bool, available: Bytes, at: nat)
    requires Reading(start, taken, buf, overflowing) && taken + |available| <= |start|
    requires available == start[taken..taken + |available|] && at == NewlineAt(available)
    ensures at <= |available|
    ensures overflowing ==> buf == [] && Reading(start, taken + at, [], true)
    ensures !overflowing && |buf| + at > LINE_BYTES_CAP ==> Reading(start, taken + at, [], true)
    ensures !overflowing && |buf| + at <= LINE_BYTES_CAP ==> Reading(start, taken + at, buf + available[..at], false)
    ensures at < |available| ==> start[taken + at] == NEWLINE
  {
    hide NewlineAt;
    NoNewlineYet(start, taken, available, at);
    hide FirstNewline;
    assert start[..taken + at] == start[..taken] + available[..at];
  }

  lemma NoNewlineYet(start: Bytes, taken: nat, available: Bytes, at: nat)
    requires taken + |available| <= |start| && available == start[taken..taken + |available|] && FirstNewline(available, at)
    requires forall i | 0 <= i < taken :: start[i] != NEWLINE
    ensures at <= |available| && forall i | 0 <= i < taken + at :: start[i] != NEWLINE
    ensures at < |available| ==> start[taken + at] == NEWLINE
  {
    forall i | 0 <= i < taken + at ensures start[i] != NEWLINE {
      if i >= taken {
        assert start[i] == available[i - taken];
      }
    }
  }

  lemma ReadingEnds(start: Bytes, taken: nat, buf: Bytes, overflowing: bool)
    requires Reading(start, taken, buf, overflowing) && (taken == |start| || start[taken] == NEWLINE)
    ensures NewlineAt(start) == taken
    ensures Capped(start[..NewlineAt(start)]) == if overflowing then Overlong else Line(buf)
    ensures !overflowing ==> |buf| == taken
  {
    hide NewlineAt;
    NewlineAtUnique(start, taken);
  }

  lemma TakeLine(done: seq<Bytes>, s: Bytes)
    requires s != []
    ensures done + Split(s) == (done + [s[..NewlineAt(s)]]) + Split(AfterLine(s))
    ensures CappedLines(done + [s[..NewlineAt(s)]]) == CappedLines(done) + [Capped(s[..NewlineAt(s)])]
  {
    hide NewlineAt, AfterLine, Capped, CappedLines;
    assert Split(s) == [s[..NewlineAt(s)]] + Split(AfterLine(s));
  }

  /** Repeated calls yield the newline split with every overlong line replaced by one
      mark, for every stream and every sequence of refills. */
  method ReadAllLines(reader: Reader) returns (lines: seq<BoundedLine>)
    requires reader.Valid()
    modifies reader
    ensures reader.rest == []
    ensures lines == CappedLines(Split(old(reader.rest)))
    ensures var all := Split(old(reader.rest));
      |lines| == |all|
      && forall i | 0 <= i < |all| :: lines[i] == if |all[i]| <= LINE_BYTES_CAP then Line(all[i]) else Overlong
  {
    hide NewlineAt, AfterLine, CappedLines;
    lines := [];
    ghost var done: seq<Bytes> := [];
    ghost var all := Split(reader.rest);
    while true
      invariant reader.Valid()
      invariant lines == CappedLines(done) && done + Split(reader.rest) == all
      decreases |reader.rest|
    {
      ghost var before := reader.rest;
      var line;
      ghost var peak;
      line, peak := ReadBoundedLine(reader);
      if line.Eof? {
        return;
      }
      TakeLine(done, before);
      lines := lines + [line];
      done := done + [before[..NewlineAt(before)]];
    }
  }
}
