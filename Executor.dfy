/** The emulated Python executor: a print buffer and an input-line queue shared by
    every program it runs, plus the loop-built helpers of its context. */
module Executor {
  import opened Wrappers
  import opened Text

  /** What a translated program can do to the executor, one call at a time: call
      `print(args...)` (the arguments already converted to text), call `input()`, or
      throw (the thrown value already converted to text). The translation of Python
      text to JavaScript and its evaluation are not modelled: a program is given as
      the sequence of calls it makes. */
  datatype Op = CallPrint(args: seq<string>) | CallInput | Raise(reason: string)

  type Program = seq<Op>

  /** The effect of running a program: the entries it printed (in order), the input
      queue it leaves behind, and what it threw, if anything. */
  datatype Trace = Trace(printed: seq<string>, lines: seq<string>, thrown: Option<string>)

  /** The queue after one `input()` call: the head is removed, an empty queue stays empty. */
  function Dequeue(lines: seq<string>): seq<string> {
    if lines == [] then [] else lines[1..]
  }

  /** The reference semantics of a program against an input queue. */
  function Run(program: Program, lines: seq<string>): Trace
    decreases |program|
  {
    if program == [] then Trace([], lines, None)
    else match program[0]
      case CallPrint(args) =>
        var t := Run(program[1..], lines);
        t.(printed := [Join(args, " ")] + t.printed)
      case CallInput => Run(program[1..], Dequeue(lines))
      case Raise(reason) => Trace([], lines, Some(reason))
  }

  predicate Throws(program: Program) {
    exists k :: 0 <= k < |program| && program[k].Raise?
  }

  function CountPrints(program: Program): nat
    decreases |program|
  {
    if program == [] then 0
    else (if program[0].CallPrint? then 1 else 0) + CountPrints(program[1..])
  }

  /** Number of `input()` calls the program makes before it throws (all of them if it
      does not throw). */
  function ReadsBeforeThrow(program: Program): nat
    decreases |program|
  {
    if program == [] || program[0].Raise? then 0
    else (if program[0].CallInput? then 1 else 0) + ReadsBeforeThrow(program[1..])
  }

  /** A program fails exactly when it contains a throw, and when it does not fail it
      has printed one entry per print call. */
  lemma {:induction false} RunPrints(program: Program, lines: seq<string>)
    ensures Run(program, lines).thrown.None? <==> !Throws(program)
    ensures Run(program, lines).thrown.None? ==> |Run(program, lines).printed| == CountPrints(program)
    decreases |program|
  {
    if program != [] {
      var rest := program[1..];
      assert forall k :: 1 <= k < |program| ==> program[k] == rest[k - 1];
      if program[0].CallInput? {
        RunPrints(rest, Dequeue(lines));
        if Throws(rest) {
          var k :| 0 <= k < |rest| && rest[k].Raise?;
          assert program[k + 1].Raise?;
        }
      } else if program[0].CallPrint? {
        RunPrints(rest, lines);
        if Throws(rest) {
          var k :| 0 <= k < |rest| && rest[k].Raise?;
          assert program[k + 1].Raise?;
        }
      } else {
        assert program[0].Raise?;
      }
    }
  }

  /** Each `input()` call before the throw takes one line off the front of the queue;
      once the queue is empty it stays empty. */
  lemma {:induction false} RunConsumes(program: Program, lines: seq<string>)
    ensures var n := ReadsBeforeThrow(program);
      Run(program, lines).lines == lines[(if n <= |lines| then n else |lines|)..]
    decreases |program|
  {
    if program != [] {
      match program[0]
      case CallPrint(_) => RunConsumes(program[1..], lines);
      case CallInput =>
        RunConsumes(program[1..], Dequeue(lines));
        if lines != [] {
          assert forall m :: 0 <= m <= |lines| - 1 ==> lines[1..][m..] == lines[m + 1..];
        }
      case Raise(_) =>
    }
  }

  /** The message `execute` throws when the program throws. */
  function ExecutionFailed(reason: string): string {
    "代码执行失败: " + reason
  }

  /** What `execute` returns or throws for a trace: the printed entries joined by
      line breaks, or the wrapped failure. */
  function Outcome(t: Trace): Result<string, string> {
    if t.thrown.None? then Ok(Join(t.printed, "\n")) else Err(ExecutionFailed(t.thrown.value))
  }

  /** Running the program from position i is running its op at i, then the rest. */
  lemma RunFrom(program: Program, i: nat, lines: seq<string>)
    requires i < |program|
    ensures var t := Run(program[i..], lines);
      program[i].CallPrint? ==> var n := Run(program[i + 1..], lines);
        t.printed == [Join(program[i].args, " ")] + n.printed && t.lines == n.lines && t.thrown == n.thrown
    ensures program[i].CallInput? ==> Run(program[i..], lines) == Run(program[i + 1..], Dequeue(lines))
    ensures program[i].Raise? ==> Run(program[i..], lines).thrown == Some(program[i].reason)
  {
    assert program[i..][0] == program[i] && program[i..][1..] == program[i + 1..];
  }

  class PythonExecutor {
    /** The print buffer of the current execution. */
    var output: seq<string>
    /** The lines `input()` hands out, front first. */
    var inputLines: seq<string>

    constructor ()
      ensures output == [] && inputLines == []
    {
      output := [];
      inputLines := [];
    }

    /** Replaces the queue by the lines of the trimmed input; joining the queue back
        with line breaks gives the trimmed input. */
    method SetInput(input: string)
      modifies this
      ensures inputLines == Split(Trim(input), '\n')
      ensures Join(inputLines, "\n") == Trim(input)
      ensures output == old(output)
    {
      inputLines := Split(Trim(input), '\n');
      JoinSplit(Trim(input), '\n');
    }

    /** `print(...args)`: appends exactly one entry, the arguments joined by spaces. */
    method Print(args: seq<string>)
      modifies this
      ensures output == old(output) + [Join(args, " ")]
      ensures inputLines == old(inputLines)
    {
      output := output + [Join(args, " ")];
    }

    /** `input()`: takes the head of the queue; on an empty queue returns "" and
        changes nothing. */
    method Input() returns (line: string)
      modifies this
      ensures old(inputLines) == [] ==> line == "" && inputLines == []
      ensures old(inputLines) != [] ==> line == old(inputLines)[0] && inputLines == old(inputLines)[1..]
      ensures output == old(output)
    {
      if |inputLines| == 0 {
        return "";
      }
      line := inputLines[0];
      inputLines := inputLines[1..];
    }

    /** `execute(code)`: empties the print buffer, runs the program against the queue
        as it stands (the queue is not reset) and returns the printed entries joined
        by line breaks, or fails with the wrapped reason. */
    method Execute(program: Program) returns (r: Result<string, string>)
      modifies this
      ensures output == Run(program, old(inputLines)).printed
      ensures inputLines == Run(program, old(inputLines)).lines
      ensures r == Outcome(Run(program, old(inputLines)))
    {
      ghost var start := inputLines;
      output := [];
      var i := 0;
      assert program[0..] == program;
      while i < |program|
        invariant 0 <= i <= |program|
        invariant output + Run(program[i..], inputLines).printed == Run(program, start).printed
        invariant Run(program[i..], inputLines).lines == Run(program, start).lines
        invariant Run(program[i..], inputLines).thrown == Run(program, start).thrown
      {
        RunFrom(program, i, inputLines);
        if program[i].Raise? {
          return Err(ExecutionFailed(program[i].reason));
        }
        if program[i].CallPrint? {
          Print(program[i].args);
        } else {
          var line := Input();
        }
        i := i + 1;
      }
      assert program[i..] == [];
      return Ok(Join(output, "\n"));
    }
  }

  function RangeStart(start: int, stop: Option<int>): int {
    if stop.None? then 0 else start
  }

  function RangeStop(start: int, stop: Option<int>): int {
    if stop.None? then start else stop.value
  }

  function RangeStep(step: Option<int>): int {
    step.GetOr(1)
  }

  /** The values lo, lo + st, lo + 2 st, ... that lie below hi. */
  function RangeFrom(lo: int, hi: int, st: int): seq<int>
    requires st > 0 || lo >= hi
    decreases hi - lo
  {
    if lo < hi then [lo] + RangeFrom(lo + st, hi, st) else []
  }

  /** An arithmetic progression from lo with difference st. */
  lemma {:induction false} RangeFromSteps(lo: int, hi: int, st: int)
    requires st > 0 || lo >= hi
    ensures var r := RangeFrom(lo, hi, st);
      && (r != [] ==> r[0] == lo)
      && (forall k :: 0 <= k < |r| - 1 ==> r[k + 1] == r[k] + st)
    decreases hi - lo
  {
    if lo < hi {
      RangeFromSteps(lo + st, hi, st);
      var rest := RangeFrom(lo + st, hi, st);
      assert forall k :: 1 <= k < |rest| + 1 ==> ([lo] + rest)[k] == rest[k - 1];
    }
  }

  /** Every value lies below hi, and the next term after the last would not. */
  lemma {:induction false} RangeFromBounds(lo: int, hi: int, st: int)
    requires st > 0 || lo >= hi
    ensures var r := RangeFrom(lo, hi, st);
      && (forall k :: 0 <= k < |r| ==> r[k] < hi)
      && (if r == [] then lo else r[|r| - 1] + st) >= hi
    decreases hi - lo
  {
    if lo < hi {
      RangeFromBounds(lo + st, hi, st);
      var rest := RangeFrom(lo + st, hi, st);
      assert forall k :: 1 <= k < |rest| + 1 ==> ([lo] + rest)[k] == rest[k - 1];
    }
  }

  /** Counting up by one from lo gives lo, lo + 1, ..., hi - 1. */
  lemma {:induction false} RangeFromCounts(lo: int, hi: int)
    ensures var r := RangeFrom(lo, hi, 1);
      |r| == (if hi > lo then hi - lo else 0) && forall k :: 0 <= k < |r| ==> r[k] == lo + k
    decreases hi - lo
  {
    if lo < hi {
      RangeFromCounts(lo + 1, hi);
    }
  }

  /** `range(start, stop?, step?)`: with one argument `range(n)` is RangeFrom(0, n, 1),
      the values 0 .. n - 1; otherwise start, start + step, ... while below stop. A
      non-positive step with start below stop loops forever in the source, so it is
      excluded. */
  method Range(start: int, stop: Option<int>, step: Option<int>) returns (result: seq<int>)
    requires RangeStep(step) > 0 || RangeStart(start, stop) >= RangeStop(start, stop)
    ensures result == RangeFrom(RangeStart(start, stop), RangeStop(start, stop), RangeStep(step))
  {
    var lo, hi, st := RangeStart(start, stop), RangeStop(start, stop), RangeStep(step);
    result := [];
    var i := lo;
    while i < hi
      invariant st > 0 || i >= hi
      invariant result + RangeFrom(i, hi, st) == RangeFrom(lo, hi, st)
      decreases hi - i
    {
      assert RangeFrom(i, hi, st) == [i] + RangeFrom(i + st, hi, st);
      result := result + [i];
      i := i + st;
    }
    assert result + [] == result;
  }

  /** `random.shuffle(arr)`: swaps from the back, position `i` with a drawn position
      `draw(i)` in [0, i]. Whatever is drawn, the result is a permutation. */
  method Shuffle<T>(a: array<T>, draw: nat -> nat)
    requires forall i: nat :: draw(i) <= i
    modifies a
    ensures multiset(a[..]) == multiset(old(a[..]))
  {
    var i := a.Length - 1;
    while i > 0
      invariant -1 <= i < a.Length
      invariant multiset(a[..]) == multiset(old(a[..]))
    {
      var j := draw(i);
      a[i], a[j] := a[j], a[i];
      i := i - 1;
    }
  }
}
