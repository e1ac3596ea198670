/** The test-data endpoint: parameter check, deny-pattern gate, then a fail-fast batch
    loop that runs the generator and the standard on one shared executor. */
module Generate {
  import opened Wrappers
  import opened Text
  import opened Safety
  import opened Executor

  /** The request body; a field the client leaves out is None. */
  datatype Request = Request(generator: Option<string>, standard: Option<string>, numCases: Option<int>)

  datatype TestCase = TestCase(input: string, output: string, index: int)

  datatype Error = MissingParameter | UnsafeCode | CaseFailed(caseNumber: nat, message: string)

  datatype Response = Success(testCases: seq<TestCase>) | Failure(error: Error)

  /** The batch is capped at this many cases. */
  const MaxCases := 20

  /** The `error` text of a failed response. */
  function ErrorText(e: Error): string {
    match e
    case MissingParameter => "缺少必要参数"
    case UnsafeCode => "代码包含不安全的操作"
    case CaseFailed(n, m) => "测试点 " + NatToString(n) + " 生成失败: " + m
  }

  /** A source is truthy when it is present and not empty. */
  predicate Truthy(source: Option<string>) {
    source.Some? && source.value != ""
  }

  /** A case count is truthy when it is present and not zero. */
  predicate CountGiven(numCases: Option<int>) {
    numCases.Some? && numCases.value != 0
  }

  function SourceText(source: Option<string>): string {
    source.GetOr("")
  }

  /** `Math.min(numCases, 20)`: the loop bound (negative counts run no iteration). */
  function Iterations(numCases: int): (r: int)
    ensures r <= numCases && r <= MaxCases
    ensures r == numCases || r == MaxCases
  {
    if numCases < MaxCases then numCases else MaxCases
  }

  /** Which of the request's two sources is executed. */
  datatype Role = Gen | Std

  /** What the translated source of the given role does when it is executed in the
      given iteration of the batch, starting from the given input queue: the calls it
      makes may depend on the lines it reads and on the random draws it makes in that
      iteration. */
  type Behaviour = (Role, nat, seq<string>) -> Program

  datatype StepResult = Produced(testCase: TestCase, lines: seq<string>) | Halted(message: string)

  /** One iteration of the batch loop, starting from the executor's queue `lines`:
      run the generator; if there is a standard, hand it the generator's output as its
      input and run it; build the case from the trimmed outputs. */
  function Step(standard: string, behaviour: Behaviour, i: nat, lines: seq<string>): (r: StepResult)
    ensures r.Produced? ==> r.testCase.index == i + 1 && Trimmed(r.testCase.input) && Trimmed(r.testCase.output)
  {
    var g := Run(behaviour(Gen, i, lines), lines);
    match Outcome(g)
    case Err(m) => Halted(m)
    case Ok(input) =>
      if standard == "" then
        Produced(TestCase(Trim(input), "", i + 1), g.lines)
      else
        var queue := Split(Trim(input), '\n');
        var s := Run(behaviour(Std, i, queue), queue);
        match Outcome(s)
        case Err(m) => Halted(m)
        case Ok(output) => Produced(TestCase(Trim(input), Trim(output), i + 1), s.lines)
  }

  /** One iteration as a function of its number and the queue it starts from. */
  type Iteration = (nat, seq<string>) -> StepResult

  function IterationOf(standard: string, behaviour: Behaviour): Iteration {
    (i: nat, lines: seq<string>) => Step(standard, behaviour, i, lines)
  }

  /** `iteration` is the batch's step function for these sources and behaviour. */
  ghost predicate Implements(iteration: Iteration, standard: string, behaviour: Behaviour) {
    forall i: nat, lines: seq<string> {:trigger Step(standard, behaviour, i, lines)} ::
      iteration(i, lines) == Step(standard, behaviour, i, lines)
  }

  /** Applying the iteration is running the step. */
  lemma IterationIsStep(standard: string, behaviour: Behaviour, i: nat, lines: seq<string>)
    ensures IterationOf(standard, behaviour)(i, lines) == Step(standard, behaviour, i, lines)
  {
  }

  /** Iterations `i` up to `count`, each starting from the queue the previous one
      left, stopping at the first that fails. */
  function Batch(iteration: Iteration, i: nat, count: int, lines: seq<string>): Result<seq<TestCase>, Error>
    decreases count - i
  {
    if i >= count then Ok([])
    else match iteration(i, lines)
      case Halted(m) => Err(CaseFailed(i + 1, m))
      case Produced(tc, next) =>
        match Batch(iteration, i + 1, count, next)
        case Ok(rest) => Ok([tc] + rest)
        case Err(e) => Err(e)
  }

  /** The reference response to a request. */
  function Respond(req: Request, behaviour: Behaviour): Response {
    if !Truthy(req.generator) || !CountGiven(req.numCases) then
      Failure(MissingParameter)
    else
      var generator, standard := req.generator.value, SourceText(req.standard);
      if Unsafe(generator, standard) then
        Failure(UnsafeCode)
      else match Batch(IterationOf(standard, behaviour), 0, Iterations(req.numCases.value), [])
        case Ok(cs) => Success(cs)
        case Err(e) => Failure(e)
  }

  /** The order in which a batch of `n` complete iterations executes sources:
      generator then standard (when there is one), iteration by iteration. */
  function Schedule(standard: string, n: nat): seq<(Role, nat)> {
    if n == 0 then []
    else Schedule(standard, n - 1) + [(Gen, n - 1)]
         + (if standard != "" then [(Std, n - 1)] else [])
  }

  /** The executions of a batch that fails at case n: all of iterations 0 .. n - 2
      and a non-empty part of iteration n - 1 (its generator, and its standard when
      the standard is the one that failed). */
  ghost predicate StoppedAt(executed: seq<(Role, nat)>, standard: string, n: nat) {
    n >= 1 && Schedule(standard, n - 1) < executed && executed <= Schedule(standard, n)
  }

  lemma PrependNothing(r: Result<seq<TestCase>, Error>)
    ensures Prepend([], r) == r
  {
    if r.Ok? {
      assert [] + r.value == r.value;
    }
  }

  /** Iteration n adds its generator, then its standard, to the schedule; stopping
      after either one is stopping at case n + 1. */
  lemma ScheduleNext(standard: string, n: nat)
    ensures var done, mine := Schedule(standard, n), [(Gen, n)] + (if standard != "" then [(Std, n)] else []);
      && done + mine == Schedule(standard, n + 1)
      && StoppedAt(done + [(Gen, n)], standard, n + 1)
      && (standard != "" ==> StoppedAt(done + [(Gen, n), (Std, n)], standard, n + 1))
  {
    var done := Schedule(standard, n);
    if standard != "" {
      assert done + [(Gen, n), (Std, n)] == done + [(Gen, n)] + [(Std, n)];
    } else {
      assert done + [(Gen, n)] + [] == done + [(Gen, n)];
    }
  }

  function Prepend(done: seq<TestCase>, r: Result<seq<TestCase>, Error>): Result<seq<TestCase>, Error> {
    match r
    case Ok(cs) => Ok(done + cs)
    case Err(e) => Err(e)
  }

  /** The body of the batch loop for iteration `i`: execute the generator; if there is
      a standard, load the generator's output as the queue and execute the standard;
      build the case from the trimmed outputs. Each source is handed the queue the
      executor holds when it starts. The ghost `executed` lists the (role, iteration)
      pairs executed, in order. */
  method RunCase(executor: PythonExecutor, standard: string, behaviour: Behaviour, i: nat,
                 ghost iteration: Iteration)
    returns (r: StepResult, ghost executed: seq<(Role, nat)>)
    requires Implements(iteration, standard, behaviour)
    modifies executor
    ensures r == iteration(i, old(executor.inputLines))
    ensures r.Produced? ==> executor.inputLines == r.lines
    ensures r.Produced? ==> executed == [(Gen, i)] + (if standard != "" then [(Std, i)] else [])
    ensures r.Halted? ==> executed == [(Gen, i)] || (standard != "" && executed == [(Gen, i), (Std, i)])
  {
    ghost var lines := executor.inputLines;
    assert iteration(i, lines) == Step(standard, behaviour, i, lines);
    var input := executor.Execute(behaviour(Gen, i, executor.inputLines));
    executed := [(Gen, i)];
    if input.Err? {
      StepOnGeneratorFailure(standard, behaviour, i, lines);
      return Halted(input.error), executed;
    }
    if standard == "" {
      StepWithoutStandard(standard, behaviour, i, lines);
      return Produced(TestCase(Trim(input.value), "", i + 1), executor.inputLines), executed;
    }
    executor.SetInput(input.value);
    var result := executor.Execute(behaviour(Std, i, executor.inputLines));
    executed := executed + [(Std, i)];
    StepWithStandard(standard, behaviour, i, lines);
    if result.Err? {
      return Halted(result.error), executed;
    }
    return Produced(TestCase(Trim(input.value), Trim(result.value), i + 1), executor.inputLines), executed;
  }

  lemma StepOnGeneratorFailure(standard: string, behaviour: Behaviour, i: nat, lines: seq<string>)
    requires Outcome(Run(behaviour(Gen, i, lines), lines)).Err?
    ensures Step(standard, behaviour, i, lines) == Halted(Outcome(Run(behaviour(Gen, i, lines), lines)).error)
  {
  }

  lemma StepWithoutStandard(standard: string, behaviour: Behaviour, i: nat, lines: seq<string>)
    requires standard == ""
    requires Outcome(Run(behaviour(Gen, i, lines), lines)).Ok?
    ensures var g := Run(behaviour(Gen, i, lines), lines);
      Step(standard, behaviour, i, lines) == Produced(TestCase(Trim(Outcome(g).value), "", i + 1), g.lines)
  {
  }

  lemma StepWithStandard(standard: string, behaviour: Behaviour, i: nat, lines: seq<string>)
    requires standard != ""
    requires Outcome(Run(behaviour(Gen, i, lines), lines)).Ok?
    ensures var input := Trim(Outcome(Run(behaviour(Gen, i, lines), lines)).value);
      var queue := Split(input, '\n');
      var s := Run(behaviour(Std, i, queue), queue);
      Step(standard, behaviour, i, lines)
        == match Outcome(s)
           case Err(m) => Halted(m)
           case Ok(output) => Produced(TestCase(input, Trim(output), i + 1), s.lines)
  {
  }

  /** The batch loop: one executor for the whole batch, iterations 0 .. count - 1,
      stopping at the first failing case. */
  method RunBatch(standard: string, behaviour: Behaviour, count: int, ghost iteration: Iteration)
    returns (r: Result<seq<TestCase>, Error>, ghost executed: seq<(Role, nat)>)
    requires Implements(iteration, standard, behaviour)
    ensures r == Batch(iteration, 0, count, [])
    ensures r.Ok? ==> executed == Schedule(standard, |r.value|)
    ensures r.Err? ==> r.error.CaseFailed?
    ensures r.Err? ==> StoppedAt(executed, standard, r.error.caseNumber)
  {
    var executor := new PythonExecutor();
    var testCases: seq<TestCase> := [];
    executed := [];
    var i: nat := 0;
    PrependNothing(Batch(iteration, 0, count, []));
    while i < count
      invariant i <= count || i == 0
      invariant Batch(iteration, 0, count, [])
        == Prepend(testCases, Batch(iteration, i, count, executor.inputLines))
      invariant |testCases| == i
      invariant executed == Schedule(standard, i)
    {
      ghost var lines := executor.inputLines;
      var step, ran := RunCase(executor, standard, behaviour, i, iteration);
      BatchAdvances(iteration, i, count, lines, testCases, step);
      ScheduleNext(standard, i);
      executed := executed + ran;
      if step.Halted? {
        return Err(CaseFailed(i + 1, step.message)), executed;
      }
      testCases := testCases + [step.testCase];
      i := i + 1;
    }
    assert testCases + [] == testCases;
    return Ok(testCases), executed;
  }

  /** One iteration of the batch recurrence: a halt ends the batch with that case's
      failure, a produced case is appended and the batch continues from its queue. */
  lemma BatchAdvances(iteration: Iteration, i: nat, count: int, lines: seq<string>, done: seq<TestCase>, step: StepResult)
    requires i < count
    requires iteration(i, lines) == step
    ensures step.Halted? ==>
      Prepend(done, Batch(iteration, i, count, lines)) == Err(CaseFailed(i + 1, step.message))
    ensures step.Produced? ==>
      Prepend(done, Batch(iteration, i, count, lines))
        == Prepend(done + [step.testCase], Batch(iteration, i + 1, count, step.lines))
  {
    match step
    case Halted(_) =>
    case Produced(tc, next) =>
      match Batch(iteration, i + 1, count, next)
      case Ok(rest) => assert done + ([tc] + rest) == done + [tc] + rest;
      case Err(_) =>
  }

  /** `POST`: validates, gates, then runs the batch. The ghost `executed` lists each
      (role, iteration) executed, in order: nothing runs on a missing parameter or
      unsafe code, every iteration runs on success, and a failure at case n stops
      right after the failing execution of iteration n - 1. */
  method Post(req: Request, behaviour: Behaviour) returns (resp: Response, ghost executed: seq<(Role, nat)>)
    ensures resp == Respond(req, behaviour)
    ensures resp.Failure? && !resp.error.CaseFailed? ==> executed == []
    ensures resp.Success? ==>
      executed == Schedule(SourceText(req.standard), |resp.testCases|)
    ensures resp.Failure? && resp.error.CaseFailed? ==>
      StoppedAt(executed, SourceText(req.standard), resp.error.caseNumber)
  {
    executed := [];
    if !Truthy(req.generator) || !CountGiven(req.numCases) {
      return Failure(MissingParameter), executed;
    }
    var generator, standard := req.generator.value, SourceText(req.standard);
    var unsafe := ScanDenyPatterns(generator, standard);
    if unsafe {
      return Failure(UnsafeCode), executed;
    }
    ghost var iteration := IterationOf(standard, behaviour);
    IterationOfImplements(standard, behaviour);
    var r;
    r, executed := RunBatch(standard, behaviour, Iterations(req.numCases.value), iteration);
    match r
    case Ok(cs) => resp := Success(cs);
    case Err(e) =>
      resp := Failure(e);
  }

  /** The queue after `k` iterations starting at iteration `i` with queue `lines`. */
  ghost function LinesFrom(iteration: Iteration, i: nat, lines: seq<string>, k: nat): seq<string>
    decreases k
  {
    if k == 0 then lines
    else match iteration(i, lines)
      case Produced(_, next) => LinesFrom(iteration, i + 1, next, k - 1)
      case Halted(_) => lines
  }

  /** The executor's queue at the start of iteration `k` of a batch. */
  ghost function LinesAt(standard: string, behaviour: Behaviour, k: nat): seq<string> {
    LinesFrom(IterationOf(standard, behaviour), 0, [], k)
  }

  lemma {:induction false} BatchFailsOnlyWithCaseFailed(iteration: Iteration, i: nat, count: int, lines: seq<string>)
    ensures var r := Batch(iteration, i, count, lines);
      r.Err? ==> r.error.CaseFailed? && i < r.error.caseNumber <= count
    decreases count - i
  {
    if i < count {
      match iteration(i, lines)
      case Halted(_) =>
      case Produced(_, next) => BatchFailsOnlyWithCaseFailed(iteration, i + 1, count, next);
    }
  }

  /** A completed run of iterations i .. count - 1: one case per iteration, each the
      product of its iteration on the queue the previous one left. */
  lemma {:induction false} BatchSucceeds(iteration: Iteration, i: nat, count: int, lines: seq<string>, cs: seq<TestCase>)
    requires Batch(iteration, i, count, lines) == Ok(cs)
    ensures |cs| == if count > i then count - i else 0
    ensures forall k :: 0 <= k < |cs| ==>
      iteration(i + k, LinesFrom(iteration, i, lines, k)) == Produced(cs[k], LinesFrom(iteration, i, lines, k + 1))
    decreases count - i
  {
    if i < count {
      match iteration(i, lines)
      case Produced(tc, next) =>
        var rest := cs[1..];
        BatchSucceeds(iteration, i + 1, count, next, rest);
        forall k | 0 <= k < |cs|
          ensures iteration(i + k, LinesFrom(iteration, i, lines, k)) == Produced(cs[k], LinesFrom(iteration, i, lines, k + 1))
        {
          if k > 0 {
            assert LinesFrom(iteration, i, lines, k) == LinesFrom(iteration, i + 1, next, k - 1);
            assert LinesFrom(iteration, i, lines, k + 1) == LinesFrom(iteration, i + 1, next, k);
            assert cs[k] == rest[k - 1];
          }
        }
    }
  }

  /** A failed run of iterations i .. count - 1: the iterations before the failing one
      all produced a case, and the failing one halted with the reported message. */
  lemma {:induction false} BatchFails(iteration: Iteration, i: nat, count: int, lines: seq<string>, n: nat, m: string)
    requires Batch(iteration, i, count, lines) == Err(CaseFailed(n, m))
    ensures i + 1 <= n <= count
    ensures forall k :: 0 <= k < n - 1 - i ==> iteration(i + k, LinesFrom(iteration, i, lines, k)).Produced?
    ensures iteration(n - 1, LinesFrom(iteration, i, lines, n - 1 - i)) == Halted(m)
    decreases count - i
  {
    match iteration(i, lines)
    case Halted(_) =>
    case Produced(tc, next) =>
      BatchFails(iteration, i + 1, count, next, n, m);
      forall k | 0 <= k < n - 1 - i
        ensures iteration(i + k, LinesFrom(iteration, i, lines, k)).Produced?
      {
        if k > 0 {
          assert LinesFrom(iteration, i, lines, k) == LinesFrom(iteration, i + 1, next, k - 1);
        }
      }
      assert LinesFrom(iteration, i, lines, n - 1 - i) == LinesFrom(iteration, i + 1, next, n - 1 - (i + 1));
  }

  lemma IterationOfImplements(standard: string, behaviour: Behaviour)
    ensures Implements(IterationOf(standard, behaviour), standard, behaviour)
  {
    forall i: nat, lines: seq<string>
      ensures IterationOf(standard, behaviour)(i, lines) == Step(standard, behaviour, i, lines)
    {
      IterationIsStep(standard, behaviour, i, lines);
    }
  }

  /** A completed batch in terms of its steps: one per case, each numbered after its
      iteration and run on the queue the previous one left. */
  lemma SucceededSteps(iteration: Iteration, standard: string, behaviour: Behaviour,
                       count: int, cs: seq<TestCase>)
    requires Implements(iteration, standard, behaviour)
    requires Batch(iteration, 0, count, []) == Ok(cs)
    ensures |cs| == if count > 0 then count else 0
    ensures forall k :: 0 <= k < |cs| ==> cs[k].index == k + 1
    ensures forall k :: 0 <= k < |cs| ==>
      Step(standard, behaviour, k, LinesFrom(iteration, 0, [], k))
        == Produced(cs[k], LinesFrom(iteration, 0, [], k + 1))
  {
    BatchSucceeds(iteration, 0, count, [], cs);
    forall k | 0 <= k < |cs|
      ensures Step(standard, behaviour, k, LinesFrom(iteration, 0, [], k))
        == Produced(cs[k], LinesFrom(iteration, 0, [], k + 1))
      ensures cs[k].index == k + 1
    {
    }
  }

  /** A failed batch in terms of its steps: the steps before case n produced, the
      step of case n halted with the reported message. */
  lemma FailedSteps(iteration: Iteration, standard: string, behaviour: Behaviour,
                    count: int, n: nat, m: string)
    requires Implements(iteration, standard, behaviour)
    requires Batch(iteration, 0, count, []) == Err(CaseFailed(n, m))
    ensures 1 <= n <= count
    ensures forall k :: 0 <= k < n - 1 ==> Step(standard, behaviour, k, LinesFrom(iteration, 0, [], k)).Produced?
    ensures Step(standard, behaviour, n - 1, LinesFrom(iteration, 0, [], n - 1)) == Halted(m)
  {
    BatchFails(iteration, 0, count, [], n, m);
  }

  /** The parameter check comes first: the response is the missing-parameter failure
      exactly when the generator is missing or empty or the count is missing or zero. */
  lemma MissingParameterFirst(req: Request, behaviour: Behaviour)
    ensures Respond(req, behaviour) == Failure(MissingParameter)
      <==> !Truthy(req.generator) || !CountGiven(req.numCases)
  {
    if Truthy(req.generator) && CountGiven(req.numCases) {
      BatchFailsOnlyWithCaseFailed(IterationOf(SourceText(req.standard), behaviour),
                                   0, Iterations(req.numCases.value), []);
    }
  }

  /** Once the parameters are present, the response is the single unsafe-code failure
      exactly when one of the eight patterns occurs in the generator, or in a non-empty
      standard. */
  lemma UnsafeGate(req: Request, behaviour: Behaviour)
    requires Truthy(req.generator) && CountGiven(req.numCases)
    ensures Respond(req, behaviour) == Failure(UnsafeCode) <==>
      exists k :: 0 <= k < |DenyList| &&
        (RegexMatches(DenyList[k], req.generator.value)
         || (Truthy(req.standard) && RegexMatches(DenyList[k], req.standard.value)))
  {
    UnsafeIff(req.generator.value, SourceText(req.standard));
    BatchFailsOnlyWithCaseFailed(IterationOf(SourceText(req.standard), behaviour),
                                 0, Iterations(req.numCases.value), []);
  }

  /** A successful response holds max(0, min(numCases, 20)) cases; the case at position
      k is numbered k + 1 and is what iteration k produced on the queue left by the
      iterations before it. */
  lemma SuccessShape(req: Request, behaviour: Behaviour, cs: seq<TestCase>)
    requires Respond(req, behaviour) == Success(cs)
    ensures req.numCases.Some?
    ensures var n := req.numCases.value;
      |cs| == if n <= 0 then 0 else if n < MaxCases then n else MaxCases
    ensures forall k :: 0 <= k < |cs| ==> cs[k].index == k + 1
    ensures var s := SourceText(req.standard);
      forall k :: 0 <= k < |cs| ==>
        Step(s, behaviour, k, LinesAt(s, behaviour, k)) == Produced(cs[k], LinesAt(s, behaviour, k + 1))
  {
    var s := SourceText(req.standard);
    IterationOfImplements(s, behaviour);
    SucceededSteps(IterationOf(s, behaviour), s, behaviour, Iterations(req.numCases.value), cs);
  }

  /** Fail-fast: a failure naming case n means iterations 0 .. n - 2 all produced a
      case, iteration n - 1 halted with the reported message, and n is within the
      capped count. */
  lemma FailFast(req: Request, behaviour: Behaviour, n: nat, m: string)
    requires Respond(req, behaviour) == Failure(CaseFailed(n, m))
    ensures Truthy(req.generator) && CountGiven(req.numCases)
    ensures 1 <= n <= Iterations(req.numCases.value)
    ensures var s := SourceText(req.standard);
      && (forall k :: 0 <= k < n - 1 ==> Step(s, behaviour, k, LinesAt(s, behaviour, k)).Produced?)
      && Step(s, behaviour, n - 1, LinesAt(s, behaviour, n - 1)) == Halted(m)
  {
    var s := SourceText(req.standard);
    IterationOfImplements(s, behaviour);
    FailedSteps(IterationOf(s, behaviour), s, behaviour, Iterations(req.numCases.value), n, m);
  }

  /** When the generator prints lines without line breaks of their own and without
      surrounding white space, the standard's queue is exactly those lines. */
  lemma StandardReadsGeneratorLines(printed: seq<string>)
    requires |printed| >= 1
    requires forall k :: 0 <= k < |printed| ==> '\n' !in printed[k]
    requires Trimmed(Join(printed, "\n"))
    ensures Split(Trim(Join(printed, "\n")), '\n') == printed
  {
    var t := Join(printed, "\n");
    TrimOfTrimmed(t);
    assert "\n" == ['\n'];
    SplitJoin(printed, '\n');
  }
}
