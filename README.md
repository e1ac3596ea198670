# HydroTestGen test-data harness in Dafny

HydroTestGen builds test data for Hydro programming problems. The user supplies
two short Python programs. The *generator* prints one test input. The *standard*
reads that input and prints the expected output. The endpoint `POST
/api/generate` works in three stages:

1. It rejects a request whose generator or case count is missing.
2. It rejects a request when either program contains one of eight deny patterns.
3. It runs the pair up to 20 times on one emulated Python executor. It stops at
   the first case that fails.

The executor does not run Python. It gives the translated program a `print`
that collects lines and an `input` that hands out lines from a queue. The queue
belongs to the executor and lasts for the whole batch. The client page classifies
uploaded files by name and removes files by position. It offers two downloads:
one combined text file, or one `.in` / `.out` pair per case. Its case-count box
falls back to 1.

The model has these modules:

- `Wrappers`: `Option` and `Result`.
- `Text`: the JavaScript string operations the code uses. These are `trim`,
  `split('\n')`, `join`, `includes`, and how a number is printed in decimal.
- `Safety`: the deny patterns, scanned in the order the source lists them. Each
  scan is proved equal to the regular-expression meaning of its pattern.
- `Executor`: class `PythonExecutor`, with fields `output` and `inputLines`.
  Its methods are `SetInput`, `Print`, `Input` and `Execute`. The module also
  has the context helpers `range` and `random.shuffle`.
- `Generate`: the request handler. `Post` is proved equal to a reference
  function `Respond`. `RunBatch` is proved equal to the recurrence `Batch`.
  Lemmas state the fail-fast behaviour and the shape of a successful batch.
- `Page`: the pure helpers of the client page.

A translated program is given as the sequence of calls it makes (`Op`):
`print(args...)`, `input()`, or a throw. Its meaning is the function
`Executor.Run`. Which program runs is a parameter of the request,
`behaviour : (role, iteration, queue) -> Program`. The role says whether the
generator (`Gen`) or the standard (`Std`) runs. The queue is the one the executor
holds when that run starts. The program may depend on all three, so two runs of
the same text in one iteration may draw different random numbers, and what a
program prints may depend on the lines it reads. This parameter stands in for
the Python-to-JavaScript rewriting, `new Function`, and the random draws.
Iterations share the executor's queue, and the model threads it from one
iteration to the next. A generator that calls `input()` therefore reads whatever
the previous standard left behind.

Details of the code that the model keeps:

- Only a missing or zero `numCases` is a missing parameter. A negative count
  passes the check, runs no iteration, and succeeds with no cases.
  `Math.min(numCases, 20)` caps the count from above only.
- The iterations of a batch share the executor's input queue.
- The unsafe-code message is the fixed text `代码包含不安全的操作`. A failed
  case reports `测试点 {n} 生成失败: 代码执行失败: {reason}`.

## Model

| member | source | states |
|---|---|---|
| Text.IsSpace | app/api/generate/route.ts:59 | the white-space set that both `trim` and the regular-expression class `\s` use: tab, line feed, vertical tab, form feed, carriage return, space, no-break space, U+1680, U+2000 to U+200A, U+2028, U+2029, U+202F, U+205F, U+3000 and U+FEFF |
| Text.Trim | app/api/generate/route.ts:59 | `trim` never lengthens its input, and its result has no white space at either end |
| Text.TrimIsInfix | app/api/generate/route.ts:152-153 | `trim` keeps a contiguous middle part of the string; what it drops on each side is all white space |
| Text.TrimPadded | app/api/generate/route.ts:152-153 | trimming white space + t + white space gives back a trimmed t, so the trimmed core is unique |
| Text.TrimOfTrimmed | app/api/generate/route.ts:152-153 | a string with no white space at its ends is left unchanged |
| Text.TrimIdempotent | app/api/generate/route.ts:152-153 | trimming twice is trimming once |
| Text.TrimStartSpec | app/api/generate/route.ts:59 | the leading-space strip keeps exactly the suffix that starts at the first non-space character |
| Text.TrimEndSpec | app/api/generate/route.ts:59 | the trailing-space strip keeps exactly the prefix that ends at the last non-space character |
| Text.Split | app/api/generate/route.ts:59 | `split` always gives at least one piece |
| Text.SplitPartsLackSeparator | app/api/generate/route.ts:59 | no piece of a split contains the separator |
| Text.JoinSplit | app/api/generate/route.ts:59 | joining the pieces of a split with the same separator gives the string back |
| Text.SplitJoin | app/api/generate/route.ts:59 | splitting a join of separator-free pieces gives the pieces back |
| Text.SplitAround | app/api/generate/route.ts:59 | a separator between x and y splits into the pieces of x followed by those of y |
| Text.SplitWithoutSeparator | app/api/generate/route.ts:59 | a string without the separator is one piece |
| Text.JoinAppend | app/page.tsx:120-122 | joining one more part adds the separator and the part at the end |
| Text.ContainsIff | app/page.tsx:79-80 | the `includes` scan holds exactly when the needle occurs at some position |
| Text.NatToString | app/page.tsx:139 | the decimal rendering is non-empty, made of digits, and at least two long from 10 up |
| Text.NatToStringInjective | app/page.tsx:139 | different numbers render differently |
| Text.DecimalValue | app/page.tsx:139 | read back as a decimal number, the rendering of n is n |
| Text.NoLeadingZero | app/page.tsx:139 | the rendering of a positive number does not start with 0 |
| Safety.DenyListWellFormed | app/api/generate/route.ts:115-124 | there are eight patterns, and none has a tail that starts with white space |
| Safety.SpaceRun | app/api/generate/route.ts:116-123 | the white-space run at j is all white space and maximal |
| Safety.RegexMatchIsGreedyMatch | app/api/generate/route.ts:116-123 | any regular-expression match at i is found by the greedy scan at i |
| Safety.MatchesAtIff | app/api/generate/route.ts:116-123 | the greedy scan matches at i exactly when some white-space gap gives a regular-expression match at i |
| Safety.MatchesFromIff | app/api/generate/route.ts:127 | the search from i finds a match exactly when one starts at or after i |
| Safety.MatchesIff | app/api/generate/route.ts:127 | `pattern.test(s)` on the scan agrees with the regular-expression search, in both directions |
| Safety.UnsafeIff | app/api/generate/route.ts:126-133 | the gate fires exactly when some pattern matches the generator, or matches a non-empty standard |
| Safety.ScanDenyPatterns | app/api/generate/route.ts:126-133 | the pattern loop returns true exactly when the gate fires |
| Executor.Run | app/api/generate/route.ts:43-49 | the reference meaning of a program on a queue: each `print` adds its space-joined arguments, each `input()` takes the head of the queue, and a throw stops the run |
| Executor.Outcome | app/api/generate/route.ts:99-102 | a run that did not throw returns its printed entries joined by line breaks; one that threw fails with `代码执行失败: ` + reason |
| Executor.RunPrints | app/api/generate/route.ts:62-103 | a program fails exactly when it throws; when it does not throw, it prints one entry per `print` call |
| Executor.RunConsumes | app/api/generate/route.ts:46-49 | each `input()` before the throw takes one line off the front of the queue; an empty queue stays empty |
| Executor.PythonExecutor.constructor | app/api/generate/route.ts:51-52 | a new executor has an empty print buffer and an empty queue |
| Executor.PythonExecutor.SetInput | app/api/generate/route.ts:58-60 | the queue becomes the lines of the trimmed input; rejoined, they give the trimmed input back |
| Executor.PythonExecutor.Print | app/api/generate/route.ts:43-45 | exactly one entry is appended: the arguments joined by spaces |
| Executor.PythonExecutor.Input | app/api/generate/route.ts:46-49 | returns and removes the head of the queue; on an empty queue returns "" and changes nothing |
| Executor.PythonExecutor.Execute | app/api/generate/route.ts:62-103 | clears the buffer and runs the program on the queue as it stands; returns the printed lines joined by line breaks, or fails with `代码执行失败: ` + reason |
| Executor.Range | app/api/generate/route.ts:21-33 | `range` returns the progression RangeFrom(start, stop, step), using the one-argument defaults |
| Executor.RangeFromSteps | app/api/generate/route.ts:28-31 | the result starts at start, and consecutive values differ by step |
| Executor.RangeFromBounds | app/api/generate/route.ts:29 | every value is below stop, and the next value after the last would not be |
| Executor.RangeFromCounts | app/api/generate/route.ts:22-26 | `range(n)` counts 0, 1, ..., n - 1, and is empty when n <= 0 |
| Executor.Shuffle | app/api/generate/route.ts:12-18 | whatever positions are drawn, the array ends as a permutation of itself |
| Generate.ErrorText | app/api/generate/route.ts:111 | the three error texts: `缺少必要参数`, `代码包含不安全的操作` and `测试点 {n} 生成失败: {message}` (also lines 130 and 159) |
| Generate.Iterations | app/api/generate/route.ts:139 | `Math.min(numCases, 20)`: the bound is at most the count and at most 20, and equals one of them |
| Generate.Step | app/api/generate/route.ts:140-155 | one iteration on the queue it starts from; the case it builds is numbered i + 1 and holds a trimmed input and a trimmed output |
| Generate.Respond | app/api/generate/route.ts:106-164 | the reference response: the missing-parameter failure, then the unsafe-code failure, then the fail-fast batch capped at 20 |
| Generate.RunCase | app/api/generate/route.ts:140-155 | one loop body: the generator runs first, then the standard runs on the generator's output when there is a standard; the result is that iteration's step on the executor's current queue |
| Generate.RunBatch | app/api/generate/route.ts:135-162 | the batch loop on one shared executor equals the fail-fast recurrence, and every failure is a case failure |
| Generate.Post | app/api/generate/route.ts:106-164 | the handler returns the reference response; nothing runs on a missing parameter or unsafe code; a success runs every iteration; a failure at case n stops inside iteration n - 1 |
| Generate.BatchFailsOnlyWithCaseFailed | app/api/generate/route.ts:156-161 | a batch can only fail by naming a case number within its iterations |
| Generate.BatchSucceeds | app/api/generate/route.ts:139-155 | a completed batch has one case per iteration, each produced on the queue the previous iteration left |
| Generate.BatchFails | app/api/generate/route.ts:156-161 | in a failed batch, every iteration before the failing one produced a case, and the failing one halted with the reported message |
| Generate.SucceededSteps | app/api/generate/route.ts:139-164 | a successful batch numbers its cases 1, 2, ..., and case k is iteration k's step on the queue at that point |
| Generate.FailedSteps | app/api/generate/route.ts:156-161 | a failure at case n means steps 0 .. n - 2 produced cases and step n - 1 halted with the message |
| Generate.MissingParameterFirst | app/api/generate/route.ts:110-112 | the response is the missing-parameter failure exactly when the generator is missing or empty, or the count is missing or zero |
| Generate.UnsafeGate | app/api/generate/route.ts:114-133 | with the parameters present, the response is the unsafe-code failure exactly when a pattern matches the generator or a non-empty standard |
| Generate.SuccessShape | app/api/generate/route.ts:139-164 | a success has max(0, min(numCases, 20)) cases; case k is numbered k + 1 and is what iteration k produced |
| Generate.FailFast | app/api/generate/route.ts:139-161 | a failure at case n lies within the capped count; iterations 0 .. n - 2 all produced cases, and iteration n - 1 halted with the reported message |
| Generate.StandardReadsGeneratorLines | app/api/generate/route.ts:142-148 | when the generator's printed lines have no line breaks inside and no white space at the ends, the standard's queue is exactly those lines |
| Page.ClassifyFile | app/page.tsx:79-80 | a name containing "gen" is a generator; otherwise one containing "std" is a standard; otherwise it is an input; no upload is an output |
| Page.RemoveFile | app/page.tsx:88-90 | an index in range removes that one file; any other index leaves the list unchanged |
| Page.RemoveFileShifts | app/page.tsx:89 | each remaining file is at the same position before the removed one, and one position earlier after it |
| Page.RemoveUploaded | app/page.tsx:82-90 | removing the file just uploaded gives the previous list back |
| Page.CombinedText | app/page.tsx:119-122 | the combined download: the case blocks `=== 测试点 {i+1} ===`, `输入:`, input, `输出:`, output, joined by line breaks |
| Page.CombinedTextEmpty | app/page.tsx:119-122 | no cases give an empty download |
| Page.CombinedTextSingle | app/page.tsx:119-122 | a single case gives its own block, numbered 1 |
| Page.CombinedTextAppend | app/page.tsx:119-122 | one more case adds a line break and its block, numbered by its position |
| Page.CombinedTextIgnoresIndex | app/page.tsx:119-122 | numbering follows list position, not the cases' `index` fields |
| Page.SeparateFiles | app/page.tsx:132-149 | the per-case downloads in the order they start: for each case, its input file, then its output file |
| Page.SeparateFilesLayout | app/page.tsx:132-149 | there are two downloads per case: case i gives `{i+1}.in` with its input, then `{i+1}.out` with its output |
| Page.NamesDiffer | app/page.tsx:139-147 | names of different cases or different kinds are different |
| Page.SeparateFileNamesDistinct | app/page.tsx:132-149 | no two per-case downloads share a name |
| Page.ParseInt | app/page.tsx:374 | `parseInt` with no radix: skip leading white space, read an optional sign, let `0x`/`0X` select radix 16, and read the longest run of digits; no digits is NaN |
| Page.DigitPrefix | app/page.tsx:374 | `parseInt` reads exactly the longest run of digits at the front |
| Page.ParseIntDecimal | app/page.tsx:374 | a decimal number followed by a non-digit parses as that number, and with a leading minus as its negation |
| Page.CaseCountFieldUnclamped | app/page.tsx:374-376 | typed values outside 1..20 are kept as typed, because the bounds are not applied in `onChange` |
| Page.CaseCountFieldFallback | app/page.tsx:374 | an empty field and a typed 0 both become 1 |

## Left out

- The rewriting of Python text into JavaScript and its evaluation with `new Function` (app/api/generate/route.ts:66-97). The model takes the sequence of `print`/`input`/throw calls each source makes in each iteration as a parameter (`Behaviour`).
- A program that never returns, such as an endless loop in the translated code. A program is a finite list of calls, so every run in the model ends. The source has no timeout, so `POST` would never answer such a request.
- The `Behaviour` parameter fixes a program's whole call sequence from its role, its iteration and the queue it starts from. This covers programs whose calls depend on what they read and on their random draws. It does not model anything else a program could observe.
- How a thrown value becomes text (`${error}`). The message a program throws is given as a string.
- `random.randint`, `random.choice` and `random.random`. These are randomness: each iteration's draws are folded into `Behaviour`, and `Shuffle` takes its draws as a parameter.
- `len`, `str`, `int`, `list`, `map`, `sum`, `max`, `min` and `sorted` from the executor's context. These one-line wrappers over JavaScript built-ins act only on values inside the translated program, and the model does not represent those values.
- Executor.Range: handles integer arguments only. A non-positive step with start below stop loops forever in the source, so the precondition excludes that case. Floating-point arguments are not modelled.
- Executor.Shuffle: does not model the returned array. It is the argument itself, and nothing in the harness uses it.
- `print` arguments are taken as already converted to text. The JavaScript `join(' ')` conversion of non-string values is not modelled.
- JSON parsing of the request body, and the outer `catch` that turns an unparsable body into an error response (app/api/generate/route.ts:107-108, 166-171). The request is already a record, and `numCases` is an integer or absent.
- Generate.Post: does not model a `numCases` that is a string, a fraction or NaN, because the model's `numCases` is an integer or absent.
- Page.ParseInt: integers are unbounded. The precision loss of JavaScript numbers above 2^53 and the `-0` value are not modelled, though `-0` is falsy and also falls back to 1.
- React state, the DOM, `FileReader`, `Blob`, object URLs, `fetch`, `alert` and `localStorage` on the client page. These are I/O; the model keeps the pure computations these handlers perform.
- Page.Upload: one finished read is modelled as one call. The order in which several `FileReader`s finish is not modelled.
- The example gallery (app/examples/page.tsx), the layout and the build configuration. They are presentation only.
