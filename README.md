# Integer pipeline with a size/time buffer — Dafny model

The program reads integers line by line. Its source stage stops at the line
`q` and reports and skips lines that do not parse. Two filter stages then drop
negative numbers, and zero with every non-multiple of three. A buffer stage
gathers the survivors and sends them downstream in groups. It sends a group
when the buffer holds `bufferSize` (5) elements, when the periodic ticker fires
while the buffer is non-empty, and once more when upstream closes. A shared
`done` channel cancels every stage.

The model keeps the stages' sequential logic and replaces the goroutines and
channels with explicit inputs:

- `Sequences`: `Option`, prefix and subsequence orderings on sequences.
- `Strconv`: Go's `strconv.Atoi` (an optional sign, one or more ASCII digits,
  a value within the 64-bit `int`) and its partner `Itoa`.
- `Source`: `readNumbers` as a function over the sequence of input lines,
  with the parser as a parameter.
- `Filters`: the two predicates, with Go's truncating `%` written out, and an
  order-preserving `Filter`.
- `Buffering`: the buffer stage. It is a class `BufferStage` whose `buffer`
  is appended to and cleared, and whose `output` grows one send at a time
  (`Flush` is the loop of `flushBuffer`, `Step` one pass of the `for`/`select`
  loop, `Run` the loop itself). Each method is proved against the state
  machine `Next`/`Replay` over the datatype `State`. The `select` is replaced
  by a trace of `Input`s. Each input is one of `Elem(x)`, `Tick`, `Close` or
  `Cancel`. It also carries an optional count of sends after which
  cancellation arrives while that input is handled, so a flush can be cut off
  part-way.
- `Pipeline`: the stages composed as `main` wires them, and the three
  scenarios: drain on close, capacity flush, and timer flush.

Where the design narrative and the code differ, the model follows the code:

- The ticker is created once (ma.go:102) and is never reset by a flush, so a
  `Tick` may come at any point, including right after a capacity flush.
- On the close path the final flush does not clear the buffer (ma.go:110-112).
  The stage simply returns.
- After a flush cut off by cancellation, the buffer is still cleared
  (ma.go:117, ma.go:122).

## Model

| member | source | states |
|---|---|---|
| Strconv.Atoi | ma.go:45 | a parsed value lies within Go's 64-bit `int`, and the text is an optional sign followed by at least one digit; a negative value came from a leading `-` |
| Strconv.AtoiItoa | ma.go:45 | every in-range integer is parsed back from its decimal rendering |
| Strconv.NoDigitNoNumber | ma.go:42-48 | text with no digit, the sentinel `q` among it, is a parse error |
| Source.Classify | ma.go:42-49 | a line is the sentinel exactly when it is `q`; it is malformed exactly when it is not `q` and does not parse; otherwise it carries the parsed value |
| Source.QuitIndex | ma.go:41-44 | the index of the first `q` line (or the line count); no earlier line is `q` |
| Source.Diagnostics | ma.go:46-48 | each line before the first `q` produces exactly one of a diagnostic or a sent integer |
| Source.ReadNumbers | ma.go:41-55 | the loop sends at most one integer per line before the first `q` (which integers: `Source.ReadNumbersMembers`) |
| Source.StopsAtQuit | ma.go:42-44 | nothing is sent from a `q` line onward |
| Source.ReadNumbersAppend | ma.go:41-55 | before a `q`, lines are handled independently and in order; a parse failure does not stop processing |
| Source.ReadNumbersAllParse | ma.go:45-51 | lines that all parse, with no `q` among them, are all sent in input order |
| Source.ReadNumbersMembers | ma.go:41-55 | an integer is sent iff some line before the first `q` parses to it |
| Source.ReadNumbersPrefix | ma.go:50-54 | input that ends early or is cancelled yields a prefix of the full output |
| Filters.GoRem | ma.go:84 | Go's `%`: `a == q * m + r` with `q` the quotient truncated toward zero (`Filters.GoQuo`), `r` smaller than the divisor in magnitude and carrying the dividend's sign |
| Filters.GoRemZero | ma.go:84 | truncated and Euclidean remainders by 3 agree on divisibility |
| Filters.KeepMultipleOf3 | ma.go:84 | the condition, written with Go's `%`, accepts exactly the non-zero multiples of three |
| Filters.FilterNegative | ma.go:61-76 | `filterNegative` forwards exactly the non-negative elements that arrive (predicate `KeepNonNegative`, ma.go:66), keeping their order |
| Filters.FilterNotDivisibleBy3 | ma.go:79-94 | `filterNotDivisibleBy3` forwards exactly the non-zero multiples of three that arrive, keeping their order |
| Filters.Filter | ma.go:65-73 | a filter never lengthens its stream and forwards only accepted elements |
| Filters.FilterCounts | ma.go:65-73 | each accepted value is forwarded as many times as it arrives, each rejected one never |
| Filters.FilterMembers | ma.go:83-91 | a value is forwarded iff it arrived and is accepted |
| Filters.FilterOrder | ma.go:65-73 | the forwarded stream is a subsequence of the input: relative order kept |
| Filters.FilterAppend | ma.go:83-91 | filtering distributes over concatenation, so a stream cut short yields a prefix |
| Filters.FilterCompose | ma.go:24-25 | two filters in sequence equal one filter by the conjunction |
| Filters.FiltersCombined | ma.go:66-84 | the two stages together forward exactly the `x >= 0 && x != 0 && x % 3 == 0` elements, in order |
| Buffering.Sent | ma.go:131-139 | a flush sends a prefix of the buffer, the whole buffer iff cancellation does not cut it short |
| Buffering.Next | ma.go:106-124 | a pass only extends what was sent and received, keeps the buffer below capacity, and ends the stage after cancellation |
| Buffering.Replay | ma.go:105-125 | the loop only extends the output, and does nothing once the stage has returned |
| Buffering.ReplaySnoc | ma.go:105-125 | one more pass of the loop is one more `Next`, unless the stage has returned |
| Buffering.NextKeepsInv | ma.go:106-124 | each pass keeps the invariant: the buffer is below capacity; the output is a prefix of the elements received; without cancellation output + buffer = received while running, and output = received once returned |
| Buffering.ReplayKeepsInv | ma.go:105-125 | the loop keeps that invariant over any trace |
| Buffering.BufferBounded | ma.go:114-118 | between passes the buffer holds at most `bufferSize - 1` elements |
| Buffering.CapacityFlush | ma.go:114-118 | an element arriving below capacity is appended and nothing is sent; the `bufferSize`-th element causes exactly `bufferSize` elements to be sent in arrival order, empties the buffer and leaves nothing received unsent |
| Buffering.TickFlush | ma.go:119-123 | a tick with an empty buffer changes nothing; otherwise it sends the whole buffer in order and empties it |
| Buffering.ReplayUndisturbed | ma.go:109-118 | without cancellation the stage takes exactly the elements upstream sends before closing, and returns once upstream closes |
| Buffering.DeliversAll | ma.go:105-125 | without cancellation, once upstream closes, the output equals the received elements: same order, no loss, no duplication |
| Buffering.ReceivedOffered | ma.go:109-114 | the elements the stage takes are a prefix of those upstream offers |
| Buffering.OutputIsPrefix | ma.go:131-139 | under any cancellation, including part-way through a flush, the output is a prefix of the offered elements, provided `done` wins the next `select` (see "## Left out") |
| Buffering.Terminates | ma.go:107-112 | the stage returns on cancellation or upstream close, and one pass after cancellation arrives mid-pass |
| Buffering.BufferStage.constructor | ma.go:101 | the stage starts with an empty buffer and nothing sent |
| Buffering.BufferStage.Flush | ma.go:131-139 | the loop sends the items one by one and stops at the send where cancellation is seen |
| Buffering.BufferStage.Step | ma.go:106-124 | one pass updates buffer and output as `Next` says and keeps the invariant |
| Buffering.BufferStage.Run | ma.go:105-125 | the loop runs passes until the stage returns, ending in the state `Replay` gives |
| Pipeline.Survivors | ma.go:23-25 | the elements reaching the buffer stage are a subsequence of the integers read |
| Pipeline.EndToEnd | ma.go:17-32 | without cancellation, whatever the ticks, the program outputs exactly the positive multiples of three read, in input order |
| Pipeline.ReadNumbersInRange | ma.go:45-51 | every integer sent by the source fits Go's `int` |
| Pipeline.ScenarioParses | ma.go:45 | the scenario's lines parse to 3, -3, 6, 0, 9, 12 |
| Pipeline.ScenarioLines | ma.go:41-55 | lines 3, -3, 6, 0, 9, 12, q send 3, -3, 6, 0, 9, 12 |
| Pipeline.ScenarioFilters | ma.go:65-91 | the filters keep 3, 6, 9, 12 of them |
| Pipeline.ScenarioSurvivors | ma.go:23-25 | those lines deliver 3, 6, 9, 12 to the buffer stage |
| Pipeline.ScenarioDrainOnClose | ma.go:109-112 | four elements without a tick stay buffered and leave as one group on close |
| Pipeline.ScenarioCapacity | ma.go:114-118 | five elements leave together on the fifth arrival, without a tick |
| Pipeline.ScenarioTimer | ma.go:119-123 | two elements leave as a group of two on a tick |

## Left out

- Goroutines, unbuffered channels, `defer close(...)` and the `done` broadcast (ma.go:19-20, 36-38, 62-64, 98-100) are not modelled. Each stage is a function or a loop over its whole input. The buffer stage's `select` is replaced by a trace of inputs.
- Buffering.OutputIsPrefix, Buffering.Terminates: hold under the scheduling the model admits, not under every scheduling Go allows. When several `select` cases are ready, Go picks one at random; the model lets `done` win as soon as cancellation has arrived, at the next pass of the loop and at the send where `cancelAfter` cuts a flush. In Go, after a flush cut short at ma.go:133-136 the buffer is still cleared (ma.go:117, ma.go:122), so its unsent elements are lost. The next pass may then take another element `y` (or a tick) instead of returning, and a later flush may send `y`. The output is then the sent part of the first buffer followed by `y`, which is not a prefix of what was received, and the stage does not return within one pass. In ma.go this cannot arise: `done` is closed only by `main`'s deferred `close` (ma.go:20), after the `range` at ma.go:29-31 has ended, that is after `bufferStage` has closed its output. So no running stage ever sees cancellation.
- Cancellation of the source and filter stages (ma.go:50-54, 67-71, 85-89) is not an event in the model. `Source.ReadNumbersPrefix` and `Filters.FilterAppend` state the effect: a stream cut short delivers a prefix.
- `time.NewTicker` and `flushInterval` (ma.go:14, 102-103) are not modelled. The `Tick` input stands for the ticker firing, at any point of the trace.
- `bufio.Scanner` on standard input, the prompt and diagnostic printing, and `fmt.Printf` of the results (ma.go:29-31, 39-40, 47) are I/O. The lines are a sequence and end of input is its end. Scanner errors end the input like end of file. `Source.Diagnostics` counts the diagnostics but does not model their text.
- Strconv.Atoi: models the text accepted and the 64-bit range check, not the error values or their messages. It assumes a 64-bit platform; on a 32-bit platform Go's `int` range is narrower.
- `main`'s consumption loop (ma.go:29-31) is covered only through `Pipeline.EndToEnd`, which takes the buffer stage's output as the program's output.
