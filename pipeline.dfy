/** The stages wired as `main` wires them: source, the two filters, then the
    buffer stage, whose passes interleave the surviving elements with ticks. */
module Pipeline {
  import opened Sequences
  import Strconv
  import Source
  import Filters
  import Buffering

  /** The elements that reach the buffer stage. */
  function Survivors(lines: seq<string>): (r: seq<int>)
    ensures IsSubsequence(r, Source.ReadNumbers(Strconv.Atoi, lines))
  {
    var nums := Source.ReadNumbers(Strconv.Atoi, lines);
    SubsequenceTransitive(Filters.FilterNotDivisibleBy3(Filters.FilterNegative(nums)),
                          Filters.FilterNegative(nums), nums);
    Filters.FilterNotDivisibleBy3(Filters.FilterNegative(nums))
  }

  /** With no cancellation, every pass order the timer may produce ends with
      the positive multiples of three among the input's integers sent
      downstream, in input order, each once. */
  lemma EndToEnd(lines: seq<string>, trace: seq<Buffering.Input>)
    requires Buffering.Undisturbed(trace) && Buffering.Closes(trace)
    requires Buffering.Arrivals(trace) == Survivors(lines)
    ensures Buffering.Replay(Buffering.Start, trace).terminated
    ensures Buffering.Replay(Buffering.Start, trace).output
            == Filters.Filter(Filters.Qualifies, Source.ReadNumbers(Strconv.Atoi, lines))
    ensures forall x :: x in Buffering.Replay(Buffering.Start, trace).output <==>
                        x in Source.ReadNumbers(Strconv.Atoi, lines) && x > 0 && x % 3 == 0
  {
    Buffering.DeliversAll(trace);
    Filters.FiltersCombined(Source.ReadNumbers(Strconv.Atoi, lines));
  }

  function Pass(e: Buffering.Event): Buffering.Input {
    Buffering.Input(e, None)
  }

  /** Every integer the source sends fits Go's `int`. */
  lemma ReadNumbersInRange(lines: seq<string>)
    ensures forall n :: n in Source.ReadNumbers(Strconv.Atoi, lines) ==> Strconv.InRange(n)
  {
    forall n | n in Source.ReadNumbers(Strconv.Atoi, lines) ensures Strconv.InRange(n) {
      Source.ReadNumbersMembers(Strconv.Atoi, lines, n);
    }
  }

  lemma ScenarioParses()
    ensures Strconv.Atoi("3") == Some(3) && Strconv.Atoi("-3") == Some(-3)
    ensures Strconv.Atoi("6") == Some(6) && Strconv.Atoi("0") == Some(0)
    ensures Strconv.Atoi("9") == Some(9) && Strconv.Atoi("12") == Some(12)
  {
    assert "12"[..1] == "1";
    assert Strconv.Unsigned("-3") == "3";
  }

  /** The integers read from 3, -3, 6, 0, 9, 12, q. */
  lemma ScenarioLines()
    ensures Source.ReadNumbers(Strconv.Atoi, ["3", "-3", "6", "0", "9", "12", "q"]) == [3, -3, 6, 0, 9, 12]
  {
    var lines := ["3", "-3", "6", "0", "9", "12", "q"];
    var read := ["3", "-3", "6", "0", "9", "12"];
    Source.StopsAtQuit(Strconv.Atoi, lines, 6);
    assert lines[..6] == read;
    ScenarioParses();
    Source.ReadNumbersAllParse(Strconv.Atoi, read, [3, -3, 6, 0, 9, 12]);
  }

  /** What the two filters keep of 3, -3, 6, 0, 9, 12. */
  lemma ScenarioFilters()
    ensures Filters.FilterNotDivisibleBy3(Filters.FilterNegative([3, -3, 6, 0, 9, 12])) == [3, 6, 9, 12]
  {
    var s := [3, -3, 6, 0, 9, 12];
    Filters.FiltersCombined(s);
    assert s == [3, -3, 6] + [0, 9, 12];
    Filters.FilterAppend(Filters.Qualifies, [3, -3, 6], [0, 9, 12]);
    assert Filters.Filter(Filters.Qualifies, [3, -3, 6]) == [3, 6];
    assert Filters.Filter(Filters.Qualifies, [0, 9, 12]) == [9, 12];
  }

  /** Input 3, -3, 6, 0, 9, 12, q: these four integers reach the buffer stage. */
  lemma ScenarioSurvivors()
    ensures Survivors(["3", "-3", "6", "0", "9", "12", "q"]) == [3, 6, 9, 12]
  {
    ScenarioLines();
    ScenarioFilters();
  }

  /** With no tick, the four survivors leave as one group, sent when upstream
      closes. */
  lemma ScenarioDrainOnClose()
    ensures var elems := [Pass(Buffering.Elem(3)), Pass(Buffering.Elem(6)),
                          Pass(Buffering.Elem(9)), Pass(Buffering.Elem(12))];
      && Buffering.Replay(Buffering.Start, elems).output == []
      && Buffering.Replay(Buffering.Start, elems + [Pass(Buffering.Close)]).output == [3, 6, 9, 12]
  {
    var s0 := Buffering.Start;
    var t1 := [Pass(Buffering.Elem(3))];
    var t2 := t1 + [Pass(Buffering.Elem(6))];
    var t3 := t2 + [Pass(Buffering.Elem(9))];
    var t4 := t3 + [Pass(Buffering.Elem(12))];
    Buffering.ReplaySnoc(s0, [], Pass(Buffering.Elem(3)));
    assert [] + t1 == t1;
    Buffering.ReplaySnoc(s0, t1, Pass(Buffering.Elem(6)));
    Buffering.ReplaySnoc(s0, t2, Pass(Buffering.Elem(9)));
    Buffering.ReplaySnoc(s0, t3, Pass(Buffering.Elem(12)));
    assert t4 == [Pass(Buffering.Elem(3)), Pass(Buffering.Elem(6)),
                  Pass(Buffering.Elem(9)), Pass(Buffering.Elem(12))];
    assert Buffering.Replay(s0, t4).buffer == [3, 6, 9, 12];
    Buffering.ReplaySnoc(s0, t4, Pass(Buffering.Close));
  }

  /** Five elements before any tick leave together on the fifth arrival. */
  lemma ScenarioCapacity(a: int, b: int, c: int, d: int, e: int)
    ensures var four := [Pass(Buffering.Elem(a)), Pass(Buffering.Elem(b)),
                         Pass(Buffering.Elem(c)), Pass(Buffering.Elem(d))];
      && Buffering.Replay(Buffering.Start, four).output == []
      && Buffering.Replay(Buffering.Start, four + [Pass(Buffering.Elem(e))]).output == [a, b, c, d, e]
      && Buffering.Replay(Buffering.Start, four + [Pass(Buffering.Elem(e))]).buffer == []
  {
    var s0 := Buffering.Start;
    var t1 := [Pass(Buffering.Elem(a))];
    var t2 := t1 + [Pass(Buffering.Elem(b))];
    var t3 := t2 + [Pass(Buffering.Elem(c))];
    Buffering.ReplaySnoc(s0, [], Pass(Buffering.Elem(a)));
    assert [] + t1 == t1;
    Buffering.ReplaySnoc(s0, t1, Pass(Buffering.Elem(b)));
    Buffering.ReplaySnoc(s0, t2, Pass(Buffering.Elem(c)));
    Buffering.ReplaySnoc(s0, t3, Pass(Buffering.Elem(d)));
    var t4 := t3 + [Pass(Buffering.Elem(d))];
    assert t4 == [Pass(Buffering.Elem(a)), Pass(Buffering.Elem(b)),
                  Pass(Buffering.Elem(c)), Pass(Buffering.Elem(d))];
    assert Buffering.Replay(s0, t4).buffer == [a, b, c, d];
    Buffering.ReplaySnoc(s0, t4, Pass(Buffering.Elem(e)));
  }

  /** Two elements followed by a tick leave as a group of two. */
  lemma ScenarioTimer(a: int, b: int)
    ensures var two := [Pass(Buffering.Elem(a)), Pass(Buffering.Elem(b))];
      && Buffering.Replay(Buffering.Start, two).output == []
      && Buffering.Replay(Buffering.Start, two + [Pass(Buffering.Tick)]).output == [a, b]
  {
    var s0 := Buffering.Start;
    var t1 := [Pass(Buffering.Elem(a))];
    Buffering.ReplaySnoc(s0, [], Pass(Buffering.Elem(a)));
    assert [] + t1 == t1;
    Buffering.ReplaySnoc(s0, t1, Pass(Buffering.Elem(b)));
    var t2 := t1 + [Pass(Buffering.Elem(b))];
    assert Buffering.Replay(s0, t2).buffer == [a, b];
    Buffering.ReplaySnoc(s0, t2, Pass(Buffering.Tick));
  }
}
