/** The source stage (`readNumbers`): each input line is the quit sentinel,
    a malformed line (reported and skipped) or an integer sent downstream.
    The parser is a parameter; the pipeline uses `Strconv.Atoi`. */
module Source {
  import opened Sequences

  /** The line that ends the stream. */
  const Quit: string := "q"

  /** A line parser: `None` is a parse error. */
  type Parser = string -> Option<int>

  datatype Line = QuitLine | Malformed | Number(value: int)

  /** What the loop body does with one line: the sentinel is tested first,
      then the line is parsed. */
  function Classify(parse: Parser, line: string): (c: Line)
    ensures c == QuitLine <==> line == Quit
    ensures c == Malformed <==> line != Quit && parse(line) == None
    ensures c.Number? ==> parse(line) == Some(c.value)
  {
    if line == Quit then QuitLine
    else match parse(line)
      case None => Malformed
      case Some(n) => Number(n)
  }

  /** Position of the first sentinel, or the number of lines if there is none:
      the lines before it are the ones the stage looks at. */
  function QuitIndex(lines: seq<string>): (k: nat)
    ensures k <= |lines|
    ensures k < |lines| ==> lines[k] == Quit
    ensures forall i :: 0 <= i < k ==> lines[i] != Quit
  {
    if lines == [] || lines[0] == Quit then 0 else 1 + QuitIndex(lines[1..])
  }

  /** The integers sent downstream, in order: at most one per line before
      the first sentinel (`ReadNumbersMembers` says which). */
  function ReadNumbers(parse: Parser, lines: seq<string>): (r: seq<int>)
    ensures |r| <= QuitIndex(lines)
  {
    if lines == [] then []
    else match Classify(parse, lines[0])
      case QuitLine => []
      case Malformed => ReadNumbers(parse, lines[1..])
      case Number(n) => [n] + ReadNumbers(parse, lines[1..])
  }

  /** The number of "malformed input" diagnostics printed. */
  function Diagnostics(parse: Parser, lines: seq<string>): (d: nat)
    ensures d + |ReadNumbers(parse, lines)| == QuitIndex(lines)
  {
    if lines == [] then 0
    else match Classify(parse, lines[0])
      case QuitLine => 0
      case Malformed => 1 + Diagnostics(parse, lines[1..])
      case Number(_) => Diagnostics(parse, lines[1..])
  }

  /** Nothing is sent from a sentinel onward: the lines after it are never read. */
  lemma {:induction false} StopsAtQuit(parse: Parser, lines: seq<string>, i: nat)
    requires i < |lines| && lines[i] == Quit
    ensures ReadNumbers(parse, lines) == ReadNumbers(parse, lines[..i])
  {
    if i > 0 {
      assert lines[1..][i - 1] == lines[i];
      StopsAtQuit(parse, lines[1..], i - 1);
      assert lines[..i][1..] == lines[1..][..i - 1];
    }
  }

  /** Before a sentinel, every line is handled on its own and processing goes on:
      numbers come out in input order, malformed lines contribute nothing. */
  lemma {:induction false} ReadNumbersAppend(parse: Parser, a: seq<string>, b: seq<string>)
    requires Quit !in a
    ensures ReadNumbers(parse, a + b) == ReadNumbers(parse, a) + ReadNumbers(parse, b)
  {
    if a == [] {
      assert a + b == b;
    } else {
      assert (a + b)[0] == a[0];
      assert (a + b)[1..] == a[1..] + b;
      assert a[0] in a;
      assert a == [a[0]] + a[1..];
      ReadNumbersAppend(parse, a[1..], b);
    }
  }

  /** Lines that all parse, with no sentinel among them, are all sent, in
      order. */
  lemma {:induction false} ReadNumbersAllParse(parse: Parser, lines: seq<string>, nums: seq<int>)
    requires |lines| == |nums| && Quit !in lines
    requires forall i :: 0 <= i < |lines| ==> parse(lines[i]) == Some(nums[i])
    ensures ReadNumbers(parse, lines) == nums
  {
    if lines != [] {
      assert lines[0] in lines;
      assert lines == [lines[0]] + lines[1..];
      forall i | 0 <= i < |lines[1..]| ensures parse(lines[1..][i]) == Some(nums[1..][i]) {
        assert lines[1..][i] == lines[i + 1];
      }
      ReadNumbersAllParse(parse, lines[1..], nums[1..]);
    }
  }

  /** An integer is sent exactly when some line before the first sentinel
      parses to it. */
  lemma {:induction false} ReadNumbersMembers(parse: Parser, lines: seq<string>, n: int)
    ensures n in ReadNumbers(parse, lines) <==>
            exists i :: 0 <= i < QuitIndex(lines) && parse(lines[i]) == Some(n)
  {
    if lines != [] && lines[0] != Quit {
      ReadNumbersMembers(parse, lines[1..], n);
      var k := QuitIndex(lines);
      if exists i :: 0 <= i < k && parse(lines[i]) == Some(n) {
        var i :| 0 <= i < k && parse(lines[i]) == Some(n);
        if i > 0 {
          assert lines[1..][i - 1] == lines[i];
        }
      }
      if exists j :: 0 <= j < k - 1 && parse(lines[1..][j]) == Some(n) {
        var j :| 0 <= j < k - 1 && parse(lines[1..][j]) == Some(n);
        assert lines[j + 1] == lines[1..][j];
      }
    }
  }

  /** Input ending early (end of file, or cancellation of a pending send)
      delivers a prefix of what the whole input would. */
  lemma {:induction false} ReadNumbersPrefix(parse: Parser, lines: seq<string>, k: nat)
    requires k <= |lines|
    ensures IsPrefix(ReadNumbers(parse, lines[..k]), ReadNumbers(parse, lines))
  {
    if k > 0 {
      assert lines[..k][0] == lines[0];
      assert lines[..k][1..] == lines[1..][..k - 1];
      ReadNumbersPrefix(parse, lines[1..], k - 1);
    }
  }
}
