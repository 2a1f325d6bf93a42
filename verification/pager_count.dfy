/**
 * What the count of one call means: under the rule as written it is the
 * number of source characters shown plus one for every wrapped fragment
 * carried over from the previous call; under the corrected rule it is exactly
 * the number of source characters shown.
 */
module PagerCount {
  import opened Text
  import opened Streams
  import opened Lines
  import opened Pager
  import opened PagerFrame
  import opened PagerShape

  /** Weighing as written counts every character on screen. */
  lemma {:induction false} WeighAsWritten(ls: seq<Line>)
    ensures Weigh(AsWritten, ls) == |Join(ls)|
    decreases |ls|
  {
    if |ls| > 0 {
      assert ls == [ls[0]] + ls[1..];
      JoinAppend([ls[0]], ls[1..]);
      JoinOne(ls[0]);
      WeighAsWritten(ls[1..]);
    }
  }

  /**
   * Count semantics as written: every line contributes its source characters,
   * and each wrapped fragment drained from the buffer contributes its inserted
   * '\n' as well.
   */
  lemma AsWrittenCount(s: Stream, buffer: seq<Line>, nLines: int, nCols: int)
    requires WellFormed(buffer, nCols)
    ensures ReadFromFile(s, buffer, nLines, nCols).Ok?
    ensures var p := ReadFromFile(s, buffer, nLines, nCols).value;
      p.count == |Source(p.lines)| + SyntheticCount(buffer[..Carried(buffer, nLines)])
  {
    var k := Carried(buffer, nLines);
    WellFormedDrainable(buffer, nCols);
    DrainReady(AsWritten, State(0, [], "", nLines, buffer), nCols);
    PageCount(AsWritten, s, buffer, nLines, nCols);
    var out := buffer[..k];
    var p := ReadFromFile(s, buffer, nLines, nCols).value;
    assert Drained(AsWritten, State(0, [], "", nLines, buffer)).out == out;
    CarriedWeight(buffer, nCols, k);
    Extended(p.lines, out);
    SourceAppend(out, p.lines[k..]);
  }

  /** A well-formed prefix weighs, as written, its source characters plus its inserted '\n's. */
  lemma CarriedWeight(buffer: seq<Line>, nCols: int, k: nat)
    requires WellFormed(buffer, nCols) && k <= ReadyCount(buffer)
    ensures Weigh(AsWritten, buffer[..k]) == |Source(buffer[..k])| + SyntheticCount(buffer[..k])
  {
    var out := buffer[..k];
    WeighAsWritten(out);
    ReadyComplete(buffer, nCols, k);
    assert forall i :: 0 <= i < |out| ==> Complete(out[i], nCols);
    JoinLength(out);
  }

  /** The count never falls short of the source characters shown. */
  lemma CountCoversShown(rule: CountRule, s: Stream, buffer: seq<Line>, nLines: int, nCols: int)
    requires WellFormed(buffer, nCols)
    ensures Paginate(rule, s, buffer, nLines, nCols).Ok?
    ensures var p := Paginate(rule, s, buffer, nLines, nCols).value;
      && |Source(p.lines)| <= p.count
      && (rule == SourceChars ==> p.count == |Source(p.lines)|)
  {
    if rule == AsWritten {
      AsWrittenCount(s, buffer, nLines, nCols);
    } else {
      PageConservation(rule, s, buffer, nLines, nCols);
      CorrectedCount(s, buffer, nLines, nCols);
    }
  }

  /**
   * With nothing carried over, both rules count exactly the source characters
   * consumed: the characters read, less those still in the new buffer.
   */
  lemma FreshCount(rule: CountRule, s: Stream, nLines: int, nCols: int)
    ensures Paginate(rule, s, [], nLines, nCols).Ok?
    ensures var p := Paginate(rule, s, [], nLines, nCols).value;
      && p.count == |Source(p.lines)|
      && p.count + |Source(p.buffer)| == p.stream.pos - s.pos
  {
    assert WellFormed([], nCols);
    CountCoversShown(rule, s, [], nLines, nCols);
    PageConservation(rule, s, [], nLines, nCols);
    AsWrittenCount(s, [], nLines, nCols);
    SourceEmpty();
    PageReadBound(rule, s, [], nLines, nCols);
  }

  /**
   * The worked example: "a\nb\nc\n" with 80 columns and 2 rows returns
   * `(4, 2, "a\nb\n")`, reads the whole text, and leaves "c\n" in the buffer.
   */
  lemma CountExample()
    ensures ReadFromFile(TextFile("a\nb\nc\n", 0), [], 2, 80)
         == Ok(Page(4, [Line("a\n", false), Line("b\n", false)], [Line("c\n", false)], TextFile("a\nb\nc\n", 6)))
    ensures ReadFromFile(TextFile("a\nb\nc\n", 0), [], 2, 80).value.Triple() == (4, 2, "a\nb\n")
  {
    ExamplePage();
    var a, b := Line("a\n", false), Line("b\n", false);
    JoinOne(a);
    JoinOne(b);
    JoinAppend([a], [b]);
    assert [a] + [b] == [a, b];
    assert "a\n" + "b\n" == "a\nb\n";
    assert Join([a, b]) == "a\nb\n";
  }

  lemma ExamplePage()
    ensures ReadFromFile(TextFile("a\nb\nc\n", 0), [], 2, 80)
         == Ok(Page(4, [Line("a\n", false), Line("b\n", false)], [Line("c\n", false)], TextFile("a\nb\nc\n", 6)))
  {
    var text := "a\nb\nc\n";
    var d := State(0, [], "", 2, []);
    assert Drain(AsWritten, d, 80) == Ok(d);
    assert text[0..6] == text;
    assert Read(TextFile(text, 0), 160) == (text, TextFile(text, 6));
    ExampleScan();
    var f := State(4, [Line("a\n", false), Line("b\n", false)], "", 0, [Line("c\n", false)]);
    assert Flush(Scan(text, d, 80)) == f;
  }

  lemma ExampleScan()
    ensures Scan("a\nb\nc\n", State(0, [], "", 2, []), 80)
         == State(4, [Line("a\n", false), Line("b\n", false)], "", 0, [Line("c\n", false)])
  {
    var a, b, c := Line("a\n", false), Line("b\n", false), Line("c\n", false);
    var st0 := State(0, [], "", 2, []);
    var st1 := State(0, [], "a", 2, []);
    var st2 := State(2, [a], "", 1, []);
    var st3 := State(2, [a], "b", 1, []);
    var st4 := State(4, [a, b], "", 0, []);
    var st5 := State(4, [a, b], "c", 0, []);
    var st6 := State(4, [a, b], "", 0, [c]);
    ExampleSteps();
    ScanCons('a', "\nb\nc\n", st0);
    ScanCons('\n', "b\nc\n", st1);
    ScanCons('b', "\nc\n", st2);
    ScanCons('\n', "c\n", st3);
    ScanCons('c', "\n", st4);
    ScanCons('\n', "", st5);
  }

  /** One character of the worked example at a time. */
  lemma ExampleSteps()
    ensures var a, b, c := Line("a\n", false), Line("b\n", false), Line("c\n", false);
      && Step(State(0, [], "", 2, []), 'a', 80) == State(0, [], "a", 2, [])
      && Step(State(0, [], "a", 2, []), '\n', 80) == State(2, [a], "", 1, [])
      && Step(State(2, [a], "", 1, []), 'b', 80) == State(2, [a], "b", 1, [])
      && Step(State(2, [a], "b", 1, []), '\n', 80) == State(4, [a, b], "", 0, [])
      && Step(State(4, [a, b], "", 0, []), 'c', 80) == State(4, [a, b], "c", 0, [])
      && Step(State(4, [a, b], "c", 0, []), '\n', 80) == State(4, [a, b], "", 0, [c])
  {
    var a, b, c := Line("a\n", false), Line("b\n", false), Line("c\n", false);
    assert "" + ['a'] == "a" && "a" + ['\n'] == "a\n" && "" + ['b'] == "b" && "b" + ['\n'] == "b\n";
    assert "" + ['c'] == "c" && "c" + ['\n'] == "c\n";
    assert [] + [a] == [a] && [a] + [b] == [a, b] && [] + [c] == [c];
  }

  lemma ScanCons(ch: char, rest: string, st: State)
    ensures Scan([ch] + rest, st, 80) == Scan(rest, Step(st, ch, 80), 80)
  {
    assert ([ch] + rest)[0] == ch && ([ch] + rest)[1..] == rest;
  }
}
