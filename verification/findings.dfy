/**
 * The count finding. more.py:36 adds the full length of a fragment carried
 * over from the previous call, so a wrapped fragment also counts the '\n' the
 * wrap inserted, which more.py:59 leaves out when the same line is shown in
 * the call that cut it. `read_count` then runs ahead of the characters shown,
 * and the guard of more.py:99 can stop the pager before the end of the text.
 */
module Findings {
  import opened Streams
  import opened Lines
  import opened Pager
  import opened Sessions

  const Text7: string := "abcde\nf"

  /**
   * As written: on Text7 with two columns and one row, five requests bring
   * `read_count` to 7, the file size, while only "abcde\n" has been shown and
   * the deque is empty, so the guard of more.py:99 turns false; every later
   * request leaves the session as it is, and the final "f" is never read.
   */
  lemma EarlyStopAsWritten(later: nat)
    requires later >= 5
    ensures Run(AsWritten, Text7, 1, 2, later).Ok?
    ensures var ses := Run(AsWritten, Text7, 1, 2, later).value;
      && ses.consumed == |Text7| && !WantsMore(ses, |Text7|)
      && Source(ses.shown) == "abcde\n" && ses.stream.pos == |Text7| - 1
  {
    AsWrittenRun();
    StopIsFinal(AsWritten, Text7, 1, 2, 5, later);
    ShownText();
  }

  /** Corrected: on the same text and screen the corrected count shows every character, "f" included. */
  lemma ShowsAllCorrected(later: nat)
    requires later >= |Text7|
    ensures Run(SourceChars, Text7, 1, 2, later).Ok?
    ensures var ses := Run(SourceChars, Text7, 1, 2, later).value;
      Source(ses.shown) == Text7 && ses.consumed == |Text7| && !WantsMore(ses, |Text7|)
  {
    CorrectedShowsAll(Text7, 1, 2, later);
    CorrectedStopsWhenDone(Text7, 1, 2, later);
  }

  const Shown5: seq<Line> :=
    [Line("a\n", true), Line("b\n", true), Line("c\n", true), Line("d\n", true), Line("e\n", false)]

  /** The five sessions of the pager as written on Text7. */
  lemma AsWrittenRun()
    ensures Run(AsWritten, Text7, 1, 2, 5) == Ok(Session(TextFile(Text7, 6), [], Shown5, 7))
  {
    Page1();
    Page2();
    Page3();
    Page4();
    Page5();
    var a, b, c, d, e := Line("a\n", true), Line("b\n", true), Line("c\n", true), Line("d\n", true), Line("e\n", false);
    assert [] + [a] == [a] && [a] + [b] == [a, b] && [a, b] + [c] == [a, b, c];
    assert [a, b, c] + [d] == [a, b, c, d] && [a, b, c, d] + [e] == Shown5;
    assert Run(AsWritten, Text7, 1, 2, 1) == Ok(Session(TextFile(Text7, 2), [Line("b", false)], [a], 1));
    assert Run(AsWritten, Text7, 1, 2, 2)
        == Ok(Session(TextFile(Text7, 4), [c, Line("d", false)], [a, b], 2));
    assert Run(AsWritten, Text7, 1, 2, 3)
        == Ok(Session(TextFile(Text7, 4), [Line("d", false)], [a, b, c], 4));
    assert Run(AsWritten, Text7, 1, 2, 4)
        == Ok(Session(TextFile(Text7, 6), [Line("e\n", false)], [a, b, c, d], 5));
  }

  /** The source characters of the five lines shown. */
  lemma ShownText()
    ensures Source(Shown5) == "abcde\n"
  {
    var a, b, c, d, e := Line("a\n", true), Line("b\n", true), Line("c\n", true), Line("d\n", true), Line("e\n", false);
    SourceEmpty();
    assert [] + [a] == [a] && [a] + [b] == [a, b] && [a, b] + [c] == [a, b, c];
    assert [a, b, c] + [d] == [a, b, c, d] && [a, b, c, d] + [e] == Shown5;
    SourceSnoc([], a);
    SourceSnoc([a], b);
    SourceSnoc([a, b], c);
    SourceSnoc([a, b, c], d);
    SourceSnoc([a, b, c, d], e);
    assert Unwrap(a) == "a" && Unwrap(b) == "b" && Unwrap(c) == "c" && Unwrap(d) == "d";
    assert "" + "a" + "b" + "c" + "d" + "e\n" == "abcde\n";
  }

  /** A read phase with one row and two columns reads two characters and steps through them. */
  lemma FillTwo(s: Stream, d: State)
    requires d.nLines == 1 && s.pos + 2 <= |s.text|
    ensures var f := Flush(Step(Step(d, s.text[s.pos], 2), s.text[s.pos + 1], 2));
      Fill(s, d, 2) == Page(f.count, f.out, f.buffer, TextFile(s.text, s.pos + 2))
  {
    var chunk := s.text[s.pos..s.pos + 2];
    assert chunk == [s.text[s.pos], s.text[s.pos + 1]];
    var st1 := Step(d, chunk[0], 2);
    assert chunk[1..] == [chunk[1]] && chunk[1..][1..] == [];
    assert Scan(chunk, d, 2) == Scan(chunk[1..], st1, 2);
    assert Scan(chunk[1..], st1, 2) == Scan([], Step(st1, chunk[1], 2), 2);
  }

  /** Page 1: "a" and "b" are read; "ab" wraps, so "a\n" is shown and "b" is left over. */
  lemma Page1()
    ensures Paginate(AsWritten, TextFile(Text7, 0), [], 1, 2)
         == Ok(Page(1, [Line("a\n", true)], [Line("b", false)], TextFile(Text7, 2)))
  {
    var d := State(0, [], "", 1, []);
    assert Drain(AsWritten, d, 2) == Ok(d);
    FillTwo(TextFile(Text7, 0), d);
    Steps1();
  }

  lemma Steps1()
    ensures Flush(Step(Step(State(0, [], "", 1, []), 'a', 2), 'b', 2))
         == State(1, [Line("a\n", true)], "", 0, [Line("b", false)])
  {
    assert "" + ['a'] == "a" && "a" + "\n" == "a\n";
    assert [] + [Line("a\n", true)] == [Line("a\n", true)];
    assert [] + [Line("b", false)] == [Line("b", false)];
  }

  /** Page 2: "b" seeds the line; "bc" wraps onto the page, "cd" wraps into the deque, then "d". */
  lemma Page2()
    ensures Paginate(AsWritten, TextFile(Text7, 2), [Line("b", false)], 1, 2)
         == Ok(Page(1, [Line("b\n", true)], [Line("c\n", true), Line("d", false)], TextFile(Text7, 4)))
  {
    var d := State(0, [], "b", 1, []);
    assert [Line("b", false)][1..] == [];
    assert Drain(AsWritten, State(0, [], "", 1, [Line("b", false)]), 2) == Drain(AsWritten, d, 2) == Ok(d);
    FillTwo(TextFile(Text7, 2), d);
    Steps2();
  }

  lemma Steps2()
    ensures Flush(Step(Step(State(0, [], "b", 1, []), 'c', 2), 'd', 2))
         == State(1, [Line("b\n", true)], "", 0, [Line("c\n", true), Line("d", false)])
  {
    assert "b" + ['c'] == "bc" && "b" + "\n" == "b\n" && "c" + ['d'] == "cd" && "c" + "\n" == "c\n";
    assert [] + [Line("b\n", true)] == [Line("b\n", true)];
    assert [] + [Line("c\n", true)] == [Line("c\n", true)];
    assert [Line("c\n", true)] + [Line("d", false)] == [Line("c\n", true), Line("d", false)];
  }

  /** Page 3: the carried wrap "c\n" fills the page and is counted as two characters. */
  lemma Page3()
    ensures Paginate(AsWritten, TextFile(Text7, 4), [Line("c\n", true), Line("d", false)], 1, 2)
         == Ok(Page(2, [Line("c\n", true)], [Line("d", false)], TextFile(Text7, 4)))
  {
    var buf := [Line("c\n", true), Line("d", false)];
    assert buf[1..] == [Line("d", false)];
    assert [] + [Line("c\n", true)] == [Line("c\n", true)];
    var d := State(2, [Line("c\n", true)], "", 0, [Line("d", false)]);
    assert Drain(AsWritten, State(0, [], "", 1, buf), 2) == Drain(AsWritten, d, 2) == Ok(d);
  }

  /** Page 4: "d" seeds the line; "de" wraps onto the page and "e\n" goes to the deque. */
  lemma Page4()
    ensures Paginate(AsWritten, TextFile(Text7, 4), [Line("d", false)], 1, 2)
         == Ok(Page(1, [Line("d\n", true)], [Line("e\n", false)], TextFile(Text7, 6)))
  {
    var d := State(0, [], "d", 1, []);
    assert [Line("d", false)][1..] == [];
    assert Drain(AsWritten, State(0, [], "", 1, [Line("d", false)]), 2) == Drain(AsWritten, d, 2) == Ok(d);
    FillTwo(TextFile(Text7, 4), d);
    Steps4();
  }

  lemma Steps4()
    ensures Flush(Step(Step(State(0, [], "d", 1, []), 'e', 2), '\n', 2))
         == State(1, [Line("d\n", true)], "", 0, [Line("e\n", false)])
  {
    assert "d" + ['e'] == "de" && "d" + "\n" == "d\n" && "e" + ['\n'] == "e\n";
    assert [] + [Line("d\n", true)] == [Line("d\n", true)];
    assert [] + [Line("e\n", false)] == [Line("e\n", false)];
  }

  /** Page 5: the carried "e\n" fills the page; the deque is empty again. */
  lemma Page5()
    ensures Paginate(AsWritten, TextFile(Text7, 6), [Line("e\n", false)], 1, 2)
         == Ok(Page(2, [Line("e\n", false)], [], TextFile(Text7, 6)))
  {
    var buf := [Line("e\n", false)];
    assert buf[1..] == [];
    assert [] + [Line("e\n", false)] == [Line("e\n", false)];
    var d := State(2, [Line("e\n", false)], "", 0, []);
    assert Drain(AsWritten, State(0, [], "", 1, buf), 2) == Drain(AsWritten, d, 2) == Ok(d);
  }
}
