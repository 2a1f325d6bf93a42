/**
 * The `synthetic` flag on a line is bookkeeping only: the program as written
 * keeps plain strings, and nothing it does depends on the flag. Two buffers
 * with the same fragment texts give pages with the same count, the same line
 * and fragment texts, and the same stream.
 */
module Bookkeeping {
  import opened Text
  import opened Streams
  import opened Lines
  import opened Pager

  /** Two states that differ at most in the flags of their lines. */
  predicate Alike(a: State, b: State) {
    && a.count == b.count && a.line == b.line && a.nLines == b.nLines
    && Texts(a.out) == Texts(b.out) && Texts(a.buffer) == Texts(b.buffer)
  }

  lemma TextsSnoc(ls: seq<Line>, l: Line)
    ensures Texts(ls + [l]) == Texts(ls) + [l.text]
  {
  }

  lemma TextsTail(ls: seq<Line>)
    requires |ls| > 0
    ensures Texts(ls[1..]) == Texts(ls)[1..] && Texts(ls)[0] == ls[0].text
  {
  }

  lemma EmitAlike(a: State, b: State, la: Line, lb: Line, weight: int)
    requires Alike(a, b) && la.text == lb.text
    ensures Alike(Emit(a, la, weight), Emit(b, lb, weight))
  {
    TextsSnoc(a.out, la);
    TextsSnoc(b.out, lb);
    TextsSnoc(a.buffer, la);
    TextsSnoc(b.buffer, lb);
  }

  lemma StepAlike(a: State, b: State, ch: char, nCols: int)
    requires Alike(a, b)
    ensures Alike(Step(a, ch, nCols), Step(b, ch, nCols))
  {
    var line := a.line + [ch];
    if IsTerminator(ch) {
      EmitAlike(a, b, Line(line, false), Line(line, false), |line|);
    } else if |line| == nCols {
      var l := Line(a.line + "\n", true);
      EmitAlike(a, b, l, l, |l.text| - 1);
    }
  }

  lemma {:induction false} ScanAlike(chunk: string, a: State, b: State, nCols: int)
    requires Alike(a, b)
    ensures Alike(Scan(chunk, a, nCols), Scan(chunk, b, nCols))
    decreases |chunk|
  {
    if |chunk| > 0 {
      StepAlike(a, b, chunk[0], nCols);
      ScanAlike(chunk[1..], Step(a, chunk[0], nCols), Step(b, chunk[0], nCols), nCols);
    }
  }

  lemma FlushAlike(a: State, b: State)
    requires Alike(a, b)
    ensures Alike(Flush(a), Flush(b))
  {
    if |a.line| > 0 {
      EmitAlike(a, b, Line(a.line, false), Line(b.line, false), |a.line|);
    }
  }

  /** The drain as written fails on the same buffers and otherwise ends in alike states. */
  lemma {:induction false} DrainAlike(a: State, b: State, nCols: int)
    requires Alike(a, b)
    ensures Drain(AsWritten, a, nCols).Ok? == Drain(AsWritten, b, nCols).Ok?
    ensures Drain(AsWritten, a, nCols).Ok? ==>
      Alike(Drain(AsWritten, a, nCols).value, Drain(AsWritten, b, nCols).value)
    decreases |a.buffer|
  {
    assert |a.buffer| == |Texts(a.buffer)| == |b.buffer|;
    if |a.buffer| > 0 && a.nLines > 0 {
      var fa, fb := a.buffer[0], b.buffer[0];
      TextsTail(a.buffer);
      TextsTail(b.buffer);
      if |fa.text| == nCols || EndsInTerminator(fa.text) {
        var a1 := a.(out := a.out + [fa], count := a.count + Weight(AsWritten, fa),
                     nLines := a.nLines - 1, buffer := a.buffer[1..]);
        var b1 := b.(out := b.out + [fb], count := b.count + Weight(AsWritten, fb),
                     nLines := b.nLines - 1, buffer := b.buffer[1..]);
        TextsSnoc(a.out, fa);
        TextsSnoc(b.out, fb);
        DrainAlike(a1, b1, nCols);
      } else if |fa.text| != 0 {
        DrainAlike(a.(line := fa.text, buffer := a.buffer[1..]), b.(line := fb.text, buffer := b.buffer[1..]), nCols);
      }
    }
  }

  /**
   * The call as written sees fragment texts only: buffers with the same texts
   * give the same count, the same returned text, the same fragment texts left
   * behind and the same stream, whatever their flags.
   */
  lemma FlagsAreBookkeeping(s: Stream, b1: seq<Line>, b2: seq<Line>, nLines: int, nCols: int)
    requires Texts(b1) == Texts(b2)
    ensures ReadFromFile(s, b1, nLines, nCols).Ok? == ReadFromFile(s, b2, nLines, nCols).Ok?
    ensures ReadFromFile(s, b1, nLines, nCols).Ok? ==>
      var p1, p2 := ReadFromFile(s, b1, nLines, nCols).value, ReadFromFile(s, b2, nLines, nCols).value;
      && p1.count == p2.count && Texts(p1.lines) == Texts(p2.lines)
      && Texts(p1.buffer) == Texts(p2.buffer) && p1.stream == p2.stream
      && p1.Triple() == p2.Triple()
  {
    var a, b := State(0, [], "", nLines, b1), State(0, [], "", nLines, b2);
    DrainAlike(a, b, nCols);
    if Drain(AsWritten, a, nCols).Ok? {
      var da, db := Drain(AsWritten, a, nCols).value, Drain(AsWritten, b, nCols).value;
      if da.nLines > 0 {
        var (chunk, s') := Read(s, nCols * da.nLines);
        ScanAlike(chunk, da, db, nCols);
        FlushAlike(Scan(chunk, da, nCols), Scan(chunk, db, nCols));
      }
    }
  }
}
