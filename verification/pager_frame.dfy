/**
 * Facts about one call that hold for any buffer and any width: rows are only
 * ever taken while some are free, the buffer only grows once the page is full,
 * and the count adds up what the shown lines stand for.
 */
module PagerFrame {
  import opened Text
  import opened Streams
  import opened Lines
  import opened Pager

  lemma WeighSourceChars(ls: seq<Line>)
    ensures Weigh(SourceChars, ls) == |Source(ls)|
    decreases |ls|
  {
    if |ls| > 0 {
      assert ls == [ls[0]] + ls[1..];
      SourceAppend([ls[0]], ls[1..]);
      SourceOne(ls[0]);
      WeighSourceChars(ls[1..]);
    }
  }

  lemma WeighAppend(rule: CountRule, a: seq<Line>, b: seq<Line>)
    ensures Weigh(rule, a + b) == Weigh(rule, a) + Weigh(rule, b)
    decreases |a|
  {
    if |a| == 0 {
      assert a + b == b;
    } else {
      assert (a + b)[0] == a[0];
      assert (a + b)[1..] == a[1..] + b;
      WeighAppend(rule, a[1..], b);
    }
  }

  /** One character: at most one line is emitted or pushed, and it is counted by its source characters. */
  lemma StepFrame(st: State, ch: char, nCols: int)
    ensures var r := Step(st, ch, nCols);
      && |r.out| >= |st.out| && r.out[..|st.out|] == st.out
      && |r.out| - |st.out| == st.nLines - r.nLines
      && r.nLines <= st.nLines && (st.nLines >= 0 ==> r.nLines >= 0)
      && |r.buffer| >= |st.buffer| && r.buffer[..|st.buffer|] == st.buffer
      && (st.nLines > 0 ==> r.buffer == st.buffer)
      && (st.nLines <= 0 ==> r.out == st.out && r.count == st.count)
      && |r.out| + |r.buffer| <= |st.out| + |st.buffer| + 1
      && r.count - st.count == |Source(r.out[|st.out|..])|
  {
    var r := Step(st, ch, nCols);
    if |r.out| == |st.out| {
      assert r.out[|st.out|..] == [];
    } else {
      var l := r.out[|st.out|];
      assert r.out[|st.out|..] == [l];
      SourceOne(l);
    }
  }

  /** The read phase: at most one line per character, in order, counted by its source characters. */
  lemma ScanFrame(chunk: string, st: State, nCols: int)
    ensures var r := Scan(chunk, st, nCols);
      && |r.out| >= |st.out| && r.out[..|st.out|] == st.out
      && |r.out| - |st.out| == st.nLines - r.nLines
      && r.nLines <= st.nLines && (st.nLines >= 0 ==> r.nLines >= 0)
      && |r.buffer| >= |st.buffer| && r.buffer[..|st.buffer|] == st.buffer
      && (r.nLines > 0 ==> r.buffer == st.buffer)
      && r.count - st.count == |Source(r.out[|st.out|..])|
  {
    ScanRows(chunk, st, nCols);
    ScanPrefix(chunk, st, nCols);
    ScanCount(chunk, st, nCols);
  }

  lemma {:induction false} ScanRows(chunk: string, st: State, nCols: int)
    ensures var r := Scan(chunk, st, nCols);
      && |r.out| - |st.out| == st.nLines - r.nLines
      && r.nLines <= st.nLines && (st.nLines >= 0 ==> r.nLines >= 0)
      && (r.nLines > 0 ==> r.buffer == st.buffer)
    decreases |chunk|
  {
    if |chunk| > 0 {
      StepFrame(st, chunk[0], nCols);
      ScanRows(chunk[1..], Step(st, chunk[0], nCols), nCols);
    }
  }

  lemma {:induction false} ScanPrefix(chunk: string, st: State, nCols: int)
    ensures var r := Scan(chunk, st, nCols);
      && |r.out| >= |st.out| && r.out[..|st.out|] == st.out
      && |r.buffer| >= |st.buffer| && r.buffer[..|st.buffer|] == st.buffer
    decreases |chunk|
  {
    if |chunk| > 0 {
      var st1 := Step(st, chunk[0], nCols);
      var r := Scan(chunk[1..], st1, nCols);
      StepFrame(st, chunk[0], nCols);
      ScanPrefix(chunk[1..], st1, nCols);
      PrefixOfPrefix(r.out, st1.out, st.out);
      PrefixOfPrefix(r.buffer, st1.buffer, st.buffer);
    }
  }

  lemma {:induction false} ScanCount(chunk: string, st: State, nCols: int)
    ensures var r := Scan(chunk, st, nCols);
      |r.out| >= |st.out| && r.count - st.count == |Source(r.out[|st.out|..])|
    decreases |chunk|
  {
    if |chunk| > 0 {
      var st1 := Step(st, chunk[0], nCols);
      var r := Scan(chunk[1..], st1, nCols);
      StepFrame(st, chunk[0], nCols);
      ScanPrefix(chunk[1..], st1, nCols);
      ScanCount(chunk[1..], st1, nCols);
      DropExtended(r.out, st1.out, |st.out|);
      SourceAppend(st1.out[|st.out|..], r.out[|st1.out|..]);
    }
  }

  /**
   * Flushing: a non-empty open line becomes an unwrapped line of its own,
   * shown and counted by its length while a row is free and buffered otherwise.
   */
  lemma FlushFrame(st: State)
    ensures |st.line| == 0 ==> Flush(st) == st
    ensures var r := Flush(st); var l := Line(st.line, false);
      && (|st.line| > 0 && st.nLines > 0 ==>
            r.out == st.out + [l] && r.count == st.count + |st.line| && r.buffer == st.buffer)
      && (|st.line| > 0 && st.nLines <= 0 ==>
            r.buffer == st.buffer + [l] && r.out == st.out && r.count == st.count)
    ensures var r := Flush(st);
      && |r.out| >= |st.out| && r.out[..|st.out|] == st.out
      && |r.out| - |st.out| == st.nLines - r.nLines
      && r.nLines <= st.nLines && (st.nLines >= 0 ==> r.nLines >= 0)
      && |r.buffer| >= |st.buffer| && r.buffer[..|st.buffer|] == st.buffer
      && (r.nLines > 0 ==> r.buffer == st.buffer)
      && r.count - st.count == |Source(r.out[|st.out|..])|
  {
    var r := Flush(st);
    if |r.out| == |st.out| {
      assert r.out[|st.out|..] == [];
    } else {
      assert r.out[|st.out|..] == [Line(st.line, false)];
      SourceOne(Line(st.line, false));
    }
  }

  /**
   * The fragments the drain takes as finished lines: those exactly `nCols`
   * long or ending in a terminator, in buffer order (more.py:34).
   */
  function Kept(ls: seq<Line>, nCols: int): seq<Line>
    decreases |ls|
  {
    if |ls| == 0 then []
    else
      var f := ls[0];
      (if |f.text| == nCols || EndsInTerminator(f.text) then [f] else []) + Kept(ls[1..], nCols)
  }

  /**
   * The drain takes one row per drained line and counts each by its weight;
   * it pops a front part of the buffer and shows exactly the fragments of it
   * that are finished lines, in buffer order.
   */
  lemma DrainFrame(rule: CountRule, st: State, nCols: int)
    requires Drain(rule, st, nCols).Ok?
    ensures var d := Drain(rule, st, nCols).value;
      && |d.out| >= |st.out| && d.out[..|st.out|] == st.out
      && |d.out| - |st.out| == st.nLines - d.nLines
      && d.nLines <= st.nLines && (st.nLines >= 0 ==> d.nLines >= 0)
      && (st.nLines <= 0 ==> d == st)
      && (d.nLines > 0 ==> d.buffer == [])
      && d.count - st.count == Weigh(rule, d.out[|st.out|..])
    ensures var d := Drain(rule, st, nCols).value;
      var m := |st.buffer| - |d.buffer|;
      && 0 <= m && d.buffer == st.buffer[m..]
      && d.out[|st.out|..] == Kept(st.buffer[..m], nCols)
  {
    DrainCount(rule, st, nCols);
    DrainOrder(rule, st, nCols);
  }

  /** DrainFrame without the order of the drained lines. */
  lemma {:induction false} DrainCount(rule: CountRule, st: State, nCols: int)
    requires Drain(rule, st, nCols).Ok?
    ensures var d := Drain(rule, st, nCols).value;
      && |d.out| >= |st.out| && d.out[..|st.out|] == st.out
      && |d.out| - |st.out| == st.nLines - d.nLines
      && d.nLines <= st.nLines && (st.nLines >= 0 ==> d.nLines >= 0)
      && (st.nLines <= 0 ==> d == st)
      && (d.nLines > 0 ==> d.buffer == [])
      && d.count - st.count == Weigh(rule, d.out[|st.out|..])
    decreases |st.buffer|
  {
    if |st.buffer| > 0 && st.nLines > 0 {
      var f := st.buffer[0];
      if |f.text| == nCols || EndsInTerminator(f.text) {
        var st1 := st.(out := st.out + [f], count := st.count + Weight(rule, f),
                       nLines := st.nLines - 1, buffer := st.buffer[1..]);
        DrainCount(rule, st1, nCols);
        var d := Drain(rule, st1, nCols).value;
        assert Drain(rule, st, nCols) == Drain(rule, st1, nCols);
        PrefixOfPrefix(d.out, st1.out, st.out);
        DropExtended(d.out, st1.out, |st.out|);
        assert st1.out[|st.out|..] == [f];
        WeighAppend(rule, [f], d.out[|st1.out|..]);
      } else {
        DrainCount(rule, st.(line := f.text, buffer := st.buffer[1..]), nCols);
      }
    } else {
      assert st.out[|st.out|..] == [];
    }
  }

  /** The drain shows exactly the finished fragments of the front part of the buffer it pops. */
  lemma {:induction false} DrainOrder(rule: CountRule, st: State, nCols: int)
    requires Drain(rule, st, nCols).Ok?
    ensures var d := Drain(rule, st, nCols).value;
      var m := |st.buffer| - |d.buffer|;
      && |d.out| >= |st.out| && 0 <= m && d.buffer == st.buffer[m..]
      && d.out[|st.out|..] == Kept(st.buffer[..m], nCols)
    decreases |st.buffer|, 1
  {
    var buf := st.buffer;
    if |buf| > 0 && st.nLines > 0 {
      var f := buf[0];
      if |f.text| == nCols || EndsInTerminator(f.text) {
        var st1 := st.(out := st.out + [f], count := st.count + Weight(rule, f),
                       nLines := st.nLines - 1, buffer := buf[1..]);
        assert Drain(rule, st, nCols) == Drain(rule, st1, nCols);
        DrainOrderTail(rule, st, st1, [f], nCols);
      } else {
        var st1 := st.(line := f.text, buffer := buf[1..]);
        assert Drain(rule, st, nCols) == Drain(rule, st1, nCols);
        DrainOrderTail(rule, st, st1, [], nCols);
      }
    } else {
      assert buf[..0] == [] && buf[0..] == buf;
      assert st.out[|st.out|..] == [];
    }
  }

  /** The step of DrainOrder: the front fragment, shown (`e == [f]`) or not (`e == []`), then the rest. */
  lemma {:induction false} DrainOrderTail(rule: CountRule, st: State, st1: State, e: seq<Line>, nCols: int)
    requires |st.buffer| > 0 && st1.buffer == st.buffer[1..] && st1.out == st.out + e
    requires e == (if |st.buffer[0].text| == nCols || EndsInTerminator(st.buffer[0].text) then [st.buffer[0]] else [])
    requires Drain(rule, st1, nCols).Ok? && Drain(rule, st, nCols) == Drain(rule, st1, nCols)
    ensures var d := Drain(rule, st, nCols).value;
      var m := |st.buffer| - |d.buffer|;
      && |d.out| >= |st.out| && 0 <= m && d.buffer == st.buffer[m..]
      && d.out[|st.out|..] == Kept(st.buffer[..m], nCols)
    decreases |st.buffer|, 0
  {
    DrainOrder(rule, st1, nCols);
    DrainCount(rule, st1, nCols);
    var d := Drain(rule, st1, nCols).value;
    assert Drain(rule, st, nCols).value == d;
    OrderGlue(st.buffer, st.out, e, d.out, d.buffer, nCols);
  }

  /** The bookkeeping of DrainOrderTail on plain sequences. */
  lemma OrderGlue(buf: seq<Line>, out: seq<Line>, e: seq<Line>, dOut: seq<Line>, dBuf: seq<Line>, nCols: int)
    requires |buf| > 0
    requires e == (if |buf[0].text| == nCols || EndsInTerminator(buf[0].text) then [buf[0]] else [])
    requires |dOut| >= |out + e| && dOut[..|out + e|] == out + e
    requires |buf| - 1 - |dBuf| >= 0 && dBuf == buf[1..][|buf| - 1 - |dBuf|..]
    requires dOut[|out + e|..] == Kept(buf[1..][..|buf| - 1 - |dBuf|], nCols)
    ensures var m := |buf| - |dBuf|;
      && |dOut| >= |out| && 0 <= m && dBuf == buf[m..]
      && dOut[|out|..] == Kept(buf[..m], nCols)
  {
    var m := |buf| - |dBuf|;
    TakeCons(buf, m);
    KeptCons(buf, m, nCols);
    Glue(dOut, out, e, Kept(buf[1..][..m - 1], nCols));
  }

  lemma KeptCons(buf: seq<Line>, m: nat, nCols: int)
    requires 1 <= m <= |buf|
    ensures var f := buf[0];
      Kept(buf[..m], nCols)
      == (if |f.text| == nCols || EndsInTerminator(f.text) then [f] else []) + Kept(buf[1..][..m - 1], nCols)
  {
    TakeCons(buf, m);
  }

  /**
   * The read phase appends at most one line per row left to the drained lines,
   * counts each by its source characters, touches the buffer only once the page
   * is full, and only moves the stream forward.
   */
  lemma FillFrame(s: Stream, d: State, nCols: int)
    ensures var p := Fill(s, d, nCols);
      && |d.out| <= |p.lines| && p.lines[..|d.out|] == d.out
      && |p.lines| - |d.out| <= Max(d.nLines, 0)
      && (|p.lines| - |d.out| < d.nLines ==> p.buffer == d.buffer)
      && p.count == d.count + |Source(p.lines[|d.out|..])|
      && p.stream.text == s.text && s.pos <= p.stream.pos
      && (d.nLines <= 0 ==> p == Page(d.count, d.out, d.buffer, s))
  {
    if d.nLines > 0 {
      var (chunk, s') := Read(s, nCols * d.nLines);
      var sc := Scan(chunk, d, nCols);
      ScanFrame(chunk, d, nCols);
      FlushFrame(sc);
      var f := Flush(sc);
      PrefixOfPrefix(f.out, sc.out, d.out);
      DropExtended(f.out, sc.out, |d.out|);
      SourceAppend(sc.out[|d.out|..], f.out[|sc.out|..]);
    } else {
      assert d.out[|d.out|..] == [];
    }
  }

  /**
   * Row bound: a call returns at most `nLines` lines; with no rows it changes
   * nothing, reads nothing and returns `(0, 0, "")`; and the buffer is left
   * non-empty only when the page is full.
   */
  lemma PageRows(rule: CountRule, s: Stream, buffer: seq<Line>, nLines: int, nCols: int)
    ensures nLines <= 0 ==> Paginate(rule, s, buffer, nLines, nCols) == Ok(Page(0, [], buffer, s))
    ensures Paginate(rule, s, buffer, nLines, nCols).Ok? ==>
      var p := Paginate(rule, s, buffer, nLines, nCols).value;
      && |p.lines| <= Max(nLines, 0)
      && (|p.lines| < nLines ==> p.buffer == [])
      && p.stream.text == s.text && s.pos <= p.stream.pos
  {
    var st := State(0, [], "", nLines, buffer);
    if Drain(rule, st, nCols).Ok? {
      DrainFrame(rule, st, nCols);
      FillFrame(s, Drain(rule, st, nCols).value, nCols);
    }
  }

  /**
   * The count of a call is the weight of the drained lines plus the source
   * characters of the lines cut in the read phase.
   */
  lemma PageCount(rule: CountRule, s: Stream, buffer: seq<Line>, nLines: int, nCols: int)
    requires Drain(rule, State(0, [], "", nLines, buffer), nCols).Ok?
    ensures Paginate(rule, s, buffer, nLines, nCols).Ok?
    ensures var d := Drain(rule, State(0, [], "", nLines, buffer), nCols).value;
      var p := Paginate(rule, s, buffer, nLines, nCols).value;
      && |d.out| <= |p.lines| && p.lines[..|d.out|] == d.out
      && p.count == Weigh(rule, d.out) + |Source(p.lines[|d.out|..])|
  {
    var st := State(0, [], "", nLines, buffer);
    DrainFrame(rule, st, nCols);
    FillFrame(s, Drain(rule, st, nCols).value, nCols);
  }

  /** With the corrected rule the count is exactly the number of source characters shown. */
  lemma CorrectedCount(s: Stream, buffer: seq<Line>, nLines: int, nCols: int)
    ensures ReadFromFileCorrected(s, buffer, nLines, nCols).Ok? ==>
      var p := ReadFromFileCorrected(s, buffer, nLines, nCols).value;
      p.count == |Source(p.lines)|
  {
    var st := State(0, [], "", nLines, buffer);
    if Drain(SourceChars, st, nCols).Ok? {
      PageCount(SourceChars, s, buffer, nLines, nCols);
      var d := Drain(SourceChars, st, nCols).value;
      var p := ReadFromFileCorrected(s, buffer, nLines, nCols).value;
      WeighSourceChars(d.out);
      Extended(p.lines, d.out);
      SourceAppend(d.out, p.lines[|d.out|..]);
    }
  }
}
