/**
 * Facts about one call on a well-formed buffer (the shape every call leaves
 * behind): no character is lost or duplicated, every line fits the width, the
 * buffer keeps its shape, and the stream is read only as far as the page needs.
 */
module PagerShape {
  import opened Text
  import opened Streams
  import opened Lines
  import opened Pager
  import opened PagerFrame

  /** Everything a call still holds: lines shown, fragments buffered, the open line. */
  function Pending(st: State): string {
    Source(st.out) + Source(st.buffer) + st.line
  }

  /** What holds between characters of the read phase. */
  predicate ScanInv(st: State, nCols: int) {
    && AllComplete(st.out, nCols)
    && AllComplete(st.buffer, nCols)
    && |st.line| < nCols
    && NoTerminator(st.line)
    && (st.nLines > 0 ==> st.buffer == [])
  }

  /**
   * What the drain phase leaves behind on a drainable buffer, in closed form:
   * the first `k = Carried(buffer, nLines)` fragments are emitted in order and
   * counted by weight; if rows remain, the buffer is empty and the open line is
   * the unterminated tail (if any); otherwise the rest stays in the buffer.
   */
  function Drained(rule: CountRule, st: State): State {
    var buf := st.buffer;
    var k := Carried(buf, st.nLines);
    var n := st.nLines - k;
    State(st.count + Weigh(rule, buf[..k]), st.out + buf[..k],
          if n > 0 && k < |buf| then buf[k].text else "",
          n, if n > 0 then [] else buf[k..])
  }

  lemma CarriedStep(buf: seq<Line>, nLines: int)
    requires |buf| > 0 && nLines > 0 && EndsInTerminator(buf[0].text)
    ensures Carried(buf, nLines) == Carried(buf[1..], nLines - 1) + 1
  {
    if |buf| > 1 {
      assert buf[1..][|buf| - 2] == buf[|buf| - 1];
    }
  }

  /** Emitting a complete front fragment does not change where the drain ends up. */
  lemma DrainedStep(rule: CountRule, st: State, st1: State)
    requires |st.buffer| > 0 && st.nLines > 0 && EndsInTerminator(st.buffer[0].text)
    requires st1 == st.(out := st.out + [st.buffer[0]], count := st.count + Weight(rule, st.buffer[0]),
                        nLines := st.nLines - 1, buffer := st.buffer[1..])
    ensures Drained(rule, st1) == Drained(rule, st)
  {
    var buf := st.buffer;
    var f := buf[0];
    var k := Carried(buf, st.nLines);
    var k1 := Carried(buf[1..], st.nLines - 1);
    CarriedStep(buf, st.nLines);
    TakeCons(buf, k);
    Assoc(st.out, [f], buf[1..][..k1]);
    var a, b := Drained(rule, st1), Drained(rule, st);
    assert a.count == b.count by {
      assert Weigh(rule, buf[..k]) == Weight(rule, f) + Weigh(rule, buf[1..][..k1]);
    }
    assert a.out == b.out;
    assert a.nLines == b.nLines;
    assert a.line == b.line;
    assert a.buffer == b.buffer;
    SameState(a, b);
  }

  lemma SameState(a: State, b: State)
    requires a.count == b.count && a.out == b.out && a.line == b.line
    requires a.nLines == b.nLines && a.buffer == b.buffer
    ensures a == b
  {
  }

  /** The drain phase never fails on a drainable buffer, and ends where Drained says. */
  lemma {:induction false} DrainReady(rule: CountRule, st: State, nCols: int)
    requires Drainable(st.buffer, nCols) && st.line == ""
    ensures Drain(rule, st, nCols) == Ok(Drained(rule, st))
    decreases |st.buffer|
  {
    var buf := st.buffer;
    if |buf| == 0 || st.nLines <= 0 {
      DrainedIdle(rule, st);
    } else if EndsInTerminator(buf[0].text) {
      var f := buf[0];
      assert Drainable(buf[1..], nCols) by {
        if |buf| > 1 {
          assert buf[1..][|buf| - 2] == buf[|buf| - 1];
        }
      }
      var st1 := st.(out := st.out + [f], count := st.count + Weight(rule, f),
                     nLines := st.nLines - 1, buffer := buf[1..]);
      assert Drain(rule, st, nCols) == Drain(rule, st1, nCols);
      DrainReady(rule, st1, nCols);
      DrainedStep(rule, st, st1);
    } else {
      DrainedOpen(rule, st, nCols);
    }
  }

  /** With no buffer or no rows, the drain changes nothing. */
  lemma DrainedIdle(rule: CountRule, st: State)
    requires st.line == "" && (|st.buffer| == 0 || st.nLines <= 0)
    ensures Drained(rule, st) == st
  {
    var buf := st.buffer;
    assert buf[..0] == [] && buf[0..] == buf;
    assert st.out + buf[..0] == st.out;
    assert Weigh(rule, buf[..0]) == 0;
    SameState(Drained(rule, st), st);
  }

  /** An unterminated front fragment of a drainable buffer is its last one and becomes the open line. */
  lemma DrainedOpen(rule: CountRule, st: State, nCols: int)
    requires Drainable(st.buffer, nCols) && st.line == ""
    requires |st.buffer| > 0 && st.nLines > 0 && !EndsInTerminator(st.buffer[0].text)
    ensures Drain(rule, st, nCols) == Ok(Drained(rule, st))
  {
    var buf := st.buffer;
    var f := buf[0];
    assert |buf| == 1 && buf[1..] == [];
    var st2 := st.(line := f.text, buffer := buf[1..]);
    assert Drain(rule, st, nCols) == Drain(rule, st2, nCols);
    assert Drain(rule, st2, nCols) == Ok(st2);
    assert Carried(buf, st.nLines) == 0;
    assert buf[..0] == [];
    assert st.out + buf[..0] == st.out;
    assert Weigh(rule, buf[..0]) == 0;
    SameState(Drained(rule, st), st2);
  }

  /**
   * On a well-formed buffer the drained lines are complete, and the open line
   * is the partial tail or empty.
   */
  lemma DrainedWellFormed(rule: CountRule, buffer: seq<Line>, nLines: int, nCols: int)
    requires WellFormed(buffer, nCols)
    ensures var d := Drained(rule, State(0, [], "", nLines, buffer));
      d.out == buffer[..Carried(buffer, nLines)] && AllComplete(d.out, nCols)
    ensures var d := Drained(rule, State(0, [], "", nLines, buffer));
      d.nLines > 0 && nCols >= 1 ==> ScanInv(d, nCols)
    ensures var d := Drained(rule, State(0, [], "", nLines, buffer));
      d.nLines <= 0 ==> d.line == "" && d.out + d.buffer == buffer
  {
    var k := Carried(buffer, nLines);
    ReadyComplete(buffer, nCols, k);
    assert buffer == buffer[..k] + buffer[k..];
    if nLines - k > 0 && k < |buffer| {
      assert Partial(buffer[k], nCols);
    }
  }

  /** The drain phase loses nothing of a well-formed buffer. */
  lemma DrainedConserves(rule: CountRule, buffer: seq<Line>, nLines: int)
    requires |buffer| > 0 && !EndsInTerminator(buffer[|buffer| - 1].text) ==> !buffer[|buffer| - 1].synthetic
    ensures Pending(Drained(rule, State(0, [], "", nLines, buffer))) == Source(buffer)
  {
    var d := Drained(rule, State(0, [], "", nLines, buffer));
    var k := Carried(buffer, nLines);
    var head, tail := buffer[..k], buffer[k..];
    assert buffer == head + tail;
    SourceAppend(head, tail);
    if d.nLines > 0 {
      OpenTail(buffer, nLines);
    }
    PendingSplit(d, head, tail);
  }

  lemma PendingSplit(d: State, head: seq<Line>, tail: seq<Line>)
    requires d.out == head
    requires (d.buffer == [] && d.line == Source(tail)) || (d.buffer == tail && d.line == "")
    ensures Pending(d) == Source(head) + Source(tail)
  {
    SourceEmpty();
    if d.buffer == [] && d.line == Source(tail) {
      assert Pending(d) == (Source(head) + "") + Source(tail);
    } else {
      assert Pending(d) == (Source(head) + Source(tail)) + "";
    }
  }

  /** When rows remain after the drain, what it did not emit is exactly the open line. */
  lemma OpenTail(buffer: seq<Line>, nLines: int)
    requires |buffer| > 0 && !EndsInTerminator(buffer[|buffer| - 1].text) ==> !buffer[|buffer| - 1].synthetic
    requires nLines - Carried(buffer, nLines) > 0
    ensures var k := Carried(buffer, nLines);
      Source(buffer[k..]) == (if k < |buffer| then buffer[k].text else "")
  {
    var k := Carried(buffer, nLines);
    if k < |buffer| {
      var l := buffer[|buffer| - 1];
      assert k == |buffer| - 1 && !EndsInTerminator(l.text);
      assert buffer[k..] == [l];
      SourceOne(l);
    } else {
      assert buffer[k..] == [];
      SourceEmpty();
    }
  }

  /**
   * Wrap shape: a non-terminator that brings the open line to `nCols` closes
   * a complete wrapped line of exactly `nCols - 1` source characters and an
   * inserted '\n', placed on the page if a row is free and in the buffer
   * otherwise, and it becomes the sole content of the next line.
   */
  lemma WrapShape(st: State, ch: char, nCols: int)
    requires NoTerminator(st.line) && !IsTerminator(ch) && |st.line| + 1 == nCols
    ensures var r := Step(st, ch, nCols);
      var l := Line(st.line + "\n", true);
      && Complete(l, nCols) && Unwrap(l) == st.line && |Unwrap(l)| == nCols - 1
      && r.line == [ch] && NoTerminator(r.line)
      && (st.nLines > 0 ==> r.out == st.out + [l] && r.buffer == st.buffer && r.nLines == st.nLines - 1)
      && (st.nLines <= 0 ==> r.out == st.out && r.buffer == st.buffer + [l] && r.nLines == st.nLines)
  {
    var l := Line(st.line + "\n", true);
    assert l.text[..|l.text| - 1] == st.line;
  }

  /** One character keeps the read-phase invariant and cannot overfill a line. */
  lemma StepShape(st: State, ch: char, nCols: int)
    requires nCols >= 2 && ScanInv(st, nCols)
    ensures ScanInv(Step(st, ch, nCols), nCols)
  {
    var line := st.line + [ch];
    if IsTerminator(ch) {
      assert line[..|st.line|] == st.line;
      assert Complete(Line(line, false), nCols);
    } else if |line| == nCols {
      var l := Line(st.line + "\n", true);
      assert l.text[..|l.text| - 1] == st.line;
      assert Complete(l, nCols);
    }
  }

  /** While rows are free, a character either lengthens the open line or closes a line of at most `nCols`. */
  lemma StepFill(st: State, ch: char, nCols: int)
    requires nCols >= 2 && |st.line| < nCols
    ensures |Step(st, ch, nCols).line| < nCols
    ensures var r := Step(st, ch, nCols);
      r.nLines > 0 ==>
        || (r.nLines == st.nLines && 1 + |st.line| <= |r.line|)
        || (r.nLines == st.nLines - 1 && 1 + |st.line| <= nCols + |r.line|)
  {
  }

  lemma {:induction false} ScanShape(chunk: string, st: State, nCols: int)
    requires nCols >= 2 && ScanInv(st, nCols)
    ensures ScanInv(Scan(chunk, st, nCols), nCols)
    decreases |chunk|
  {
    if |chunk| > 0 {
      StepShape(st, chunk[0], nCols);
      ScanShape(chunk[1..], Step(st, chunk[0], nCols), nCols);
    }
  }

  /**
   * A line closes within `nCols` characters, so a read phase that ends with
   * rows still free has taken fewer characters than those rows could hold.
   */
  lemma {:induction false} ScanFill(chunk: string, st: State, nCols: int)
    requires nCols >= 2 && |st.line| < nCols
    ensures |Scan(chunk, st, nCols).line| < nCols
    ensures var r := Scan(chunk, st, nCols);
      r.nLines > 0 ==> |chunk| + |st.line| <= (st.nLines - r.nLines) * nCols + |r.line|
    decreases |chunk|
  {
    if |chunk| > 0 {
      var st1 := Step(st, chunk[0], nCols);
      var r := Scan(chunk[1..], st1, nCols);
      StepFill(st, chunk[0], nCols);
      ScanFrame(chunk[1..], st1, nCols);
      ScanFill(chunk[1..], st1, nCols);
      if r.nLines > 0 {
        var b := st1.nLines - r.nLines;
        assert (b + 1) * nCols == b * nCols + nCols;
      }
    }
  }

  /** Emitting a line moves it, whole, from the open line to the page or the buffer. */
  lemma EmitConserves(st: State, l: Line, weight: int)
    requires st.nLines > 0 ==> st.buffer == []
    ensures var r := Emit(st, l, weight);
      && Source(r.out) + Source(r.buffer) == Source(st.out) + Source(st.buffer) + Unwrap(l)
      && (r.nLines > 0 ==> r.buffer == [])
  {
    if st.nLines > 0 {
      SourceSnoc(st.out, l);
      SourceEmpty();
    } else {
      SourceSnoc(st.buffer, l);
    }
  }

  /** No character is lost or duplicated by one character of the read phase. */
  lemma StepConserves(st: State, ch: char, nCols: int)
    requires st.nLines > 0 ==> st.buffer == []
    ensures var r := Step(st, ch, nCols);
      && Pending(r) == Pending(st) + [ch]
      && (r.nLines > 0 ==> r.buffer == [])
  {
    var line := st.line + [ch];
    if IsTerminator(ch) {
      var l := Line(line, false);
      EmitConserves(st, l, |l.text|);
    } else if |line| == nCols {
      var l := Line(st.line + "\n", true);
      assert Unwrap(l) == st.line by {
        assert (st.line + "\n")[..|st.line|] == st.line;
      }
      EmitConserves(st, l, |l.text| - 1);
    }
  }

  lemma {:induction false} ScanConserves(chunk: string, st: State, nCols: int)
    requires st.nLines > 0 ==> st.buffer == []
    ensures var r := Scan(chunk, st, nCols);
      && Pending(r) == Pending(st) + chunk
      && (r.nLines > 0 ==> r.buffer == [])
    decreases |chunk|
  {
    if |chunk| > 0 {
      var st1 := Step(st, chunk[0], nCols);
      StepConserves(st, chunk[0], nCols);
      ScanConserves(chunk[1..], st1, nCols);
      assert Scan(chunk, st, nCols) == Scan(chunk[1..], st1, nCols);
      assert (Pending(st) + [chunk[0]]) + chunk[1..] == Pending(st) + chunk;
    }
  }

  lemma FlushConserves(st: State)
    requires st.nLines > 0 ==> st.buffer == []
    ensures Pending(Flush(st)) == Pending(st) && Flush(st).line == ""
  {
    if |st.line| > 0 {
      var l := Line(st.line, false);
      EmitConserves(st, l, |l.text|);
    }
  }

  /** On a drainable buffer a call is the drain's closed form followed by the read phase. */
  lemma PaginateReady(rule: CountRule, s: Stream, buffer: seq<Line>, nLines: int, nCols: int)
    requires Drainable(buffer, nCols)
    ensures Paginate(rule, s, buffer, nLines, nCols)
         == Ok(Fill(s, Drained(rule, State(0, [], "", nLines, buffer)), nCols))
  {
    DrainReady(rule, State(0, [], "", nLines, buffer), nCols);
  }

  /**
   * Conservation and order: the shown lines followed by the new buffer, with
   * every inserted '\n' removed, are the old buffer followed by exactly the
   * characters read in this call.
   */
  lemma PageConservation(rule: CountRule, s: Stream, buffer: seq<Line>, nLines: int, nCols: int)
    requires WellFormed(buffer, nCols)
    ensures Paginate(rule, s, buffer, nLines, nCols).Ok?
    ensures var p := Paginate(rule, s, buffer, nLines, nCols).value;
      Source(p.lines) + Source(p.buffer) == Source(buffer) + s.text[s.pos..p.stream.pos]
  {
    WellFormedDrainable(buffer, nCols);
    PaginateReady(rule, s, buffer, nLines, nCols);
    DrainedWellFormed(rule, buffer, nLines, nCols);
    DrainedConserves(rule, buffer, nLines);
    FillConserves(s, Drained(rule, State(0, [], "", nLines, buffer)), nCols);
  }

  /** The read phase adds exactly the characters it reads to what the call holds. */
  lemma FillConserves(s: Stream, d: State, nCols: int)
    requires d.nLines > 0 ==> d.buffer == []
    requires d.nLines <= 0 ==> d.line == ""
    ensures var p := Fill(s, d, nCols);
      Source(p.lines) + Source(p.buffer) == Pending(d) + s.text[s.pos..p.stream.pos]
  {
    if d.nLines > 0 {
      var (chunk, s') := Read(s, nCols * d.nLines);
      ScanConserves(chunk, d, nCols);
      FlushConserves(Scan(chunk, d, nCols));
    } else {
      assert s.text[s.pos..s.pos] == [];
    }
  }

  /**
   * Width and shape: on a well-formed buffer with `nCols >= 2`, the shown lines
   * followed by the new buffer are again well formed (every line and fragment
   * is non-empty and at most `nCols` long, a wrapped one is exactly `nCols`
   * long and ends in '\n', only the very last may be an unterminated tail),
   * and the page starts with the fragments drained from the buffer.
   */
  lemma PageWellFormed(rule: CountRule, s: Stream, buffer: seq<Line>, nLines: int, nCols: int)
    requires nCols >= 2 && WellFormed(buffer, nCols)
    ensures Paginate(rule, s, buffer, nLines, nCols).Ok?
    ensures var p := Paginate(rule, s, buffer, nLines, nCols).value;
      var k := Carried(buffer, nLines);
      && WellFormed(p.lines + p.buffer, nCols)
      && WellFormed(p.lines, nCols) && WellFormed(p.buffer, nCols)
      && k <= |p.lines| && p.lines[..k] == buffer[..k]
  {
    PageJoinedShape(rule, s, buffer, nLines, nCols);
    var p := Paginate(rule, s, buffer, nLines, nCols).value;
    WellFormedSplit(p.lines, p.buffer, nCols);
  }

  /** PageWellFormed for the page and the new buffer taken together. */
  lemma PageJoinedShape(rule: CountRule, s: Stream, buffer: seq<Line>, nLines: int, nCols: int)
    requires nCols >= 2 && WellFormed(buffer, nCols)
    ensures Paginate(rule, s, buffer, nLines, nCols).Ok?
    ensures var p := Paginate(rule, s, buffer, nLines, nCols).value;
      var k := Carried(buffer, nLines);
      && WellFormed(p.lines + p.buffer, nCols)
      && k <= |p.lines| && p.lines[..k] == buffer[..k]
  {
    WellFormedDrainable(buffer, nCols);
    PaginateReady(rule, s, buffer, nLines, nCols);
    DrainedWellFormed(rule, buffer, nLines, nCols);
    var d := Drained(rule, State(0, [], "", nLines, buffer));
    if d.nLines > 0 {
      FillShape(s, d, nCols);
    } else {
      FillReadBound(s, d, nCols);
    }
  }

  /** The read phase keeps the shape and the drained prefix. */
  lemma FillShape(s: Stream, d: State, nCols: int)
    requires nCols >= 2 && d.nLines > 0 && ScanInv(d, nCols)
    ensures var p := Fill(s, d, nCols);
      && WellFormed(p.lines + p.buffer, nCols)
      && |d.out| <= |p.lines| && p.lines[..|d.out|] == d.out
  {
    var (chunk, s') := Read(s, nCols * d.nLines);
    var sc := Scan(chunk, d, nCols);
    ScanShape(chunk, d, nCols);
    FlushShape(sc, nCols);
    FillFrame(s, d, nCols);
  }

  /** Flushing ends the read phase with the partial tail, if any, as the very last line. */
  lemma FlushShape(st: State, nCols: int)
    requires ScanInv(st, nCols)
    ensures var r := Flush(st); WellFormed(r.out + r.buffer, nCols)
  {
    var r := Flush(st);
    if |st.line| == 0 {
      CompleteThenPartial(st.out + st.buffer, [], nCols);
      assert st.out + st.buffer + [] == st.out + st.buffer;
    } else if st.nLines > 0 {
      CompleteThenPartial(st.out, [Line(st.line, false)], nCols);
      assert r.out + r.buffer == st.out + [Line(st.line, false)];
    } else {
      CompleteThenPartial(st.out + st.buffer, [Line(st.line, false)], nCols);
      assert r.out + r.buffer == st.out + st.buffer + [Line(st.line, false)];
    }
  }

  /**
   * Read bound: the stream is not touched when the drained lines fill the
   * page, and otherwise read once for at most `nCols` characters per row left
   * (a negative width makes Python's `read` take everything).
   */
  lemma PageReadBound(rule: CountRule, s: Stream, buffer: seq<Line>, nLines: int, nCols: int)
    requires WellFormed(buffer, nCols)
    ensures Paginate(rule, s, buffer, nLines, nCols).Ok?
    ensures var p := Paginate(rule, s, buffer, nLines, nCols).value;
      var k := Carried(buffer, nLines);
      && p.stream.text == s.text
      && (nLines <= k ==> p.stream == s && p.lines == buffer[..k] && p.buffer == buffer[k..])
      && (k < nLines && nCols >= 0 ==> s.pos <= p.stream.pos <= s.pos + nCols * (nLines - k))
      && (k < nLines && nCols < 0 ==> AtEnd(p.stream))
  {
    WellFormedDrainable(buffer, nCols);
    PaginateReady(rule, s, buffer, nLines, nCols);
    var k := Carried(buffer, nLines);
    var d := Drained(rule, State(0, [], "", nLines, buffer));
    assert [] + buffer[..k] == buffer[..k];
    FillReadBound(s, d, nCols);
  }

  /** The read phase reads only when rows are left, and then at most `nCols` per row. */
  lemma FillReadBound(s: Stream, d: State, nCols: int)
    ensures var p := Fill(s, d, nCols);
      && p.stream.text == s.text
      && (d.nLines <= 0 ==> p.stream == s && p.lines == d.out && p.buffer == d.buffer)
      && (d.nLines > 0 && nCols >= 0 ==> s.pos <= p.stream.pos <= s.pos + nCols * d.nLines)
      && (d.nLines > 0 && nCols < 0 ==> AtEnd(p.stream))
  {
    if d.nLines > 0 {
      MulSign(nCols, d.nLines);
    }
  }

  /**
   * A page comes back short only at the end of the text: fewer lines than
   * rows means the stream is exhausted and the buffer empty.
   */
  lemma PageShortOnlyAtEnd(rule: CountRule, s: Stream, buffer: seq<Line>, nLines: int, nCols: int)
    requires nCols >= 2 && WellFormed(buffer, nCols)
    ensures Paginate(rule, s, buffer, nLines, nCols).Ok?
    ensures var p := Paginate(rule, s, buffer, nLines, nCols).value;
      |p.lines| < nLines ==> AtEnd(p.stream) && p.buffer == []
  {
    WellFormedDrainable(buffer, nCols);
    PaginateReady(rule, s, buffer, nLines, nCols);
    DrainedWellFormed(rule, buffer, nLines, nCols);
    var d := Drained(rule, State(0, [], "", nLines, buffer));
    FillFrame(s, d, nCols);
    if d.nLines > 0 {
      FillShort(s, d, nCols);
    }
  }

  /** The read phase leaves rows unfilled only when it reached the end of the text. */
  lemma FillShort(s: Stream, d: State, nCols: int)
    requires nCols >= 2 && d.nLines > 0 && |d.line| < nCols && d.buffer == []
    ensures var p := Fill(s, d, nCols);
      |p.lines| < |d.out| + d.nLines ==> AtEnd(p.stream) && p.buffer == []
  {
    var n := d.nLines;
    var (chunk, s') := Read(s, nCols * n);
    var sc := Scan(chunk, d, nCols);
    ScanFrame(chunk, d, nCols);
    FlushFrame(sc);
    ScanFill(chunk, d, nCols);
    MulSign(nCols, n);
    if sc.nLines > 0 {
      ChunkShort(|chunk|, |d.line|, n, sc.nLines, |sc.line|, nCols);
    }
  }

  /** Arithmetic of PageShortOnlyAtEnd: rows left over mean the chunk was short. */
  lemma ChunkShort(chunk: nat, seed: nat, n: int, left: int, open: nat, nCols: int)
    requires nCols >= 2 && 0 < left <= n && open < nCols
    requires chunk + seed <= (n - left) * nCols + open
    ensures chunk < nCols * n
  {
    assert (n - left + 1) * nCols == (n - left) * nCols + nCols;
    MulMono(n - left + 1, n, nCols);
  }

  lemma MulSign(a: int, b: int)
    requires b > 0
    ensures a >= 0 ==> a * b >= 0
    ensures a < 0 ==> a * b < 0
  {
    if a >= 0 {
      MulMono(0, a, b);
    } else {
      MulMono(a, -1, b);
    }
  }

  lemma {:induction false} MulMono(a: int, b: int, c: nat)
    requires a <= b
    ensures a * c <= b * c
    decreases c
  {
    if c > 0 {
      MulMono(a, b, c - 1);
      assert a * c == a * (c - 1) + a;
      assert b * c == b * (c - 1) + b;
    }
  }
}
