/**
 * The caller's side of `read_from_file` (more.py:94-101): one deque kept
 * across calls, `read_count` summing the returned counts, and a new page read
 * on each request while `read_count` is below the file size or the deque is
 * non-empty. The text is taken to be one byte per character, so the file size
 * is its length.
 */
module Sessions {
  import opened Text
  import opened Streams
  import opened Lines
  import opened Pager
  import opened PagerFrame
  import opened PagerShape
  import opened PagerCount

  /** What the caller keeps between calls: the open file, the deque, every line shown, `read_count`. */
  datatype Session = Session(stream: Stream, buffer: seq<Line>, shown: seq<Line>, consumed: int)

  function Start(text: string): Session {
    Session(TextFile(text, 0), [], [], 0)
  }

  /** The guard of more.py:99: another page is read while `read_count < FILE_SIZE or len(buffer) > 0`. */
  predicate WantsMore(ses: Session, size: int) {
    ses.consumed < size || |ses.buffer| > 0
  }

  /** The whole text has been read and nothing is left in the deque. */
  predicate Exhausted(ses: Session) {
    AtEnd(ses.stream) && ses.buffer == []
  }

  /** One call of `read_from_file`, its lines appended to what was shown and its count to `read_count`. */
  function Advance(rule: CountRule, ses: Session, nLines: int, nCols: int): Result<Session> {
    match Paginate(rule, ses.stream, ses.buffer, nLines, nCols)
    case EmptyFragmentError => EmptyFragmentError
    case Ok(p) => Ok(Session(p.stream, p.buffer, ses.shown + p.lines, ses.consumed + p.count))
  }

  /** The session after `presses` requests for the next page; a request is ignored once the guard is false. */
  function Run(rule: CountRule, text: string, nLines: int, nCols: int, presses: nat): Result<Session>
    decreases presses
  {
    if presses == 0 then Ok(Start(text))
    else
      match Run(rule, text, nLines, nCols, presses - 1)
      case EmptyFragmentError => EmptyFragmentError
      case Ok(ses) => if WantsMore(ses, |text|) then Advance(rule, ses, nLines, nCols) else Ok(ses)
  }

  /**
   * What holds between calls: the deque is well formed, and what was shown
   * followed by the deque, inserted '\n's removed, is exactly the text read so far.
   */
  predicate Consistent(text: string, ses: Session, nCols: int) {
    && ses.stream.text == text
    && WellFormed(ses.buffer, nCols)
    && Source(ses.shown) + Source(ses.buffer) == text[..ses.stream.pos]
  }

  /** One call keeps the session consistent and adds at least as much to `read_count` as it shows. */
  lemma AdvanceConsistent(rule: CountRule, text: string, ses: Session, nLines: int, nCols: int)
    requires nCols >= 2 && Consistent(text, ses, nCols)
    ensures Advance(rule, ses, nLines, nCols).Ok?
    ensures var r := Advance(rule, ses, nLines, nCols).value;
      && Consistent(text, r, nCols)
      && ses.stream.pos <= r.stream.pos
      && |Source(r.shown)| - |Source(ses.shown)| <= r.consumed - ses.consumed
      && (rule == SourceChars ==> |Source(r.shown)| - |Source(ses.shown)| == r.consumed - ses.consumed)
  {
    var s := ses.stream;
    PageStep(rule, s, ses.buffer, nLines, nCols);
    var p := Paginate(rule, s, ses.buffer, nLines, nCols).value;
    var r := Session(p.stream, p.buffer, ses.shown + p.lines, ses.consumed + p.count);
    assert Advance(rule, ses, nLines, nCols) == Ok(r);
    SourceAppend(ses.shown, p.lines);
    Extend(text, Source(ses.shown), Source(ses.buffer), Source(p.lines), Source(p.buffer), s.pos, p.stream.pos);
  }

  /** Text bookkeeping of one call: the shown prefix grows by what the call adds. */
  lemma Extend(text: string, shown: string, buf: string, lines: string, rest: string, pos: nat, pos': nat)
    requires pos <= pos' <= |text|
    requires shown + buf == text[..pos]
    requires lines + rest == buf + text[pos..pos']
    ensures (shown + lines) + rest == text[..pos']
  {
    assert text[..pos'] == text[..pos] + text[pos..pos'];
    assert (shown + lines) + rest == shown + (lines + rest);
    assert (shown + buf) + text[pos..pos'] == shown + (buf + text[pos..pos']);
  }

  /** The facts about one call that a session needs. */
  lemma PageStep(rule: CountRule, s: Stream, buffer: seq<Line>, nLines: int, nCols: int)
    requires nCols >= 2 && WellFormed(buffer, nCols)
    ensures Paginate(rule, s, buffer, nLines, nCols).Ok?
    ensures var p := Paginate(rule, s, buffer, nLines, nCols).value;
      && Source(p.lines) + Source(p.buffer) == Source(buffer) + s.text[s.pos..p.stream.pos]
      && WellFormed(p.buffer, nCols)
      && p.stream.text == s.text && s.pos <= p.stream.pos
      && |Source(p.lines)| <= p.count
      && (rule == SourceChars ==> p.count == |Source(p.lines)|)
  {
    PageConservation(rule, s, buffer, nLines, nCols);
    PageWellFormed(rule, s, buffer, nLines, nCols);
    PageRows(rule, s, buffer, nLines, nCols);
    CountCoversShown(rule, s, buffer, nLines, nCols);
  }

  /**
   * Every session reached by requests is consistent; `read_count` is never
   * below the number of source characters shown, and with the corrected count
   * equals it.
   */
  lemma {:induction false} RunConsistent(rule: CountRule, text: string, nLines: int, nCols: int, presses: nat)
    requires nCols >= 2
    ensures Run(rule, text, nLines, nCols, presses).Ok?
    ensures var ses := Run(rule, text, nLines, nCols, presses).value;
      && Consistent(text, ses, nCols)
      && |Source(ses.shown)| <= ses.consumed
      && (rule == SourceChars ==> ses.consumed == |Source(ses.shown)|)
    decreases presses
  {
    if presses == 0 {
      SourceEmpty();
      assert text[..0] == "";
    } else {
      RunConsistent(rule, text, nLines, nCols, presses - 1);
      var ses := Run(rule, text, nLines, nCols, presses - 1).value;
      if WantsMore(ses, |text|) {
        AdvanceConsistent(rule, text, ses, nLines, nCols);
      }
    }
  }

  /**
   * With at least one row, a call on a session that is not exhausted shows at
   * least one source character.
   */
  lemma PageProgress(rule: CountRule, s: Stream, buffer: seq<Line>, nLines: int, nCols: int)
    requires nCols >= 2 && nLines >= 1 && WellFormed(buffer, nCols)
    requires !(AtEnd(s) && buffer == [])
    ensures Paginate(rule, s, buffer, nLines, nCols).Ok?
    ensures |Source(Paginate(rule, s, buffer, nLines, nCols).value.lines)| >= 1
  {
    PageConservation(rule, s, buffer, nLines, nCols);
    PageWellFormed(rule, s, buffer, nLines, nCols);
    PageShortOnlyAtEnd(rule, s, buffer, nLines, nCols);
    PageReadBound(rule, s, buffer, nLines, nCols);
    var p := Paginate(rule, s, buffer, nLines, nCols).value;
    if p.lines == [] {
      SourceEmpty();
      SourceAtLeast(buffer, nCols);
      assert false;
    }
    SourceAtLeast(p.lines, nCols);
  }

  /** With the corrected count, the guard of more.py:99 turns false exactly when everything has been shown. */
  lemma CorrectedStopsWhenDone(text: string, nLines: int, nCols: int, presses: nat)
    requires nCols >= 2
    ensures Run(SourceChars, text, nLines, nCols, presses).Ok?
    ensures var ses := Run(SourceChars, text, nLines, nCols, presses).value;
      && (!WantsMore(ses, |text|) <==> Exhausted(ses))
      && (Exhausted(ses) ==> Source(ses.shown) == text && ses.consumed == |text|)
  {
    RunConsistent(SourceChars, text, nLines, nCols, presses);
    var ses := Run(SourceChars, text, nLines, nCols, presses).value;
    if ses.buffer == [] {
      SourceEmpty();
      assert Source(ses.shown) == text[..ses.stream.pos];
      assert AtEnd(ses.stream) ==> text[..ses.stream.pos] == text;
    }
  }

  /** With the corrected count and at least one row, each request before the end shows a new source character. */
  lemma {:induction false} CorrectedProgress(text: string, nLines: int, nCols: int, presses: nat)
    requires nCols >= 2 && nLines >= 1
    ensures Run(SourceChars, text, nLines, nCols, presses).Ok?
    ensures |Source(Run(SourceChars, text, nLines, nCols, presses).value.shown)| >= Min(presses, |text|)
    decreases presses
  {
    RunConsistent(SourceChars, text, nLines, nCols, presses);
    if presses > 0 {
      CorrectedProgress(text, nLines, nCols, presses - 1);
      CorrectedStep(text, nLines, nCols, presses);
    }
  }

  /** One request of CorrectedProgress: it shows a new source character, or everything is shown. */
  lemma CorrectedStep(text: string, nLines: int, nCols: int, presses: nat)
    requires nCols >= 2 && nLines >= 1 && presses >= 1
    ensures Run(SourceChars, text, nLines, nCols, presses - 1).Ok?
    ensures Run(SourceChars, text, nLines, nCols, presses).Ok?
    ensures var before := Run(SourceChars, text, nLines, nCols, presses - 1).value.shown;
      var after := Run(SourceChars, text, nLines, nCols, presses).value.shown;
      |Source(after)| >= |Source(before)| + 1 || Source(after) == text
  {
    CorrectedStopsWhenDone(text, nLines, nCols, presses - 1);
    RunConsistent(SourceChars, text, nLines, nCols, presses - 1);
    var ses := Run(SourceChars, text, nLines, nCols, presses - 1).value;
    if WantsMore(ses, |text|) {
      PageProgress(SourceChars, ses.stream, ses.buffer, nLines, nCols);
      var p := Paginate(SourceChars, ses.stream, ses.buffer, nLines, nCols).value;
      assert Run(SourceChars, text, nLines, nCols, presses).value.shown == ses.shown + p.lines;
      SourceAppend(ses.shown, p.lines);
    }
  }

  /**
   * With the corrected count, at least one row and at least two columns, the
   * whole text has been shown once there have been as many requests as
   * characters, and the pager stops asking for more.
   */
  lemma CorrectedShowsAll(text: string, nLines: int, nCols: int, presses: nat)
    requires nCols >= 2 && nLines >= 1 && presses >= |text|
    ensures Run(SourceChars, text, nLines, nCols, presses).Ok?
    ensures var ses := Run(SourceChars, text, nLines, nCols, presses).value;
      Source(ses.shown) == text && Exhausted(ses) && !WantsMore(ses, |text|)
  {
    CorrectedProgress(text, nLines, nCols, presses);
    CorrectedStopsWhenDone(text, nLines, nCols, presses);
    RunConsistent(SourceChars, text, nLines, nCols, presses);
    var ses := Run(SourceChars, text, nLines, nCols, presses).value;
    SourceAtLeast(ses.buffer, nCols);
    assert |Source(ses.shown) + Source(ses.buffer)| == ses.stream.pos;
  }

  /** Once the guard is false, further requests change nothing. */
  lemma {:induction false} StopIsFinal(rule: CountRule, text: string, nLines: int, nCols: int, presses: nat, later: nat)
    requires presses <= later
    requires Run(rule, text, nLines, nCols, presses).Ok?
    requires !WantsMore(Run(rule, text, nLines, nCols, presses).value, |text|)
    ensures Run(rule, text, nLines, nCols, later) == Run(rule, text, nLines, nCols, presses)
    decreases later
  {
    if later > presses {
      StopIsFinal(rule, text, nLines, nCols, presses, later - 1);
    }
  }
}
