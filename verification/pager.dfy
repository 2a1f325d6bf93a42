/**
 * `read_from_file` of the pager (more.py): one screenful of display lines per
 * call. Leftover fragments are drained from the buffer first, then at most
 * `nCols * nLines` characters are read and cut into lines, which end at a real
 * terminator or are wrapped at the column width; lines produced after the page
 * is full are pushed onto the buffer for the next call.
 */
module Pager {
  import opened Text
  import opened Streams
  import opened Lines

  /** The outcome of a call: a page, or the IndexError that `curr_line[-1]` raises on an empty fragment. */
  datatype Result<T> = Ok(value: T) | EmptyFragmentError

  /**
   * How the drain phase counts a fragment carried over from the previous call.
   * `AsWritten` adds its full length, synthetic '\n' included; `SourceChars`
   * adds only the source characters it stands for, as lines wrapped in the
   * same call are counted.
   */
  datatype CountRule = AsWritten | SourceChars

  function Weight(rule: CountRule, f: Line): int {
    match rule
    case AsWritten => |f.text|
    case SourceChars => |Unwrap(f)|
  }

  /** The sum of the weights of the lines, in order. */
  function Weigh(rule: CountRule, ls: seq<Line>): int
    decreases |ls|
  {
    if |ls| == 0 then 0 else Weight(rule, ls[0]) + Weigh(rule, ls[1..])
  }

  /**
   * The local state of one call: the running count, the finished lines, the
   * line being accumulated, the rows still free, and the buffer (a FIFO queue:
   * the drain pops from its front, later pushes go to its back).
   */
  datatype State = State(count: int, out: seq<Line>, line: string, nLines: int, buffer: seq<Line>)

  /** Emits a finished line onto the page, or pushes it onto the buffer once the page is full. */
  function Emit(st: State, l: Line, weight: int): State {
    if st.nLines > 0 then
      st.(out := st.out + [l], count := st.count + weight, nLines := st.nLines - 1)
    else
      st.(buffer := st.buffer + [l])
  }

  /** Drain phase: pop fragments while the buffer is non-empty and rows are free. */
  function Drain(rule: CountRule, st: State, nCols: int): Result<State>
    decreases |st.buffer|
  {
    if |st.buffer| == 0 || st.nLines <= 0 then Ok(st)
    else
      var f := st.buffer[0];
      var rest := st.buffer[1..];
      if |f.text| == nCols || EndsInTerminator(f.text) then
        Drain(rule, st.(out := st.out + [f], count := st.count + Weight(rule, f),
                        nLines := st.nLines - 1, buffer := rest), nCols)
      else if |f.text| == 0 then
        EmptyFragmentError
      else
        // the fragment replaces the accumulator; draining goes on
        Drain(rule, st.(line := f.text, buffer := rest), nCols)
  }

  /** One character of the read phase. */
  function Step(st: State, ch: char, nCols: int): State {
    var line := st.line + [ch];
    if IsTerminator(ch) then
      var l := Line(line, false);
      Emit(st, l, |l.text|).(line := "")
    else if |line| == nCols then
      // the character that reached the width is taken back and starts the next line
      var l := Line(st.line + "\n", true);
      Emit(st, l, |l.text| - 1).(line := [ch])
    else
      st.(line := line)
  }

  /** Read phase: every character of the chunk, in order. */
  function Scan(chunk: string, st: State, nCols: int): State
    decreases |chunk|
  {
    if |chunk| == 0 then st else Scan(chunk[1..], Step(st, chunk[0], nCols), nCols)
  }

  /** Flush phase: an unterminated, unwrapped tail is a line of its own. */
  function Flush(st: State): State {
    if |st.line| == 0 then st
    else
      var l := Line(st.line, false);
      Emit(st, l, |l.text|).(line := "")
  }

  /** What a call returns, with the buffer and stream it leaves behind. */
  datatype Page = Page(count: int, lines: seq<Line>, buffer: seq<Line>, stream: Stream) {
    /** The Python return value `(count, len(lines), ''.join(lines))`. */
    function Triple(): (int, int, string) {
      (count, |lines|, Join(lines))
    }
  }

  /**
   * The read phase, after the drain: when rows are left, read at most `nCols`
   * characters per row, cut them into lines and flush the unterminated tail.
   */
  function Fill(s: Stream, d: State, nCols: int): Page {
    if d.nLines > 0 then
      var (chunk, s') := Read(s, nCols * d.nLines);
      var f := Flush(Scan(chunk, d, nCols));
      Page(f.count, f.out, f.buffer, s')
    else
      Page(d.count, d.out, d.buffer, s)
  }

  /** The call, parameterised by how carried fragments are counted. */
  function Paginate(rule: CountRule, s: Stream, buffer: seq<Line>, nLines: int, nCols: int): Result<Page> {
    match Drain(rule, State(0, [], "", nLines, buffer), nCols)
    case EmptyFragmentError => EmptyFragmentError
    case Ok(d) => Ok(Fill(s, d, nCols))
  }

  /** `read_from_file` as written. */
  function ReadFromFile(s: Stream, buffer: seq<Line>, nLines: int, nCols: int): Result<Page> {
    Paginate(AsWritten, s, buffer, nLines, nCols)
  }

  /** `read_from_file` with carried wrapped fragments counted by their source characters. */
  function ReadFromFileCorrected(s: Stream, buffer: seq<Line>, nLines: int, nCols: int): Result<Page> {
    Paginate(SourceChars, s, buffer, nLines, nCols)
  }
}
