# A model of the pagination step of `more.py`

`more.py` is a small `more`-style terminal pager. Its core is
`read_from_file(ptr, buffer, n_lines, n_cols)`, which produces one screenful
of display lines per call:

- it drains the deque `buffer` of fragments left over from the previous call;
- it reads at most `n_cols * n_lines` characters from the open file;
- it cuts them into display lines, each ending at a real `'\n'`/`'\r'` or
  wrapped at the column width, where the character that reached the width
  is taken back, `'\n'` is appended, and the taken-back character starts the
  next line;
- it flushes an unterminated tail as a line of its own;
- it returns `(count, len(lines), ''.join(lines))`.

Lines finished after the page is full are pushed onto `buffer` for the next
call. The caller, `main`, adds each `count` to `read_count`, and it asks for
another page while `read_count < FILE_SIZE or len(buffer) > 0`.

The model is functional:

| file | module | what it holds |
|---|---|---|
| `text.dfy` | `Text` | character predicates (`'\n'` and `'\r'` end a line) and small sequence lemmas |
| `streams.dfy` | `Streams` | the open file: its decoded text and a cursor, plus `read(size)` |
| `lines.dfy` | `Lines` | display lines and fragments, and what they stand for in the source |
| `pager.dfy` | `Pager` | the call itself |
| `pager_frame.dfy` | `PagerFrame` | row bound, buffer discipline, count |
| `pager_shape.dfy` | `PagerShape` | conservation, width and shape, read bound |
| `pager_count.dfy` | `PagerCount` | what the count means, and the worked example |
| `bookkeeping.dfy` | `Bookkeeping` | the `synthetic` flag never changes a result |
| `sessions.dfy` | `Sessions` | the caller's loop in `main`: `read_count` and the guard of more.py:99 |
| `findings.dfy` | `Findings` | the counting defect below, as written and corrected |

Notes on `lines.dfy`:

- A `Line` is the string the program keeps, plus a flag that marks a `'\n'` inserted by a wrap.
- `Source` removes those inserted `'\n'`s.
- `Bookkeeping.FlagsAreBookkeeping` proves that the program's results never depend on the flag.

Notes on `pager.dfy`:

- `Drain` models lines 31-39, `Step` and `Scan` lines 42-63, `Flush` lines 66-72, `Fill` lines 41-72 and `Paginate` the whole call.
- `Paginate` is parameterised by a `CountRule`.
- `ReadFromFile` (rule `AsWritten`) is the code as written.
- `ReadFromFileCorrected` (rule `SourceChars`) is the corrected count.
- The call is total over all integers, as in Python:
  - With `n_cols != 0`, an empty fragment in the buffer raises `IndexError` at `curr_line[-1]` (more.py:34). This is the result `EmptyFragmentError`. With `n_cols == 0` the `or` short-circuits and the empty fragment is taken as a line.
  - A negative read size reads to end of file.
  - The drain goes on after it has seeded the open line from an unterminated fragment (more.py:38-39).

Most properties are stated for a well-formed buffer (`Lines.WellFormed`), in which:

- every fragment is non-empty and at most `n_cols` long;
- a fragment that ends without a terminator is short and is the last one.

With `n_cols >= 2`, every call on a well-formed buffer leaves a well-formed buffer behind (`PagerShape.PageWellFormed`). The first call, with an empty buffer, starts well formed, and `Sessions.RunConsistent` carries this from call to call.

With one column the shape fails. After a wrap the open line holds one character, and the width test at more.py:54 does not fire on a longer line, so a line such as `"ab\n"` is longer than `n_cols`.

Further facts of `more.py` that the model keeps:

- A line whose `n_cols`-th character is not `'\n'`/`'\r'` is wrapped during the read (more.py:54), even when it holds the last character read; the terminator test at more.py:45 comes first, so `"a\n"` at 2 columns is a natural line counted 2.
- Only fragments drained from the buffer are taken as finished because they are `n_cols` long with no terminator (more.py:34).
- A wrapped line cut in the same call counts `n_cols - 1` (more.py:59).
- The percentage is `read_count / FILE_SIZE * 100` (more.py:107).

## Model

| member | source | states |
|---|---|---|
| Streams.Read | more.py:42 | `read(size)` returns the next `min(size, remaining)` characters from the cursor and advances it by that much; a negative size reads to the end of the file; the text is never changed |
| PagerFrame.StepFrame | more.py:43-63 | one character finishes at most one line, which goes on the page while a row is free (using up that row) and onto the back of the buffer otherwise, leaving page and count unchanged; the count grows by the source characters of the line put on the page |
| PagerFrame.ScanFrame | more.py:42-63 | over the whole chunk: lines shown are appended in order, one row used per line, the row count never goes negative, the buffer only grows at its back and only once no row is left, and the count grows by exactly the source characters shown |
| PagerFrame.FlushFrame | more.py:66-72 | an empty open line changes nothing; a non-empty one becomes an unwrapped line, shown and counted by its length if a row is left, and pushed onto the back of the buffer otherwise |
| PagerFrame.DrainFrame | more.py:31-39 | the drain pops a front part of the buffer and shows exactly the fragments of it that are `n_cols` long or end in a terminator, in buffer order, one row each, counted by weight; it leaves the buffer empty whenever rows remain, and with no rows changes nothing |
| PagerFrame.FillFrame | more.py:41-72 | the read phase appends at most one line per remaining row, leaves the buffer alone unless the page fills, counts each new line by its source characters, and only moves the cursor forward |
| PagerFrame.PageRows | more.py:31-74 | row bound: at most `n_lines` lines are returned; with `n_lines <= 0` the result is `(0, 0, "")`, the buffer is unchanged and nothing is read; a page shorter than `n_lines` leaves an empty buffer |
| PagerFrame.PageCount | more.py:36-69 | the count is the weight of the fragments drained from the buffer plus the source characters of the lines cut from the text read in this call |
| PagerFrame.CorrectedCount | more.py:36 | with carried fragments weighed by their source characters, the count equals the number of source characters shown |
| PagerShape.DrainReady | more.py:31-39 | on a buffer whose only unterminated fragment is a short last one, the drain never raises and takes as many leading complete fragments as there are rows, seeding the open line from the short fragment if a row is left |
| PagerShape.DrainedWellFormed | more.py:31-39 | the drained lines are complete; if rows remain, the open line is the short tail or empty and the buffer is empty; otherwise the drained lines followed by the rest are the old buffer |
| PagerShape.DrainedConserves | more.py:31-39 | the drain loses and duplicates nothing: shown lines, remaining fragments and the open line stand for exactly the old buffer's source characters |
| PagerShape.WrapShape | more.py:54-63 | a non-terminator that brings the open line to `n_cols` closes a complete line of exactly `n_cols - 1` source characters plus `'\n'`, shown if a row is free and buffered otherwise, and becomes the sole content of the next line |
| PagerShape.StepShape | more.py:45-63 | every line closed by one character is complete and at most `n_cols` long, the open line stays shorter than `n_cols` and free of terminators, and the buffer stays empty while rows are free |
| PagerShape.StepConserves | more.py:43-63 | one character moves into what the call holds, nothing else changes: the held source text grows by exactly that character |
| PagerShape.ScanConserves | more.py:42-63 | the read phase adds exactly the chunk read, in order, to the source text the call holds |
| PagerShape.FlushConserves | more.py:66-72 | flushing moves the open line onto the page or buffer without losing or duplicating a character |
| PagerShape.PageConservation | more.py:31-72 | conservation and order: the returned lines followed by the new buffer, inserted `'\n'`s removed, are the old buffer's source text followed by exactly the characters read |
| PagerShape.PageWellFormed | more.py:34-72 | width and fragment shape (`n_cols >= 2`): every returned line and buffered fragment is non-empty and at most `n_cols` long; it ends in a terminator, or is a wrap of exactly `n_cols`, or is the single short unterminated last one; the page begins with the fragments drained from the buffer |
| PagerShape.PageReadBound | more.py:41-42 | read bound: the stream is untouched when drained lines fill the page; otherwise at most `n_cols` characters are read per row left, and a negative width reads everything |
| PagerShape.PageShortOnlyAtEnd | more.py:41-72 | a page with fewer lines than rows comes back only at the end of the text, with an empty buffer |
| PagerCount.WeighAsWritten | more.py:36 | weighing carried fragments as written counts every character on screen |
| PagerCount.AsWrittenCount | more.py:36-69 | as written, the count is the source characters shown plus one for each wrapped fragment carried over from the previous call |
| PagerCount.CountCoversShown | more.py:36-69 | under either rule the count is never below the source characters shown, and under the corrected rule equals them |
| PagerCount.FreshCount | more.py:42-72 | with an empty buffer both rules count exactly the source characters shown, which are the characters read less those left in the new buffer |
| PagerCount.CountExample | more.py:27-74 | `"a\nb\nc\n"` with 80 columns and 2 rows returns `(4, 2, "a\nb\n")`, reads all six characters and leaves `["c\n"]` in the buffer |
| Bookkeeping.FlagsAreBookkeeping | more.py:27-74 | the call as written depends only on the fragment texts: buffers with the same texts give the same error or the same count, line texts, fragment texts and stream |
| Sessions.AdvanceConsistent | more.py:99-101 | one request keeps the session consistent: what was shown, followed by the deque with inserted `'\n'`s removed, is exactly the text read so far |
| Sessions.RunConsistent | more.py:94-101 | every session reached by requests is consistent and never raises; `read_count` is never below the source characters shown, and equals them under the corrected rule |
| Sessions.PageProgress | more.py:41-72 | with a row and a well-formed buffer, a call on a file that is not exhausted shows at least one source character |
| Sessions.CorrectedStopsWhenDone | more.py:99 | under the corrected count the guard turns false exactly when the text is read and the deque empty, and then everything has been shown |
| Sessions.CorrectedStep | more.py:99-101 | under the corrected count each request before the end shows at least one new source character, or the whole text has been shown after it |
| Sessions.CorrectedProgress | more.py:99-101 | under the corrected count, after `p` requests at least `p` source characters, or the whole text, have been shown |
| Sessions.CorrectedShowsAll | more.py:94-101 | under the corrected count, once there have been as many requests as characters, the whole text has been shown and the guard is false |
| Sessions.StopIsFinal | more.py:99 | once the guard is false, no further request changes the session |
| Findings.AsWrittenRun | more.py:94-101 | the five sessions of the pager as written on `"abcde\nf"` with 2 columns and 1 row, ending with `read_count` 7, an empty deque and the cursor before `"f"` |
| Findings.EarlyStopAsWritten | more.py:36 | as written, on that input the guard turns false after five requests with `"f"` never shown, and stays false |
| Findings.ShowsAllCorrected | more.py:94-101 | with the corrected count the same input is shown in full, `"f"` included |

## Left out

- The curses user interface of `main`: windows, drawing, refresh, clearing at the end, and key dispatch (more.py:76-115). The first page is read before any key is pressed, because `ch` starts as `ord(' ')` (more.py:95). So `Sessions.Run` with `presses` requests is the initial request followed by `presses - 1` accepted key presses. Other keys change nothing the model tracks.
- The percentage display (more.py:107-109). It is floating point.
- The file size. `FILE_SIZE` comes from `os.path.getsize` (more.py:81), which counts bytes. The model takes it to be the number of characters, which it is for single-byte text whose lines end in `'\n'` only; universal-newline translation by `open(..., "r")` (more.py:84) makes a `'\r\n'` file's decoded text shorter than its size, and for such files `Sessions.WantsMore` is not the guard of more.py:99.
- Argument parsing, the file-existence check and opening the file (more.py:84, 117-126). The model starts from an open file at its start.
- Text-mode decoding and universal-newline translation. The stream is the already-decoded character sequence.
- I/O errors from `read`.
- Sessions.PageProgress, Sessions.CorrectedStep, Sessions.CorrectedProgress, Sessions.CorrectedShowsAll: these assume at least one row and `n_cols >= 2`. With no rows a call reads and shows nothing (`PagerFrame.PageRows`), so the pager as written never advances either. With one column a wrap shows a line `"\n"` that stands for no source character, so a request need not show a new one, and the well-formed shape these lemmas rest on fails.
- PagerShape.PageWellFormed, PagerShape.PageShortOnlyAtEnd: these assume `n_cols >= 2`, because with one column a line can be longer than `n_cols` (`"ab\n"`: after `a` is wrapped, the width test no longer fires on `ab`), so the shape they state does not hold.

## Findings

| source | as written | input that shows it | evidently intended | confidence | as-written member | corrected member |
|---|---|---|---|---|---|---|
| more.py:36 | A fragment carried over from the previous call adds its full length to `count`. For a wrapped fragment that includes the `'\n'` the wrap inserted, which more.py:59 leaves out when a line is shown in the call that wrapped it. `read_count` therefore runs ahead of the characters shown, and the guard of more.py:99 can stop the pager before the end of the file. | `"abcde\nf"` with 2 columns and 1 row. After five pages (`a`, `b`, `c`, `d`, `e`) `read_count` is 7, the file size, and the deque is empty. The guard is false, so `f` is never read or shown. | A carried wrapped fragment counts its source characters (length − 1), so `read_count` equals the characters shown and the pager stops exactly at the end. The deque holds plain strings, and at 2 columns the wrapped `"c\n"` and the natural `"e\n"` are the same string, so a fix must record which fragments were wrapped (the model's `synthetic` flag); it cannot subtract 1 by length alone. | not executed | Findings.EarlyStopAsWritten | Sessions.CorrectedShowsAll |
