/** The open text file the pager reads from: its whole decoded text and a read cursor. */
module Streams {
  import opened Text

  datatype TextFile = TextFile(text: string, pos: nat)

  /** A file whose cursor lies within its text. */
  type Stream = f: TextFile | f.pos <= |f.text| witness TextFile("", 0)

  /** True iff every character of the stream has been read. */
  predicate AtEnd(s: Stream) {
    s.pos == |s.text|
  }

  /**
   * `read(size)` on a text stream: at most `size` characters from the cursor,
   * fewer only at end of file; a negative size reads everything that is left.
   */
  function Read(s: Stream, size: int): (r: (string, Stream))
    ensures r.1.text == s.text && s.pos <= r.1.pos
    ensures r.0 == s.text[s.pos..r.1.pos]
    ensures size >= 0 ==> r.1.pos - s.pos == Min(size, |s.text| - s.pos)
    ensures size < 0 ==> AtEnd(r.1)
  {
    var stop := if size < 0 || |s.text| - s.pos <= size then |s.text| else s.pos + size;
    (s.text[s.pos..stop], TextFile(s.text, stop))
  }
}
