/**
 * Display lines and buffered fragments, and the shapes the pager keeps them in.
 */
module Lines {
  import opened Text

  /**
   * One display line or buffered fragment. `synthetic` records that the final
   * '\n' was inserted by a wrap and is not in the source text. The pager's own
   * decisions never read it (see Bookkeeping.FlagsAreBookkeeping); it exists so
   * that the source text can be recovered from the lines.
   */
  datatype Line = Line(text: string, synthetic: bool)

  /** The source characters a line stands for: its text minus an inserted '\n'. */
  function Unwrap(l: Line): string {
    if l.synthetic && |l.text| > 0 then l.text[..|l.text| - 1] else l.text
  }

  function Texts(ls: seq<Line>): seq<string> {
    seq(|ls|, i requires 0 <= i < |ls| => ls[i].text)
  }

  function Unwraps(ls: seq<Line>): seq<string> {
    seq(|ls|, i requires 0 <= i < |ls| => Unwrap(ls[i]))
  }

  /** What the lines show on screen: `''.join(lines)`. */
  function Join(ls: seq<Line>): string {
    Concat(Texts(ls))
  }

  /** The source characters the lines stand for, in order. */
  function Source(ls: seq<Line>): string {
    Concat(Unwraps(ls))
  }

  function SyntheticCount(ls: seq<Line>): nat
    decreases |ls|
  {
    if |ls| == 0 then 0 else (if ls[0].synthetic then 1 else 0) + SyntheticCount(ls[1..])
  }

  lemma SourceAppend(a: seq<Line>, b: seq<Line>)
    ensures Source(a + b) == Source(a) + Source(b)
  {
    assert Unwraps(a + b) == Unwraps(a) + Unwraps(b);
    ConcatAppend(Unwraps(a), Unwraps(b));
  }

  lemma JoinAppend(a: seq<Line>, b: seq<Line>)
    ensures Join(a + b) == Join(a) + Join(b)
  {
    assert Texts(a + b) == Texts(a) + Texts(b);
    ConcatAppend(Texts(a), Texts(b));
  }

  lemma SourceOne(l: Line)
    ensures Source([l]) == Unwrap(l)
  {
    assert Unwraps([l]) == [Unwrap(l)];
    ConcatOne(Unwrap(l));
  }

  lemma SourceSnoc(a: seq<Line>, l: Line)
    ensures Source(a + [l]) == Source(a) + Unwrap(l)
  {
    SourceAppend(a, [l]);
    SourceOne(l);
  }

  lemma SourceEmpty()
    ensures Source([]) == ""
  {
    assert Unwraps([]) == [];
  }

  lemma JoinOne(l: Line)
    ensures Join([l]) == l.text
  {
    assert Texts([l]) == [l.text];
    ConcatOne(l.text);
  }

  /**
   * A line that ended: it is non-empty, at most `nCols` long, ends in a
   * terminator and has none before that; a wrapped line is exactly `nCols`
   * long and ends in the inserted '\n'.
   */
  predicate Complete(l: Line, nCols: int) {
    && 1 <= |l.text| <= nCols
    && EndsInTerminator(l.text)
    && NoTerminator(l.text[..|l.text| - 1])
    && (l.synthetic ==> |l.text| == nCols && l.text[|l.text| - 1] == '\n')
  }

  /** The unterminated tail of the text: non-empty, shorter than `nCols`, no terminator. */
  predicate Partial(l: Line, nCols: int) {
    && !l.synthetic
    && 1 <= |l.text| < nCols
    && NoTerminator(l.text)
  }

  predicate AllComplete(ls: seq<Line>, nCols: int) {
    forall i :: 0 <= i < |ls| ==> Complete(ls[i], nCols)
  }

  /**
   * The shape of the buffer between calls, and of a page: every fragment is
   * complete except that the very last one may be the partial tail.
   */
  predicate WellFormed(ls: seq<Line>, nCols: int) {
    && (forall i :: 0 <= i < |ls| - 1 ==> Complete(ls[i], nCols))
    && (|ls| > 0 ==> Complete(ls[|ls| - 1], nCols) || Partial(ls[|ls| - 1], nCols))
  }

  /**
   * The part of WellFormed the drain phase depends on: every fragment but the
   * last ends in a terminator, and an unterminated last one is neither empty
   * nor exactly `nCols` long, and carries no inserted '\n'.
   */
  predicate Drainable(ls: seq<Line>, nCols: int) {
    && (forall i :: 0 <= i < |ls| - 1 ==> EndsInTerminator(ls[i].text))
    && (|ls| > 0 && !EndsInTerminator(ls[|ls| - 1].text) ==>
          0 < |ls[|ls| - 1].text| < nCols && !ls[|ls| - 1].synthetic)
  }

  lemma WellFormedDrainable(ls: seq<Line>, nCols: int)
    requires WellFormed(ls, nCols)
    ensures Drainable(ls, nCols)
  {
  }

  /** The number of leading fragments the drain phase takes as finished lines. */
  function ReadyCount(ls: seq<Line>): (k: nat)
    ensures k <= |ls|
  {
    if |ls| > 0 && !EndsInTerminator(ls[|ls| - 1].text) then |ls| - 1 else |ls|
  }

  /** The number of fragments a call with `nLines` rows drains from a well-formed buffer. */
  function Carried(ls: seq<Line>, nLines: int): (k: nat)
    ensures k <= |ls|
  {
    if nLines <= 0 then 0 else Min(nLines, ReadyCount(ls))
  }

  /** The fragments the drain phase takes as finished lines are complete. */
  lemma ReadyComplete(ls: seq<Line>, nCols: int, k: nat)
    requires WellFormed(ls, nCols) && k <= ReadyCount(ls)
    ensures AllComplete(ls[..k], nCols)
  {
    forall i | 0 <= i < k
      ensures Complete(ls[..k][i], nCols)
    {
      assert ls[..k][i] == ls[i];
      if i == |ls| - 1 {
        assert EndsInTerminator(ls[i].text);
      }
    }
  }

  lemma {:induction false} WellFormedSplit(a: seq<Line>, b: seq<Line>, nCols: int)
    requires WellFormed(a + b, nCols)
    ensures WellFormed(a, nCols) && WellFormed(b, nCols)
    ensures |b| > 0 ==> AllComplete(a, nCols)
  {
    var ab := a + b;
    if |a| > 0 && |b| > 0 {
      assert ab[|a| - 1] == a[|a| - 1];
    }
    forall i | 0 <= i < |b| - 1
      ensures Complete(b[i], nCols)
    {
      assert ab[|a| + i] == b[i];
    }
    if |b| > 0 {
      assert ab[|ab| - 1] == b[|b| - 1];
    }
    forall i | 0 <= i < |a| && (|b| > 0 || i < |a| - 1)
      ensures Complete(a[i], nCols)
    {
      assert ab[i] == a[i];
    }
  }

  lemma CompleteThenPartial(a: seq<Line>, tail: seq<Line>, nCols: int)
    requires AllComplete(a, nCols)
    requires |tail| == 0 || (|tail| == 1 && Partial(tail[0], nCols))
    ensures WellFormed(a + tail, nCols)
  {
    var ab := a + tail;
    forall i | 0 <= i < |ab| - 1
      ensures Complete(ab[i], nCols)
    {
      assert ab[i] == a[i];
    }
  }

  /** Every shown or buffered line of a well-formed sequence fits in `nCols` columns. */
  lemma WellFormedWidth(ls: seq<Line>, nCols: int, i: int)
    requires WellFormed(ls, nCols) && 0 <= i < |ls|
    ensures 1 <= |ls[i].text| <= nCols
    ensures ls[i].synthetic ==> |Unwrap(ls[i])| == nCols - 1
  {
  }

  /** With at least two columns, each line of a well-formed sequence stands for at least one source character. */
  lemma SourceAtLeast(ls: seq<Line>, nCols: int)
    requires nCols >= 2 && WellFormed(ls, nCols)
    ensures |Source(ls)| >= |ls|
  {
    forall i | 0 <= i < |ls|
      ensures |Unwrap(ls[i])| >= 1
    {
      WellFormedWidth(ls, nCols, i);
    }
    SourceLength(ls);
  }

  lemma {:induction false} SourceLength(ls: seq<Line>)
    requires forall i :: 0 <= i < |ls| ==> |Unwrap(ls[i])| >= 1
    ensures |Source(ls)| >= |ls|
    decreases |ls|
  {
    if |ls| == 0 {
      SourceEmpty();
    } else {
      var a := ls[..|ls| - 1];
      assert ls == a + [ls[|ls| - 1]];
      SourceSnoc(a, ls[|ls| - 1]);
      assert forall i :: 0 <= i < |a| ==> a[i] == ls[i];
      SourceLength(a);
    }
  }

  /** The shown text is the source text plus one inserted '\n' per wrapped line. */
  lemma {:induction false} JoinLength(ls: seq<Line>)
    requires forall i :: 0 <= i < |ls| ==> (ls[i].synthetic ==> |ls[i].text| > 0)
    ensures |Join(ls)| == |Source(ls)| + SyntheticCount(ls)
    decreases |ls|
  {
    if |ls| > 0 {
      assert ls == [ls[0]] + ls[1..];
      JoinAppend([ls[0]], ls[1..]);
      SourceAppend([ls[0]], ls[1..]);
      JoinOne(ls[0]);
      SourceOne(ls[0]);
      JoinLength(ls[1..]);
    }
  }
}
