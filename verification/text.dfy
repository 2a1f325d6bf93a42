/** Characters and strings as the pager sees them: already-decoded text. */
module Text {

  /** A real line terminator in the source text. */
  predicate IsTerminator(c: char) {
    c == '\n' || c == '\r'
  }

  /** True iff `s` contains no terminator at all. */
  predicate NoTerminator(s: string) {
    forall i :: 0 <= i < |s| ==> !IsTerminator(s[i])
  }

  /** True iff the last character of `s` is a terminator. */
  predicate EndsInTerminator(s: string) {
    |s| > 0 && IsTerminator(s[|s| - 1])
  }

  function Min(a: int, b: int): int {
    if a <= b then a else b
  }

  function Max(a: int, b: int): int {
    if a <= b then b else a
  }

  /** Concatenation of a sequence of strings, in order. */
  function Concat(ss: seq<string>): string
    decreases |ss|
  {
    if |ss| == 0 then "" else Concat(ss[..|ss| - 1]) + ss[|ss| - 1]
  }

  lemma ConcatOne(x: string)
    ensures Concat([x]) == x
  {
    assert [x][..0] == [];
    assert Concat([x]) == Concat([]) + x;
  }

  lemma {:induction false} ConcatAppend(a: seq<string>, b: seq<string>)
    ensures Concat(a + b) == Concat(a) + Concat(b)
    decreases |b|
  {
    if |b| == 0 {
      assert a + b == a;
    } else {
      var b' := b[..|b| - 1];
      assert (a + b)[..|a + b| - 1] == a + b';
      ConcatAppend(a, b');
    }
  }

  /** Dropping the first `k` elements of a sequence that extends `a`. */
  lemma DropExtended<T>(r: seq<T>, a: seq<T>, k: nat)
    requires k <= |a| <= |r| && r[..|a|] == a
    ensures r[k..] == a[k..] + r[|a|..]
  {
  }

  /** A prefix of a prefix is a prefix. */
  lemma PrefixOfPrefix<T>(r: seq<T>, a: seq<T>, b: seq<T>)
    requires |b| <= |a| <= |r| && r[..|a|] == a && a[..|b|] == b
    ensures r[..|b|] == b
  {
    assert r[..|b|] == r[..|a|][..|b|];
  }

  /** A sequence that extends `a` is `a` followed by the rest. */
  lemma Extended<T>(r: seq<T>, a: seq<T>)
    requires |a| <= |r| && r[..|a|] == a
    ensures r == a + r[|a|..]
  {
  }

  /** Taking `k >= 1` elements is taking the head and then `k - 1` of the tail. */
  lemma TakeCons<T>(s: seq<T>, k: nat)
    requires 1 <= k <= |s|
    ensures s[..k] == [s[0]] + s[1..][..k - 1]
    ensures s[..k][0] == s[0] && s[..k][1..] == s[1..][..k - 1]
    ensures s[1..][k - 1..] == s[k..]
    ensures k < |s| ==> s[1..][k - 1] == s[k]
  {
  }

  lemma Assoc<T>(a: seq<T>, b: seq<T>, c: seq<T>)
    ensures (a + b) + c == a + (b + c)
  {
  }

  /** Dropping `a` from `r = a + e + k` leaves `e + k`. */
  lemma Glue<T>(r: seq<T>, a: seq<T>, e: seq<T>, k: seq<T>)
    requires |a + e| <= |r| && r[..|a + e|] == a + e && r[|a + e|..] == k
    ensures r[|a|..] == e + k
  {
    DropExtended(r, a + e, |a|);
    assert (a + e)[|a|..] == e;
  }
}
