/** The JavaScript string operations the model relies on, on `seq<char>`. */
module Text {

  /** An index forced into `[0, n]`. */
  function Clamp(i: int, n: nat): (r: nat)
    ensures r <= n
    ensures 0 <= i <= n ==> r == i
    ensures i < 0 ==> r == 0
    ensures n < i ==> r == n
  {
    if i < 0 then 0 else if n < i then n else i
  }

  /**
   * `s.substring(a, b)`: both ends are clamped into the string, and the
   * two are swapped when the start lies after the end.
   */
  function Substring(s: string, a: int, b: int): (r: string)
    ensures |r| <= |s|
  {
    var lo, hi := Clamp(a, |s|), Clamp(b, |s|);
    if lo <= hi then s[lo..hi] else s[hi..lo]
  }

  /** Within bounds, `substring` is the ordinary slice. */
  lemma SubstringInRange(s: string, a: int, b: int)
    requires 0 <= a <= b <= |s|
    ensures Substring(s, a, b) == s[a..b]
  {
  }

  /** `s.substring(a)`, the end left out, is the rest of the string from `a`. */
  lemma SubstringToEnd(s: string, a: int)
    requires 0 <= a <= |s|
    ensures Substring(s, a, |s|) == s[a..]
  {
    assert s[a..|s|] == s[a..];
  }

  /**
   * `s.substring(s.length - n, s.length)` is the last `n` characters, the
   * whole string when it is shorter than `n`, and "" when `n` is not positive.
   */
  lemma SuffixOf(s: string, n: int)
    ensures Substring(s, |s| - n, |s|) == if n <= 0 then "" else if |s| <= n then s else s[|s| - n..]
  {
  }

  /** `s.endsWith(suffix)`; every string ends with "". */
  predicate EndsWith(s: string, suffix: string) {
    |suffix| <= |s| && s[|s| - |suffix|..] == suffix
  }

  /** Some string of `stops` ends `s`. */
  predicate EndsWithAny(s: string, stops: seq<string>) {
    exists c :: c in stops && EndsWith(s, c)
  }

  /** The pieces joined in order. */
  function Concat(pieces: seq<string>): string {
    if pieces == [] then "" else Concat(pieces[..|pieces| - 1]) + pieces[|pieces| - 1]
  }

  /** Appending is associative. */
  lemma AppendAssoc<T>(a: seq<T>, b: seq<T>, c: seq<T>)
    ensures (a + b) + c == a + (b + c)
  {
  }

  /** A string that starts with `t` is `t` followed by the rest. */
  lemma PrefixRest(s: string, t: string)
    requires |t| <= |s| && s[..|t|] == t
    ensures s == t + s[|t|..]
  {
  }

  lemma ConcatSnoc(pieces: seq<string>, p: string)
    ensures Concat(pieces + [p]) == Concat(pieces) + p
  {
    assert (pieces + [p])[..|pieces|] == pieces;
  }

  lemma {:induction false} ConcatCons(p: string, pieces: seq<string>)
    ensures Concat([p] + pieces) == p + Concat(pieces)
    decreases |pieces|
  {
    if pieces != [] {
      var front, last := pieces[..|pieces| - 1], pieces[|pieces| - 1];
      assert ([p] + pieces)[..|pieces|] == [p] + front;
      ConcatCons(p, front);
    } else {
      assert [p] + pieces == [p];
      assert [p][..0] == [];
    }
  }
}
