/**
 * Prediction: how `predictNext` samples a continuation and backs off to
 * shorter contexts, and what `predict` and `predictUntil` build from it.
 *
 * `Math.random()` is a parameter: a draw is a real in `[0, 1)`. One call of
 * `predictNext` takes one draw per context order it samples at
 * (`draw(order)`; each order is reached at most once per call), and the
 * loops that call it take `draws(n)` for their n-th call.
 */
module Predictor {
  import opened Wrappers
  import opened OrderedMap
  import opened Text
  import opened Chain

  /** `Math.floor(u * count)`, the position drawn for a context seen `count` times. */
  function Draw(u: real, count: int): (r: int)
    ensures r as real <= u * count as real < r as real + 1.0
  {
    (u * count as real).Floor
  }

  /** A draw in `[0, 1)` lands on a position below a positive count. */
  lemma DrawInRange(u: real, count: int)
    requires 0.0 <= u < 1.0 && 1 <= count
    ensures 0 <= Draw(u, count) < count
  {
    var c := count as real;
    assert 0.0 <= u * c;
    assert u * c < c by {
      assert (1.0 - u) * c > 0.0;
    }
  }

  /** Every draw a caller supplies lies in `[0, 1)`, as `Math.random()` does. */
  ghost predicate UnitDraw(draw: int -> real) {
    forall o :: 0.0 <= draw(o) < 1.0
  }

  /** The running total of the counts of the keys up to and including position `m`. */
  function Total(ks: seq<string>, vals: map<string, int>, m: int): int
    requires -1 <= m < |ks|
  {
    SumKeys(ks[..m + 1], vals)
  }

  /**
   * The sampling loop from position `j` on: subtracting the counts in
   * order, it stops at the first position whose running total reaches `r`.
   */
  function Pick(ks: seq<string>, vals: map<string, int>, r: int, j: int): (res: Option<int>)
    requires 0 <= j <= |ks|
    ensures res.Some? ==> j <= res.value < |ks| && r <= Total(ks, vals, res.value)
    ensures forall m :: j <= m < |ks| && (res.None? || m < res.value) ==> Total(ks, vals, m) < r
    decreases |ks| - j
  {
    if j == |ks| then None
    else if r - SumKeys(ks[..j + 1], vals) <= 0 then Some(j)
    else Pick(ks, vals, r, j + 1)
  }

  /** `r` is reached at position `j` of `ks` and at no position before it. */
  ghost predicate FirstReached(ks: seq<string>, vals: map<string, int>, r: int, j: int) {
    && 0 <= j < |ks|
    && r <= Total(ks, vals, j)
    && forall m :: 0 <= m < j ==> Total(ks, vals, m) < r
  }

  /**
   * The continuation the loop over `next` returns for the drawn position
   * `r`: the key at the first position whose running total reaches `r`, or
   * none when the counts run out first.
   */
  function Choose(n: OMap<int>, r: int): (c: Option<string>)
    ensures c.Some? ==> exists j :: FirstReached(n.keys, n.vals, r, j) && c.value == n.keys[j]
    ensures c.None? <==> forall m :: 0 <= m < |n.keys| ==> Total(n.keys, n.vals, m) < r
  {
    match Pick(n.keys, n.vals, r, 0)
    case Some(j) => assert FirstReached(n.keys, n.vals, r, j); Some(n.keys[j])
    case None => None
  }

  /** A position that does not exceed the total finds a continuation. */
  lemma ChooseFinds(n: OMap<int>, r: int)
    requires n.keys != [] && r <= Sum(n)
    ensures Choose(n, r).Some?
  {
    assert n.keys[..|n.keys|] == n.keys;
    assert Total(n.keys, n.vals, |n.keys| - 1) == Sum(n);
  }

  /** With positive counts the running totals increase along the keys. */
  lemma {:induction false} TotalsIncrease(ks: seq<string>, vals: map<string, int>, m: int, j: int)
    requires forall k :: k in ks ==> ValOf(vals, k) >= 1
    requires -1 <= m < j < |ks|
    ensures Total(ks, vals, m) < Total(ks, vals, j)
    decreases j - m
  {
    var p := ks[..j + 1];
    assert p[..j] == ks[..j];
    assert Total(ks, vals, j) == Total(ks, vals, j - 1) + ValOf(vals, ks[j]);
    if m < j - 1 {
      TotalsIncrease(ks, vals, m, j - 1);
    }
  }

  /**
   * With positive counts, key `j` is returned for exactly the positions
   * after the total of the keys before it, up to and including the total
   * through it; the first key also takes position 0. Over the positions
   * `0 .. count - 1` the first key is drawn once more than its count and
   * the last key once less.
   */
  lemma ChooseIff(n: OMap<int>, r: int, j: int)
    requires n.Valid()
    requires forall k :: k in n.vals ==> n.vals[k] >= 1
    requires 0 <= j < |n.keys|
    ensures Choose(n, r) == Some(n.keys[j]) <==>
      (j == 0 || Total(n.keys, n.vals, j - 1) < r) && r <= Total(n.keys, n.vals, j)
  {
    if Choose(n, r) == Some(n.keys[j]) {
      ChooseOnlyWithin(n, r, j);
    }
    if (j == 0 || Total(n.keys, n.vals, j - 1) < r) && r <= Total(n.keys, n.vals, j) {
      ChooseWithin(n, r, j);
    }
  }

  /** Key `j` is returned only for positions within its stretch of the totals. */
  lemma ChooseOnlyWithin(n: OMap<int>, r: int, j: int)
    requires n.Valid()
    requires 0 <= j < |n.keys|
    requires Choose(n, r) == Some(n.keys[j])
    ensures (j == 0 || Total(n.keys, n.vals, j - 1) < r) && r <= Total(n.keys, n.vals, j)
  {
    var ks := n.keys;
    var i :| FirstReached(ks, n.vals, r, i) && ks[j] == ks[i];
    assert i == j;
  }

  /** With positive counts, every position within the stretch of key `j` returns it. */
  lemma ChooseWithin(n: OMap<int>, r: int, j: int)
    requires n.Valid()
    requires forall k :: k in n.vals ==> n.vals[k] >= 1
    requires 0 <= j < |n.keys|
    requires (j == 0 || Total(n.keys, n.vals, j - 1) < r) && r <= Total(n.keys, n.vals, j)
    ensures Choose(n, r) == Some(n.keys[j])
  {
    var ks := n.keys;
    assert Choose(n, r).Some?;
    var i :| FirstReached(ks, n.vals, r, i) && Choose(n, r).value == ks[i];
    if i < j - 1 {
      TotalsIncrease(ks, n.vals, i, j - 1);
      assert false;
    }
    if i == j - 1 {
      assert false;
    }
    if j < i {
      assert false;
    }
  }

  /** With one `a` and one `b` seen, both positions 0 and 1 give `a`: `b` is never predicted. */
  lemma ChooseNeverLastOfTwo(r: int)
    requires 0 <= r < 2
    ensures Choose(OMap(["a", "b"], map["a" := 1, "b" := 1]), r) == Some("a")
  {
    var n := OMap(["a", "b"], map["a" := 1, "b" := 1]);
    assert n.keys[..1] == ["a"];
    assert Total(n.keys, n.vals, 0) == 1 by {
      assert ["a"][..0] == [];
    }
    ChooseIff(n, r, 0);
  }

  /** The key `predictNext` looks up at `order`: the last `order` characters of the text. */
  function Context(text: string, order: int): (r: string)
    ensures EndsWith(text, r)
    ensures |r| == if order <= 0 then 0 else if |text| <= order then |text| else order
  {
    SuffixOf(text, order);
    Substring(text, |text| - order, |text|)
  }

  /** `c` follows some context of the store. */
  ghost predicate IsContinuation(s: Store, c: string) {
    exists k :: k in s.vals && c in s.vals[k].next.keys
  }

  /**
   * Some context on the way down from `order` (the orders `order`,
   * `order - stepDown`, ... above `minOrder - stepDown`) is stored.
   */
  ghost predicate StoredOnPath(m: Model, text: string, order: int)
    requires m.cfg.stepDown >= 1
    decreases order - (m.cfg.minOrder - m.cfg.stepDown)
  {
    order > m.cfg.minOrder - m.cfg.stepDown
    && (Context(text, order) in m.chain.vals || StoredOnPath(m, text, Lower(order, m.cfg.stepDown)))
  }

  /** `c` follows, in the store, some context on the way down from `order`. */
  ghost predicate FollowsOnPath(m: Model, text: string, order: int, c: string)
    requires m.cfg.stepDown >= 1
    decreases order - (m.cfg.minOrder - m.cfg.stepDown)
  {
    order > m.cfg.minOrder - m.cfg.stepDown
    && ((Context(text, order) in m.chain.vals && c in m.chain.vals[Context(text, order)].next.keys)
        || FollowsOnPath(m, text, Lower(order, m.cfg.stepDown), c))
  }

  /**
   * `predictNext(text, order)`: below `minOrder - stepDown + 1` there is
   * nothing (`null`); a context that is not stored, or whose sampling runs
   * out, backs off to `order - stepDown`. Whatever it returns followed some
   * stored context.
   */
  function NextOf(m: Model, text: string, order: int, draw: int -> real): (r: Option<string>)
    requires m.cfg.stepDown >= 1
    ensures r.Some? ==> FollowsOnPath(m, text, order, r.value)
    ensures r.Some? ==> IsContinuation(m.chain, r.value)
    decreases order - (m.cfg.minOrder - m.cfg.stepDown)
  {
    if order <= m.cfg.minOrder - m.cfg.stepDown then None
    else
      var key := Context(text, order);
      if key !in m.chain.vals then NextOf(m, text, Lower(order, m.cfg.stepDown), draw)
      else
        var current := m.chain.vals[key];
        match Choose(current.next, Draw(draw(order), current.count))
        case Some(c) => Some(c)
        case None => NextOf(m, text, Lower(order, m.cfg.stepDown), draw)
  }

  /**
   * In a consistent store whose counts are all positive (as training leaves
   * it when cleaning at 0 or above) every stored context answers, so
   * `predictNext` returns `null` exactly when no context on its way down is
   * stored, whatever the draws.
   */
  lemma {:induction false} NextOfFindsIff(m: Model, text: string, order: int, draw: int -> real)
    requires m.cfg.stepDown >= 1
    requires Consistent(m.chain) && AllAbove(m.chain, 0) && UnitDraw(draw)
    ensures NextOf(m, text, order, draw).Some? <==> StoredOnPath(m, text, order)
    decreases order - (m.cfg.minOrder - m.cfg.stepDown)
  {
    if order > m.cfg.minOrder - m.cfg.stepDown {
      var key := Context(text, order);
      if key in m.chain.vals {
        var current := m.chain.vals[key];
        DrawInRange(draw(order), current.count);
        ChooseFinds(current.next, Draw(draw(order), current.count));
      } else {
        NextOfFindsIff(m, text, Lower(order, m.cfg.stepDown), draw);
      }
    }
  }

  /** Hence whether `predictNext` finds anything does not depend on the draws. */
  lemma NextOfAnyDraw(m: Model, text: string, order: int, d1: int -> real, d2: int -> real)
    requires m.cfg.stepDown >= 1
    requires Consistent(m.chain) && AllAbove(m.chain, 0)
    requires UnitDraw(d1) && UnitDraw(d2)
    ensures NextOf(m, text, order, d1).Some? <==> NextOf(m, text, order, d2).Some?
  {
    NextOfFindsIff(m, text, order, d1);
    NextOfFindsIff(m, text, order, d2);
  }

  /**
   * In a consistent store with positive counts, the longest stored context
   * on the way down answers: when the context at `order` is stored,
   * `predictNext` returns one of its own continuations.
   */
  lemma StoredContextAnswers(m: Model, text: string, order: int, draw: int -> real)
    requires m.cfg.stepDown >= 1
    requires Consistent(m.chain) && AllAbove(m.chain, 0) && UnitDraw(draw)
    requires order > m.cfg.minOrder - m.cfg.stepDown
    requires Context(text, order) in m.chain.vals
    ensures NextOf(m, text, order, draw).Some?
    ensures NextOf(m, text, order, draw).value in m.chain.vals[Context(text, order)].next.keys
  {
    var current := m.chain.vals[Context(text, order)];
    DrawInRange(draw(order), current.count);
    ChooseFinds(current.next, Draw(draw(order), current.count));
  }

  /** JavaScript's `!prediction`: true for `null` and for the empty string. */
  predicate NoPrediction(p: Option<string>): (r: bool)
    ensures !r ==> p.Some? && |Render(p)| > 0
  {
    p.None? || p.value == ""
  }

  /** What `result += prediction` appends: the text `null` when there is none. */
  function Render(p: Option<string>): (r: string)
    ensures p.Some? ==> r == p.value
    ensures p.None? ==> r == "null"
  {
    match p
    case Some(s) => s
    case None => "null"
  }

  /**
   * The pieces the loop of `predict` appends from iteration `i` on. Each
   * iteration asks `predictNext` once to decide whether to go on (call
   * `2i`) and appends the answer of a second call (call `2i + 1`); the loop
   * stops at the first test that finds nothing, and after `count`
   * iterations at most.
   */
  function Pieces(m: Model, result: string, i: nat, count: int, draws: nat -> int -> real): (ps: seq<string>)
    requires m.cfg.stepDown >= 1
    ensures |ps| <= if count <= i then 0 else count - i
    decreases count - i
  {
    if count <= i then []
    else if NoPrediction(NextOf(m, result, m.cfg.order, draws(2 * i))) then []
    else
      var piece := Render(NextOf(m, result, m.cfg.order, draws(2 * i + 1)));
      [piece] + Pieces(m, result + piece, i + 1, count, draws)
  }

  /**
   * `predict(text, count)`: only what was appended to `text`. Nothing when
   * `count` is not positive or the first test finds nothing; otherwise the
   * second call's answer, then what the loop appends after it.
   */
  function Predict(m: Model, text: string, count: int, draws: nat -> int -> real): (r: string)
    requires m.cfg.stepDown >= 1
    ensures count <= 0 || NoPrediction(NextOf(m, text, m.cfg.order, draws(0))) ==> r == ""
    ensures 1 <= count && !NoPrediction(NextOf(m, text, m.cfg.order, draws(0))) ==>
      var piece := Render(NextOf(m, text, m.cfg.order, draws(1)));
      r == piece + Concat(Pieces(m, text + piece, 1, count, draws))
  {
    if 1 <= count && !NoPrediction(NextOf(m, text, m.cfg.order, draws(0))) then
      var piece := Render(NextOf(m, text, m.cfg.order, draws(1)));
      PiecesUnfold(m, text, 0, count, draws);
      ConcatCons(piece, Pieces(m, text + piece, 1, count, draws));
      Concat(Pieces(m, text, 0, count, draws))
    else
      Concat(Pieces(m, text, 0, count, draws))
  }

  /**
   * In a consistent store with positive counts and draws in `[0, 1)`, the
   * second call of an iteration finds something whenever its test did, so
   * `predict` never appends `null` for a missing answer: every piece is a
   * stored continuation.
   */
  lemma {:induction false} PiecesAreContinuations(m: Model, result: string, i: nat, count: int, draws: nat -> int -> real)
    requires m.cfg.stepDown >= 1
    requires Consistent(m.chain) && AllAbove(m.chain, 0)
    requires forall n: nat :: UnitDraw(draws(n))
    ensures i < count && !NoPrediction(NextOf(m, result, m.cfg.order, draws(2 * i))) ==>
      NextOf(m, result, m.cfg.order, draws(2 * i + 1)).Some?
    ensures forall j :: 0 <= j < |Pieces(m, result, i, count, draws)| ==>
      IsContinuation(m.chain, Pieces(m, result, i, count, draws)[j])
    decreases count - i
  {
    if count > i && !NoPrediction(NextOf(m, result, m.cfg.order, draws(2 * i))) {
      var p := NextOf(m, result, m.cfg.order, draws(2 * i + 1));
      NextOfAnyDraw(m, result, m.cfg.order, draws(2 * i), draws(2 * i + 1));
      var piece := Render(p);
      var rest := Pieces(m, result + piece, i + 1, count, draws);
      PiecesAreContinuations(m, result + piece, i + 1, count, draws);
      PiecesUnfold(m, result, i, count, draws);
      var ps := Pieces(m, result, i, count, draws);
      forall j | 0 <= j < |ps| ensures IsContinuation(m.chain, ps[j]) {
        if j > 0 {
          assert ps[j] == rest[j - 1];
        }
      }
    }
  }

  /** An iteration whose test finds something yields the second answer, then the rest. */
  lemma PiecesUnfold(m: Model, result: string, i: nat, count: int, draws: nat -> int -> real)
    requires m.cfg.stepDown >= 1 && i < count
    requires !NoPrediction(NextOf(m, result, m.cfg.order, draws(2 * i)))
    ensures var piece := Render(NextOf(m, result, m.cfg.order, draws(2 * i + 1)));
      Pieces(m, result, i, count, draws) == [piece] + Pieces(m, result + piece, i + 1, count, draws)
  {
  }

  /**
   * When a count exceeds the sum of its continuations (as a hand-made store
   * may), the second call of an iteration can find nothing after the first
   * found something, and `predict` appends the text `null`.
   */
  lemma PredictCanAppendNull()
    ensures Predict(
      Model(Config(1, 1, 1, 1, []), OMap(["x"], map["x" := Entry(5, OMap(["a"], map["a" := 1]))])),
      "x", 1, (n: nat) => (o: int) => if n == 0 then 0.0 else 0.9) == "null"
  {
    var next := OMap(["a"], map["a" := 1]);
    var m := Model(Config(1, 1, 1, 1, []), OMap(["x"], map["x" := Entry(5, next)]));
    var draws := (n: nat) => (o: int) => if n == 0 then 0.0 else 0.9;
    assert Context("x", 1) == "x";
    assert Total(next.keys, next.vals, 0) == 1 by {
      assert next.keys[..1] == next.keys;
      assert next.keys[..0] == [];
    }
    assert Draw(0.0, 5) == 0;
    assert Draw(0.9, 5) == 4;
    assert Choose(next, 0) == Some("a");
    assert Choose(next, 4) == None;
    assert NextOf(m, "x", 1, draws(0)) == Some("a");
    assert NextOf(m, "x", 1, draws(1)) == None;
    var ps := Pieces(m, "x", 0, 1, draws);
    assert ps == ["null"] + Pieces(m, "xnull", 1, 1, draws);
    assert ps == ["null"];
    assert Concat(ps) == Concat([]) + "null";
  }

  /** No prefix of `s` longer than `lo` and shorter than `hi` ends with a stop string. */
  ghost predicate NoStopBetween(s: string, lo: int, hi: int, stops: seq<string>)
    requires hi <= |s|
  {
    forall j :: lo < j < hi && 0 <= j ==> !EndsWithAny(s[..j], stops)
  }

  /**
   * The inner loop of `predictUntil`: appends the letters of `p` one at a
   * time and reports whether the text came to end with a stop string, in
   * which case it stops right after that letter.
   */
  function Letters(result: string, p: string, stops: seq<string>): (r: (string, bool))
    ensures |result| <= |r.0| <= |result| + |p|
    ensures r.0 == result + p[..|r.0| - |result|]
    ensures p != [] ==> |result| < |r.0|
    ensures r.1 <==> p != [] && EndsWithAny(r.0, stops)
    ensures !r.1 ==> r.0 == result + p
    decreases |p|
  {
    if p == [] then (result, false)
    else
      var res := result + [p[0]];
      if EndsWithAny(res, stops) then (res, true)
      else
        var r := Letters(res, p[1..], stops);
        assert r.0 == result + p[..|r.0| - |result|] by {
          AppendAssoc(result, [p[0]], p[1..][..|r.0| - |res|]);
          assert [p[0]] + p[1..][..|r.0| - |res|] == p[..|r.0| - |result|];
        }
        r
  }

  /** No text strictly between the input and the output of `Letters` ends with a stop string. */
  lemma {:induction false} LettersNoStop(result: string, p: string, stops: seq<string>)
    ensures NoStopBetween(Letters(result, p, stops).0, |result|, |Letters(result, p, stops).0|, stops)
    decreases |p|
  {
    if p != [] {
      var res := result + [p[0]];
      if !EndsWithAny(res, stops) {
        var r := Letters(res, p[1..], stops);
        LettersNoStop(res, p[1..], stops);
        forall j | |result| < j < |r.0| && 0 <= j ensures !EndsWithAny(r.0[..j], stops) {
          if j <= |res| {
            assert r.0[..j] == res[..j];
            assert res[..|res|] == res;
          }
        }
      }
    }
  }

  /** Joining a stretch with no stop, a text without one, and another stretch with no stop. */
  lemma NoStopJoin(a: string, t: string, lo: int, stops: seq<string>)
    requires |a| <= |t| && t[..|a|] == a
    requires NoStopBetween(a, lo, |a|, stops)
    requires lo < |a| ==> !EndsWithAny(a, stops)
    requires NoStopBetween(t, |a|, |t|, stops)
    ensures NoStopBetween(t, lo, |t|, stops)
  {
    forall j | lo < j < |t| && 0 <= j ensures !EndsWithAny(t[..j], stops) {
      if j < |a| {
        assert t[..j] == a[..j];
      } else if j == |a| {
        assert t[..j] == a;
      }
    }
  }

  /**
   * The loop of `predictUntil` from `result` on, `n` being the number of
   * the next `predictNext` call: it runs while the text is shorter than
   * `max`, stops when nothing is predicted, and otherwise appends the
   * prediction letter by letter, stopping after the first letter that makes
   * the text end with a stop string.
   */
  function Until(m: Model, stops: seq<string>, max: int, result: string, n: nat, draws: nat -> int -> real): (r: string)
    requires m.cfg.stepDown >= 1
    ensures |result| <= |r| && r[..|result|] == result
    decreases max - |result|
  {
    if |result| >= max then result
    else
      var p := NextOf(m, result, m.cfg.order, draws(n));
      if NoPrediction(p) then result
      else
        var step := Letters(result, p.value, stops);
        if step.1 then step.0
        else
          var r := Until(m, stops, max, step.0, n + 1, draws);
          assert r[..|result|] == r[..|step.0|][..|result|];
          r
  }

  /** `predictUntil(text, stopArray, max)`: only what was appended to `text`. */
  function PredictUntil(m: Model, text: string, stops: seq<string>, max: int, draws: nat -> int -> real): (r: string)
    requires m.cfg.stepDown >= 1
    ensures |text| >= max ==> r == ""
    ensures Until(m, stops, max, text, 0, draws) == text + r
  {
    var u := Until(m, stops, max, text, 0, draws);
    PrefixRest(u, text);
    u[|text|..]
  }

  /** The default `max` of `predictUntil`. */
  const DefaultMax := 500

  /**
   * `predictUntil` stops at the first stop string: no text strictly between
   * the input and the output ends with one.
   */
  lemma {:induction false} UntilFirstStop(m: Model, stops: seq<string>, max: int, result: string, n: nat, draws: nat -> int -> real)
    requires m.cfg.stepDown >= 1
    ensures NoStopBetween(Until(m, stops, max, result, n, draws), |result|, |Until(m, stops, max, result, n, draws)|, stops)
    decreases max - |result|
  {
    if |result| < max {
      var p := NextOf(m, result, m.cfg.order, draws(n));
      if !NoPrediction(p) {
        var step := Letters(result, p.value, stops);
        LettersNoStop(result, p.value, stops);
        if !step.1 {
          UntilFirstStop(m, stops, max, step.0, n + 1, draws);
          NoStopJoin(step.0, Until(m, stops, max, step.0, n + 1, draws), |result|, stops);
        }
      }
    }
  }

  /**
   * When no continuation is longer than `L`, `predictUntil` overshoots
   * `max` by less than `L`: it only appends while the text is shorter than
   * `max`, and one prediction at a time.
   */
  lemma {:induction false} UntilLength(m: Model, stops: seq<string>, max: int, result: string, n: nat, draws: nat -> int -> real, L: nat)
    requires m.cfg.stepDown >= 1
    requires forall c :: IsContinuation(m.chain, c) ==> |c| <= L
    ensures |Until(m, stops, max, result, n, draws)| <= if |result| >= max then |result| else max - 1 + L
    decreases max - |result|
  {
    if |result| < max {
      var p := NextOf(m, result, m.cfg.order, draws(n));
      if !NoPrediction(p) {
        var step := Letters(result, p.value, stops);
        if !step.1 {
          UntilLength(m, stops, max, step.0, n + 1, draws, L);
        }
      }
    }
  }
}
