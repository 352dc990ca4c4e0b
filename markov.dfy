/**
 * The `MarkovChain` class. Its fields change in place, in the loops of
 * `train` and `cleanUp`; every method is proved to leave the state, or to
 * return the value, that the functions of the `Chain`, `Predictor` and
 * `Serial` modules describe, and the properties are proved about those.
 */
module Markov {
  import opened Wrappers
  import opened OrderedMap
  import opened Text
  import opened Chain
  import Ngrams
  import Predictor
  import Serial

  class MarkovChain {
    var chain: Store
    const order: int
    const minOrder: int
    const nextOrder: int
    const stepDown: int
    const stopCharacters: seq<string>

    /** The class invariant: both levels of the store are well-formed ordered maps. */
    ghost predicate Valid()
      reads this
    {
      WellFormed(chain)
    }

    /** The fields as one value. */
    function State(): Model
      reads this
    {
      Model(Config(order, minOrder, nextOrder, stepDown, stopCharacters), chain)
    }

    /** Every field takes the option given for it, or its default. */
    constructor(options: Serial.Options)
      ensures State() == Serial.FromOptions(options)
      ensures (options.chain.Some? ==> WellFormed(options.chain.value)) ==> Valid()
    {
      chain := options.chain.GetOr(Empty());
      order := options.order.GetOr(3);
      minOrder := options.minOrder.GetOr(1);
      nextOrder := options.nextOrder.GetOr(3);
      stepDown := options.stepDown.GetOr(1);
      stopCharacters := options.stopCharacters.GetOr([".", "!", "?", "  "]);
    }

    /**
     * `train(textData, clean, order, nextOrder)`: counts every pair of the
     * text at `order`, pruning whenever the store outgrows the budget, prunes
     * once more, and goes on at `order - stepDown` until `minOrder`.
     */
    method Train(text: string, clean: int, order: int, nextOrder: int)
      requires Valid() && stepDown >= 1
      modifies this`chain
      ensures Valid()
      ensures chain == Chain.Train(old(chain), text, clean, order, nextOrder, minOrder, stepDown)
      decreases order - minOrder
    {
      if order <= minOrder - 1 {
        return;
      }
      ghost var start := chain;
      TrainAt(text, clean, order, nextOrder);
      ghost var pruned := chain;
      var lower := Chain.Lower(order, stepDown);
      Train(text, clean, lower, nextOrder);
      TrainOnce(start, pruned, text, clean, order, lower, nextOrder, minOrder, stepDown);
    }

    /** One order of `train`: a pass over the pairs, then `cleanUp(clean)`. */
    method TrainAt(text: string, clean: int, order: int, nextOrder: int)
      requires Valid()
      modifies this`chain
      ensures Valid()
      ensures chain == Chain.CleanUp(Pass(old(chain), Ngrams.Ngrams(text, order, nextOrder), clean), clean)
    {
      var ngrams := Ngrams.Ngrams(text, order, nextOrder);
      TrainPass(ngrams, clean);
      CleanUp(clean);
    }

    /**
     * The loop of `train` over the pairs of one pass: each pair is counted
     * into the store, which is pruned whenever it holds more contexts than
     * the budget.
     */
    method TrainPass(ngrams: seq<(string, string)>, clean: int)
      requires Valid()
      modifies this`chain
      ensures Valid()
      ensures chain == Pass(old(chain), ngrams, clean)
    {
      ghost var start := chain;
      assert ngrams[..0] == [];
      var i := 0;
      while i < |ngrams|
        invariant 0 <= i <= |ngrams|
        invariant chain == Pass(start, ngrams[..i], clean)
      {
        PassStep(start, ngrams, i, clean);
        ghost var before := chain;
        Count(ngrams[i].0, ngrams[i].1);
        ghost var added := chain;
        assert added == Add(before, ngrams[i].0, ngrams[i].1);
        if |chain.keys| > Budget {
          CleanUp(clean);
        }
        assert chain == Step(before, ngrams[i], clean);
        i := i + 1;
      }
      assert ngrams[..|ngrams|] == ngrams;
    }

    /**
     * The body of the loop of `train` for one pair: a missing context gets a
     * fresh entry, the entry's count goes up, a missing (or zero)
     * continuation count is set to 0, and then goes up.
     */
    method Count(ctx: string, cont: string)
      requires Valid()
      modifies this`chain
      ensures chain == Add(old(chain), ctx, cont)
    {
      var store := chain;
      if ctx !in store.vals {
        store := store.Put(ctx, Entry(0, Empty()));
      }
      FreshEntry(chain, ctx);
      var current := store.vals[ctx];
      current := current.(count := current.count + 1);
      if !(cont in current.next.vals && current.next.vals[cont] != 0) {
        current := current.(next := current.next.Put(cont, 0));
      }
      current := current.(next := current.next.Put(cont, current.next.vals[cont] + 1));
      AddInSteps(chain, ctx, cont, store, current);
      chain := store.Put(ctx, current);
    }

    /**
     * `cleanUp(x)`: first every entry loses the continuations counted at
     * most `x`, its count going down by theirs; then the contexts whose
     * count is at most `x` go.
     */
    method CleanUp(x: int)
      requires Valid()
      modifies this`chain
      ensures Valid()
      ensures chain == Chain.CleanUp(old(chain), x)
    {
      var store := chain;
      ghost var start := store;
      PrunedFirstStart(start, x);
      var keys := store.keys;
      var i := 0;
      while i < |keys|
        invariant 0 <= i <= |keys|
        invariant store == PrunedFirst(start, x, i)
      {
        var key := keys[i];
        PrunedFirstStep(start, x, i);
        var entry := PruneContinuations(store.vals[key], x);
        store := store.Put(key, entry);
        i := i + 1;
      }
      PrunedFirstAll(start, x);
      chain := store;
      DropThin(x);
    }

    /** Phase 2 of `cleanUp(x)`: the loop over the contexts deletes each one counted at most `x`. */
    method DropThin(x: int)
      requires chain.Valid()
      modifies this`chain
      ensures chain == old(chain).RemoveAll(Thin(old(chain), x))
    {
      var store := chain;
      var keys := store.keys;
      var i := 0;
      assert ThinIn(keys[..0], store.vals, x) == {};
      RemoveAllNone(store, {});
      ghost var pruned := store;
      while i < |keys|
        invariant 0 <= i <= |keys|
        invariant store == pruned.RemoveAll(ThinIn(keys[..i], pruned.vals, x))
      {
        var key := keys[i];
        ThinStep(pruned, i, x, store);
        if store.vals[key].count <= x {
          store := store.Remove(key);
        }
        i := i + 1;
      }
      ThinInAll(pruned, x);
      chain := store;
    }

    /**
     * Phase 1 of `cleanUp(x)` on one entry: the loop over its continuations
     * deletes each one counted at most `x` and takes its count off the
     * entry's.
     */
    static method PruneContinuations(entry: Entry, x: int) returns (r: Entry)
      requires entry.next.Valid()
      ensures r == PruneEntry(entry, x)
    {
      var next := entry.next;
      var count := entry.count;
      PrunedToStart(entry, x);
      var j := 0;
      while j < |entry.next.keys|
        invariant 0 <= j <= |entry.next.keys|
        invariant Entry(count, next) == PrunedTo(entry, x, j)
      {
        var phrase := entry.next.keys[j];
        PrunedToStep(entry, x, j);
        if next.vals[phrase] <= x {
          count := count - next.vals[phrase];
          next := next.Remove(phrase);
        }
        j := j + 1;
      }
      PrunedToAll(entry, x);
      r := Entry(count, next);
    }

    /**
     * `predictNext(text, order)` with `Math.random()` giving `draw(order)`
     * at each order it samples at.
     */
    method PredictNext(text: string, order: int, draw: int -> real) returns (p: Option<string>)
      requires stepDown >= 1
      ensures p == Predictor.NextOf(State(), text, order, draw)
      decreases order - (minOrder - stepDown)
    {
      if order <= minOrder - stepDown {
        return None;
      }
      var key := Predictor.Context(text, order);
      var lower := Chain.Lower(order, stepDown);
      if key !in chain.vals {
        p := PredictNext(text, lower, draw);
        return;
      }
      var current := chain.vals[key];
      p := Sample(current.next, Predictor.Draw(draw(order), current.count));
      if p.None? {
        p := PredictNext(text, lower, draw);
      }
    }

    /**
     * The loop of `predictNext` over a context's continuations: each count
     * is taken off the drawn position in turn, and the first continuation
     * that brings it to 0 or below is returned.
     */
    static method Sample(next: OMap<int>, random: int) returns (p: Option<string>)
      ensures p == Predictor.Choose(next, random)
    {
      var left := random;
      var j := 0;
      while j < |next.keys|
        invariant 0 <= j <= |next.keys|
        invariant left == random - Predictor.Total(next.keys, next.vals, j - 1)
        invariant Predictor.Pick(next.keys, next.vals, random, 0) == Predictor.Pick(next.keys, next.vals, random, j)
      {
        var phrase := next.keys[j];
        assert next.keys[..j + 1][..j] == next.keys[..j];
        left := left - ValOf(next.vals, phrase);
        if left <= 0 {
          return Some(phrase);
        }
        j := j + 1;
      }
      return None;
    }

    /**
     * `predict(text, count)`; the n-th call of `predictNext` draws from
     * `draws(n)`.
     */
    method Predict(text: string, count: int, draws: nat -> int -> real) returns (out: string)
      requires stepDown >= 1
      ensures out == Predictor.Predict(State(), text, count, draws)
    {
      ghost var m := State();
      ghost var all := Predictor.Pieces(m, text, 0, count, draws);
      var result := text;
      var i: nat := 0;
      ghost var done: seq<string> := [];
      while i < count
        invariant PredictedSoFar(m, text, count, draws, all, result, i, done)
      {
        var prediction := PredictNext(result, order, draws(2 * i));
        if Predictor.NoPrediction(prediction) {
          PiecesStop(m, text, count, draws, all, result, i, done);
          break;
        }
        var piece := PredictNext(result, order, draws(2 * i + 1));
        var appended := Predictor.Render(piece);
        PiecesGrow(m, text, count, draws, all, result, i, done);
        result := result + appended;
        done := done + [appended];
        i := i + 1;
      }
      PredictDone(m, text, count, draws, all, result, i, done);
      out := Substring(result, |text|, |result|);
    }

    /**
     * `predictUntil(text, stopArray, max)`; the n-th call of `predictNext`
     * draws from `draws(n)`.
     */
    method PredictUntil(text: string, stopArray: seq<string>, max: int, draws: nat -> int -> real) returns (out: string)
      requires stepDown >= 1
      ensures out == Predictor.PredictUntil(State(), text, stopArray, max, draws)
    {
      ghost var m := State();
      ghost var goal := Predictor.Until(m, stopArray, max, text, 0, draws);
      var result := text;
      var n: nat := 0;
      while |result| < max
        invariant goal == Predictor.Until(m, stopArray, max, result, n, draws)
        decreases max - |result|
      {
        var prediction := PredictNext(result, order, draws(n));
        UntilStep(m, stopArray, max, result, n, draws, prediction);
        if Predictor.NoPrediction(prediction) {
          break;
        }
        var stop;
        result, stop := AppendLetters(result, prediction.value, stopArray);
        if stop {
          break;
        }
        n := n + 1;
      }
      assert goal == result;
      SubstringToEnd(result, |text|);
      out := Substring(result, |text|, |result|);
    }

    /**
     * `predictUntil(text)` with its defaults: the model's stop strings and a
     * maximum length of 500.
     */
    method PredictUntilDefaults(text: string, draws: nat -> int -> real) returns (out: string)
      requires stepDown >= 1
      ensures out == Predictor.PredictUntil(State(), text, stopCharacters, Predictor.DefaultMax, draws)
    {
      out := PredictUntil(text, stopCharacters, Predictor.DefaultMax, draws);
    }

    /**
     * The inner loop of `predictUntil`: the letters of the prediction are
     * appended one at a time, and the loop breaks right after a letter that
     * makes the text end with a stop string.
     */
    static method AppendLetters(result: string, letters: string, stops: seq<string>) returns (res: string, stop: bool)
      ensures (res, stop) == Predictor.Letters(result, letters, stops)
    {
      res := result;
      stop := false;
      var k := 0;
      while k < |letters|
        invariant 0 <= k <= |letters|
        invariant Predictor.Letters(result, letters, stops) == Predictor.Letters(res, letters[k..], stops)
      {
        assert letters[k..][1..] == letters[k + 1..];
        res := res + [letters[k]];
        stop := EndsWithSome(res, stops);
        if stop {
          return;
        }
        k := k + 1;
      }
    }

    /** The `stopArray.forEach` of `predictUntil`: whether the text ends with some stop string. */
    static method EndsWithSome(result: string, stops: seq<string>) returns (stop: bool)
      ensures stop == EndsWithAny(result, stops)
    {
      stop := false;
      var c := 0;
      while c < |stops|
        invariant 0 <= c <= |stops|
        invariant stop <==> exists q :: 0 <= q < c && EndsWith(result, stops[q])
      {
        if EndsWith(result, stops[c]) {
          stop := true;
        }
        c := c + 1;
      }
    }

    /** `toJSON()`: what it writes is read back by `fromJSON` as this very model. */
    method ToJSON() returns (json: Serial.Persisted)
      requires Valid()
      ensures json == Serial.Encode(State())
      ensures Serial.Decode(json) == State()
    {
      json := Serial.Persisted(
        Some(order), Some(nextOrder), Some(minOrder),
        Some(Serial.ToPairs(chain.keys, chain.vals)),
        Some(stopCharacters), Some(stepDown));
    }

    /** `MarkovChain.fromJSON(json)`: a new model built from the fields read back. */
    static method FromJSON(json: Serial.Persisted) returns (m: MarkovChain)
      ensures fresh(m)
      ensures m.State() == Serial.Decode(json)
      ensures (forall i :: 0 <= i < |json.chain.GetOr([])| ==> json.chain.GetOr([])[i].1.next.Valid()) ==> m.Valid()
    {
      var store := Serial.FromPairs(json.chain.GetOr([]));
      if forall i :: 0 <= i < |json.chain.GetOr([])| ==> json.chain.GetOr([])[i].1.next.Valid() {
        Serial.FromPairsWellFormed(json.chain.GetOr([]));
      }
      m := new MarkovChain(Serial.Options(
        Some(store), json.order, json.minOrder, json.nextOrder, json.stepDown, json.stopCharacters));
    }
  }

  /** Phase 1 on one entry once the loop has visited its first `j` continuations. */
  function PrunedTo(e: Entry, x: int, j: int): Entry
    requires e.next.Valid() && 0 <= j <= |e.next.keys|
  {
    var low := LowIn(e.next.keys[..j], e.next.vals, x);
    Entry(e.count - SumIn(e.next.keys[..j], e.next.vals, Low(e.next, x)), e.next.RemoveAll(low))
  }

  /** Before the loop nothing has been removed. */
  lemma PrunedToStart(e: Entry, x: int)
    requires e.next.Valid()
    ensures PrunedTo(e, x, 0) == e
  {
    assert LowIn(e.next.keys[..0], e.next.vals, x) == {};
    RemoveAllNone(e.next, {});
  }

  /**
   * One step of the loop over a continuation map: the key in hand is still
   * there with its original count, and deleting it when it is low (taking
   * its count off the entry's) gives the state after the step.
   */
  lemma PrunedToStep(e: Entry, x: int, j: int)
    requires e.next.Valid() && 0 <= j < |e.next.keys|
    ensures e.next.keys[j] in PrunedTo(e, x, j).next.vals
    ensures PrunedTo(e, x, j).next.vals[e.next.keys[j]] == e.next.vals[e.next.keys[j]]
    ensures PrunedTo(e, x, j + 1) ==
      var p, k := PrunedTo(e, x, j), e.next.keys[j];
      if p.next.vals[k] <= x then Entry(p.count - p.next.vals[k], p.next.Remove(k)) else p
  {
    var n, k := e.next, e.next.keys[j];
    var p, q := PrunedTo(e, x, j), PrunedTo(e, x, j + 1);
    PruneStep(n, j, x, p.next);
    LowSumStep(n, j, x);
    assert q.next == (if n.vals[k] <= x then p.next.Remove(k) else p.next);
    assert q.count == p.count - (if n.vals[k] <= x then n.vals[k] else 0);
  }

  /** After the loop, the entry is phase 1's result. */
  lemma PrunedToAll(e: Entry, x: int)
    requires e.next.Valid()
    ensures PrunedTo(e, x, |e.next.keys|) == PruneEntry(e, x)
  {
    LowInAll(e.next, x);
    assert e.next.keys[..|e.next.keys|] == e.next.keys;
  }

  /**
   * One step of the loop over a continuation map, on the map alone: the key
   * in hand is still there, and deleting it when it is low keeps the loop's
   * invariant.
   */
  lemma PruneStep(n: OMap<int>, j: int, x: int, next: OMap<int>)
    requires n.Valid() && 0 <= j < |n.keys|
    requires next == n.RemoveAll(LowIn(n.keys[..j], n.vals, x))
    ensures n.keys[j] in next.vals && next.vals[n.keys[j]] == n.vals[n.keys[j]]
    ensures (if n.vals[n.keys[j]] <= x then next.Remove(n.keys[j]) else next)
         == n.RemoveAll(LowIn(n.keys[..j + 1], n.vals, x))
  {
    var k := n.keys[j];
    var gone := LowIn(n.keys[..j], n.vals, x);
    LowInStep(n.keys, n.vals, x, j);
    RemoveOneMore(n, gone, k, n.vals[k] <= x, LowIn(n.keys[..j + 1], n.vals, x));
  }

  /** One step of the loop over a continuation map adds the count in hand when it is low. */
  lemma LowSumStep(n: OMap<int>, j: int, x: int)
    requires n.Valid() && 0 <= j < |n.keys|
    ensures SumIn(n.keys[..j + 1], n.vals, Low(n, x))
         == SumIn(n.keys[..j], n.vals, Low(n, x)) + (if n.vals[n.keys[j]] <= x then n.vals[n.keys[j]] else 0)
  {
    var ks, k := n.keys[..j + 1], n.keys[j];
    assert ks[..|ks| - 1] == n.keys[..j];
    assert ks[|ks| - 1] == k && k in n.vals;
    assert (k in Low(n, x)) == (n.vals[k] <= x);
  }

  /**
   * The invariant of the loop of `predict`: `result` is `text` followed by
   * the pieces appended so far, and these followed by the pieces still to
   * come from iteration `i` on are `all` the pieces.
   */
  ghost predicate PredictedSoFar(m: Model, text: string, count: int, draws: nat -> int -> real,
                                 all: seq<string>, result: string, i: nat, done: seq<string>)
    requires m.cfg.stepDown >= 1
  {
    && result == text + Concat(done)
    && all == done + Predictor.Pieces(m, result, i, count, draws)
  }

  /** An iteration whose test finds something appends the second answer. */
  lemma PiecesGrow(m: Model, text: string, count: int, draws: nat -> int -> real,
                   all: seq<string>, result: string, i: nat, done: seq<string>)
    requires m.cfg.stepDown >= 1 && i < count
    requires PredictedSoFar(m, text, count, draws, all, result, i, done)
    requires !Predictor.NoPrediction(Predictor.NextOf(m, result, m.cfg.order, draws(2 * i)))
    ensures var piece := Predictor.Render(Predictor.NextOf(m, result, m.cfg.order, draws(2 * i + 1)));
      PredictedSoFar(m, text, count, draws, all, result + piece, i + 1, done + [piece])
  {
    var piece := Predictor.Render(Predictor.NextOf(m, result, m.cfg.order, draws(2 * i + 1)));
    var rest := Predictor.Pieces(m, result + piece, i + 1, count, draws);
    Predictor.PiecesUnfold(m, result, i, count, draws);
    AppendAssoc(done, [piece], rest);
    ConcatSnoc(done, piece);
    AppendAssoc(text, Concat(done), piece);
  }

  /** An iteration whose test finds nothing ends the pieces. */
  lemma PiecesStop(m: Model, text: string, count: int, draws: nat -> int -> real,
                   all: seq<string>, result: string, i: nat, done: seq<string>)
    requires m.cfg.stepDown >= 1 && i < count
    requires PredictedSoFar(m, text, count, draws, all, result, i, done)
    requires Predictor.NoPrediction(Predictor.NextOf(m, result, m.cfg.order, draws(2 * i)))
    ensures all == done
  {
    assert Predictor.Pieces(m, result, i, count, draws) == [];
  }

  /** When the loop of `predict` ends, what it appended is all the pieces, joined. */
  lemma PredictDone(m: Model, text: string, count: int, draws: nat -> int -> real,
                    all: seq<string>, result: string, i: nat, done: seq<string>)
    requires m.cfg.stepDown >= 1
    requires PredictedSoFar(m, text, count, draws, all, result, i, done)
    requires count <= i || all == done
    ensures Substring(result, |text|, |result|) == Concat(all)
  {
    var rest := Predictor.Pieces(m, result, i, count, draws);
    assert rest == [];
    assert all == done by {
      assert done + rest == done;
    }
    SubstringInRange(result, |text|, |result|);
    assert result[|text|..] == Concat(done);
  }

  /** One iteration of the loop of `predictUntil`, as `Until` describes it. */
  lemma UntilStep(m: Model, stops: seq<string>, max: int, result: string, n: nat, draws: nat -> int -> real,
                  p: Option<string>)
    requires m.cfg.stepDown >= 1 && |result| < max
    requires p == Predictor.NextOf(m, result, m.cfg.order, draws(n))
    ensures Predictor.NoPrediction(p) ==> Predictor.Until(m, stops, max, result, n, draws) == result
    ensures !Predictor.NoPrediction(p) ==>
      var step := Predictor.Letters(result, p.value, stops);
      Predictor.Until(m, stops, max, result, n, draws)
        == if step.1 then step.0 else Predictor.Until(m, stops, max, step.0, n + 1, draws)
  {
  }

  /** Before its count goes up, a context missing from the store is given the entry `{count: 0, next: {}}`. */
  lemma FreshEntry(s: Store, ctx: string)
    requires WellFormed(s)
    ensures var t := if ctx !in s.vals then s.Put(ctx, Entry(0, Empty())) else s;
      ctx in t.vals && t.vals[ctx] == EntryOf(s, ctx) && t.vals[ctx].next.Valid()
  {
  }

  /**
   * The two updates of a continuation count (set to 0 when missing or 0,
   * then up by one), together with the entry's count going up, are `Bump`.
   */
  lemma BumpInSteps(e: Entry, cont: string)
    requires e.next.Valid()
    ensures var n := if !(cont in e.next.vals && e.next.vals[cont] != 0) then e.next.Put(cont, 0) else e.next;
      cont in n.vals && Entry(e.count + 1, n.Put(cont, n.vals[cont] + 1)) == Bump(e, cont)
  {
    var v := ValOf(e.next.vals, cont) + 1;
    BumpIsPut(e, cont);
    if !(cont in e.next.vals && e.next.vals[cont] != 0) {
      var n := e.next.Put(cont, 0);
      assert n.vals[cont] + 1 == v;
      PutTwice(e.next, cont, 0, v);
      assert Entry(e.count + 1, n.Put(cont, n.vals[cont] + 1)) == Bump(e, cont);
    } else {
      assert e.next.vals[cont] + 1 == v;
      assert Entry(e.count + 1, e.next.Put(cont, e.next.vals[cont] + 1)) == Bump(e, cont);
    }
  }

  /** `Bump` writes the continuation's count plus one. */
  lemma BumpIsPut(e: Entry, cont: string)
    requires e.next.Valid()
    ensures Bump(e, cont) == Entry(e.count + 1, e.next.Put(cont, ValOf(e.next.vals, cont) + 1))
  {
  }

  /** The updates `Count` makes, one after the other, are `Add`. */
  lemma AddInSteps(s: Store, ctx: string, cont: string, t: Store, e: Entry)
    requires WellFormed(s)
    requires t == if ctx !in s.vals then s.Put(ctx, Entry(0, Empty())) else s
    requires e.next.Valid()
    requires var n := if !(cont in t.vals[ctx].next.vals && t.vals[ctx].next.vals[cont] != 0)
                      then t.vals[ctx].next.Put(cont, 0) else t.vals[ctx].next;
      cont in n.vals && e == Entry(t.vals[ctx].count + 1, n.Put(cont, n.vals[cont] + 1))
    ensures t.Put(ctx, e) == Add(s, ctx, cont)
  {
    BumpInSteps(EntryOf(s, ctx), cont);
    assert e == Bump(EntryOf(s, ctx), cont);
    if ctx !in s.vals {
      PutTwice(s, ctx, Entry(0, Empty()), e);
    }
  }

  /** Above `minOrder`, `train` is one pass and a clean-up, then `train` one step down. */
  lemma TrainOnce(s: Store, pruned: Store, text: string, clean: int, order: int, lower: int,
                  nextOrder: int, minOrder: int, stepDown: int)
    requires WellFormed(s) && stepDown >= 1 && minOrder <= order && lower == Chain.Lower(order, stepDown)
    requires pruned == Chain.CleanUp(Pass(s, Ngrams.Ngrams(text, order, nextOrder), clean), clean)
    ensures Chain.Train(s, text, clean, order, nextOrder, minOrder, stepDown)
         == Chain.Train(pruned, text, clean, lower, nextOrder, minOrder, stepDown)
  {
  }

  /** One more pair of a pass is one more `Step`. */
  lemma PassStep(s: Store, pairs: seq<(string, string)>, i: int, clean: int)
    requires WellFormed(s) && 0 <= i < |pairs|
    ensures WellFormed(Pass(s, pairs[..i], clean))
    ensures Pass(s, pairs[..i + 1], clean) == Step(Pass(s, pairs[..i], clean), pairs[i], clean)
  {
    assert pairs[..i + 1][..i] == pairs[..i];
  }

  /** Phase 1 on the store once the loop has visited its first `i` contexts. */
  function PrunedFirst(s: Store, x: int, i: int): Store
    requires WellFormed(s) && 0 <= i <= |s.keys|
  {
    OMap(s.keys, map k | k in s.vals :: if k in s.keys[..i] then PruneEntry(s.vals[k], x) else s.vals[k])
  }

  /** Before the loop no entry has been touched. */
  lemma PrunedFirstStart(s: Store, x: int)
    requires WellFormed(s)
    ensures PrunedFirst(s, x, 0) == s
  {
  }

  /** One step of the loop over the contexts replaces the entry in hand by its phase 1 result. */
  lemma PrunedFirstStep(s: Store, x: int, i: int)
    requires WellFormed(s) && 0 <= i < |s.keys|
    ensures s.keys[i] in PrunedFirst(s, x, i).vals
    ensures PrunedFirst(s, x, i).vals[s.keys[i]] == s.vals[s.keys[i]]
    ensures PrunedFirst(s, x, i + 1) == PrunedFirst(s, x, i).Put(s.keys[i], PruneEntry(s.vals[s.keys[i]], x))
  {
    var k := s.keys[i];
    PrefixStep(s.keys, i);
    var before, after := PrunedFirst(s, x, i), PrunedFirst(s, x, i + 1);
    var put := before.Put(k, PruneEntry(s.vals[k], x));
    forall c | c in s.vals
      ensures after.vals[c] == put.vals[c]
    {
    }
    assert after.vals == put.vals;
  }

  /** After the loop, the store is phase 1's result, and still well formed. */
  lemma PrunedFirstAll(s: Store, x: int)
    requires WellFormed(s)
    ensures PrunedFirst(s, x, |s.keys|) == PruneNexts(s, x)
    ensures WellFormed(PruneNexts(s, x))
  {
    assert s.keys[..|s.keys|] == s.keys;
  }

  /** After the loop, every low continuation has been visited. */
  lemma LowInAll(n: OMap<int>, x: int)
    requires n.Valid()
    ensures LowIn(n.keys[..|n.keys|], n.vals, x) == Low(n, x)
  {
    assert n.keys[..|n.keys|] == n.keys;
  }

  /** After the loop, every thin context has been visited. */
  lemma ThinInAll(s: Store, x: int)
    requires s.Valid()
    ensures ThinIn(s.keys[..|s.keys|], s.vals, x) == Thin(s, x)
  {
    assert s.keys[..|s.keys|] == s.keys;
  }

  /**
   * One step of the loop over the contexts: the key in hand is still there
   * with its entry, and deleting it when thin keeps the loop's invariant.
   */
  lemma ThinStep(s: Store, i: int, x: int, store: Store)
    requires s.Valid() && 0 <= i < |s.keys|
    requires store == s.RemoveAll(ThinIn(s.keys[..i], s.vals, x))
    ensures s.keys[i] in store.vals && store.vals[s.keys[i]] == s.vals[s.keys[i]]
    ensures (if s.vals[s.keys[i]].count <= x then store.Remove(s.keys[i]) else store)
         == s.RemoveAll(ThinIn(s.keys[..i + 1], s.vals, x))
  {
    var k := s.keys[i];
    var gone := ThinIn(s.keys[..i], s.vals, x);
    ThinInStep(s.keys, s.vals, x, i);
    RemoveOneMore(s, gone, k, s.vals[k].count <= x, ThinIn(s.keys[..i + 1], s.vals, x));
  }
}
