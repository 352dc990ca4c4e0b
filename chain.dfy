/**
 * The chain store and what training and pruning do to it, stated as
 * functions on values. The class in markov.dfy changes its store in place
 * and is proved to leave exactly what these functions describe.
 */
module Chain {
  import opened OrderedMap
  import Ngrams

  /** One context's statistics: how often it was seen and what followed it. */
  datatype Entry = Entry(count: int, next: OMap<int>)

  /** Context string to entry, in the order the contexts were first set. */
  type Store = OMap<Entry>

  /** The model's configuration fields. */
  datatype Config = Config(order: int, minOrder: int, nextOrder: int, stepDown: int, stopCharacters: seq<string>)

  /** Everything a model holds: its configuration and its store. */
  datatype Model = Model(cfg: Config, chain: Store)

  /** Training prunes in the middle of a pass once the store holds more contexts than this. */
  const Budget := 4_000_000

  /** Both levels of the store iterate every one of their keys exactly once. */
  ghost predicate WellFormed(s: Store) {
    s.Valid() && forall k :: k in s.vals ==> s.vals[k].next.Valid()
  }

  /** Every entry's count is the sum of its continuation counts. */
  ghost predicate Consistent(s: Store) {
    forall k :: k in s.vals ==> s.vals[k].count == Sum(s.vals[k].next)
  }

  /** Every count left in the store, of a context or of a continuation, exceeds `x`. */
  ghost predicate AllAbove(s: Store, x: int) {
    forall k :: k in s.vals ==>
      && s.vals[k].count > x
      && forall c :: c in s.vals[k].next.vals ==> s.vals[k].next.vals[c] > x
  }

  /** The entry stored for `ctx`, or the fresh `{count: 0, next: {}}` training starts from. */
  function EntryOf(s: Store, ctx: string): Entry {
    if ctx in s.vals then s.vals[ctx] else Entry(0, Empty())
  }

  /**
   * One entry after seeing the continuation `cont` once more: the entry's
   * count and the continuation's count (0 when absent; a new continuation
   * goes last) both go up by one, so a count that was the sum of its
   * continuations still is.
   */
  function Bump(e: Entry, cont: string): (r: Entry)
    requires e.next.Valid()
    ensures r.next.Valid()
    ensures r.count == e.count + 1
    ensures r.next.keys == if cont in e.next.vals then e.next.keys else e.next.keys + [cont]
    ensures r.next.vals == e.next.vals[cont := ValOf(e.next.vals, cont) + 1]
    ensures Sum(r.next) == Sum(e.next) + 1
    ensures e.count == Sum(e.next) ==> r.count == Sum(r.next)
  {
    var v := ValOf(e.next.vals, cont) + 1;
    SumPut(e.next, cont, v);
    Entry(e.count + 1, e.next.Put(cont, v))
  }

  /**
   * The store after recording one `(context, continuation)` pair: the
   * context's entry, a fresh one when absent (a new context goes last), is
   * bumped for the continuation, and nothing else changes.
   */
  function Add(s: Store, ctx: string, cont: string): (r: Store)
    requires WellFormed(s)
    ensures WellFormed(r)
    ensures r.keys == if ctx in s.vals then s.keys else s.keys + [ctx]
    ensures r.vals == s.vals[ctx := Bump(EntryOf(s, ctx), cont)]
    ensures Consistent(s) ==> Consistent(r)
  {
    var e := EntryOf(s, ctx);
    assert Consistent(s) ==> e.count == Sum(e.next) by {
      if ctx !in s.vals {
        assert e == Entry(0, Empty());
      }
    }
    s.Put(ctx, Bump(e, cont))
  }

  /** The continuations of `n` whose count is at most `x`. */
  function Low(n: OMap<int>, x: int): set<string> {
    set c | c in n.vals && n.vals[c] <= x
  }

  /**
   * Phase 1 of `cleanUp(x)` on one entry: exactly the continuations whose
   * count is at most `x` go, the rest keep their order and counts, and the
   * entry's count drops by what went; so a count that was the sum of its
   * continuations still is.
   */
  function PruneEntry(e: Entry, x: int): (r: Entry)
    requires e.next.Valid()
    ensures r.next.Valid()
    ensures forall c :: c in r.next.vals <==> c in e.next.vals && e.next.vals[c] > x
    ensures forall c :: c in r.next.vals ==> r.next.vals[c] == e.next.vals[c]
    ensures IsSubsequence(r.next.keys, e.next.keys)
    ensures r.count == e.count - (Sum(e.next) - Sum(r.next))
    ensures e.count == Sum(e.next) ==> r.count == Sum(r.next)
  {
    var d := Low(e.next, x);
    var kept := e.next.RemoveAll(d);
    SumSplit(e.next.keys, e.next.vals, d);
    SumAgree(kept.keys, kept.vals, e.next.vals);
    Entry(e.count - SumIn(e.next.keys, e.next.vals, d), kept)
  }

  /**
   * Phase 1 of `cleanUp(x)` on every entry: the contexts stay, in their
   * order, and each entry is pruned as `PruneEntry` says, so the count
   * invariant is kept.
   */
  function PruneNexts(s: Store, x: int): (r: Store)
    requires WellFormed(s)
    ensures r.keys == s.keys
    ensures forall k :: k in r.vals <==> k in s.vals
    ensures forall k :: k in r.vals ==> r.vals[k] == PruneEntry(s.vals[k], x)
    ensures WellFormed(r)
    ensures Consistent(s) ==> Consistent(r)
  {
    OMap(s.keys, map k | k in s.vals :: PruneEntry(s.vals[k], x))
  }

  /** The keys among `ks` whose count is at most `x`. */
  function LowIn(ks: seq<string>, vals: map<string, int>, x: int): set<string> {
    set k | k in ks && k in vals && vals[k] <= x
  }

  /** The contexts whose count is at most `x`. */
  function Thin(s: Store, x: int): set<string> {
    set k | k in s.vals && s.vals[k].count <= x
  }

  /** The contexts among `ks` whose count is at most `x`. */
  function ThinIn(ks: seq<string>, vals: map<string, Entry>, x: int): set<string> {
    set k | k in ks && k in vals && vals[k].count <= x
  }

  /** One more key of distinct keys adds itself to the low ones when its count is low. */
  lemma LowInStep(ks: seq<string>, vals: map<string, int>, x: int, j: int)
    requires Distinct(ks) && 0 <= j < |ks| && ks[j] in vals
    ensures ks[j] !in LowIn(ks[..j], vals, x)
    ensures LowIn(ks[..j + 1], vals, x)
         == if vals[ks[j]] <= x then LowIn(ks[..j], vals, x) + {ks[j]} else LowIn(ks[..j], vals, x)
  {
    PrefixStep(ks, j);
  }

  /** One more key of distinct keys adds itself to the thin ones when its count is low. */
  lemma ThinInStep(ks: seq<string>, vals: map<string, Entry>, x: int, j: int)
    requires Distinct(ks) && 0 <= j < |ks| && ks[j] in vals
    ensures ks[j] !in ThinIn(ks[..j], vals, x)
    ensures ThinIn(ks[..j + 1], vals, x)
         == if vals[ks[j]].count <= x then ThinIn(ks[..j], vals, x) + {ks[j]} else ThinIn(ks[..j], vals, x)
  {
    PrefixStep(ks, j);
  }

  /**
   * `cleanUp(x)`: after phase 1, exactly the contexts whose reduced count is
   * at most `x` go; the survivors keep their relative order. Every count
   * left exceeds `x`, and the count invariant is kept.
   */
  function CleanUp(s: Store, x: int): (r: Store)
    requires WellFormed(s)
    ensures WellFormed(r)
    ensures forall k :: k in r.vals <==> k in s.vals && PruneEntry(s.vals[k], x).count > x
    ensures forall k :: k in r.vals ==> r.vals[k] == PruneEntry(s.vals[k], x)
    ensures IsSubsequence(r.keys, s.keys)
    ensures AllAbove(r, x)
    ensures Consistent(s) ==> Consistent(r)
  {
    var p := PruneNexts(s, x);
    p.RemoveAll(Thin(p, x))
  }

  /** A store whose every count already exceeds `x` is left as it is. */
  lemma CleanUpKeepsAbove(s: Store, x: int)
    requires WellFormed(s) && AllAbove(s, x)
    ensures CleanUp(s, x) == s
  {
    forall k | k in s.vals ensures PruneEntry(s.vals[k], x) == s.vals[k] {
      var e := s.vals[k];
      assert Low(e.next, x) == {};
      RemoveAllNone(e.next, {});
      SumInNone(e.next.keys, e.next.vals, {});
    }
    var p := PruneNexts(s, x);
    assert p == s;
    assert Thin(p, x) == {};
    RemoveAllNone(s, {});
  }

  /** A second `cleanUp(x)` right after the first changes nothing. */
  lemma CleanUpIdempotent(s: Store, x: int)
    requires WellFormed(s)
    ensures CleanUp(CleanUp(s, x), x) == CleanUp(s, x)
  {
    CleanUpKeepsAbove(CleanUp(s, x), x);
  }

  /** One iteration of the training loop: record the pair, then prune if the store has grown past the budget. */
  function Step(s: Store, pair: (string, string), clean: int): (r: Store)
    requires WellFormed(s)
    ensures WellFormed(r)
    ensures Consistent(s) ==> Consistent(r)
  {
    var a := Add(s, pair.0, pair.1);
    if |a.keys| > Budget then CleanUp(a, clean) else a
  }

  /** The training loop over the pairs of one pass, in order. */
  function Pass(s: Store, pairs: seq<(string, string)>, clean: int): (r: Store)
    requires WellFormed(s)
    ensures WellFormed(r)
    ensures Consistent(s) ==> Consistent(r)
  {
    if pairs == [] then s
    else Step(Pass(s, pairs[..|pairs| - 1], clean), pairs[|pairs| - 1], clean)
  }

  /** The order the next round of training uses. */
  function Lower(order: int, stepDown: int): int {
    order - stepDown
  }

  /**
   * `train(text, clean, order, nextOrder)`: nothing happens below `minOrder`;
   * otherwise one pass at `order`, a `cleanUp(clean)`, and the same again at
   * `order - stepDown`.
   */
  function Train(s: Store, text: string, clean: int, order: int, nextOrder: int, minOrder: int, stepDown: int): (r: Store)
    requires WellFormed(s)
    requires stepDown >= 1
    ensures WellFormed(r)
    decreases order - minOrder
  {
    if order <= minOrder - 1 then s
    else
      var pruned := CleanUp(Pass(s, Ngrams.Ngrams(text, order, nextOrder), clean), clean);
      Train(pruned, text, clean, Lower(order, stepDown), nextOrder, minOrder, stepDown)
  }

  /**
   * Training keeps the count invariant; below `minOrder` it changes
   * nothing, and otherwise every count it leaves exceeds `clean`.
   */
  lemma {:induction false} TrainSpec(s: Store, text: string, clean: int, order: int, nextOrder: int, minOrder: int, stepDown: int)
    requires WellFormed(s)
    requires stepDown >= 1
    ensures Consistent(s) ==> Consistent(Train(s, text, clean, order, nextOrder, minOrder, stepDown))
    ensures order <= minOrder - 1 ==> Train(s, text, clean, order, nextOrder, minOrder, stepDown) == s
    ensures minOrder <= order ==> AllAbove(Train(s, text, clean, order, nextOrder, minOrder, stepDown), clean)
    decreases order - minOrder
  {
    if minOrder <= order {
      var pruned := CleanUp(Pass(s, Ngrams.Ngrams(text, order, nextOrder), clean), clean);
      TrainSpec(pruned, text, clean, Lower(order, stepDown), nextOrder, minOrder, stepDown);
    }
  }

  /** How often `p` occurs in `pairs`. */
  function Occurrences(pairs: seq<(string, string)>, p: (string, string)): nat {
    if pairs == [] then 0
    else Occurrences(pairs[..|pairs| - 1], p) + (if pairs[|pairs| - 1] == p then 1 else 0)
  }

  /** How many pairs of `pairs` have the context `ctx`. */
  function ContextOccurrences(pairs: seq<(string, string)>, ctx: string): nat {
    if pairs == [] then 0
    else ContextOccurrences(pairs[..|pairs| - 1], ctx) + (if pairs[|pairs| - 1].0 == ctx then 1 else 0)
  }

  /** Recording every pair in order, with no pruning in between. */
  function AddAll(s: Store, pairs: seq<(string, string)>): (r: Store)
    requires WellFormed(s)
    ensures WellFormed(r)
    ensures |r.keys| <= |s.keys| + |pairs|
  {
    if pairs == [] then s
    else Add(AddAll(s, pairs[..|pairs| - 1]), pairs[|pairs| - 1].0, pairs[|pairs| - 1].1)
  }

  /** Recording more pairs never loses a context. */
  lemma AddAllGrows(s: Store, pairs: seq<(string, string)>)
    requires WellFormed(s) && pairs != []
    ensures |AddAll(s, pairs[..|pairs| - 1]).keys| <= |AddAll(s, pairs).keys|
  {
  }

  /**
   * A pass whose pairs, all recorded, leave at most `Budget` contexts never
   * prunes: the store only grows along the pass, so it never passes the
   * budget.
   */
  lemma {:induction false} PassWithinBudget(s: Store, pairs: seq<(string, string)>, clean: int)
    requires WellFormed(s)
    requires |AddAll(s, pairs).keys| <= Budget
    ensures Pass(s, pairs, clean) == AddAll(s, pairs)
  {
    if pairs != [] {
      var front := pairs[..|pairs| - 1];
      AddAllGrows(s, pairs);
      PassWithinBudget(s, front, clean);
    }
  }

  /**
   * Recording the pairs adds to each context's count the number of its
   * pairs, and to each continuation's count the number of times that pair
   * occurs.
   */
  lemma {:induction false} AddAllCounts(s: Store, pairs: seq<(string, string)>, ctx: string, cont: string)
    requires WellFormed(s)
    ensures EntryOf(AddAll(s, pairs), ctx).count == EntryOf(s, ctx).count + ContextOccurrences(pairs, ctx)
    ensures ValOf(EntryOf(AddAll(s, pairs), ctx).next.vals, cont)
         == ValOf(EntryOf(s, ctx).next.vals, cont) + Occurrences(pairs, (ctx, cont))
  {
    if pairs != [] {
      var front, last := pairs[..|pairs| - 1], pairs[|pairs| - 1];
      AddAllCounts(s, front, ctx, cont);
      var before := AddAll(s, front);
      assert AddAll(s, pairs) == Add(before, last.0, last.1);
      AddCounts(before, last.0, last.1, ctx, cont);
      assert ContextOccurrences(pairs, ctx) == ContextOccurrences(front, ctx) + (if last.0 == ctx then 1 else 0);
      assert Occurrences(pairs, (ctx, cont)) == Occurrences(front, (ctx, cont)) + (if last == (ctx, cont) then 1 else 0);
    }
  }

  /**
   * Recording one pair adds one to its context's count and one to its
   * continuation's count there, and changes no other count.
   */
  lemma AddCounts(s: Store, c: string, n: string, ctx: string, cont: string)
    requires WellFormed(s)
    ensures EntryOf(Add(s, c, n), ctx).count == EntryOf(s, ctx).count + (if c == ctx then 1 else 0)
    ensures ValOf(EntryOf(Add(s, c, n), ctx).next.vals, cont)
         == ValOf(EntryOf(s, ctx).next.vals, cont) + (if c == ctx && n == cont then 1 else 0)
  {
    var r := Add(s, c, n);
    if c == ctx {
      assert EntryOf(r, ctx) == Bump(EntryOf(s, ctx), n);
    } else {
      assert EntryOf(r, ctx) == EntryOf(s, ctx);
    }
  }

  /** While the store stays within the budget, a pass counts every pair, as `AddAllCounts` states. */
  lemma PassCounts(s: Store, pairs: seq<(string, string)>, clean: int, ctx: string, cont: string)
    requires WellFormed(s)
    requires |AddAll(s, pairs).keys| <= Budget
    ensures EntryOf(Pass(s, pairs, clean), ctx).count == EntryOf(s, ctx).count + ContextOccurrences(pairs, ctx)
    ensures ValOf(EntryOf(Pass(s, pairs, clean), ctx).next.vals, cont)
         == ValOf(EntryOf(s, ctx).next.vals, cont) + Occurrences(pairs, (ctx, cont))
  {
    PassWithinBudget(s, pairs, clean);
    AddAllCounts(s, pairs, ctx, cont);
  }
}
