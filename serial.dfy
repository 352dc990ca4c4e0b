/**
 * Construction options and the persisted form: `toJSON` writes every
 * configuration field and the store's entries in order, `fromJSON` passes
 * them back through the constructor, whose defaults fill whatever is
 * missing.
 */
module Serial {
  import opened Wrappers
  import opened OrderedMap
  import opened Chain

  /** The options object of the constructor; an absent field is `None`. */
  datatype Options = Options(
    chain: Option<Store>,
    order: Option<int>,
    minOrder: Option<int>,
    nextOrder: Option<int>,
    stepDown: Option<int>,
    stopCharacters: Option<seq<string>>)

  /** Calling the constructor without options. */
  const NoOptions := Options(None, None, None, None, None, None)

  /** The stop strings used when none are given. */
  const DefaultStops: seq<string> := [".", "!", "?", "  "]

  /** The configuration used when no option is given. */
  const DefaultConfig := Config(3, 1, 3, 1, DefaultStops)

  /**
   * The constructor: every field takes the option given for it, or its
   * default (`??`): an empty store, order 3, minOrder 1, nextOrder 3,
   * stepDown 1 and the four default stop strings.
   */
  function FromOptions(o: Options): (m: Model)
    ensures m.chain == if o.chain.Some? then o.chain.value else Empty()
    ensures m.cfg.order == if o.order.Some? then o.order.value else 3
    ensures m.cfg.minOrder == if o.minOrder.Some? then o.minOrder.value else 1
    ensures m.cfg.nextOrder == if o.nextOrder.Some? then o.nextOrder.value else 3
    ensures m.cfg.stepDown == if o.stepDown.Some? then o.stepDown.value else 1
    ensures m.cfg.stopCharacters == if o.stopCharacters.Some? then o.stopCharacters.value else [".", "!", "?", "  "]
  {
    Model(
      Config(
        o.order.GetOr(DefaultConfig.order),
        o.minOrder.GetOr(DefaultConfig.minOrder),
        o.nextOrder.GetOr(DefaultConfig.nextOrder),
        o.stepDown.GetOr(DefaultConfig.stepDown),
        o.stopCharacters.GetOr(DefaultConfig.stopCharacters)),
      o.chain.GetOr(Empty()))
  }

  /** A model built without options is empty, with order 3 down to 1, continuations of 3 and the four stop strings. */
  lemma DefaultModel()
    ensures FromOptions(NoOptions) == Model(Config(3, 1, 3, 1, [".", "!", "?", "  "]), Empty())
    ensures FromOptions(NoOptions).chain.Valid()
  {
  }

  /** The object `toJSON` returns; a field `fromJSON` finds missing is `None`. */
  datatype Persisted = Persisted(
    order: Option<int>,
    nextOrder: Option<int>,
    minOrder: Option<int>,
    chain: Option<seq<(string, Entry)>>,
    stopCharacters: Option<seq<string>>,
    stepDown: Option<int>)

  /** `Array.from(chain)`: the `[context, entry]` pairs in iteration order. */
  function ToPairs(ks: seq<string>, vals: map<string, Entry>): (ps: seq<(string, Entry)>)
    requires forall k :: k in ks ==> k in vals
    ensures |ps| == |ks|
    ensures forall i :: 0 <= i < |ks| ==> ps[i] == (ks[i], vals[ks[i]])
  {
    if ks == [] then []
    else ToPairs(ks[..|ks| - 1], vals) + [(ks[|ks| - 1], vals[ks[|ks| - 1]])]
  }

  /** The contexts of a list of pairs, in order. */
  function Firsts(ps: seq<(string, Entry)>): (ks: seq<string>)
    ensures |ks| == |ps|
    ensures forall i :: 0 <= i < |ps| ==> ks[i] == ps[i].0
  {
    if ps == [] then [] else Firsts(ps[..|ps| - 1]) + [ps[|ps| - 1].0]
  }

  /**
   * `new Map(pairs)`: the pairs are set in order, so a repeated context
   * keeps its first position and its last entry. The result is always a
   * well-formed map holding every context of the list.
   */
  function FromPairs(ps: seq<(string, Entry)>): (s: Store)
    ensures s.Valid()
    ensures |s.keys| <= |ps|
  {
    if ps == [] then Empty()
    else FromPairs(ps[..|ps| - 1]).Put(ps[|ps| - 1].0, ps[|ps| - 1].1)
  }

  /** Every context of the list is in the map, under one of its entries. */
  lemma {:induction false} FromPairsHolds(ps: seq<(string, Entry)>)
    ensures forall i :: 0 <= i < |ps| ==> ps[i].0 in FromPairs(ps).vals
    ensures forall k :: k in FromPairs(ps).vals ==> exists i :: 0 <= i < |ps| && ps[i] == (k, FromPairs(ps).vals[k])
  {
    if ps != [] {
      var front := ps[..|ps| - 1];
      FromPairsHolds(front);
      forall k | k in FromPairs(ps).vals
        ensures exists i :: 0 <= i < |ps| && ps[i] == (k, FromPairs(ps).vals[k])
      {
        if k == ps[|ps| - 1].0 {
          assert ps[|ps| - 1] == (k, FromPairs(ps).vals[k]);
        } else {
          var i :| 0 <= i < |front| && front[i] == (k, FromPairs(front).vals[k]);
          assert ps[i] == front[i];
        }
      }
      forall i | 0 <= i < |ps| ensures ps[i].0 in FromPairs(ps).vals {
        if i < |front| {
          assert ps[i] == front[i];
        }
      }
    }
  }

  /** Entries whose continuation maps are well formed make a well-formed store. */
  lemma FromPairsWellFormed(ps: seq<(string, Entry)>)
    requires forall i :: 0 <= i < |ps| ==> ps[i].1.next.Valid()
    ensures WellFormed(FromPairs(ps))
  {
    FromPairsHolds(ps);
  }

  /** Dropping the last pair keeps the contexts distinct, and the last context is not among the others. */
  lemma DistinctFront(ps: seq<(string, Entry)>)
    requires ps != [] && Distinct(Firsts(ps))
    ensures Distinct(Firsts(ps[..|ps| - 1]))
    ensures ps[|ps| - 1].0 !in Firsts(ps[..|ps| - 1])
  {
    var fs := Firsts(ps[..|ps| - 1]);
    assert Firsts(ps) == fs + [ps[|ps| - 1].0];
    forall i | 0 <= i < |fs| ensures fs[i] == Firsts(ps)[i] {
    }
  }

  /** When no context repeats, `new Map(pairs)` iterates the contexts in the order of the list. */
  lemma {:induction false} FromDistinctKeys(ps: seq<(string, Entry)>)
    requires Distinct(Firsts(ps))
    ensures FromPairs(ps).keys == Firsts(ps)
  {
    if ps != [] {
      var front := ps[..|ps| - 1];
      DistinctFront(ps);
      FromDistinctKeys(front);
      assert ps[|ps| - 1].0 !in FromPairs(front).vals;
    }
  }

  /** When no context repeats, `new Map(pairs)` holds every pair's own entry. */
  lemma {:induction false} FromDistinctVals(ps: seq<(string, Entry)>)
    requires Distinct(Firsts(ps))
    ensures forall i :: 0 <= i < |ps| ==> ps[i].0 in FromPairs(ps).vals && FromPairs(ps).vals[ps[i].0] == ps[i].1
  {
    if ps != [] {
      var front, last := ps[..|ps| - 1], ps[|ps| - 1];
      DistinctFront(ps);
      FromDistinctVals(front);
      var before := FromPairs(front).vals;
      assert FromPairs(ps).vals == before[last.0 := last.1];
      forall i | 0 <= i < |front|
        ensures ps[i].0 in before && ps[i].0 != last.0 && before[ps[i].0] == ps[i].1
      {
        assert ps[i] == front[i];
        assert Firsts(front)[i] == ps[i].0;
      }
    }
  }

  /** When no context repeats, `new Map(pairs)` is the list: its contexts in order, each with its own entry. */
  lemma FromDistinctPairs(ps: seq<(string, Entry)>)
    requires Distinct(Firsts(ps))
    ensures FromPairs(ps).keys == Firsts(ps)
    ensures forall i :: 0 <= i < |ps| ==> FromPairs(ps).vals[ps[i].0] == ps[i].1
  {
    FromDistinctKeys(ps);
    FromDistinctVals(ps);
  }

  /** Reading back the pairs of a well-formed map gives the map. */
  lemma PairsRoundTrip(s: Store)
    requires s.Valid()
    ensures FromPairs(ToPairs(s.keys, s.vals)) == s
  {
    var ps := ToPairs(s.keys, s.vals);
    assert Firsts(ps) == s.keys;
    FromDistinctPairs(ps);
    var r := FromPairs(ps);
    assert forall k :: k in r.vals <==> k in s.vals;
    forall k | k in s.vals ensures r.vals[k] == s.vals[k] {
      var i :| 0 <= i < |s.keys| && s.keys[i] == k;
      assert ps[i] == (k, s.vals[k]);
    }
    assert r.vals == s.vals;
  }

  /**
   * `toJSON()`: every field is written, the store as its list of pairs, and
   * `fromJSON` reads it back as the same model.
   */
  function Encode(m: Model): (p: Persisted)
    requires m.chain.Valid()
    ensures Decode(p) == m
  {
    PairsRoundTrip(m.chain);
    Persisted(
      Some(m.cfg.order), Some(m.cfg.nextOrder), Some(m.cfg.minOrder),
      Some(ToPairs(m.chain.keys, m.chain.vals)),
      Some(m.cfg.stopCharacters), Some(m.cfg.stepDown))
  }

  /** `fromJSON(json)`: the constructor, given the fields read back and `new Map(json.chain)`. */
  function Decode(p: Persisted): (m: Model)
    ensures m.chain.Valid()
  {
    FromOptions(Options(
      Some(FromPairs(p.chain.GetOr([]))),
      p.order, p.minOrder, p.nextOrder, p.stepDown, p.stopCharacters))
  }

  /**
   * Conversely, a persisted object with every field present and no context
   * repeated is written back exactly as it was read.
   */
  lemma EncodeDecode(p: Persisted)
    requires p.order.Some? && p.nextOrder.Some? && p.minOrder.Some?
    requires p.chain.Some? && p.stopCharacters.Some? && p.stepDown.Some?
    requires Distinct(Firsts(p.chain.value))
    ensures Encode(Decode(p)) == p
  {
    var ps := p.chain.value;
    PairsBack(ps);
    var m := Decode(p);
    assert m.chain == FromPairs(ps);
    assert m.cfg == Config(p.order.value, p.minOrder.value, p.nextOrder.value, p.stepDown.value, p.stopCharacters.value);
  }

  /** Pairs with no key repeated come back from the map they build. */
  lemma PairsBack(ps: seq<(string, Entry)>)
    requires Distinct(Firsts(ps))
    ensures ToPairs(FromPairs(ps).keys, FromPairs(ps).vals) == ps
  {
    FromDistinctPairs(ps);
    var s := FromPairs(ps);
    var back := ToPairs(s.keys, s.vals);
    assert |back| == |ps|;
    forall i | 0 <= i < |ps| ensures back[i] == ps[i] {
      assert s.keys[i] == ps[i].0;
    }
  }
}
