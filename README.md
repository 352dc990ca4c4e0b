# Variable-order character Markov chain, modelled in Dafny

This project models the `MarkovChain` class of `script.js`. The class is a
character n-gram text model. Training counts how often a context string (the
last `order` characters) is followed by a continuation string (the next
`nextOrder` characters). It does this at several context lengths, from
`order` down to `minOrder` in steps of `stepDown`, and keeps all of them in one
store. Pruning discards rarely seen continuations and contexts. Prediction
samples a continuation in proportion to its count, and falls back to shorter
contexts when a longer one is not stored.

The store (`chain`, a JavaScript `Map`) maps a context to an entry
`{count, next}`. Here `next` maps a continuation to its count. Both levels
iterate in insertion order, and that order decides which continuation a given
random draw selects. Both are modelled by `OrderedMap.OMap`: a key sequence in
insertion order plus a map. Deleting a key and setting it again moves it to
the end, as it does in JavaScript.

Modules, leaves first:

- `Wrappers`: `Option`.
- `OrderedMap`: the insertion-ordered map. It also holds sums of counts along
  the keys, and small lemmas about sequence prefixes and about removals.
- `Text`: the string operations the class uses (`substring` with its
  clamping and swapping, `endsWith`, concatenation).
- `Ngrams`: `getNgrams`, as the sequence of pairs it yields.
- `Chain`: the store as a value. It defines what recording a pair, a training
  pass, `cleanUp` and `train` do. It also proves the count invariant
  (`count` equals the sum of the `next` counts), the pruning properties and
  the counting properties.
- `Predictor`: the cumulative-count sampling rule, the order back-off of
  `predictNext`, and the loops of `predict` and `predictUntil`, all as
  functions.
- `Serial`: the constructor's options and defaults, and `toJSON` /
  `fromJSON` on the structure they build.
- `Markov`: the class itself. It has one mutable field `chain` and `const`
  configuration fields. Its invariant `Valid()` says that both levels of the
  store are well-formed ordered maps. Its methods loop and update `chain` in place, as the
  source does. Each method is proved to leave the store, or return the value,
  that the functions above describe. The lemmas after the class carry the
  loop invariants of those proofs.

`Math.random()` is a parameter. A draw is a real number in `[0, 1)`, and the
position drawn for an entry is `floor(u * count)`.

- `PredictNext` takes one draw function indexed by the context order. Each
  order is sampled at most once per call.
- `Predict` and `PredictUntil` take `draws(n)` for their n-th call of
  `predictNext`. `Predict` uses call `2i` for the test and call `2i + 1` for
  the value it appends.

The source's default parameters are passed explicitly:

- `order` and `nextOrder` of `train`, and `order` of `predictNext`: the
  configured values.
- `x` of `cleanUp`.
- `stopArray` and `max` of `predictUntil`: `stopCharacters` and
  `Predictor.DefaultMax` = 500. `Markov.MarkovChain.PredictUntilDefaults`
  is the call with both left out.

In three places the code does something other than what one would expect,
and the model follows the code:

- **`predict` samples twice per step.** One would expect a single
  `predictNext` call per step, with its answer used both for the test and
  for the append. The code makes two independent calls: one to decide
  whether to go on, and one whose value is appended. An appended `null` is
  rendered as the text `"null"`. The model keeps both calls
  (`Predictor.Pieces`).
  - `Predictor.PredictCanAppendNull` exhibits `null` being appended, on a
    store whose entry count exceeds the sum of its continuations.
  - `Predictor.PiecesAreContinuations` shows that on a consistent store with
    positive counts the second call always finds an answer, so every
    appended piece is a stored continuation.
- **No validation.** One would expect the constructor to reject bad
  configurations and `fromJSON` to reject malformed input. The code validates
  nothing: the constructor takes any option or its default, and a field
  missing from the persisted object takes the constructor's default.
  - The only condition the model adds is `stepDown >= 1` on the recursive
    operations. Without it the source's recursion does not end.
- **`toJSON` writes `stepDown ?? 1`.** The constructor never leaves
  `stepDown` null, so this is the field itself.

## Model

| member | source | states |
|---|---|---|
| Markov.MarkovChain.constructor | script.js:4-11 | every field takes the given option or its default: an empty store, order 3, minOrder 1, nextOrder 3, stepDown 1, stop strings `.`, `!`, `?` and two spaces; given a well-formed store (or none), the new model satisfies the class invariant |
| Serial.FromOptions | script.js:4-11 | each field of the model is its option when given, and otherwise the store is empty, order 3, minOrder 1, nextOrder 3, stepDown 1 and the stop strings `.`, `!`, `?` and two spaces |
| Serial.DefaultModel | script.js:4-11 | a model built with no options is exactly the empty store with the default configuration |
| Ngrams.Stride | script.js:14 | the start advances by at least 1, and by `nextOrder` when that is at least 1 |
| Ngrams.StartsFrom | script.js:14 | the loop visits some start exactly when its first start lies below the limit |
| Ngrams.StartsFromSpec | script.js:14 | the k-th start visited is the first start plus k strides and lies below the limit; one more stride reaches the limit |
| Ngrams.Ngrams | script.js:13-17 | the k-th pair is the pair at start `k * stride`, all starts lie below `length - order - nextOrder + 1`, the next start would not, and there are no pairs exactly when that bound is not positive |
| Ngrams.NgramsAreSlices | script.js:13-17 | with non-negative lengths each pair is the `order` characters at `k * stride` followed immediately by the next `nextOrder` characters, all inside the text |
| Text.SubstringInRange | script.js:15 | within bounds `substring(a, b)` is the slice from a to b |
| Text.SuffixOf | script.js:79 | the key `predictNext` looks up is the last `order` characters, the whole text when it is shorter, and "" when `order` is not positive |
| Text.SubstringToEnd | script.js:104 | `result.substring(text.length)` is everything after the first `text.length` characters |
| Chain.Bump | script.js:35-40 | a recorded continuation raises the entry's count and that continuation's count by one (from 0 when absent; a new one goes last), changes no other count, and keeps `count == sum(next)` |
| Chain.Add | script.js:28-40 | recording a pair creates its context at the end when absent, bumps only that entry, keeps the store well formed, and keeps every entry's `count == sum(next)` |
| Chain.AddCounts | script.js:28-40 | recording one pair adds one to exactly its context's count and its continuation's count, and to no other count |
| Chain.AddAllCounts | script.js:26-40 | recording a sequence of pairs adds to each context's count the number of its pairs, and to each continuation's count the number of occurrences of that pair |
| Chain.Step | script.js:28-48 | one loop iteration (record, then prune when past the budget) keeps the store well formed and the count invariant |
| Chain.Pass | script.js:26-49 | a whole pass keeps the store well formed and the count invariant |
| Chain.PassWithinBudget | script.js:44-48 | a pass whose pairs, all recorded, leave at most 4,000,000 contexts never prunes: it just records every pair, however many pairs there are |
| Chain.PassCounts | script.js:26-49 | when recording the whole pass leaves at most 4,000,000 contexts, the pass raises every context's and continuation's count by exactly its number of occurrences in the pass |
| Chain.PruneEntry | script.js:57-63 | phase 1 on an entry keeps exactly the continuations counted above `x`, with their counts and relative order, and lowers the entry's count by the removed counts, so `count == sum(next)` is kept |
| Chain.PruneNexts | script.js:56-64 | phase 1 keeps every context in its place and prunes each entry as `Chain.PruneEntry` says, so the store stays well formed and the count invariant is kept |
| Chain.CleanUp | script.js:55-69 | `cleanUp(x)` keeps exactly the contexts whose count after phase 1 exceeds `x`, each as phase 1 left it, in their original relative order; every remaining count exceeds `x`; the count invariant is kept |
| Chain.CleanUpKeepsAbove | script.js:55-69 | a store whose every count already exceeds `x` is unchanged by `cleanUp(x)` |
| Chain.CleanUpIdempotent | script.js:55-69 | a second `cleanUp(x)` right after the first changes nothing |
| Chain.Train | script.js:20-53 | training at any order leaves a well-formed store |
| Chain.TrainSpec | script.js:20-53 | training keeps the count invariant, changes nothing when `order <= minOrder - 1`, and otherwise leaves only counts above `clean` |
| Markov.MarkovChain.Train | script.js:20-53 | the method leaves exactly the store `Chain.Train` describes, so the properties of `Chain.TrainSpec` hold of it |
| Markov.MarkovChain.TrainAt | script.js:24-51 | one order of training is a pass over the pairs followed by `cleanUp(clean)` |
| Markov.MarkovChain.TrainPass | script.js:26-49 | the loop over the pairs leaves the store `Chain.Pass` describes |
| Markov.MarkovChain.Count | script.js:28-40 | the in-place updates for one pair leave the store `Chain.Add` describes |
| Markov.FreshEntry | script.js:28-33 | after the `has`/`set` step the context is present, with its stored entry or the fresh `{count: 0, next: {}}` |
| Markov.BumpInSteps | script.js:36-40 | `count++`, then setting a missing or zero continuation count to 0, then `++`, together are `Chain.Bump` |
| Markov.AddInSteps | script.js:28-40 | the updates of the loop body, one after another, are `Chain.Add` |
| Markov.TrainOnce | script.js:50-52 | above `minOrder`, training is one pass and one clean-up followed by training at `order - stepDown` |
| Markov.MarkovChain.CleanUp | script.js:55-69 | the two loops leave exactly the store `Chain.CleanUp` describes |
| Markov.MarkovChain.PruneContinuations | script.js:57-63 | the loop over one entry's continuations returns the entry `Chain.PruneEntry` describes |
| Markov.PrunedToStep | script.js:58-62 | each iteration over a continuation map sees the original count of the key in hand and removes it, lowering the entry's count, exactly when that count is at most `x` |
| Markov.MarkovChain.DropThin | script.js:65-69 | the loop over the contexts removes exactly those whose count is at most `x` and keeps the rest in order |
| Markov.ThinStep | script.js:65-69 | each iteration over the contexts sees the entry of the key in hand unchanged and deletes it exactly when its count is at most `x` |
| OrderedMap.OMap.Put | script.js:29-32 | setting a key changes only its value; a new key goes last, an existing key keeps its place |
| OrderedMap.OMap.Remove | script.js:61 | deleting a key removes exactly that key |
| OrderedMap.OMap.RemoveAll | script.js:65-69 | deleting a set of keys keeps exactly the others, with their values and in their relative order |
| Predictor.Draw | script.js:85 | the drawn position is the floor of `u * count`: at most that product, and more than it minus one |
| Predictor.DrawInRange | script.js:85 | `floor(u * count)` with `u` in `[0, 1)` and a positive count lies in `[0, count)` |
| Predictor.Pick | script.js:86-91 | the loop returns a position whose running total reaches `r`, and every earlier position's total falls short of it |
| Predictor.Choose | script.js:84-91 | the continuation returned is the one at the first position whose running total reaches the drawn `r`; nothing is returned exactly when every running total falls short of `r` |
| Predictor.ChooseFinds | script.js:84-91 | a drawn position not above the sum of the counts always finds a continuation, so the fall-back at line 92 is then unreachable |
| Predictor.ChooseIff | script.js:84-91 | with positive counts, key `j` is returned exactly for the positions after the total of the keys before it up to its own running total; position 0 goes to the first key |
| Predictor.ChooseOnlyWithin | script.js:84-91 | a key is returned only for positions within its stretch of the running totals |
| Predictor.ChooseWithin | script.js:84-91 | with positive counts every position within a key's stretch returns that key |
| Predictor.ChooseNeverLastOfTwo | script.js:85-90 | with two continuations seen once each, both possible draws return the first: the last one is never predicted |
| Predictor.Context | script.js:79 | the lookup key ends the text and has `order` characters, all of the text when it is shorter, and none when `order` is not positive |
| Predictor.NextOf | script.js:75-93 | `predictNext` returns `null` below `minOrder - stepDown + 1`, backs off by `stepDown` when the context is absent or sampling runs out, and anything it returns follows some context on that back-off path |
| Predictor.NextOfFindsIff | script.js:75-93 | in a consistent store with positive counts, `predictNext` returns something exactly when some context on its back-off path is stored |
| Predictor.NextOfAnyDraw | script.js:75-93 | in such a store, whether `predictNext` finds anything does not depend on the random draws |
| Predictor.StoredContextAnswers | script.js:79-91 | in such a store, when the longest context is stored, `predictNext` returns one of that context's own continuations |
| Markov.MarkovChain.PredictNext | script.js:75-93 | the recursive method returns exactly what `Predictor.NextOf` describes |
| Markov.MarkovChain.Sample | script.js:84-91 | the loop that subtracts counts from the drawn position returns what `Predictor.Choose` describes |
| Predictor.NoPrediction | script.js:99 | `!prediction` is false only for a non-empty string answer |
| Predictor.Render | script.js:102 | appending an answer appends its string, and appending `null` appends the text `null` |
| Predictor.Pieces | script.js:95-103 | `predict` appends at most `count` pieces |
| Predictor.PiecesUnfold | script.js:97-102 | an iteration whose test call finds something appends the value of the second, independent call, then goes on from the longer text |
| Predictor.PiecesAreContinuations | script.js:95-103 | in a consistent store with positive counts and draws in `[0, 1)`, the second call of every iteration whose test found something also finds something, and every piece `predict` appends is a stored continuation |
| Predictor.PredictCanAppendNull | script.js:97-102 | when an entry's count exceeds the sum of its continuations, the second call can find nothing after the first found something, and `predict` returns `"null"` |
| Predictor.Predict | script.js:95-105 | `predict` returns "" when `count` is not positive or the first test finds nothing; otherwise the answer of the second call, followed by what the remaining iterations append to the longer text |
| Markov.PiecesGrow | script.js:97-103 | across an iteration, the result stays the text followed by the pieces appended so far |
| Markov.PiecesStop | script.js:98-100 | a test call that finds nothing ends the pieces |
| Markov.MarkovChain.Predict | script.js:95-105 | the method returns exactly the pieces `Predictor.Pieces` describes, joined: only what was appended to `text` |
| Predictor.Letters | script.js:114-125 | the letters are appended one at a time; the text grows by a prefix of the continuation, at least one letter when it is not empty; it stops exactly when the text comes to end with a stop string, and otherwise the whole continuation is appended |
| Predictor.LettersNoStop | script.js:114-125 | no text before the last letter appended ends with a stop string |
| Markov.MarkovChain.EndsWithSome | script.js:117-121 | the `forEach` over the stop strings sets `stop` exactly when the text ends with one of them |
| Markov.MarkovChain.AppendLetters | script.js:114-125 | the inner loop returns the text and flag `Predictor.Letters` describes |
| Predictor.Until | script.js:107-129 | the outer loop only ever extends the text |
| Predictor.PredictUntil | script.js:107-131 | `predictUntil` returns "" when the text is already `max` long, and otherwise exactly what the loop appended |
| Predictor.UntilFirstStop | script.js:107-129 | generation halts at the first stop string: no text strictly between the input and the output ends with one |
| Predictor.UntilLength | script.js:109-128 | when continuations are at most `L` long, the output is at most `max - 1 + L` long; since `max` is checked only before each continuation, the result can exceed `max` |
| Markov.UntilStep | script.js:109-128 | one iteration of the outer loop stops on no prediction, or appends the letters and either stops or goes on |
| Markov.MarkovChain.PredictUntil | script.js:107-131 | the method returns exactly what `Predictor.PredictUntil` describes |
| Markov.MarkovChain.PredictUntilDefaults | script.js:107 | without `stopArray` and `max`, `predictUntil` uses the model's stop strings and a maximum of 500 |
| Serial.ToPairs | script.js:140 | `Array.from(chain)` lists every context in iteration order with its entry |
| Serial.FromPairs | script.js:152 | `new Map(pairs)` is a valid ordered map with no more contexts than pairs |
| Serial.FromPairsHolds | script.js:152 | every context of the list is in the map, and every context in the map holds an entry it was paired with |
| Serial.FromPairsWellFormed | script.js:152 | entries with well-formed continuation maps build a well-formed store |
| Serial.FromDistinctPairs | script.js:152 | with no repeated context, the map iterates the contexts in list order, each holding its own entry |
| Serial.PairsRoundTrip | script.js:140-152 | `new Map(Array.from(chain))` is the same store, in the same order |
| Serial.Decode | script.js:146-155 | `fromJSON` always builds a valid ordered store |
| Serial.Encode | script.js:135-155 | `fromJSON(toJSON(m))` has the same configuration and the same store, with the same contexts in the same order and identical entries |
| Serial.EncodeDecode | script.js:135-155 | a persisted object with every field present and no repeated context is written back exactly as it was read |
| Markov.MarkovChain.ToJSON | script.js:135-144 | the method writes every field and the store's pairs, and `fromJSON` reads this back as the same model |
| Markov.MarkovChain.FromJSON | script.js:146-155 | the new model's fields are what `Serial.Decode` reads from the object, and it satisfies the class invariant when every entry's continuation map is well formed |

## Left out

- Console output and progress reporting: the `Intl.NumberFormat` formatter, the `i % 1000000` progress line and the "Cleaning up..." messages. They do not affect the model's state.
- `global.gc()` after pruning: a hint to the garbage collector with no effect on the state. The model takes a host where `global` is defined; where it is not (a browser), `global?.gc` throws after the store has been pruned.
- `saveToFile` / `loadFromFile` and the JSON text encoding. These are file I/O and `JSON.stringify` / `JSON.parse`; serialisation is modelled on the structure `toJSON` builds.
- `Math.random()` and floating point: a draw is an exact real in `[0, 1)` that the caller supplies. The rounding of `Math.random() * count` in binary floating point is not modelled.
- Counts are unbounded integers. JavaScript numbers lose precision above 2^53, far beyond any count training reaches.
- JavaScript iterates the integer-like keys of a plain object (`next`) first, in ascending numeric order. The model iterates every continuation in insertion order.
- Property names that collide with `Object.prototype` (such as `constructor` or `__proto__`) are ordinary keys in the model.
- Strings are sequences of Unicode scalar values (code points), so `Predictor.Letters` walks the continuation code point by code point, as `for...of` does. The source's `length`, `substring` and the `max` test count UTF-16 code units instead. On text outside the Basic Multilingual Plane, the n-gram slices, the lookup key and the length limit therefore count characters differently from the source.
- Entries are values in the model. In the source they are objects updated in place, and a `Map` built by `fromJSON` shares its entry objects with the persisted structure. That aliasing is not modelled.
- Orders and lengths are integers. `Math.floor(nextOrder)` in the stride of `getNgrams` is the identity on them, and non-integer orders are not modelled.
- Markov.MarkovChain.Train: requires `stepDown >= 1`. With a smaller `stepDown` the source's recursion does not end, which the source neither checks nor intends.
- Markov.MarkovChain.PredictNext: requires `stepDown >= 1`, for the same reason. The same holds for Markov.MarkovChain.Predict and Markov.MarkovChain.PredictUntil, which call it.
- Predictor.NextOfFindsIff: assumes a consistent store with positive counts and draws in `[0, 1)`. In a store that breaks the count invariant, sampling can run out and back off even though the context is stored.
- Chain.PassCounts: holds only when recording every pair of the pass leaves at most 4,000,000 contexts. Once the budget is passed, pruning in the middle of the pass removes counts, and `Chain.Pass` describes the result.
- Serial.EncodeDecode: requires every field present and no repeated context. A repeated context collapses in `new Map`, and a missing field is filled with its default.
- The helper methods `TrainAt`, `TrainPass`, `Count`, `DropThin`, `PruneContinuations`, `Sample`, `AppendLetters` and `EndsWithSome` are loops and loop bodies of the source's methods, split out so each can be proved on its own.
