# Holder snapshots and airdrop allocation

Two one-shot scripts read the token registry of an NFT collection on the
Internet Computer. Each registry record pairs a token index with the account
that owns it.

- `fetch-v1-holders.ts` lists the owner of every record and writes the list as
  text: every address in double quotes followed by `;`, one per line.
- `fetch-v2-holders.ts` drops the records whose owner is the sentinel `"0000"`
  (an unissued token). It counts the tokens each account holds, and shares the
  unsold part of the 2200-token supply among the holders in proportion to
  their holdings, each share rounded to the nearest integer. It also keeps two
  running totals: the summed fractions of ownership and the summed shares.

The model lifts the computational core of both scripts out of their network
and file plumbing:

- `registry.dfy` (module `Registry`): registry records and the owner projection
  both scripts start with.
- `ordered_dict.dfy` (module `OrderedDict`): the JavaScript plain object used
  as a dictionary. Its enumeration order is the order in which keys were first
  stored (account identifiers are never array indices), and its contents are a
  map. It also defines the sums of its numbers.
- `rounding.dfy` (module `Rounding`): `Math.round(remaining * (count /
  purchased))` in exact integer arithmetic, the bounds of a single share, and
  exact fractions for the running total of `count / purchased`.
- `v1_holders.dfy` (module `V1Holders`): the quoted `join` serialisation, a
  line-based reader for its output, and the round trip between the two.
- `v2_holders.dfy` (module `V2Holders`): the sentinel filter, the tally
  `reduce`, and the allocation loop. The loop is a method with a `for` loop
  over the tally's keys that updates the running totals and the allocation
  object step by step. `FetchV2Holders` runs the whole script.

`Math.round(x)` is `floor(x + 1/2)`, so the share of an address holding
`count` of `purchased` tokens is `floor((2 * remaining * count + purchased) /
(2 * purchased))`. That is `Rounding.RoundDiv(remaining * count, purchased)`.

## Model

| member | source | states |
|---|---|---|
| Registry.Owners | fetch-v1-holders.ts:13 | one owner per registry record, in registry order: the same length, and element i is the owner of record i; nothing is filtered |
| V1Holders.Join | fetch-v1-holders.ts:16 | `Array.prototype.join`; no contract of its own: `SerializeLines`, `LinesOfJoin` and `NewlinesOfJoin` state what it produces |
| V1Holders.Serialize | fetch-v1-holders.ts:16 | the text written, `'"' + join(holders, '";\n"') + '";'`; no contract of its own: `SerializeLines`, `SerializeEmpty`, `ParseSerialize` and `NewlineCount` state its form, its empty case, its round trip and its newline count |
| V1Holders.SerializeLines | fetch-v1-holders.ts:16 | a non-empty list is written as the lines `"addr";`, one per address, with a newline between consecutive lines |
| V1Holders.SerializeEmpty | fetch-v1-holders.ts:16 | an empty list is written as the three characters `"";`, the same text as a list holding one empty address |
| V1Holders.UnquoteQuote | fetch-v1-holders.ts:16 | stripping the leading `"` and the trailing `";` from a written line gives the address back |
| V1Holders.LinesOfJoin | fetch-v1-holders.ts:16 | splitting a newline-joined list of texts without newlines at its newlines gives the list back |
| V1Holders.UnquoteAllQuoteAll | fetch-v1-holders.ts:16 | unquoting every written line gives the whole list back |
| V1Holders.ParseSerialize | fetch-v1-holders.ts:16 | round trip: a non-empty list of addresses without newlines is read back exactly from the written text, quotes inside addresses included |
| V1Holders.NewlinesOfJoin | fetch-v1-holders.ts:16 | joining n texts without newlines with newlines puts exactly n - 1 newlines in |
| V1Holders.NewlineCount | fetch-v1-holders.ts:16 | the text written for n >= 1 addresses without newlines has exactly n - 1 newlines |
| V1Holders.FetchV1Holders | fetch-v1-holders.ts:13-16 | the first script, from registry to written text; no contract of its own: `FetchV1HoldersLines` states what the text holds |
| V1Holders.FetchV1HoldersLines | fetch-v1-holders.ts:13-16 | for a non-empty registry whose owners contain no newline, the text written reads back as the owners of all records in registry order, with one line per record |
| V2Holders.WithoutSentinel | fetch-v2-holders.ts:13 | the sentinel does not occur in the holder list; every other address occurs as often as among the owners; the list is shorter by exactly the number of sentinel owners |
| V2Holders.Holders | fetch-v2-holders.ts:13 | the holder list, the owner projection followed by the sentinel filter; no contract of its own: `Registry.Owners` and `WithoutSentinel` state what it holds |
| V2Holders.WithoutSentinelAppend | fetch-v2-holders.ts:13 | the filter keeps registry order: filtering a concatenation filters each part in place |
| V2Holders.WithoutSentinelKeeps | fetch-v2-holders.ts:13 | an owner list without the sentinel passes through unchanged |
| V2Holders.ExampleHolders | fetch-v2-holders.ts:13 | of the owners a, "0000", b, a the holders are a, b, a |
| OrderedDict.Dict.Get | fetch-v2-holders.ts:18 | `acc[x] \|\| 0`; no contract of its own: `PutGet` and `SumPut` state what it reads back |
| OrderedDict.Dict.Put | fetch-v2-holders.ts:18 | `acc[x] = …`, also `airdropByAddr[addr] = …` at fetch-v2-holders.ts:33; no contract of its own: `PutValid`, `PutGet` and `SumPut` state its effect |
| OrderedDict.PutValid | fetch-v2-holders.ts:18 | storing a number under a key keeps every key of the object enumerated exactly once |
| OrderedDict.PutGet | fetch-v2-holders.ts:18 | after `d[k] = v`, `k` holds `v` and every other key what it held; a present key keeps its place in the enumeration order and a new key goes last |
| OrderedDict.SumPut | fetch-v2-holders.ts:18 | storing `v` under `k` changes the sum of the object's numbers by `v` minus what `k` held (0 if absent) |
| V2Holders.Tally | fetch-v2-holders.ts:17-20 | the `reduce` as a fold over the holder list; no contract of its own: `TallyCounts` and `TallySum` state its keys, counts and sum |
| V2Holders.TallyCounts | fetch-v2-holders.ts:17-20 | the tally has a key for every holder and for nothing else; each value is the number of times the address occurs in the holder list, so at least 1 |
| V2Holders.TallySum | fetch-v2-holders.ts:17-20 | the tally enumerates each address once and its counts add up to the number of purchased tokens |
| V2Holders.CountAtMostSum | fetch-v2-holders.ts:17-20 | no single count exceeds the sum of all counts, so no address holds more than `purchased` tokens |
| V2Holders.ExampleTally | fetch-v2-holders.ts:17-29 | the holders a, b, a are tallied as {a: 2, b: 1} in that order, and with the script's supply the 2197 unsold tokens are shared as 1465 and 732 |
| Rounding.RoundDiv | fetch-v2-holders.ts:29 | `Math.round(n / d)` for d > 0 in integers; no contract of its own: `RoundDivRule` and `RoundDivUnique` characterise it |
| Rounding.RoundDivRule | fetch-v2-holders.ts:29 | `Math.round` as written: the share q of n / d satisfies q - 1/2 <= n / d < q + 1/2 |
| Rounding.RoundDivUnique | fetch-v2-holders.ts:29 | the rounding rule determines the share: any integer satisfying it is the rounded value |
| Rounding.AllocationBounds | fetch-v2-holders.ts:28-29 | with a non-negative pool and a count of at most `purchased`, a share lies between 0 and the pool |
| Rounding.AllocationNonPositive | fetch-v2-holders.ts:28-29 | with a pool of 0 or less (purchases equal to or above the supply), no share is positive |
| Rounding.PlusValue | fetch-v2-holders.ts:28-30 | adding fractions over a common non-zero denominator adds their values, so summing the numerators of the shares `count / purchased` sums the shares |
| Rounding.WholeIsOne | fetch-v2-holders.ts:30 | a fraction whose numerator equals its denominator is exactly 1 |
| Rounding.ZeroIsZero | fetch-v2-holders.ts:22 | a fraction with numerator 0 is exactly 0, as the total starts out |
| V2Holders.DriftBound | fetch-v2-holders.ts:29-31 | rounding each share on its own, the summed shares differ from the pool share of the summed counts by at most half a unit per address, strictly less on the low side |
| V2Holders.AllocationFacts | fetch-v2-holders.ts:26-33 | for a non-empty tally: every share lies in [0, remaining] when remaining >= 0, none is positive when remaining <= 0, and the summed shares lie within half a unit per address of `remaining` |
| V2Holders.Allocate | fetch-v2-holders.ts:22-37 | the allocation object enumerates the same addresses in the same order as the tally; each address gets its rounded share of `remaining`; `totalAirdrop` is the sum of the allocations; `total` is exactly `purchased / purchased`, i.e. 1, when any address was counted, and its value is 0 otherwise; an empty tally gives `{}` and both totals 0 |
| V2Holders.FetchV2Holders | fetch-v2-holders.ts:13-37 | the whole script: the holder list, `purchased` and `remaining = supply - purchased`, the tally with its counts and sum, the allocation with its per-address shares and bounds, `total` of value 1 for a non-empty holder list and 0 for an empty one, and the drift of `totalAirdrop` from `remaining` of at most half a unit per address; an empty holder list gives empty objects, zero totals and `remaining = supply` |

## Left out

- The actor creation, the host and canister identifiers, and the `getRegistry()` call are an RPC client whose code is not part of this model. The registry result is an input sequence of `Registry.Entry` records.
- The async wrappers hold a single `await` and no concurrency. The model is sequential.
- All `console.log` output and the `writeFileSync` calls are I/O. `V1Holders.FetchV1Holders` returns the text that would be written, and `V2Holders.FetchV2Holders` returns the objects that would be written.
- `JSON.stringify(…, null, 2)` formatting of the two written objects is not modelled. The objects are modelled as `OrderedDict.Dict` values.
- The commented-out write at `fetch-v2-holders.ts:45` is inactive code.
- V2Holders.FetchV2Holders: the supply (2200, `V2Holders.TotalSupply`) and the sentinel (`"0000"`, `V2Holders.Unissued`) are parameters, so the script's run is the call with those two constants.
- V2Holders.Allocate: `pie` and `total` are IEEE-754 doubles in the script. The model keeps `total` as an exact fraction over the denominator `purchased`, or over 1 for an empty tally, where it stays 0. The float total can miss 1 by rounding error, and the model does not show that.
- Rounding.RoundDiv: the share is `Math.round` of the exact product `remaining * count / purchased`. The script rounds a double that can carry rounding error of its own. At an exact half, or within that error of one, the script's result can differ by one.
- A NaN share when `purchased = 0` never arises, because the loop then has nothing to enumerate. The model does not need a NaN.
- JavaScript objects inherit keys such as `__proto__` or `toString`, and keys that look like array indices enumerate first. Account identifiers are hexadecimal hashes, so the model treats every address as an ordinary own key enumerated in insertion order.
- V1Holders.ParseSerialize: the round trip is stated only for non-empty lists of addresses without newlines. An empty list and the list holding one empty address serialise to the same text (`V1Holders.SerializeEmpty`).
- V2Holders.AllocationFacts: the drift bound is stated for a non-empty holder list. For an empty one, both totals are 0 and `remaining` is the whole supply.
