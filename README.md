# Lineup allocator and retry executor

A Dafny model of two pieces of a fantasy basketball lineup setter.

**The lineup allocator.** `calculateLineup` in `src/model.ts`, and its copy `selectRoster` in `src/index.ts`, take the scraped list of players and split it into five parts:

- two centers;
- four guards;
- four forwards;
- two flex ("gfc") players;
- an unbounded reserve.

The allocator works in four steps:

1. It builds a pool of ids for each of the positions C, G and F, and a flex pool that holds every player.
2. It sorts every pool by availability, then by rank.
3. It fills the slots in the fixed order C, C, G×4, F×4, flex×2. Each call of `assignPlayer` takes the first id of its pool that is not yet in the shared `taken` set.
4. It moves every untaken player to the reserve, in sorted flex-pool order.

**The retry executor.** `retry` in `src/retry.ts` calls a function until it succeeds. After the first failure it waits 1000 ms, and each later wait is twice as long. Once the retry budget is spent, it re-throws the last error.

## Modules

- `Seqs` (`seqs.dfy`): generic sequence facts.
  - `Distinct`.
  - The order-preserving filter `Free` (the ids of a pool that are not taken).
  - `Prefix` (the first `n` elements).
  - How both relate to multisets.
- `Model` (`model.dfy`): `src/model.ts`.
  - The `Availability`, `Player` and `Lineup` types.
  - The comparator.
  - The specification functions `Pool`, `AllIds`, `ById`, `SortIds`, `Assign`, `Fill` and `Allocate`.
  - Imperative methods that follow the source's loops:
    - `CollectPools`: the pushes into the pools and the dictionary.
    - `SortInPlace` and `InsertInPlace`: an in-place stable insertion sort on an `array`.
    - `AssignPlayer`: the scanning loop with its `break`.
    - `CollectReserve`: the reserve loop with its `continue`.
    - `CalculateLineup`: the whole allocator.

    Each method is proved equal to the specification function it models.
- `ModelProofs` (`model_proofs.dfy`): the properties of `Allocate`:
  - partition;
  - capacity;
  - eligibility;
  - order;
  - fill-when-possible;
  - precedence of guards over forwards;
  - reserve exactness;
  - the empty roster.
- `Index` (`index.dfy`): `src/index.ts`.
  - `selectRoster`, proved to compute the same lineup as `calculateLineup`.
  - The `testRoster` sample: flattening it and allocating the result gives `testRoster` back, slot for slot.
- `Retry` (`retry.dfy`): `src/retry.ts`.
  - The successive outcomes of the retried function are an input sequence.
  - The waits are recorded rather than slept.
  - The loop is a `while true` that returns on success or on an exhausted budget.

The JavaScript dictionary `playersById` is a `map`, and the `taken` set is a `set`. The pools are sequences, because the source grows them with `push`; they are copied into arrays, which are then sorted in place. `Allocate` is total: like the source, a repeated id makes the later player win in `playersById`. Capacity holds for every input; the partition, eligibility, order, fill, precedence and reserve properties require unique ids (see "## Left out").

## Model

| member | source | states |
|---|---|---|
| `Model.ComparePlayers` | src/model.ts:40-49 | the comparator is non-positive exactly when the first player is more available, or equally available and ranked no worse; it is zero exactly on equal availability and rank |
| `Model.Pool` | src/model.ts:31-35 | a position's pool has at most one id per player; `ModelProofs.PoolHolders` and `ModelProofs.PoolMembers` state which ids it holds |
| `Model.ById` | src/model.ts:37 | the dictionary files the last player under its id, so a later player with the same id overwrites an earlier one; `ModelProofs.ByIdEntries` and `ModelProofs.ByIdFinds` state the rest |
| `Model.AllIds` | src/model.ts:31-36 | the flex pool lists every player's id, in input order, one per player |
| `Model.FirstFree` | src/model.ts:72-73 | the scan of `assignPlayer` stops at the first untaken id: every id before it is taken |
| `Model.Assign` | src/model.ts:71-79 | one `assignPlayer` call only appends to the slot, at most one player, and only adds to `taken`; `ModelProofs.AssignFirstUntaken` states which player and which id |
| `Model.Fill` | src/model.ts:81-92 | consecutive `assignPlayer` calls on one pool keep the earlier picks of the slot in place and every taken id taken; `ModelProofs.FillTakesFree` states what they add |
| `Model.AssignPlayer` | src/model.ts:71-79 | the scanning loop with `break` pushes the player of the first untaken id and takes that id, exactly as one `Assign` step |
| `Model.InsertInPlace` | src/model.ts:51-54 | one pass of the in-place sort moves the next id behind every id that does not sort strictly after it, and leaves the rest of the array alone |
| `Model.SortInPlace` | src/model.ts:51-54 | sorting a pool array in place by the comparator yields the stable sort `SortIds` of its contents |
| `Model.InsertBack` | src/model.ts:51-54 | one step of the stable sort keeps every id findable in the dictionary; `Model.InsertBackAt` states where the id lands, and `Model.InsertBackPermutation` that nothing is lost |
| `Model.SortIds` | src/model.ts:51-54 | the stable sort of a pool keeps every id findable; `Model.SortIdsPermutation` and `Model.SortIdsSorted` state that it is a permutation in comparator order |
| `Model.SortIdsPermutation` | src/model.ts:51-54 | sorting neither loses nor duplicates an id |
| `Model.SortIdsSorted` | src/model.ts:40-54 | a sorted pool is in comparator order |
| `Model.InsertBackAt` | src/model.ts:51-54 | inserting into a sorted prefix puts the id right after the last id that does not sort strictly after it, which keeps equal players in input order |
| `Model.CollectPools` | src/model.ts:31-38 | the building loop yields the G, F and C pools, the flex pool of all ids, and the id dictionary in which the last player with an id wins |
| `Model.SortedPool` | src/model.ts:51-54 | a fresh array holding the pool in sorted order |
| `Model.CollectReserve` | src/model.ts:94-97 | the reserve loop yields, in flex-pool order, exactly the players of the untaken ids |
| `Model.Allocate` | src/model.ts:24-100 | what `calculateLineup` returns; the reserve never holds more players than the roster, and the `ModelProofs` lemmas state the partition, capacity, eligibility, order, fill, precedence and reserve properties of it |
| `Model.CalculateLineup` | src/model.ts:24-100 | the imperative allocator computes `Allocate(players)` |
| `Model.FillUnfold` | src/model.ts:81-92 | two and four consecutive `assignPlayer` calls on one pool are `Fill` with 2 and 4 |
| `ModelProofs.PoolHolders` | src/model.ts:31-36 | an id is in a position's pool exactly when some player with that id lists the position; every player's id is in the flex pool |
| `ModelProofs.PoolMembers` | src/model.ts:31-37 | with unique ids, an id is in a pool exactly when its dictionary entry lists the position, and no pool holds an id twice |
| `ModelProofs.ByIdFinds` | src/model.ts:37 | with unique ids the dictionary finds every player under its own id |
| `ModelProofs.AssignFirstUntaken` | src/model.ts:71-79 | one `assignPlayer` call appends the player of the first untaken id and adds only that id to `taken`; with no untaken id it changes nothing |
| `ModelProofs.FillTakesFree` | src/model.ts:71-92 | `n` calls on a distinct pool append the players of the first `n` untaken ids, in pool order, and take exactly those ids |
| `ModelProofs.FillLength` | src/model.ts:71-79 | each call appends at most one player |
| `ModelProofs.AllocatePicks` | src/model.ts:81-97 | with unique ids, every part of the lineup is the lookup of the first 2/4/4/2 untaken ids of its sorted pool, each taken set being the ids of the earlier parts; the reserve is the untaken rest of the sorted flex pool |
| `ModelProofs.Partition` | src/model.ts:31-38 | with unique ids, the five parts together are a permutation of the input, with no player twice |
| `ModelProofs.Capacity` | src/model.ts:81-92 | at most 2 centers, 4 guards, 4 forwards and 2 flex players |
| `ModelProofs.Eligibility` | src/model.ts:32-34 | with unique ids, every center lists C, every guard lists G, and every forward lists F |
| `ModelProofs.Order` | src/model.ts:51-54 | with unique ids, every part, the reserve included, is in non-decreasing (availability, rank) order |
| `ModelProofs.FillWhenPossible` | src/model.ts:81-92 | with unique ids, each slot gets the minimum of its capacity and the number of its pool's ids still untaken when it is filled; for centers that is min(2, the number of C players) |
| `ModelProofs.ShortSlotsTakeAll` | src/model.ts:81-92 | with unique ids, a slot left below capacity took every eligible player still untaken when it was filled |
| `ModelProofs.Precedence` | src/model.ts:83-90 | with unique ids, a G-and-F player among the first four untaken guard candidates is a guard and never a forward |
| `ModelProofs.Reserve` | src/model.ts:94-97 | with unique ids, the reserve is exactly the players not placed in a slot, in sorted flex-pool order |
| `ModelProofs.EmptyRoster` | src/model.ts:24-100 | no players give five empty parts |
| `ModelProofs.SortedPoolIs` | src/model.ts:51-54 | a pool whose players are in strict comparator order sorts to exactly that order |
| `Index.SelectRoster` | src/index.ts:287-357 | `selectRoster` computes `Allocate(players)`, keeps the capacity bounds, partitions a roster with unique ids, and places no reserve player in a slot |
| `Index.SameAllocation` | src/index.ts:287-357 | for every input, `calculateLineup` and `selectRoster` return the same lineup |
| `Index.TestRoster` | src/index.ts:5-156 | the 20-player sample roster, part by part; `Index.TestRosterReproduced` states that allocating it flattened gives it back |
| `Index.TestRosterReproduced` | src/index.ts:5-156 | allocating the flattened 20-player `testRoster` reproduces it slot for slot: Gasol and Kennard take the flex slots, and the reserve is in comparator order |
| `Retry.Ends` | src/retry.ts:7-24 | the run stops within the given outcomes: a call succeeds, or fails with no retries left; `Retry.Attempts` counts the calls, `Retry.AllFail` and `Retry.FirstSuccess` say when it holds, and `Retry.NegativeBudget` when it does not |
| `Retry.Attempts` | src/retry.ts:7-24 | the run stops at the first call that succeeds or fails with no retries left; every earlier call failed, and with a budget `n >= 0` there are at most `n + 1` calls |
| `Retry.AttemptsUnique` | src/retry.ts:7-24 | the stopping call is the only one with those properties |
| `Retry.AllFail` | src/retry.ts:7-24 | when every call fails, a budget of `n >= 0` makes exactly `n + 1` calls and ends on a failure |
| `Retry.FirstSuccess` | src/retry.ts:8-9 | the first success within the budget is where the run stops |
| `Retry.NegativeBudget` | src/retry.ts:15-22 | with a negative budget, a run in which every call fails never stops |
| `Retry.Backoff` | src/retry.ts:5-23 | the k-th delay handed to `setTimeout` is 1000·2^k ms |
| `Retry.BackoffTotal` | src/retry.ts:5-23 | `n` waits take 1000·(2^n − 1) ms in total |
| `Retry.Retry` | src/retry.ts:1-26 | the loop makes `Attempts` calls, returns the last call's outcome (the first success, or the error it re-throws once the budget is spent), and records the waits `Backoff(calls - 1)` |

## Left out

- The browser scraping and login (`getPlayerInfo`, `fetchPlayers`, `getPlayers`, `getRoster`, `main`) are I/O. The scraped player list is taken as given input.
- `setLineupParams`, `setLineup` and `persistLineup` are left out. They are HTTP requests through the browser, with JSON encoding and the current date.
- `src/slack.ts` and `src/publish.ts` are left out. They are a network client and message rendering.
- `src/common.ts` holds only type declarations, and they repeat `src/model.ts:1-22`.
- Logging, the real `setTimeout` and the `async` machinery of `retry` are left out. Outcomes are a given sequence and waits are recorded.
- Retry.Retry: the model assumes that every rejection value can be logged. The catch block of `src/retry.ts:11-13` formats the error into a string and reads `e.stack` before the `retries === 0` test. A rejection with `null` or `undefined`, or one with a Symbol, makes that logging throw a TypeError. `retry` then rejects at once with the TypeError instead of the error, whatever budget is left. The model retries every `Failure` alike.
- Retry.Retry: the model requires that the run stops within the given outcomes. A negative budget with no success never stops; that run is no input of the method, and `Retry.NegativeBudget` states it separately.
- JavaScript number semantics are not modelled. Ranks are unbounded integers, so a `parseInt` NaN rank is out of scope.
- Retry.Backoff: the recorded delays are the values `src/retry.ts:21` passes to `setTimeout`, 1000·2^k ms for the k-th wait. They are not the time actually slept. `setTimeout` treats a delay above 2^31 − 1 ms as about 1 ms, so from k = 22 (4 194 304 000 ms) on, the real wait is about 1 ms. The doubling at `src/retry.ts:23` stays exact in floating point, but `timeout` becomes `Infinity` after k = 1014, where the model keeps the unbounded natural.
- Duplicate ids: `Allocate` handles them as the source does. The last player wins in `playersById`, and the flex pool repeats the id. These properties hold for every input, repeated ids included: `ModelProofs.Capacity`, `ModelProofs.PoolHolders`, `ModelProofs.AssignFirstUntaken`, `ModelProofs.FillLength`, `ModelProofs.EmptyRoster`, and the contracts of `Model.Allocate`, `Model.CalculateLineup` and `Index.SameAllocation`. These ones require unique ids:
  - `ModelProofs.ByIdFinds` and `ModelProofs.PoolMembers`;
  - `ModelProofs.AllocatePicks` and `ModelProofs.Partition`;
  - `ModelProofs.Eligibility` and `ModelProofs.Order`;
  - `ModelProofs.FillWhenPossible` and `ModelProofs.ShortSlotsTakeAll`;
  - `ModelProofs.Precedence` and `ModelProofs.Reserve`;
  - `ModelProofs.SortedPoolIs`;
  - the partition clause of `Index.SelectRoster`.
- Model.SortInPlace: `Array.prototype.sort` is modelled as a stable sort, written as an insertion sort. Engines before ES2019 could order equally ranked players differently.
- `src/index.ts` declares its own `Availability` (226-231), `Player` (233-239) and `Roster` (279-285). They match the `Availability`, `Player` and `Lineup` of `src/model.ts`, so the model uses the `Model` types for both files.
