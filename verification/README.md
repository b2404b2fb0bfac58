# Cache-policy experiments: a Dafny model

The repository runs cache and branch-prediction experiments on three
simulators (ChampSim, gem5 and Scarab). It sweeps over replacement policy,
prefetcher, branch predictor and cache geometry, then plots the IPC each
run reports. It also ships its own ChampSim replacement policies and a
gshare predictor for gem5. This project models the sequential logic of
that core and proves what it promises.

- **Sweep runners** (`old_champsim_config`, `old_champsim_runner`,
  `define_patch`, `run_names`, `verify_outputs`, `new_champsim_runner`,
  `gem5_runner`, `scarab_runner`, `json_config`, `sweep`). A runner
  derives one configuration per sweep point as a pure value: a JSON tree,
  a gem5 template as its assignments, or Scarab's `PARAMS.in` as its
  flags. The runners also cover:
  - the simulator command, the names of the output files and the ledger
    of completed runs kept in those names;
  - the order of the sweep and the command-line checks.
  - what a queued job reads from state the main loop keeps rewriting
    (`worker_pool`).

  The output directory is a set of names. The simulator's exit status and
  folder listings are inputs.
- **Result parsers and plot selection** (`champsim_results`,
  `gem5_results`, `scarab_results`, `number_text`, `result_data`,
  `selection`, `sorting`, `ordered_dict`). These read the four fields back
  out of file and folder names and read the IPC out of a report. They fill
  `data[trace][policy][key]` and pick the bars of each plot: top-k,
  "top 5" per policy, worst/median/best, and four IPCs from distinct
  policies.
- **Replacement policies** (`hawkeye`, `hawkeye_sampler`, `crc_hash`,
  `mockingjay`, `rlr`, `emissary`, `bip`, `lfu`, `fifo`, `random_policy`,
  `pcn`, `weight_table`, `cache_sets`, `arith`). Each is a per-set state
  machine over flat per-line vectors. Both Mockingjay builds are one
  model with two sets of constants. Random draws are parameters.
- **gshare** (`gshare`). This is the global history register with its
  masks and the counter table. Lookup snapshots go into a history handle,
  so squash can restore the register.

Python's `None`, exceptions and `sys.exit` become `Option`/`Result` values
(`wrappers`). Python strings are `seq<char>`. IPC values are `real`, and
parsed figures are exact decimals.

## Model

| member | source | states |
|---|---|---|
| Bip.New | Polices/bip/bip.cc:3-6 | the constructor sizes the marks to one per line of every set, all unmarked |
| Bip.FindVictim | Polices/bip/bip.cc:8-27 | the victim is the set's first unmarked line, and line 0 when every line is marked |
| Bip.Marked | Polices/bip/bip.cc:33-53 | the access changes only its own line's mark: a miss sets it to 1 when the draw is below `eps` and to 0 otherwise, a read hit on an unmarked line sets it to 1, and any other hit changes nothing |
| Bip.Update | Polices/bip/bip.cc:29-76 | only the accessed set changes; marks stay 0 or 1; afterwards some line of the set is unmarked; when the access leaves every line of the set marked, the whole set is cleared, otherwise only the accessed line's mark changes, to 1 on a miss or read hit; a write hit on a set with an unmarked line changes nothing |
| Bip.ResetExamples | Polices/bip/bip.cc:56-76 | a read hit on way 0 of `[0, 1, 1]` completes the set, which is cleared to `[0, 0, 0]`; one on way 0 of `[0, 0, 1]` gives `[1, 0, 1]` |
| Bip.UpdateLeavesUnmarked | Polices/bip/bip.cc:55-76 | after any update the set holds an unmarked line, so the next victim search finds one rather than falling back to line 0 |
| Lfu.NewAsWritten | Policies/lfu/lfu.cc:8-13 | the constructor as written leaves the counter vector empty |
| Lfu.New | Polices/lfu/lfu.h:11 | the corrected constructor sizes the counters to one zero per line |
| Lfu.FindVictim | Policies/lfu/lfu.cc:15-27 | the victim is the first line of the set holding the smallest counter |
| Lfu.Update | Policies/lfu/lfu.cc:29-42 | a position past the vector fails as `.at()` throws; otherwise only the accessed line changes: a miss sets it to 1, a read hit adds 1 modulo 2^64, a write hit changes nothing |
| Lfu.UpdateAsWrittenFails | Policies/lfu/lfu.cc:8-13 | with the vector never sized, every update of a fresh policy throws |
| Lfu.UpdateOnNew | Policies/lfu/lfu.cc:29-42 | with the vector sized, an access to any line of the cache succeeds and leaves the line's count at 1, or 0 after a write hit |
| Fifo.New | Policies/fifo/fifo.cc:3-6 | one zero stamp per line and a cycle of 0 |
| Fifo.FindVictim | Policies/fifo/fifo.cc:8-19 | the victim is the first line of the set holding the smallest stamp |
| Fifo.Update | Policies/fifo/fifo.cc:21-26 | as written: a miss stores the never-advanced `cycle` in its line and nothing else changes; a hit changes nothing; past the vector `.at()` throws |
| Fifo.UpdateAt | Policies/fifo/fifo.cc:21-26 | the corrected update: a miss stores the current cycle in its line and nothing else changes |
| Fifo.StampsStayZero | Policies/fifo/fifo.h:16 | since `cycle` stays 0, every stamp stays 0 |
| Fifo.AlwaysEvictsLineZero | Policies/fifo/fifo.cc:8-19 | with every stamp 0, line 0 is the victim of every set |
| Fifo.FilledLineNotNextVictim | Policies/fifo/fifo.cc:21-26 | with the current cycle stored, the line a miss just filled is not the next victim of a set with two or more lines |
| RandomPolicy.RandRange | Policies/random/random.cc:9-12 | `randrange(low, high)` fails exactly when `low + high` is 0 and otherwise lies in `low + 1 .. low + abs(low + high)` |
| RandomPolicy.FindVictim | Policies/random/random.cc:16-18 | as written the victim is one of ways 1 .. NUM_WAY - 1, and a one-way cache divides by zero |
| RandomPolicy.NeverWayZero | Policies/random/random.cc:16-18 | way 0 is never chosen |
| RandomPolicy.EveryOtherWayDrawn | Policies/random/random.cc:16-18 | every way from 1 up is chosen for some draw |
| RandomPolicy.OneWayDividesByZero | Policies/random/random.cc:9-12 | a one-way cache reaches `rand() % 0` |
| RandomPolicy.FindVictimAnyWay | Policies/random/random.cc:16-18 | the corrected victim lies among all the set's ways |
| RandomPolicy.AnyWayDrawn | Policies/random/random.cc:16-18 | every way, way 0 included, is chosen for some draw, and a one-way cache evicts its only way |
| Emissary.New | Polices/emissary/emissary.cc:11-21 | one zero stamp and one low-priority bit per line, no promotions yet, cycle 0 |
| Emissary.Scan | Polices/emissary/emissary.cc:27-57 | the scan returns the first line of the sought priority with the smallest stamp below `UINT64_MAX`, or 0 when there is none, together with that stamp |
| Emissary.FindVictimAsWritten | Polices/emissary/emissary.cc:23-58 | as written the scan picks among the lines at the offsets `0 .. NUM_WAY - 1` of the whole vector: low-priority lines before the threshold is reached, high-priority ones after |
| Emissary.VictimOfSetZero | Polices/emissary/emissary.cc:32-56 | as written every set gets the victim of set 0 |
| Emissary.FindVictim | Polices/emissary/emissary.cc:23-58 | the corrected search picks among the accessed set's own lines |
| Emissary.FirstOfPriority | Polices/emissary/emissary.cc:130 | with every stamp 0, the victim is the set's first line of the sought priority |
| Emissary.Access | Polices/emissary/emissary.cc:92-147 | the accessed line ends high priority exactly when the draw came up; a promotion below the threshold counts once; a promoting hit at the threshold clears the demoted line, and otherwise only the accessed line's bit changes; the line is stamped with the cycle exactly on a non-write hit or a promoting miss, and no other stamp changes |
| Emissary.UpdateAsWritten | Polices/emissary/emissary.cc:97-123 | as written the line demoted on a hit is chosen and cleared among set 0's offsets, so no other set beyond set 0 loses a bit |
| Emissary.DemotesInSetZero | Polices/emissary/emissary.cc:104-117 | a promoting hit in set 1 clears a bit of set 0 and leaves set 1's high-priority line alone |
| Emissary.Update | Polices/emissary/emissary.cc:61-149 | the corrected update changes bits only inside the accessed set; a promoting hit at the threshold clears the set's own least recently used high-priority line (the line the scan of lines 104-114 picks) and every other line of the set keeps its bit, otherwise only the accessed line's bit changes; the line is stamped exactly on a non-write hit or a promoting miss; the promotion count stays within the threshold |
| Emissary.LruPickUnique | Polices/emissary/emissary.cc:104-114 | the scan's choice is a single line: two lines that both meet the pick's description are the same line |
| Emissary.DemotesInOwnSet | Polices/emissary/emissary.cc:97-123 | a promoting hit on line 0 of set 1, whose line 1 is high priority, leaves set 1's high-priority line set and clears set 0's as written, while the corrected update clears set 1's line 1 and leaves set 0 alone |
| Emissary.UpdateKeepsInvariants | Polices/emissary/emissary.cc:93-96 | from a policy with zero stamps and a count within the threshold, stamps stay 0 and the count never falls nor passes the threshold |
| Rlr.AddEntry | Polices/rlr/rlr.cc:12-23 | each age is accumulated; the 32nd sets the reuse distance to twice the accumulated sum over 32, truncated and at least 2, and starts a fresh window; the distance never drops below 2 |
| Rlr.Accumulates | Polices/rlr/rlr.cc:12-23 | fewer than 32 ages after a reset only count and sum, leaving the reuse distance alone |
| Rlr.WindowSetsRd | Polices/rlr/rlr.cc:17-22 | 32 ages after a reset set the reuse distance to twice their mean, at least 2, and empty the window |
| Rlr.Priority | Polices/rlr/rlr.cc:74-81 | a line's priority is 8 or more exactly when its age is below the reuse distance, and its remainder by 8 counts the hit flag and the demand flag |
| Rlr.New | Polices/rlr/rlr.cc:113-116 | every line starts with age 0, the demand flag set and no hit; the reuse distance starts at 2 |
| Rlr.FindVictim | Polices/rlr/rlr.cc:119-136 | the victim is the way whose (priority, age, way) triple is strictly smallest, which sorting the triples puts first |
| Rlr.Update | Polices/rlr/rlr.cc:138-173 | a write hit changes nothing; otherwise every other line of the set ages by 1 and only the accessed set changes; a hit records the line's age in the reuse-distance window and marks the line hit with age 0; a miss resets the line; a prefetch clears the demand flag |
| WeightTables.Default | Polices/pcn/pcn.h:45 | the default table has 256 zero weights |
| WeightTables.OfSize | Polices/pcn/pcn.h:48 | a table of a given size holds that many zero weights |
| WeightTables.Resize | Polices/pcn/pcn.h:50-57 | resizing to `n` leaves at each new position the weight of the last old position congruent to it modulo `n`, and 0 where no old position maps |
| WeightTables.GrowKeeps | Polices/pcn/pcn.h:52-54 | growing keeps every weight at its position |
| WeightTables.HalveKeepsUpper | Polices/pcn/pcn.h:52-54 | halving keeps at each position the weight of its upper-half partner, which is copied last |
| WeightTables.ResizeInRange | Polices/pcn/pcn.h:50-57 | resizing only copies weights and zeros, so weights stay within the saturating bounds |
| Pcn.NewPerceptron | Policies/pcn/pcn.cc:16-22 | the perceptron starts with three default tables and no usage |
| Pcn.New | Policies/pcn/pcn.cc:7-14 | one metadata record per line, each with PC 0 and not a write |
| Pcn.Hash | Policies/pcn/pcn.cc:25-27 | the index lies inside the table |
| Pcn.HashLow16 | Policies/pcn/pcn.cc:25-27 | only the low 16 bits of the PC affect the index |
| Pcn.FeatureValues | Policies/pcn/pcn.cc:77-86 | the features are the line's PC, the set index as a `uint32_t`, and 1 exactly for a write |
| Pcn.WeightOf | Policies/pcn/pcn.cc:36-38 | each feature contributes a weight within `[-32, 31]` |
| Pcn.Output | Policies/pcn/pcn.cc:33-39 | the summed output lies within `[-96, 93]` |
| Pcn.Activate | Policies/pcn/pcn.cc:42 | the leaky ReLU keeps a positive output and turns any output from -99 to 0 into 0 |
| Pcn.Predict | Policies/pcn/pcn.cc:30-43 | a prediction lies in `[0, 93]`, below `INT32_MAX`, and is 0 exactly when the output is not positive |
| Pcn.ScanMin | Policies/pcn/pcn.cc:96-113 | the scan returns the first way with the smallest prediction |
| Pcn.FindVictim | Policies/pcn/pcn.cc:92-114 | the victim is the first way of the set with the smallest prediction for its line's features |
| Pcn.Clamp | Policies/pcn/pcn.cc:55-56 | the clamped weight lies in `[-32, 31]` and an in-range value is unchanged |
| Pcn.Train | Policies/pcn/pcn.cc:49-56 | only the hashed entry changes, one step down on a correct prediction and one up otherwise, saturating at the bounds |
| Pcn.UpdateWeights | Policies/pcn/pcn.cc:46-59 | every feature's table is trained and its usage count rises by one |
| Pcn.ResizeTable | Policies/pcn/pcn.cc:63-72 | a table doubles (keeping its weights in its lower half) when used more than ten times its size, halves (keeping its upper half) when used under a tenth of its size and above the initial size, and stays otherwise; weights stay in range |
| Pcn.Grow | Polices/pcn/pcn.h:50-57 | doubling keeps the table valid and every weight in place |
| Pcn.Halve | Polices/pcn/pcn.h:50-57 | halving keeps the table valid and each upper-half weight |
| Pcn.DynamicResize | Policies/pcn/pcn.cc:62-74 | every table takes its resize step and every usage count returns to 0; a table used over ten times its size doubles and one neither growing nor shrinking is kept |
| Pcn.Update | Policies/pcn/pcn.cc:116-134 | only the accessed line's metadata changes, to the access's PC and write flag; each table of the perceptron as trained by this access takes its resize step, counts return to 0, the perceptron stays valid, and one at rest stays at rest |
| Pcn.TableSizePositive | Polices/pcn/pcn.h:17 | every reachable table size is at least `INITIAL_TABLE_SIZE` |
| Pcn.DoubleSize | Policies/pcn/pcn.cc:65 | doubling a reachable size gives a reachable size |
| Pcn.HalfSize | Policies/pcn/pcn.cc:69 | halving a reachable size above the initial one gives a reachable size |
| Pcn.ResizeStepUnique | Policies/pcn/pcn.cc:62-74 | the resize step determines the resized table: two tables both reached from the same table and count are equal |
| WeightTables.ResizedFromUnique | Polices/pcn/pcn.h:50-57 | the resizing relation is a function: two tables resized from the same table to the same size are equal |
| CrcHash.RoundsOfZero | Polices/hawkeye/Hawkeye_Predictor/Hawkeye_Predictor.cc:66-77 | the CRC rounds map a zero address to zero, however many rounds run |
| Hawkeye.CrcOfZero | Polices/hawkeye/Hawkeye_Predictor/Hawkeye_Predictor.cc:66-77 | the 32-round CRC of address 0 is 0, so PC 0 always hashes to counter 0 |
| Hawkeye.SlotOf | Polices/hawkeye/Hawkeye_Predictor/Hawkeye_Predictor.cc:35 | the counter index of a PC lies in `[0, PCMAP_SIZE)` |
| Hawkeye.GetPrediction | Polices/hawkeye/Hawkeye_Predictor/Hawkeye_Predictor.cc:34-40 | a PC is predicted friendly exactly when its counter, taken as the middle value when absent, is at least `(MAX_PCMAP + 1) / 2` |
| Hawkeye.Increase | Polices/hawkeye/Hawkeye_Predictor/Hawkeye_Predictor.cc:42-53 | only the PC's counter changes; it starts at the middle when absent and goes up by one, saturating at `MAX_PCMAP`; counters stay in `[0, 31]` |
| Hawkeye.Decrease | Polices/hawkeye/Hawkeye_Predictor/Hawkeye_Predictor.cc:55-63 | only the PC's counter changes; it starts at the middle when absent and goes down by one unless it is 0 |
| Hawkeye.FirstTraining | Polices/hawkeye/Hawkeye_Predictor/Hawkeye_Predictor.cc:34-63 | an unseen PC is friendly; one increase keeps it friendly and one decrease makes it averse |
| Hawkeye.TrainingMonotone | Polices/hawkeye/Hawkeye_Predictor/Hawkeye_Predictor.cc:42-63 | an increase never turns a friendly PC averse nor a decrease an averse one friendly, and away from the bounds each step undoes the other |
| Hawkeye.ApplyTraining | Polices/hawkeye/Hawkeye_Predictor/Hawkeye_Predictor.cc:200-217 | a sampler verdict trains only the predictor it names, prefetch or demand, and keeps counters in range |
| Hawkeye.Bitmask | Polices/hawkeye/Hawkeye_Predictor/Hawkeye_Predictor.cc:152-154 | `bitmask(l)` has exactly the low `l` bits set, all 64 for `l == 64` |
| Hawkeye.Bits | Polices/hawkeye/Hawkeye_Predictor/Hawkeye_Predictor.cc:157-159 | `bits(x, i, l)` is `x` shifted down by `i` with nothing above bit `l` |
| Hawkeye.BitsIdempotent | Polices/hawkeye/Hawkeye_Predictor/Hawkeye_Predictor.cc:157-159 | taking the low `l` bits twice equals taking them once |
| Hawkeye.New | Polices/hawkeye/Hawkeye_Predictor/Hawkeye_Predictor.cc:81-104 | every line starts at `MAXRRIP` with signature 0 and no prefetch mark, every set timer at 0, with empty sampler sets and empty predictors |
| Hawkeye.LastMax | Polices/hawkeye/Hawkeye_Predictor/Hawkeye_Predictor.cc:118-125 | the scan with `>=` from `max_rrpv = 0` returns the last position of the largest RRPV |
| Hawkeye.FindVictim | Polices/hawkeye/Hawkeye_Predictor/Hawkeye_Predictor.cc:108-139 | the victim is the set's first line at `MAXRRIP`, and otherwise its last line with the largest RRPV, whose PC then trains its predictor down in a sampled set; RRPVs, signatures and the sampler are untouched |
| Hawkeye.Age | Polices/hawkeye/Hawkeye_Predictor/Hawkeye_Predictor.cc:293-307 | unless a line of the set is at `MAXRRIP - 1`, every line of the set below it goes up by one; nothing outside the set changes |
| Hawkeye.AgeKeepsBounds | Polices/hawkeye/Hawkeye_Predictor/Hawkeye_Predictor.cc:302-307 | ageing keeps RRPVs within `[0, MAXRRIP]` and neither creates nor removes a line at `MAXRRIP` |
| Hawkeye.SampleAccess | Polices/hawkeye/Hawkeye_Predictor/Hawkeye_Predictor.cc:186-278 | the sampler set the address selects, its block number modulo 2800 divided by 8, becomes the result of the sampler access at the set's timer; the predictors are trained by that access's verdict, the timer ticks modulo `TIMER_SIZE`, and nothing else changes |
| Hawkeye.SamplerSet | Polices/hawkeye/Hawkeye_Predictor/Hawkeye_Predictor.cc:189 | because `SAMPLER_SETS` expands without parentheses, the set is the block number modulo `SAMPLER_ENTRIES` divided by `SAMPLER_HIST`: eight consecutive blocks share one of the 350 sets |
| Hawkeye.SamplerSetExamples | Polices/hawkeye/Hawkeye_Predictor/Hawkeye_Predictor.h:34-36 | block 350 falls in set 43 and block 8 in set 1, where the block number modulo 350 would give 0 and 8; blocks 0 and 7 share set 0 |
| Hawkeye.Place | Polices/hawkeye/Hawkeye_Predictor/Hawkeye_Predictor.cc:286-310 | an averse line goes to `MAXRRIP`, a friendly one to 0 with the set aged first on a miss; only the set changes and RRPVs stay in range |
| Hawkeye.Mark | Polices/hawkeye/Hawkeye_Predictor/Hawkeye_Predictor.cc:176-183 | a prefetch miss marks the line, a prefetch hit keeps its mark, a demand access clears it; nothing else changes |
| Hawkeye.Finish | Polices/hawkeye/Hawkeye_Predictor/Hawkeye_Predictor.cc:280-310 | the line records the PC as its signature and takes the RRPV the predictor for its access type gives |
| Hawkeye.Update | Polices/hawkeye/Hawkeye_Predictor/Hawkeye_Predictor.cc:167-312 | a writeback changes nothing; any other access records the line's mark and signature and sets its RRPV from the predictor as trained by this access; outside the sampled sets the predictors, timers and sampler are untouched, inside them they change exactly as one sampler access does, in the sampler set of the block number modulo 2800 divided by 8 |
| HawkeyeSampler.Init | Policies/hawkeye/lib_hawkeye/helper_function.h:16-21 | `init` clears every field but the address |
| HawkeyeSampler.Update | Policies/hawkeye/lib_hawkeye/helper_function.h:23-26 | `update` records the time and PC and nothing else |
| HawkeyeSampler.SetPrefetch | Policies/hawkeye/lib_hawkeye/helper_function.h:28-30 | `set_prefetch` sets the flag and nothing else |
| HawkeyeSampler.UpdatePrefetchCommute | Policies/hawkeye/lib_hawkeye/helper_function.h:23-30 | `update` and `set_prefetch` commute, and `set_prefetch` is idempotent |
| HawkeyeSampler.AgeBelow | Polices/hawkeye/Hawkeye_Predictor/Hawkeye_Predictor.cc:142-149 | every entry more recent than the given position ages by one and the others stay |
| HawkeyeSampler.FullHasOldest | Polices/hawkeye/Hawkeye_Predictor/Hawkeye_Predictor.cc:229-237 | a full ordered sampler set holds an entry at position `SAMPLER_HIST - 1`, so the eviction loop finds one |
| HawkeyeSampler.Oldest | Polices/hawkeye/Hawkeye_Predictor/Hawkeye_Predictor.cc:231-237 | the entry a full set gives up is its least recent one |
| HawkeyeSampler.Drop | Polices/hawkeye/Hawkeye_Predictor/Hawkeye_Predictor.cc:238 | erasing removes exactly one entry and keeps the rest |
| HawkeyeSampler.MovedToFront | Polices/hawkeye/Hawkeye_Predictor/Hawkeye_Predictor.cc:275-276 | moving the accessed entry to position 0 after the others shifted keeps the sampler ordered |
| HawkeyeSampler.DemandHit | Polices/hawkeye/Hawkeye_Predictor/Hawkeye_Predictor.cc:192-225 | a demand access to a known tag trains its recorded PC up when the reuse, unwrapped across the timer, lies within OPTgen's window and OPT would have cached it, and down otherwise; the entry stops counting as a prefetch |
| HawkeyeSampler.DemandHitMoved | Polices/hawkeye/Hawkeye_Predictor/Hawkeye_Predictor.cc:219-224 | after a demand hit the other entries keep distinct positions from 1 up |
| HawkeyeSampler.PrefetchHit | Polices/hawkeye/Hawkeye_Predictor/Hawkeye_Predictor.cc:256-273 | a prefetch to a known tag trains its recorded PC up only when it comes within five ticks of the last access and OPT would have cached it; the entry becomes a prefetch |
| HawkeyeSampler.PrefetchHitMoved | Polices/hawkeye/Hawkeye_Predictor/Hawkeye_Predictor.cc:268-271 | after a prefetch hit the other entries keep distinct positions from 1 up |
| HawkeyeSampler.Kept | Polices/hawkeye/Hawkeye_Predictor/Hawkeye_Predictor.cc:229-239 | a set that is not full keeps every entry, a full one all but its least recent |
| HawkeyeSampler.Insert | Polices/hawkeye/Hawkeye_Predictor/Hawkeye_Predictor.cc:227-254 | a new tag trains nothing, is added to the kept entries and is marked as a prefetch exactly for a prefetch |
| HawkeyeSampler.InsertMoved | Polices/hawkeye/Hawkeye_Predictor/Hawkeye_Predictor.cc:253 | after an insertion the other entries keep distinct positions from 1 up |
| HawkeyeSampler.InsertedOthers | Polices/hawkeye/Hawkeye_Predictor/Hawkeye_Predictor.cc:253 | every entry kept by an insertion ages by exactly one |
| HawkeyeSampler.Access | Polices/hawkeye/Hawkeye_Predictor/Hawkeye_Predictor.cc:186-277 | the accessed tag ends at position 0 with this access's time and PC; every other entry keeps its address, PC, time and prefetch mark, and the others keep their relative LRU order; the sampler stays ordered, and the verdict is the demand-hit, prefetch-hit or insertion one as the case requires |
| Hawkeye.PlainAccess | Polices/hawkeye/Hawkeye_Predictor/Hawkeye_Predictor.cc:176-312 | an access other than a writeback to an unsampled set records the line's prefetch mark and signature and sets its RRPV from the untouched predictors; the sampler, predictors and timers stay as they were |
| Hawkeye.SampledAccess | Polices/hawkeye/Hawkeye_Predictor/Hawkeye_Predictor.cc:176-312 | an access other than a writeback to a sampled set records the line's prefetch mark and signature; the sampler, predictors and timer change exactly as one sampler access does in the sampler set of the block number modulo 2800 divided by 8, and the RRPV comes from the predictors as that access trained them |
| Mockingjay.NewVariantValid | Polices/mockingjay/mockingjay.h:13-41 | with 512 sets the derived widths are 10 signature bits, 11 tag bits, 13 sampled-index bits and a 5-bit sampling mask, and every shift amount is in range |
| Mockingjay.OldVariantValid | Policies/mockingjay/mockingjay.cc:10-33 | with 1376 sets, whose logarithm truncates to 10, the widths are 11 signature bits, 10 tag bits, 14 index bits and a 5-bit mask |
| Mockingjay.Signature | Polices/mockingjay/mockingjay.cc:42-66 | the signature is the low `PC_SIGNATURE_BITS` bits of the 3-round CRC of the PC with the hit and prefetch bits (one core) or the prefetch bit and core number (several) shifted in |
| Mockingjay.SampledIndex | Polices/mockingjay/mockingjay.cc:68-73 | the sampled-cache index is the block number modulo `2^(LOG2_SAMPLED_CACHE_SETS + LOG2_LLC_SET)` |
| Mockingjay.SampledTag | Polices/mockingjay/mockingjay.cc:75-79 | the tag is the `SAMPLED_CACHE_TAG_BITS` bits above the set, block and sampled-set bits |
| Mockingjay.IncrementTimestamp | Polices/mockingjay/mockingjay.cc:121-125 | the timestamp counts up modulo 256, wrapping from 255 to 0 |
| Mockingjay.TimeElapsed | Polices/mockingjay/mockingjay.cc:127-133 | for 8-bit timestamps the elapsed time is `(global - local) mod 256`, within `[0, INF_RD]` |
| Mockingjay.TicksWrap | Polices/mockingjay/mockingjay.cc:121-125 | `n` increments from `t` give `(t + n) mod 256` |
| Mockingjay.ElapsedAfterTicks | Polices/mockingjay/mockingjay.cc:121-133 | a line stamped at `t` and looked at `n` sampled accesses later measures `n mod 256`, so a reuse distance is exact below 256 accesses |
| Mockingjay.TemporalDifference | Polices/mockingjay/mockingjay.cc:105-119 | the prediction moves one step toward the sample exactly when they differ by at least 16, clamped to `[0, INF_RD]`, and always stays between the old prediction and the sample |
| Mockingjay.Detrain | Polices/mockingjay/mockingjay.cc:91-103 | an invalid line changes nothing; a valid one is invalidated and its signature's prediction goes up by one, saturating at `INF_RD`, or becomes `INF_RD` when unknown |
| Mockingjay.DetrainIdempotent | Polices/mockingjay/mockingjay.cc:91-103 | detraining twice is detraining once, since the first call invalidates the line |
| Mockingjay.SearchSampledCache | Polices/mockingjay/mockingjay.cc:81-89 | the result is the first valid way holding the tag, and -1 exactly when no valid way holds it |
| Mockingjay.Weighed | Polices/mockingjay/mockingjay.cc:230-232 | a demand sample is kept, a prefetch sample is scaled by `FLEXMIN_PENALTY` and truncated, doubling it on one core |
| Mockingjay.Train | Polices/mockingjay/mockingjay.cc:222-243 | a line seen more than `INF_RD` accesses ago changes nothing; otherwise the line is consumed and only its signature's prediction changes: set to the sample when new, moved by `temporal_difference` (by at most one) when known; predictions stay non-negative |
| Mockingjay.DetrainNonNegative | Polices/mockingjay/mockingjay.cc:97-101 | detraining keeps every prediction non-negative |
| Mockingjay.LruStep | Polices/mockingjay/mockingjay.cc:248-266 | one step of the victim scan: an invalid line takes over, an older valid line takes over, a younger one leaves the choice alone |
| Mockingjay.SelectLru | Polices/mockingjay/mockingjay.cc:246-266 | with timestamps from the 8-bit counter the scan detrains nothing and picks the last invalid line, or else the first of the oldest valid lines |
| Mockingjay.FirstInvalidFrom | Polices/mockingjay/mockingjay.cc:269-279 | the result is the first invalid line from the given way on, or the end |
| Mockingjay.FirstInvalid | Polices/mockingjay/mockingjay.cc:269-279 | the line the access fills is the first invalid one, and there is none exactly when every line is valid |
| Mockingjay.SamplerStep | Polices/mockingjay/mockingjay.cc:214-281 | a sampled access first trains the first line holding its tag, then detrains the sampler's LRU choice and fills the first free line with this access's signature and time; tags stay unique and other lines are kept or invalidated |
| Mockingjay.Init | Policies/mockingjay/mockingjay.cc:131-147 | every clock starts at `GRANULARITY`, every timestamp at 0, and the sampled-cache sets of the sampled sets are allocated with every line invalid |
| Mockingjay.InitAsWritten | Polices/mockingjay/mockingjay.cc:137-154 | as written the allocated sampled lines hold whatever the memory held |
| Mockingjay.JunkInitHits | Polices/mockingjay/mockingjay.cc:149-150 | leftover memory that reads as a valid line makes the first access with tag 0 hit a line never filled, and a leftover timestamp of 1000 leaves the 8-bit range |
| Mockingjay.InitNoHits | Policies/mockingjay/mockingjay.cc:143 | with value-initialised lines no access hits the sampler before a fill |
| Mockingjay.IndexAllocated | Polices/mockingjay/mockingjay.cc:144-151 | the sampled-cache index of any address that falls in a sampled set was allocated at initialisation |
| Mockingjay.MaxAbs | Polices/mockingjay/mockingjay.cc:174-183 | the result bounds every way's `abs(etr)` and is reached by some way |
| Mockingjay.MaxAbsPrefix | Polices/mockingjay/mockingjay.cc:176-183 | extending the scanned ways by one updates the maximum by that way's `abs(etr)` |
| Mockingjay.EtrScanStep | Polices/mockingjay/mockingjay.cc:177-182 | one step of the scan: a way further out, or an overdue way as far out, takes over |
| Mockingjay.MaxEtrScan | Polices/mockingjay/mockingjay.cc:174-183 | the scan returns the largest `abs(etr)` and the way it picks: the last overdue way at that distance if any, else the first way at it |
| Mockingjay.FindVictim | Polices/mockingjay/mockingjay.cc:161-194 | the first invalid way wins; otherwise the access bypasses (`LLC_WAY`) exactly when it is not a write and its signature predicts past `MAX_RD` or beyond the largest ETR, and else the ETR scan's way is evicted |
| Mockingjay.EtrFor | Polices/mockingjay/mockingjay.cc:295-309 | an inserted line's ETR is its signature's prediction over `GRANULARITY`, `INF_ETR` past `MAX_RD`, and for an unknown signature 0 on one core and `INF_ETR` otherwise |
| Mockingjay.BypassMatchesEtr | Polices/mockingjay/mockingjay.cc:185-191 | a bypassed block would have been inserted at least as far out as every resident way, and a known non-write block that is not bypassed no further out |
| Mockingjay.NextClock | Polices/mockingjay/mockingjay.cc:284-292 | the clock cycles through `1 .. GRANULARITY` |
| Mockingjay.AgingCadence | Polices/mockingjay/mockingjay.cc:141 | from the initial `GRANULARITY` the clock is back at `GRANULARITY` exactly after a multiple of 8 accesses, so a set ages on every 8th access starting with the first |
| Mockingjay.AgeRow | Polices/mockingjay/mockingjay.cc:284-291 | on an aging access every way but the accessed one whose `abs(etr)` is below `INF_ETR` goes down by one; ETRs stay within `INF_ETR` of zero |
| Mockingjay.Update | Polices/mockingjay/mockingjay.cc:197-310 | a write hit changes nothing and a write miss marks its way due at once; any other access to a sampled set trains the predictor on an earlier sighting of the block, detrains the sampler's chosen line and records the access in the first free line, which fixes the new predictor and sampled set exactly; every non-write access ages and clocks its set, gives the way the ETR the updated predictor gives its signature and keeps the state valid, touching no other set |
| Mockingjay.WriteUpdate | Polices/mockingjay/mockingjay.cc:201-206 | a write hit leaves the whole state as it was; a write miss sets only that way's ETR to minus INF_ETR and the state stays valid |
| Mockingjay.AccessUpdate | Polices/mockingjay/mockingjay.cc:209-310 | a non-write access of a sampled set leaves the predictor and the sampled set exactly as training on an earlier sighting, detraining the sampler's choice and recording the access in the first free line make them; every access ages and clocks its set and gives the way the ETR the updated predictor gives its signature; unsampled sets leave the predictor, sampler and timestamps alone |
| Mockingjay.FirstMatch | Polices/mockingjay/mockingjay.cc:81-89 | the first valid line holding the tag, or the number of lines exactly when no valid line holds it |
| Mockingjay.LruChoiceUnique | Polices/mockingjay/mockingjay.cc:246-266 | the sampler's victim choice names a single line |
| Mockingjay.TrainStep | Polices/mockingjay/mockingjay.cc:219-243 | the hit half of the step trains the first line holding the tag exactly when there is one, after which no valid line holds the tag; a miss changes nothing |
| Mockingjay.RecordStep | Polices/mockingjay/mockingjay.cc:246-279 | the fill half detrains the sampler's LRU choice and records the access in the first free line, which then is the first line holding its tag |
| Mockingjay.SamplerPart | Polices/mockingjay/mockingjay.cc:214-282 | in a sampled set the set's timestamp ticks, only the access's sampled-cache set changes, and that set and the predictor are exactly what training on an earlier sighting, detraining the sampler's choice and recording the access in the first free line make of them; in other sets nothing changes; the ETR state is untouched and the state stays valid |
| Mockingjay.EtrPart | Polices/mockingjay/mockingjay.cc:284-310 | after the sampler step, the set's other ways age on every `GRANULARITY`-th access, the clock advances, and the accessed way takes the ETR the updated predictor gives its signature; no other set and no sampler field changes |
| Mockingjay.SamplerUpdatedUnique | Polices/mockingjay/mockingjay.cc:214-282 | the sampler step's outcome is determined: two results that both meet its description agree on the predictor, the sampled cache and the timestamps |
| Gshare.HistoryMaskShape | Branch/gshare-gem5/gshare.cc:28 | `mask(globalHistoryBits)` stored in an `unsigned` keeps the low `min(bits, 32)` bits: it is `2^min(bits, 32) - 1` |
| Gshare.New | Branch/gshare-gem5/gshare.cc:13-34 | construction fails exactly when the counter table size is not a power of two; otherwise every thread's history and every counter start at 0, the index mask is `size - 1` and the state is valid |
| Gshare.NewValid | Branch/gshare-gem5/gshare.cc:25-32 | the constructed masks and threshold make a valid predictor, and the threshold is the midpoint: `2 * (threshold + 1)` is the counter range |
| Gshare.ShiftWraps | Branch/gshare-gem5/gshare.cc:49 | shifting an `unsigned` history left and or-ing the outcome in is `(2 * h + taken) mod 2^32` |
| Gshare.ShiftInKeepsLast | Branch/gshare-gem5/gshare.cc:49-51 | shifting in an outcome under a mask of `k <= 32` bits keeps the last `k` outcomes: `(2 * h + taken) mod 2^k` |
| Gshare.UpdateGlobalHist | Branch/gshare-gem5/gshare.cc:47-52 | only the thread's history changes, to `(2 * h + taken) mod 2^bits`; the predictor stays valid |
| Gshare.BtbUpdate | Branch/gshare-gem5/gshare.cc:55-59 | a BTB miss clears the newest outcome bit of the thread's history and changes nothing else |
| Gshare.ClearedHistory | Branch/gshare-gem5/gshare.cc:58 | and-ing a masked history with `mask & ~1` clears exactly its lowest bit |
| Gshare.ChoiceIndex | Branch/gshare-gem5/gshare.cc:75 | and-ing with the index mask of a power-of-two table is the remainder modulo its size, so the index is in range |
| Gshare.SnapshotIsHistory | Branch/gshare-gem5/gshare.cc:83 | a history already masked is unchanged by the mask, so the snapshot is the history itself |
| Gshare.Lookup | Branch/gshare-gem5/gshare.cc:61-99 | the prediction is taken exactly when the counter at the xor of the PC index and history is above the threshold; the handle snapshots the history before the lookup, and the history then shifts in the prediction |
| Gshare.UncondBranch | Branch/gshare-gem5/gshare.cc:101-109 | an existing handle is kept and a missing one snapshots the history; the history shifts in a taken outcome |
| Gshare.UpdateHistories | Branch/gshare-gem5/gshare.cc:146-158 | the predictor state is unchanged; an existing handle is kept and a missing one snapshots the history |
| Gshare.Saturate | Branch/gshare-gem5/gshare.cc:132-139 | the `SatCounter8` step: up by one below the maximum, down by one above zero, and otherwise unchanged |
| Gshare.Update | Branch/gshare-gem5/gshare.cc:113-144 | a squashed update keeps the counters and the handle and rebuilds the history from the snapshot and the real outcome; a resolved one releases the handle, keeps the histories and saturates only the counter indexed by the snapshot |
| Gshare.Squash | Branch/gshare-gem5/gshare.cc:159-168 | the handle is released and the thread's history restored from its snapshot; with no handle nothing changes |
| Gshare.GetGhr | Branch/gshare-gem5/gshare.cc:170-176 | a missing handle is the fatal error, otherwise the snapshot is returned |
| Gshare.LookupThenSquash | Branch/gshare-gem5/gshare.cc:61-99 | squashing right after a lookup restores the predictor exactly and leaves no handle |
| Gshare.UncondThenSquash | Branch/gshare-gem5/gshare.cc:101-109 | squashing right after an unconditional branch restores the predictor exactly |
| Gshare.SquashedUpdateRepairs | Branch/gshare-gem5/gshare.cc:122-128 | a squashed update right after a lookup leaves the history as if the real outcome had been shifted in instead of the prediction |
| Gshare.UpdateTrainsLookedUpCounter | Branch/gshare-gem5/gshare.cc:131-139 | a resolved update after a lookup trains exactly the counter the lookup read, in the direction of the outcome |
| VerifyOutputs.CombosCount | testsOldChampSim/verify.py:17-22 | the loops check one expected run per size, policy, branch predictor and prefetcher |
| VerifyOutputs.CombosAt | testsOldChampSim/verify.py:17-20 | the loops nest sizes outermost and prefetchers innermost: combination `(z, p, b, f)` is checked at its mixed-radix position |
| VerifyOutputs.MissingIn | testsOldChampSim/verify.py:17-28 | a path is reported for an existing sample folder exactly when some expected run's `_output_DONE.txt` name is not in the folder |
| VerifyOutputs.MissingInAppend | testsOldChampSim/verify.py:17-28 | the report keeps the loop's order: the report for one run of combinations followed by another is the first report followed by the second |
| VerifyOutputs.MissingInStep | testsOldChampSim/verify.py:17-28 | each combination in loop order appends its own path to the report when its file is absent and nothing when it is present |
| VerifyOutputs.SampleMissing | testsOldChampSim/verify.py:12-15 | a sample folder that does not exist reports nothing |
| VerifyOutputs.Missing | testsOldChampSim/verify.py:8-28 | the samples from the given one to `Sample4` report exactly the missing files of the folders that exist |
| VerifyOutputs.MissingOrder | testsOldChampSim/verify.py:8-28 | the folders are reported in ascending order: the report is `Sample1`'s followed by `Sample2`'s, `Sample3`'s and `Sample4`'s |
| VerifyOutputs.VerifyFiles | testsOldChampSim/verify.py:5-30 | a path is reported exactly when one of `Sample1` .. `Sample4` exists and lacks the completed-run file of some expected run; the report lists the folders in ascending order, each in the size, policy, branch, prefetch loop order; folders that do not exist are skipped |
| VerifyOutputs.AllPresent | testsOldChampSim/verify.py:40-45 | nothing is reported exactly when every existing sample folder holds every expected file |
| RunNames.Show | testsOldChampSim/champsim.py:207 | an f-string renders a present name as itself and a missing one as `None` |
| RunNames.TempDoneDiffer | testsOldChampSim/champsim.py:205-212 | the temporary log and the completed file share the stem and are never the same name |
| RunNames.Layout | testsOldChampSim/champsim.py:207 | a name places the trace, `_pol:`, the policy, `_bra:`, the branch predictor, `_pre:`, the prefetcher and the suffix at fixed positions |
| RunNames.Colons | testsOldChampSim/champsim.py:207 | with colon-free fields and suffix the only colons of a name end its three markers |
| RunNames.StemMarked | testsOldChampSim/champsim.py:211 | such a name carries the three markers at the positions the runner wrote them, and no other colon |
| RunNames.PolMarker | testsOldChampSim/results/graphic.py:22-28 | in a marked name the first `_pol:` and the first `pol:` are the ones the runner wrote |
| RunNames.BraMarker | testsOldChampSim/results/graphic.py:28-34 | the first `_bra:` after the policy marker and the first `bra:` are the ones the runner wrote |
| RunNames.PreMarker | testsOldChampSim/results/graphic.py:34-40 | the first `_pre:` after the branch marker and the first `pre:` are the ones the runner wrote |
| ChampSimResults.ParseName | testsOldChampSim/results/graphic.py:17-43 | a name not ending in `.txt` is skipped, and a parsed prefetcher is the lazy group between `pre:` and the end pattern |
| ChampSimResults.RoundTrip | testsOldChampSim/results/graphic.py:22-43 | a runner name with colon-free fields, read back with its own suffix as end pattern, gives exactly the four fields it was built from |
| ChampSimResults.ParseLaidOut | testsOldChampSim/results/graphic.py:22-43 | any name laid out as the runner lays it out parses to its fields |
| ChampSimResults.ParseMarked | testsOldChampSim/results/graphic.py:22-43 | a name with the three markers in place parses to the stretches between them and the suffix |
| ChampSimResults.GroupsFound | testsOldChampSim/results/graphic.py:22-37 | the trace, policy and branch groups are the stretches between the markers |
| ChampSimResults.PrefetcherFound | testsOldChampSim/results/graphic.py:40-43 | the prefetcher group runs from `pre:` to the first match of the end pattern |
| ChampSimResults.ParseNameOf | testsOldChampSim/results/graphic.py:22-43 | four groups found make the parsed key |
| ChampSimResults.DoneRoundTrip | testsOldChampSim/results/graphic.py:40 | the older script reads the fields of every completed run name back |
| ChampSimResults.TempRoundTrip | testsChampSim/results/graphic.py:37 | the newer script reads the fields of every temporary log name back |
| ChampSimResults.DoneNameInjective | testsOldChampSim/champsim.py:211 | two runs with different fields never share a completed name |
| ChampSimResults.OldSkipsTemp | testsOldChampSim/results/graphic.py:40-42 | the older script skips the log of a run that has not finished |
| ChampSimResults.OldSkipsLaidOut | testsOldChampSim/results/graphic.py:40-42 | any name laid out with the temporary suffix is skipped by the older script |
| ChampSimResults.ParseNameNone | testsOldChampSim/results/graphic.py:41-42 | a name whose prefetcher group is not found is skipped |
| ChampSimResults.NewSkipsDone | testsChampSim/results/graphic.py:37-39 | the newer script's `_output.txt` pattern does not match a completed `_output_DONE.txt` name, so completed runs are skipped |
| ChampSimResults.NewSkipsLaidOut | testsChampSim/results/graphic.py:37-39 | any name laid out with the completed suffix is skipped by the newer script |
| ChampSimResults.NewSkipsMarked | testsChampSim/results/graphic.py:37-39 | past the prefetcher field only `_output_DONE.txt` is left, where `_output.txt` cannot match |
| ChampSimResults.RunnerNameSkipped | testsChampSim/champsim.py:62 | the newer runner's own logs, `{trace}_{policy}_output.txt`, carry no marker, so its result script skips every one of them |
| ChampSimResults.NoColonSkipped | testsChampSim/results/graphic.py:19-21 | a name without a colon is skipped at the first marker |
| ChampSimResults.ParseFile | testsOldChampSim/results/graphic.py:16-49 | a file contributes an entry only under the key `{branch}_{prefetcher}` of its parsed name; an unparsed name or a report without the IPC line is skipped |
| ChampSimResults.ParseDoneReport | testsOldChampSim/results/graphic.py:45-49 | a completed run whose report states `CPU 0 cumulative IPC: w.frac` contributes exactly that value under its own trace, policy and key |
| NumberText.NumRun | testsOldChampSim/results/graphic.py:46 | `[\d\.]+` is greedy: the run covers only digits and dots and stops at the first other character or the end |
| NumberText.SpaceRun | testsGem5/results/graphic.py:42 | `\s+` is greedy: the run covers only whitespace and stops at the first other character or the end |
| NumberText.NumberStart | testsScarab/results/graphic.py:54 | the regex matches at a position exactly when the literal is there, then the gap (none, `\s*` or `\s+`) and a digit or dot; group 1 starts after the gap |
| NumberText.FindNumber | testsGem5/results/graphic.py:42 | the search returns the leftmost position from which the regex matches, and none when it matches nowhere |
| NumberText.SearchNumber | testsOldChampSim/results/graphic.py:46-47 | `re.search` fails exactly when the regex matches at no position, and group 1 is a non-empty run of digits and dots |
| NumberText.SearchFindsFirst | testsGem5/results/graphic.py:42-44 | a report opening with the literal, a fitting gap and a figure followed by a non-figure character yields exactly that figure |
| NumberText.SearchAtStart | testsScarab/results/graphic.py:54-59 | a match at the start yields the run right after the gap |
| NumberText.SpaceRunOver | testsGem5/results/graphic.py:42 | the gap consumes exactly the whitespace before the figure |
| NumberText.NumRunOver | testsOldChampSim/results/graphic.py:46 | the group consumes exactly the figure, up to the first other character |
| NumberText.FloatDefined | testsOldChampSim/results/graphic.py:48 | `float` accepts a run of digits and dots exactly when it has at most one dot and at least one digit, and raises otherwise |
| NumberText.DotSplitCount | testsOldChampSim/results/graphic.py:48 | a run with a dot has one dot more than its part after the first dot |
| NumberText.DotSplitDigits | testsOldChampSim/results/graphic.py:48 | around the single dot of an accepted figure both parts are digits, and there is a digit exactly when the parts are not both empty |
| NumberText.FloatOfNat | testsOldChampSim/results/graphic.py:48 | `float(str(n))` is `n` |
| NumberText.FloatAt | testsOldChampSim/results/graphic.py:48 | a figure with one dot reads as its integer part plus its fraction |
| NumberText.FloatOfDecimal | testsOldChampSim/results/graphic.py:48 | `float(f"{n}.{frac}")` is `n` plus `frac` read as a decimal fraction with as many places as it has digits |
| OrderedDict.IndexOfKey | testsOldChampSim/results/graphic.py:49 | the position of a key is the first pair holding it |
| OrderedDict.Get | testsOldChampSim/results/graphic.py:715 | a lookup fails exactly when the key is absent, and in a dictionary without repeated keys returns the value stored with it |
| OrderedDict.Put | testsOldChampSim/results/graphic.py:49 | assigning to an existing key keeps every key in place, a new key goes last; keys stay distinct, the key reads back the new value and every other key reads as before |
| OrderedDict.GetPut | testsOldChampSim/results/graphic.py:49 | after an assignment the key reads the new value and every other key its old one |
| OrderedDict.PutIdempotent | testsOldChampSim/results/graphic.py:49 | assigning the same value twice is assigning it once |
| OrderedDict.GetPutSame | testsOldChampSim/results/graphic.py:49 | the assigned value reads back even in a dictionary with repeated keys |
| OrderedDict.DictExt | testsOldChampSim/results/graphic.py:57-58 | two dictionaries with the same keys in the same order and the same lookups are the same dictionary, so iteration sees the same items |
| ResultData.Store | testsOldChampSim/results/graphic.py:49 | storing through the nested default dictionaries keeps them free of repeated keys and adds a trace at the end only when it is new |
| ResultData.InnerWellFormed | testsOldChampSim/results/graphic.py:13 | the policy dictionary of any trace has no repeated keys |
| ResultData.InnerDistinct | testsOldChampSim/results/graphic.py:13 | the key dictionary of any policy has no repeated keys |
| ResultData.PutKeepsWellFormedPolicies | testsOldChampSim/results/graphic.py:49 | replacing a policy's dictionary by one without repeated keys keeps the policy level well formed |
| ResultData.PutKeepsWellFormed | testsOldChampSim/results/graphic.py:49 | replacing a trace's dictionary by a well-formed one keeps the table well formed |
| ResultData.StoreLookup | testsOldChampSim/results/graphic.py:49 | after `data[trace][policy][key] = ipc` that cell reads `ipc` and every other cell reads as before |
| ResultData.PolicyBars | testsOldChampSim/results/graphic.py:131-133 | one bar per item of a policy's dictionary, in dictionary order |
| ResultData.TraceBars | testsOldChampSim/results/graphic.py:860-863 | every bar collected for a trace is an entry of the table: its policy holds its key with its IPC |
| ResultData.TraceBarsCount | testsOldChampSim/results/graphic.py:860-863 | a trace contributes one bar per stored entry |
| ResultData.Collect | testsOldChampSim/results/graphic.py:16-49 | a completed parsing loop leaves a table without repeated keys at any level |
| ResultData.CollectLookup | testsOldChampSim/results/graphic.py:16-49 | every cell of the table holds the IPC of the last file, in listing order, that wrote it, and cells no file wrote are absent |
| ResultData.CollectFails | testsOldChampSim/results/graphic.py:48 | the loop stops with an error exactly when some file's figure is one `float` rejects |
| ResultData.PolicyBarsComplete | testsOldChampSim/results/graphic.py:131-133 | every key of a policy's dictionary yields a bar with its IPC |
| ResultData.TraceBarsComplete | testsOldChampSim/results/graphic.py:860-863 | every entry stored for a trace is one of its bars |
| Selection.TopK | testsOldChampSim/results/graphic.py:102 | `sorted(..., reverse=True)[:k]` keeps `min(k, n)` elements in descending order, drawn from the input, none below any element left out |
| Selection.WorstMedianBest | testsOldChampSim/results/graphic.py:720-725 | the three picks ascend, the first and last bound every entry, and the middle one has exactly `n // 2` entries at or below it and the rest at or above it |
| Selection.MemberOfPermutation | testsOldChampSim/results/graphic.py:720 | sorting loses no entry |
| Selection.SortedSplit | testsOldChampSim/results/graphic.py:722-724 | in an ascending list the entries before a position are at most its value, those after at least, and the ends are the extremes |
| Selection.FormatBp | testsOldChampSim/results/graphic.py:419 | only the first underscore of a branch-prefetcher key becomes the bar separator, and a key without an underscore is unchanged |
| Selection.FirstOtherPolicy | testsOldChampSim/results/graphic.py:1056-1064 | the first later candidate whose policy differs, or none when all share the first one's policy |
| Selection.PickDistinct | testsOldChampSim/results/graphic.py:1056-1064 | the loop keeps the first candidate and then the first one of another policy; it finds two exactly when the candidates span two policies |
| Selection.MidPicks | testsOldChampSim/results/graphic.py:1046-1064 | at most two mid-range picks, two exactly when the mid-range entries span two policies, from different policies and drawn from the entries strictly between the worst and the best |
| Selection.SameOnePolicy | testsOldChampSim/results/graphic.py:1053 | reordering the mid-range entries by distance keeps whether they all share one policy |
| Selection.FourIpc | testsOldChampSim/results/graphic.py:1031-1070 | a trace is skipped exactly when it has fewer than four entries or its mid-range entries share one policy; otherwise four entries ascend, the first a minimum and the last a maximum of the trace, the middle two from different policies |
| Selection.FinalFour | testsOldChampSim/results/graphic.py:1068-1070 | the worst, the two picks and the best, sorted again, form such a four |
| Selection.FourProps | testsOldChampSim/results/graphic.py:1068-1070 | the sorted four ascend, bound every entry and are drawn from the trace |
| Selection.FourShape | testsOldChampSim/results/graphic.py:1070 | the final sort keeps the worst first, the best last and the two picks in the middle |
| Selection.FourBounds | testsOldChampSim/results/graphic.py:1043-1045 | the first and last of the ascending sort bound every entry |
| Selection.MidBetween | testsOldChampSim/results/graphic.py:1047 | every mid-range entry lies between the worst and the best |
| Selection.PerTrace | testsOldChampSim/results/graphic.py:858-867 | one group per trace with a non-empty selection, holding that selection, and every such trace gets one |
| Selection.TraceTop3 | testsOldChampSim/results/graphic.py:860-870 | a trace shows the `min(3, n)` highest of all its entries in descending order, drawn from them, with no entry left out ranked above one shown |
| Selection.TraceFourIpc | testsOldChampSim/results/graphic.py:1029-1070 | a trace shows four entries meeting the selection, or nothing exactly when it is skipped |
| Selection.PolicyTopK | testsOldChampSim/results/graphic.py:565-567 | a policy shows at most `k` bars, all its own: nothing when the policy is absent, and otherwise the `min(k, n)` highest of its own entries in descending order, none left out above one shown |
| Selection.TraceTopPerPolicy | testsOldChampSim/results/graphic.py:562-576 | the "top 5" plot shows bars of the selected policies only; its exact content per policy is stated by `Selection.TopPerPolicyShare` |
| Selection.AtMostKPerPolicy | testsOldChampSim/results/graphic.py:566-567 | with distinct selected policies each contributes at most four bars, so the plot titled top 5 shows at most four per policy |
| Selection.PolicyWorstMedianBest | testsOldChampSim/results/graphic.py:714-725 | a policy shows three of its own bars exactly when it is present with at least three entries, nothing otherwise, and those three are the worst, median and best of its own entries |
| Selection.TraceWorstMedianBest | testsOldChampSim/results/graphic.py:712-737 | the plot shows a multiple of three bars, all of selected policies; its exact content per policy is stated by `Selection.WorstMedianBestShare` |
| Selection.AllEntries | testsOldChampSim/results/graphic.py:96-99 | every `(trace, bar)` collected is an entry of the table, and every entry of the table is collected |
| Selection.AllLabelled | testsOldChampSim/results/graphic.py:96-99 | every labelled value collected for the global plot is the IPC of an entry its label names, and every entry appears under its label |
| Selection.Top10 | testsOldChampSim/results/graphic.py:90-102 | the global plot shows the `min(10, n)` highest of all labelled entries in descending order, each the IPC of the entry its label names |
| Selection.TopPerPolicyShare | testsOldChampSim/results/graphic.py:562-576 | in the "top 5" plot each selected policy's bars are exactly its own top `k`, and unselected policies show nothing |
| Selection.WorstMedianBestShare | testsOldChampSim/results/graphic.py:712-737 | in the worst/median/best plot each selected policy's bars are exactly its own worst, median and best, and unselected policies show nothing |
| Selection.Top10Highest | testsOldChampSim/results/graphic.py:90-102 | an entry left out of the global plot ranks no higher than every one of the ten shown |
| Sorting.Insert | testsOldChampSim/results/graphic.py:60 | inserting into an ascending list keeps it ascending and adds exactly the one element |
| Sorting.SortBy | testsOldChampSim/results/graphic.py:60 | `sorted(items, key=...)` is ascending by the key and a permutation of its input |
| Sorting.SortDescBy | testsOldChampSim/results/graphic.py:566 | `sorted(..., reverse=True)` is descending by the key and a permutation of its input |
| Sorting.SortThree | testsOldChampSim/results/graphic.py:1070 | three entries whose last is the largest sort by ordering the first two |
| Sorting.SortFour | testsOldChampSim/results/graphic.py:1068-1070 | sorting the worst, two mid-range picks and the best keeps the worst first and the best last and orders the picks |
| Sorting.InsertFront | testsOldChampSim/results/graphic.py:1070 | an element no larger than the head of an ascending list is inserted in front |
| Sorting.StrLessIrreflexive | testsOldChampSim/results/graphic.py:403 | Python's string order is irreflexive |
| Sorting.StrLessTransitive | testsOldChampSim/results/graphic.py:403 | Python's string order is transitive |
| Sorting.StrLessTotal | testsOldChampSim/results/graphic.py:403 | any two different strings are ordered one way or the other |
| Sorting.InsertStr | testsOldChampSim/results/graphic.py:387 | inserting a string into a sorted list keeps it sorted and adds exactly that string |
| Sorting.SortStrings | testsOldChampSim/results/graphic.py:403 | `sorted(data.keys())` is in string order and a permutation of the keys |
| Sorting.SortByStable | testsOldChampSim/results/graphic.py:60 | `sorted` is stable: entries with equal keys keep their input order |
| Sorting.SortDescByStable | testsOldChampSim/results/graphic.py:566 | `sorted(..., reverse=True)` is stable too: entries with equal keys keep their input order |
| Gem5Results.ParseReport | testsGem5/results/graphic.py:35-48 | a file not ending in `.txt` or without the `system.cpu.ipc` line is skipped; an entry goes under the fixed trace, the policy folder and the key `{branch}_{prefetcher}` of its folders |
| Gem5Results.ReportEntry | testsGem5/results/graphic.py:42-48 | a report stating `system.cpu.ipc`, whitespace and `w.frac` contributes exactly that value under its folders' key |
| Gem5Results.PutAll | testsGem5/results/graphic.py:129-131 | copying a policy's entries into the merged dictionary keeps its keys distinct |
| Gem5Results.PutAllGet | testsGem5/results/graphic.py:129-131 | after copying, a key the policy has reads the policy's value and any other key its old value |
| Gem5Results.Aggregate | testsGem5/results/graphic.py:126-131 | the merged dictionary of a trace has no repeated keys |
| Gem5Results.AggregateKeepsLast | testsGem5/results/graphic.py:126-131 | for a key several policies share, the merged dictionary keeps the value of the last policy in dictionary order, so the other policies' bars are lost |
| Gem5Results.EachTraceBars | testsGem5/results/graphic.py:134 | the per-trace bars are the merged dictionary's items, ascending by IPC |
| Gem5Results.Gem5Top10 | testsGem5/results/graphic.py:90-100 | the global plot shows the `min(10, n)` highest of all labelled entries in descending order, each the IPC of an entry whose label is the trace and the branch-prefetcher key joined by a bar separator without its policy |
| Gem5Results.Gem5Top10Highest | testsGem5/results/graphic.py:90-100 | an entry left out of the global plot ranks no higher than every one of the ten shown |
| ScarabResults.SliceDropEnd | testsScarab/results/graphic.py:27 | Python's `parts[1:-3]`: empty when the list is too short, otherwise the elements between |
| ScarabResults.ParseTraceName | testsScarab/results/graphic.py:15-27 | a folder name with at most four dot-separated parts gives the empty trace name |
| ScarabResults.TraceNameOf | testsScarab/results/graphic.py:15-27 | a folder named `<tool>.<trace>.<n1>.<n2>.<ext>` gives back the trace, dots included |
| ScarabResults.ParsePolicyName | testsScarab/results/graphic.py:30-47 | the cleaned policy name never contains an underscore, and a folder name without underscores or `REPL_` prefix is kept as it is |
| ScarabResults.RunnerPoliciesPlotted | testsScarab/results/graphic.py:36-44 | the runner's three policy folders are shown as `LRU`, `RANDOM` and `ROUND ROBIN (FIFO)` |
| ScarabResults.FindIpc | testsScarab/results/graphic.py:50-60 | no figure exactly when no line matches `IPC:\s*([\d\.]+)`; otherwise the figure of the first line that does |
| ScarabResults.ParseRun | testsScarab/results/graphic.py:77-99 | a file without an IPC line is skipped, and an entry goes under the cleaned trace and policy names and the key of branch and prefetcher joined by a bar separator |
| ScarabResults.Top3ByPolicy | testsScarab/results/graphic.py:132-180 | each plotted trace is in the table and shows a non-empty multiple of three bars, exactly the per-policy worst/median/best picks of the selected policies, and every trace with a qualifying selected policy is plotted |
| ScarabResults.WorstMedianBestNonEmpty | testsScarab/results/graphic.py:144-155 | a trace is plotted exactly when one of the selected policies has at least three entries in it |
| ScarabResults.Top3ByPolicyShare | testsScarab/results/graphic.py:132-180 | with distinct selected policies, each plotted trace's bars of a selected policy are exactly its worst, median and best, and other policies show nothing |
| ScarabResults.Top3Covers | testsScarab/results/graphic.py:132-180 | every trace in which some selected policy qualifies gets a group |
| JsonConfig.JsonName | testsOldChampSim/champsim.py:448-454 | a missing name (the `[None]` fallback of an empty list) is written as JSON `null`, a name as a string |
| JsonConfig.GetPath | testsOldChampSim/champsim.py:137 | the empty subscript path reads the whole configuration |
| JsonConfig.DivergeAt | testsOldChampSim/champsim.py:125-137 | two subscript paths that differ at a position both have part ways |
| JsonConfig.SetPathDefined | testsOldChampSim/champsim.py:137 | a subscript assignment succeeds exactly when every subscript but the last reads and the last can be written (an object key, or an index inside the array) |
| JsonConfig.SetThenGet | testsOldChampSim/champsim.py:137 | reading the assigned path gives the assigned value |
| JsonConfig.SetKeepsOthers | testsOldChampSim/champsim.py:137 | every path that parts ways with the assigned one reads as before |
| OldChampSimConfig.WriteOne | testsOldChampSim/champsim.py:321-325 | a two-level assignment succeeds exactly on an existing section and writes only that key |
| OldChampSimConfig.WriteAllDefined | testsOldChampSim/champsim.py:321-340 | a batch of section writes succeeds exactly when every section it writes exists |
| OldChampSimConfig.WriteAllReads | testsOldChampSim/champsim.py:321-340 | a written key that no later write touches reads back its value |
| OldChampSimConfig.WriteAllKeeps | testsOldChampSim/champsim.py:321-340 | a path that parts ways with every write reads as before |
| OldChampSimConfig.SizeWrites | testsOldChampSim/champsim.py:321-340 | `modify_size_cache` performs twelve writes: sets, ways and latency of the four levels |
| OldChampSimConfig.SizeWriteAt | testsOldChampSim/champsim.py:321-340 | write `3 * i + f` stores key `f` of level `i` with the sample's figure |
| OldChampSimConfig.SizeCacheDefined | testsOldChampSim/champsim.py:318-342 | resizing fails exactly when one of `L1I`, `L1D`, `L2C`, `LLC` is not an object of the base file |
| OldChampSimConfig.SizeCacheWrites | testsOldChampSim/champsim.py:321-340 | afterwards each of the twelve entries reads the sample's figure |
| OldChampSimConfig.SizeCacheKeeps | testsOldChampSim/champsim.py:318-342 | every entry other than the twelve is as the base file has it |
| OldChampSimConfig.DistinctEntries | testsOldChampSim/champsim.py:321-340 | different (level, key) entries sit at paths that part ways, so no write of the batch undoes another |
| OldChampSimConfig.Assign | testsOldChampSim/champsim.py:125 | an assignment raises exactly when its parent is missing or cannot take the subscript; otherwise it writes the value and keeps every path that parts ways |
| OldChampSimConfig.SetReplacement | testsOldChampSim/champsim.py:121-125 | succeeds exactly when `LLC` is an object, sets `LLC.replacement` to the policy and keeps every other path |
| OldChampSimConfig.SetPrefetcher | testsOldChampSim/champsim.py:127-131 | succeeds exactly when `LLC` is an object, sets `LLC.prefetcher` and keeps every other path |
| OldChampSimConfig.SetBranch | testsOldChampSim/champsim.py:133-137 | succeeds exactly when `ooo_cpu[0]` is an object, sets its `branch_predictor` and keeps every other path |
| OldChampSimConfig.SetExecName | testsOldChampSim/champsim.py:139-147 | a shallow copy with `executable_name` set: succeeds exactly on an object and keeps every other path |
| OldChampSimConfig.PointEditsKeep | testsOldChampSim/champsim.py:452-458 | the four per-point edits keep every path that parts ways with all four |
| OldChampSimConfig.PointEditsNames | testsOldChampSim/champsim.py:452-458 | after the per-point edits the configuration names the point's policy, prefetcher, branch predictor and `champsim_{policy}_{prefetcher}_{branch}` |
| OldChampSimConfig.ConfigForNames | testsOldChampSim/champsim.py:440-458 | the configuration written for a sweep point names that point's policy, prefetcher, branch predictor and executable |
| OldChampSimConfig.ConfigForSizes | testsOldChampSim/champsim.py:440-458 | the configuration written for a sweep point carries its sample's twelve cache figures |
| OldChampSimConfig.ShortNames | testsOldChampSim/champsim.py:321-340 | level and key names are shorter than the names the per-point edits use, so the point's edits never touch a size entry |
| OldChampSimConfig.ConfigForKeeps | testsOldChampSim/champsim.py:318-458 | every entry none of the point's edits touches is the base file's |
| OldChampSimRunner.Command | testsOldChampSim/champsim.py:215-223 | the command is the binary under `bin/`, then the count flags, then the trace path |
| OldChampSimRunner.CommandFlags | testsOldChampSim/champsim.py:219-222 | each count's flag is present exactly when the count is set and non-zero, warm-up before simulation |
| OldChampSimRunner.CommandCounts | testsOldChampSim/champsim.py:219-222 | each present flag comes right before its count in decimal |
| OldChampSimRunner.NotAFlag | testsOldChampSim/champsim.py:220-222 | a rendered count is never taken for a flag |
| OldChampSimRunner.RunOnce | testsOldChampSim/champsim.py:233-241 | a run creates its log; exit status 0 renames it to the completed name, any other status leaves the log and the completed name as they were; no other name changes |
| OldChampSimRunner.TempNeverDone | testsOldChampSim/champsim.py:205-212 | no temporary log name is any run's completed name |
| OldChampSimRunner.AlreadyExecuted | testsOldChampSim/champsim.py:245-266 | a missing output directory is the exit path; otherwise the answer is whether the completed name is listed |
| OldChampSimRunner.IsAlreadyExecuted | testsOldChampSim/champsim.py:395-414 | the answer is whether the completed name exists; a missing directory is created empty and answers no |
| OldChampSimRunner.AttemptKeepsDone | testsOldChampSim/champsim.py:289-305 | a job never removes a completed name |
| OldChampSimRunner.NeverRerun | testsOldChampSim/champsim.py:289-293 | no job is started for a run whose completed name was present, and within a session only failed runs are started twice |
| OldChampSimRunner.SessionDone | testsOldChampSim/champsim.py:233-241 | a completed name is present after a session exactly when it was there before or a started job with that name exited with status 0 |
| OldChampSimRunner.CleanTraceName | testsOldChampSim/champsim.py:278-285 | only `.xz` and `.champsimtrace` files are used |
| OldChampSimRunner.CleanPlain | testsOldChampSim/champsim.py:283-285 | `X.champsimtrace` gives `X`: `[:-13]` keeps the dot, which `splitext` then drops |
| OldChampSimRunner.CleanPacked | testsOldChampSim/champsim.py:280-282 | `X.champsimtrace.xz` gives `X` |
| OldChampSimRunner.CleanBothForms | testsOldChampSim/champsim.py:278-285 | a trace stored plain or compressed gives the same name |
| OldChampSimRunner.Submissions | testsOldChampSim/champsim.py:276-305 | the listing fails (exit) exactly when the output directory is missing and some trace file is used; at most one job per file |
| OldChampSimRunner.SubmissionsExact | testsOldChampSim/champsim.py:276-305 | every job comes from a used trace file whose run is not complete, with its path under the trace folder, and every such file is submitted |
| OldChampSimRunner.BothFormsSubmitted | testsOldChampSim/champsim.py:278-305 | a trace kept both plain and compressed is submitted twice under one key when its run is not complete, so two jobs write the same log |
| OldChampSimRunner.Samples | testsOldChampSim/champsim.py:97-98 | `zip` of the four lists stops at the shortest and pairs entries position by position |
| OldChampSimRunner.PointAt | testsOldChampSim/champsim.py:430-462 | the sweep has one point per sample, policy, prefetcher and branch predictor (an empty list counts as `[None]`), numbered from `Sample1`, in that loop order |
| OldChampSimRunner.SampleFoldersDistinct | testsOldChampSim/champsim.py:434 | distinct samples get distinct folders |
| OldChampSimRunner.OptionalCount | testsOldChampSim/champsim.py:493-498 | an optional count is present exactly when its argument exists and is all digits, and then it is that number |
| OldChampSimRunner.ParseArgs | testsOldChampSim/champsim.py:472-498 | fewer than six arguments fail; otherwise the command line is accepted exactly when the thread count is an integer of at least 1, and the paths and counts come from their positions |
| NewChampSimRunner.ModifyReplacementPolicy | testsChampSim/champsim.py:39-48 | the reloaded configuration gets `LLC.replacement` set to the policy; it fails exactly when there is no `LLC` object, and every other entry is kept |
| NewChampSimRunner.OutputNameOf | testsChampSim/champsim.py:58-62 | a trace file `X.ext` logs to `<output_dir>/X_{policy}_output.txt` |
| NewChampSimRunner.LogsNotParsed | testsChampSim/results/graphic.py:19-21 | the logs this runner writes carry no marker, so its own result script reads none of them |
| NewChampSimRunner.Command | testsChampSim/champsim.py:65-77 | the command is `bin/champsim`, then the count flags, then the trace path |
| NewChampSimRunner.CommandFlags | testsChampSim/champsim.py:68-74 | a count is passed exactly when it is set and non-zero, right after its flag and in decimal |
| NewChampSimRunner.OptionalCount | testsChampSim/champsim.py:137-140 | an optional count is present exactly when its argument exists and `int()` accepts it, and then it is that integer |
| NewChampSimRunner.ParseArgs | testsChampSim/champsim.py:116-140 | fewer than six arguments fail; otherwise the command line is accepted exactly when the thread count is an integer of at least 1 |
| NewChampSimRunner.Jobs | testsChampSim/champsim.py:98-105 | one submission per policy and listed file, whatever its extension |
| NewChampSimRunner.JobsExact | testsChampSim/champsim.py:98-105 | every listed file is run exactly once under each of the four policies, and nothing else is run |
| NewChampSimRunner.DistinctPolicies | testsChampSim/champsim.py:11 | the four policies are distinct |
| NewChampSimRunner.JobAt | testsChampSim/champsim.py:98-105 | the policy loop is outermost: the submission at position `p * files + j` runs file `j` under policy `p` |
| NewChampSimRunner.JobListed | testsChampSim/champsim.py:98-105 | every submission pairs a listed file with one of the four policies |
| NewChampSimRunner.JobOnce | testsChampSim/champsim.py:98-105 | with distinct file names, a file and policy are submitted at no other position |
| NewChampSimRunner.FlagPart | testsChampSim/champsim.py:68-74 | a count adds its flag and its decimal text exactly when it is set and non-zero, and nothing otherwise |
| NewChampSimRunner.Owners | testsChampSim/champsim.py:97-105 | each queued job belongs to one of the four policies |
| NewChampSimRunner.StaleBinaryExample | testsChampSim/champsim.py:39-105 | as written: with one worker and two trace files, the second job labelled `lru` starts after the rebuild for `drrip` and runs the `drrip` binary |
| NewChampSimRunner.QueuedBinaryMatchesLabel | testsChampSim/champsim.py:58-105 | as intended: a job run with the binary of the policy that queued it runs the policy its output file is named after |
| DefinePatch.MatchFrom | testsOldChampSim/champsim.py:358-359 | a match of a pattern starting with a literal is non-empty and stays inside the text; one of a `#`-free pattern crosses no `#`; one ending in `\d+` stops just before a non-digit or at the end |
| DefinePatch.Sub | testsOldChampSim/champsim.py:364-365 | `re.sub` keeps the first character of the text unless both the text and the replacement start with `#` |
| DefinePatch.NoDirective | testsOldChampSim/champsim.py:364-365 | text without a `#` passes through a substitution unchanged |
| DefinePatch.SubOverride | testsOldChampSim/champsim.py:364 | substituting the same pattern twice gives what the second substitution alone gives, since each replacement line is itself a full match |
| DefinePatch.BothSymmetric | testsOldChampSim/champsim.py:364-365 | when two patterns diverge on a literal, preferring one or the other at a position gives the same text |
| DefinePatch.SubThenSub | testsOldChampSim/champsim.py:364-365 | the sets substitution followed by the ways substitution replaces every match of either pattern in the original text |
| DefinePatch.SubCommute | testsOldChampSim/champsim.py:364-365 | the two substitutions commute |
| DefinePatch.PairLastWins | testsOldChampSim/champsim.py:364-365 | patching an already patched text with new lines gives what patching the original with the new lines gives |
| DefinePatch.PairRewrites | testsOldChampSim/champsim.py:364-365 | a file holding the two directives on their own lines ends up holding exactly the two new directives |
| DefinePatch.HawkeyeSetsRule | testsOldChampSim/champsim.py:358-362 | `#define LLC_SETS NUM_CORE*{sets}` is a complete match of the sets pattern for every set count |
| DefinePatch.HawkeyeWaysRule | testsOldChampSim/champsim.py:359-362 | `#define LLC_WAYS {ways}` is a complete match of the ways pattern for every way count |
| DefinePatch.MockingjaySetRule | testsOldChampSim/champsim.py:383-387 | `#define LLC_SET {sets}` is a complete match of the set pattern |
| DefinePatch.MockingjayWayRule | testsOldChampSim/champsim.py:384-387 | `#define LLC_WAY {ways}` is a complete match of the way pattern |
| DefinePatch.HawkeyeDiverge | testsOldChampSim/champsim.py:358-359 | the two hawkeye patterns part on a literal, so no text starts a match of both |
| DefinePatch.MockingjayDiverge | testsOldChampSim/champsim.py:383-384 | the two mockingjay patterns part on a literal |
| DefinePatch.HawkeyePatch | testsOldChampSim/champsim.py:344-368 | a file without any `#` is left as it is |
| DefinePatch.MockingjayPatch | testsOldChampSim/champsim.py:370-393 | a file without any `#` is left as it is |
| DefinePatch.HawkeyeLastWins | testsOldChampSim/champsim.py:344-368 | re-patching the hawkeye file for a later sweep point equals patching the untouched file for that point, so the sweep's order does not matter and the patch is idempotent |
| DefinePatch.MockingjayLastWins | testsOldChampSim/champsim.py:370-393 | the same for the mockingjay file |
| DefinePatch.HawkeyeRewrites | testsOldChampSim/champsim.py:344-368 | the two directives an earlier patch wrote are rewritten to the new geometry and nothing else is produced |
| DefinePatch.MockingjayRewrites | testsOldChampSim/champsim.py:370-393 | the same for the mockingjay directives |
| Gem5Runner.SizeReadable | testsGem5/gem5.py:30-39 | read back, the size text is the capacity rounded down to a whole number of its unit, in the largest of `MB`, `kB` and `B` that leaves at least one |
| Gem5Runner.ReadableExamples | testsGem5/gem5.py:26-28 | the caches `main` configures are rendered `32kB`, `256kB` and `8MB` |
| Gem5Runner.Rewrite | testsGem5/gem5.py:178 | one `re.sub` on an assignment sets its target's value when the pattern finds the target, even in a commented-out line, leaves the file alone when it does not, and keeps every other assignment |
| Gem5Runner.SkipsMissing | testsGem5/gem5.py:170-172 | parameters a `CacheConfig` has no attribute for leave the file unchanged |
| Gem5Runner.OnlySizeIsAttribute | testsGem5/gem5.py:123-131 | of the six patterns per level only `size` names an attribute of `CacheConfig` |
| Gem5Runner.LevelEditsSize | testsGem5/gem5.py:168-178 | one level's edits come down to rewriting its size with the quoted readable size |
| Gem5Runner.SizeCacheRewrites | testsGem5/gem5.py:106-180 | `modify_size_cache` is the four size rewrites in the order L1I, L1D, L2, LLC |
| Gem5Runner.SizeCacheEffect | testsGem5/gem5.py:106-180 | every level's size assignment that exists holds that level's quoted size afterwards, and no other assignment changes |
| Gem5Runner.SizeCacheOnlySizes | testsGem5/gem5.py:170-178 | associativity, MSHRs and latencies are never rewritten |
| Gem5Runner.SizeTargetsDistinct | testsGem5/gem5.py:125-149 | the four size targets are distinct |
| Gem5Runner.PolicyValue | testsGem5/gem5.py:202-207 | DRRIP is given the last level's capacity in bytes as `constituency_size` and its associativity as `team_size`; any other policy becomes a parameterless constructor |
| Gem5Runner.PointEditsEffect | testsGem5/gem5.py:187-241 | a point's edits set the replacement policy, prefetcher and branch predictor assignments wherever the patterns find them, and keep everything else |
| Gem5Runner.PrefetcherSweepInert | testsGem5/gem5.py:212-226 | two points that differ only in prefetcher give `my_system.py` texts that agree on every assignment outside the commented-out prefetcher line |
| Gem5Runner.PrefetcherTakesEffect | testsGem5/gem5.py:221-226 | where the template assigns the prefetcher outside a comment, different prefetchers give different prefetcher assignments |
| Gem5Runner.PointEditsOverride | testsGem5/gem5.py:360-363 | the edits of one point replace those of the point before, so carrying the text from point to point loses nothing |
| Gem5Runner.CarriedConfigs | testsGem5/gem5.py:357-363 | one configuration per point of the sample |
| Gem5Runner.CarriedIsFresh | testsGem5/gem5.py:352-363 | every point's `my_system.py` is the sample's sized template with only that point's edits |
| Gem5Runner.SimulateEdits | testsGem5/gem5.py:243-266 | `simulate.py` gets the binary's path and the instruction limit wherever the patterns find them, and nothing else changes |
| Gem5Runner.InstLimitInert | testsGem5/gem5.py:258-264 | every instruction limit gives a `simulate.py` that agrees on every assignment outside the commented-out limit line |
| Gem5Runner.JoinAllPlain | testsGem5/gem5.py:280-281 | joining plain names onto a base puts exactly one `/` between the parts |
| Gem5Runner.JoinAllDistinct | testsGem5/gem5.py:280-281 | different plain parts give different paths |
| Gem5Runner.PointJob | testsGem5/gem5.py:271-333 | a point fails exactly when a name is missing; otherwise it writes below `configs/<binary>/Sample{i}/<branch>/<prefetcher>/<policy>`, outputs to the same folders below the sample folder, and runs `gem5.opt -d <output> <config>/simulate.py` |
| Gem5Runner.OutputDirsDistinct | testsGem5/gem5.py:280-281 | two different choices for one sample of one binary never share an output folder |
| Gem5Runner.RunAt | testsGem5/gem5.py:341-359 | the runs are visited binary, sample (numbered from 5), policy, prefetcher, branch predictor, each at its mixed-radix position |
| Gem5Runner.ParseArgs | testsGem5/gem5.py:388-413 | fewer than six arguments fail; otherwise the command line is accepted exactly when the thread count is an integer of at least 1, and the optional counts are those that are all digits |
| Gem5Runner.MainSweep | testsGem5/gem5.py:416-453 | `main` runs 36 points per binary, all numbered sample 5 |
| Gem5Runner.MainDrrip | testsGem5/gem5.py:204-205 | in `main`, DRRIP is configured with `constituency_size=8388608, team_size=16` |
| Gem5Runner.PointsIndexed | testsGem5/gem5.py:342 | every point of a one-sample sweep carries that sample's number |
| ScarabRunner.DigitRun | testsScarab/scarab.py:106-119 | the length of the leading run of digits, which the `\d+` of a flag pattern consumes |
| ScarabRunner.DigitsSub | testsScarab/scarab.py:106-119 | a token starting with a digit has its leading number replaced by the new one and keeps the rest; any other token is left alone |
| ScarabRunner.DigitsSubTwice | testsScarab/scarab.py:106-119 | rewriting a number twice keeps only the second |
| ScarabRunner.SubFlag | testsScarab/scarab.py:106-119 | one substitution changes only its own flag's token |
| ScarabRunner.AttrName | testsScarab/scarab.py:106-119 | the attribute suffixes `size`, `assoc` and `cycles` are non-empty, free of `_` and tell apart by their last letter |
| ScarabRunner.FlagsDistinct | testsScarab/scarab.py:106-119 | different cache settings are different flags, so no substitution touches another's flag |
| ScarabRunner.ApplySettingsKeeps | testsScarab/scarab.py:106-119 | a flag no substitution names is kept |
| ScarabRunner.ApplySettingsListed | testsScarab/scarab.py:106-119 | a listed setting's flag gets the setting's number |
| ScarabRunner.CacheSizeEffect | testsScarab/scarab.py:75-126 | after `modify_cache_size` each size and associativity flag, and the latency flags of the data cache, the second level and the last level, hold the sample's numbers, while the instruction cache's latency is not touched |
| ScarabRunner.CacheSizeKeeps | testsScarab/scarab.py:75-126 | a flag that is no cache setting is not touched by `modify_cache_size` |
| ScarabRunner.PrefetcherSetting | testsScarab/scarab.py:184-193 | only the options `0`, `1` and `2` are accepted, and each sets the three prefetcher flags with exactly the named one on |
| ScarabRunner.RewritesGet | testsScarab/scarab.py:143-146 | after a list of whole-token substitutions a flag the file has holds its last edit's value; every other flag is unchanged |
| ScarabRunner.PointEdits | testsScarab/scarab.py:128-204 | a point's edits fail exactly when the prefetcher option is not in the map, and otherwise keep the file's flags |
| ScarabRunner.PointEditsEffect | testsScarab/scarab.py:128-204 | a point sets the replacement policy, branch predictor and three prefetcher flags where the file has them, and keeps every other flag |
| ScarabRunner.OneHot | testsScarab/scarab.py:184-200 | exactly one prefetcher is on after a point, the one its option names |
| ScarabRunner.ResizeTwice | testsScarab/scarab.py:283-288 | a later sample's sizes replace an earlier sample's |
| ScarabRunner.SetTwice | testsScarab/scarab.py:296-312 | a later point's settings replace an earlier point's |
| ScarabRunner.ResizeSetCommute | testsScarab/scarab.py:283-312 | resizing and a point's settings touch different flags, so their order does not matter |
| ScarabRunner.LastResize | testsScarab/scarab.py:283-288 | the sample found is one of the resize steps |
| ScarabRunner.LastSet | testsScarab/scarab.py:296-312 | the point found is one of the setting steps |
| ScarabRunner.ReplayIsLatest | testsScarab/scarab.py:272-324 | although the file is edited in place from point to point, it always equals the original with only the latest sample's sizes and the latest point's settings applied |
| ScarabRunner.TraceCommand | testsScarab/scarab.py:241-261 | a trace runs with its path and the instruction limit as flags and writes below `<folder>/<trace name>/<policy folder>`; a missing policy runs nothing |
| ScarabRunner.TraceJobs | testsScarab/scarab.py:263-267 | exactly the listed `.trace.gz` and `.champsimtrace.xz` files are submitted, each with its path in the folder |
| ScarabRunner.TraceFolderReadBack | testsScarab/scarab.py:243 | the folder of a trace `tool.name.n1.n2.trace.gz` is read back by the Scarab result script as `name` |
| ScarabRunner.PointAt | testsScarab/scarab.py:283-303 | the points are visited sample (numbered from 5), trace folder, cache policy, branch predictor, prefetcher, each at its mixed-radix position |
| ScarabRunner.ParseArgs | testsScarab/scarab.py:326-352 | fewer than eight arguments fail; otherwise the command line is accepted exactly when the thread count is an integer of at least 1, and the instruction count is kept exactly when `int()` accepts it |
| ScarabRunner.MainOptionsValid | testsScarab/scarab.py:355-371 | `main`'s prefetcher options are all accepted and each of its cache policies has a folder |
| ScarabRunner.MainPolicyFoldersPlotted | testsScarab/scarab.py:359-363 | the policy folders `main` writes are named as the Scarab result script expects and read back as LRU, RANDOM and ROUND ROBIN (FIFO) |
| ScarabRunner.StaleFolderExample | testsScarab/scarab.py:241-322 | as written: two points differing only in prefetcher, the first point's job starting after the second is published, write into the second point's folder |
| ScarabRunner.QueuedFolderOfPoint | testsScarab/scarab.py:283-322 | as intended: a job reading the folder of the point that queued it writes under `Sample<s+5>/<branch>/<prefetcher name>` |
| Sweep.ProductLength | testsOldChampSim/champsim.py:448-450 | nested loops visit as many pairs as the product of the two lengths |
| Sweep.ProductAt | testsOldChampSim/champsim.py:448-450 | pair `(i, j)` of two nested loops is visited at position `i * len(ys) + j` |
| Sweep.ProductMember | testsOldChampSim/champsim.py:448-450 | every visited pair is some `(xs[i], ys[j])` at its loop position |
| Sweep.OrNone | testsOldChampSim/champsim.py:448-450 | `lst or [None]` runs an empty dimension once with `None` and otherwise runs every entry |
| Sweep.Zip | testsOldChampSim/champsim.py:97-98 | `zip` pairs entries position by position up to the shorter list |
| Sweep.Enumerate | testsOldChampSim/champsim.py:430 | `enumerate(..., start=n)` numbers the entries from `n` in order |
| PyStr.FindFrom | testsOldChampSim/results/graphic.py:22-40 | the search finds the leftmost match at or after the start, or reports that there is none |
| PyStr.LazyGroup | testsOldChampSim/results/graphic.py:22-40 | the lazy group of `re.search(before(.*?)after)` lies between the first `before` and the first `after` following it, and there is no group when either is missing |
| PyStr.LazyGroupAt | testsOldChampSim/results/graphic.py:22-40 | given the first `before` and the first `after` after it, the group is the text between them |
| PyStr.LazyGroupNone | testsOldChampSim/results/graphic.py:22-40 | without an `after` following the first `before` there is no match |
| PyStr.NatToString | testsOldChampSim/champsim.py:205-212 | `str(n)` is digits without a leading zero whose value is `n` |
| PyStr.NatToStringInjective | testsOldChampSim/champsim.py:205-212 | distinct numbers render distinctly |
| PyStr.Strip | testsChampSim/champsim.py:108-113 | `int()` first strips surrounding whitespace: the stripped text is a slice of the input that neither starts nor ends with whitespace |
| PyStr.IsDigitParses | testsOldChampSim/champsim.py:493-498 | among ASCII strings, whatever `isdigit` accepts, `int()` parses to its decimal value |
| PyStr.ParseRendered | testsOldChampSim/champsim.py:481 | `int(str(n)) == n` for natural numbers |
| PyStr.ParseRenderedInt | testsChampSim/champsim.py:108-113 | `int(str(n)) == n` for every integer |
| PyStr.NegatedParses | testsScarab/scarab.py:326-331 | a minus sign before digits parses to the negated value |
| PyStr.ReplaceFirst | testsOldChampSim/results/graphic.py:419 | `replace(c, rep, 1)` rewrites exactly the first `c` and leaves a text without `c` alone |
| PyStr.ReplaceAll | testsScarab/results/graphic.py:30-47 | `replace(c, d)` rewrites every `c` and nothing else |
| PyStr.Split | testsChampSim/champsim.py:23 | `split(sep)` gives at least one part and no part holds the separator |
| PyStr.JoinSplit | testsChampSim/champsim.py:23 | joining the parts of a split gives back the text |
| PyStr.SplitJoin | testsChampSim/champsim.py:23 | splitting a join of separator-free parts gives back the parts |
| PyStr.RFind | testsChampSim/champsim.py:60 | the index of the last occurrence, with -1 for none |
| PyStr.SplitExt | testsChampSim/champsim.py:60 | `splitext` splits the path into a root and an extension that concatenate back to it; the extension is empty or one `.` followed by no `.` or `/`, and the root's base name is not all dots |
| PyStr.SplitExtOf | testsChampSim/champsim.py:60 | a base name followed by one `.`-free extension splits back into the two |
| PyStr.PathJoin | testsChampSim/champsim.py:58-62 | `os.path.join` returns an absolute second part as it is and otherwise ends with it, inserting one `/` after a base that lacks it |
| CacheSets.FirstMin | Policies/lfu/lfu.cc:23 | `std::min_element` returns the first position holding the smallest value |
| CacheSets.FirstMinUnique | Policies/fifo/fifo.cc:15 | the first minimum is unique, so the victim is determined by the set's contents |
| CacheSets.SetOf | Policies/lfu/lfu.cc:19-23 | the slice of a flat per-line vector holding a set's lines, line `w` at `set * ways + w` |
| CacheSets.SlotInRange | Policies/lfu/lfu.cc:19-23 | in a vector of `sets * ways` entries every line of every set lies inside the vector |
| CacheSets.FirstOf | Polices/bip/bip.cc:17-18 | the scan for the first line holding a value returns its position, or the set size exactly when there is none |
| WorkerPool.ReadAtStart | testsScarab/scarab.py:241-267 | as written: each job reads the value published latest when it starts, which is the value of the point it started under |
| WorkerPool.ReadAtQueue | testsScarab/scarab.py:263-267 | as intended: each job reads the value of the point that queued it |
| WorkerPool.ReadAtStartAgrees | testsScarab/scarab.py:241-322 | the two readings agree exactly when no job sees the value change between its own point and its start, in particular when every job starts before the loop moves on |

## Left out

- Threads and semaphores, beyond the two races under "## Findings". The gem5 jobs receive their paths as arguments, so the pool cannot change what they run. The Scarab and new ChampSim jobs read shared state when they start; `WorkerPool` models that. The old ChampSim runner's jobs read `self.output_dir` and `config_bin_name` at run time (testsOldChampSim/champsim.py:205-215), and the main loop reassigns both (lines 146 and 437). That is the same pattern, and it is not modelled separately. The semaphores' waits are not modelled.
- PyStr.IsDigitParses: characters are ASCII only, for `\d`, `\s`, `isdigit` and `strip`. Python's versions of these are Unicode-aware. For example, `'²'.isdigit()` is true while `int('²')` raises, `\s` matches U+00A0, and `strip` also removes `\x1c`-`\x1f` and U+0085. The model states the property among ASCII strings only.
- Rlr.AddEntry: the source's `accum` and `2 * accum` are 32-bit `int`s, and the model's integers are unbounded. An overflow of the accumulator is not modelled. It would need 32 ages summing past `2^30`.
- Processes, network and filesystem: simulator and build runs, trace downloads, `time.sleep`, directory creation and listing, and file reads and writes. The exit status, the existing names and the folder listings are inputs, and a written file is the value the model returns.
- Plotting: every matplotlib call (colours, hatches, text, figure sizes, saving). The model stops at the bars each plot selects.
- Binary floating point: an IPC is the exact decimal its text spells, and Python's `float` rounding is not modelled.
- Mockingjay.SamplerStep: the prefetch penalty multiplies in `real` and truncates, and the product's float rounding is not modelled.
- Pcn.Activate: requires an output of at least -99, which the weight bounds guarantee (outputs never fall below -96). The `0.01f` product is not modelled for other inputs.
- Randomness: `rand()`, `srand` and `mt19937` draws in random, emissary and bip are parameters of the operations that use them.
- Hawkeye's OPTgen is not part of this model. Its answer on whether OPT would have cached a line is a parameter of the sampler step.
- ChampSim and gem5 framework types appear only through what the modelled code uses: `CACHE`, `champsim::address`, the access types, `SatCounter8` (a counter saturating at `2^bits - 1`) and `BPredUnit::instShiftAmt` (a parameter).
- Gshare.Update: requires a history handle, where the source asserts one.
- The gshare local history table is never sized in the source, so `updateLocalHist` cannot run without failing and is not modelled. The allocation and freeing of `BPHistory` objects is reduced to an optional snapshot.
- The fixed lists in `main` and `verify.py` (policies, predictors, cache samples and sizes) are modelled where the sweep is stated. Any lists can be passed to the sweep functions.
- `os.path.abspath` of Scarab's module-log folder: the command carries the joined path without normalisation.
- Scarab's `modify_replacement_policy`, which rewrites `--ramulator_scheduling_policy`: the runner never calls it.
- Python's `re` engine in general: only the fixed patterns the scripts use are modelled, and only for their literal and character-class parts.
- Newlines inside file or folder names: names are taken as given.
- The workload programs, trace-conversion helper, one-shot metric scrapers and hard-coded copies of the runners: they hold no logic beyond what is modelled.
- The gem5 configuration templates are not modelled line by line. A template is the assignments the runner's patterns find, and `CommentedTargets` names the two that the shipped templates hold only in a comment.
- Gem5Runner.Rewrite: a target counts as found whatever its old right-hand side, although each pattern also asks for a form there: digits for the instruction limit, a quote for a size, a call for the policy, any non-blank text for the prefetcher and branch predictor. A template whose old value lacks that form is left unchanged by the source, and the model does not represent it.

## Findings

| source | as written | input that shows it | evidently intended | confidence | as-written member | corrected member |
|---|---|---|---|---|---|---|
| Policies/lfu/lfu.cc:8-13 | the constructor never sizes `last_used_cycles` | any first access: `.at(set * NUM_WAY + way)` on an empty vector throws | one counter per line, as the header's comment and the FIFO twin do | high (not executed) | Lfu.UpdateAsWrittenFails | Lfu.UpdateOnNew |
| Policies/fifo/fifo.cc:21-26 | a miss stores `cycle`, which is never advanced | two misses in one set: both stamps stay 0, so line 0 is the victim forever | the stamp of the current access, so the oldest fill is evicted | high (not executed) | Fifo.AlwaysEvictsLineZero | Fifo.FilledLineNotNextVictim |
| Policies/random/random.cc:16-18 | `randrange(0, NUM_WAY - 1)` is `rand() % (NUM_WAY - 1) + 1` | a draw of `NUM_WAY - 1` gives way 1 and no draw gives way 0 | a uniform choice among all ways `0 .. NUM_WAY - 1` | high (not executed) | RandomPolicy.NeverWayZero | RandomPolicy.AnyWayDrawn |
| Policies/random/random.cc:9-12 | `rand() % (low + high)` with `low + high == 0` for a one-way cache | `NUM_WAY == 1` | evicting the only way | high (not executed) | RandomPolicy.OneWayDividesByZero | RandomPolicy.FindVictimAnyWay |
| Polices/emissary/emissary.cc:32-56 | the victim scan indexes the vectors by the way alone | set 1 with a free low-priority line while set 0 has none: the victim comes from set 0's entries | scanning the accessed set at `set * NUM_WAY + way` | high (not executed) | Emissary.VictimOfSetZero | Emissary.FindVictim |
| Polices/emissary/emissary.cc:104-117 | the demotion on a promoting hit also indexes by the way alone | a promoting hit in set 1 past the threshold clears a bit of set 0 and leaves set 1's high-priority line set | demoting the least recently used high-priority line of the accessed set | high (not executed) | Emissary.DemotesInOwnSet | Emissary.Update |
| Polices/mockingjay/mockingjay.cc:149-150 | the sampled-cache lines are default-initialised, so their fields hold leftover memory | leftover memory reading as a valid line with tag 0: the first access with that tag hits a line never filled | value-initialised invalid lines, as the older build does | medium (not executed) | Mockingjay.JunkInitHits | Mockingjay.InitNoHits |
| testsScarab/scarab.py:245-322 | a queued job reads `self.output_dir` (line 245) and `src/PARAMS.in` when it starts, while the main loop keeps reassigning the folder (line 317) and rewriting the file (lines 219-235) for the next points | two points that differ only in prefetcher, where the first point's job starts after the second point is published: it writes into the second point's folder with the second point's parameters | each job captures its own point's folder and parameters when it is submitted | medium (not executed) | ScarabRunner.StaleFolderExample | ScarabRunner.QueuedFolderOfPoint |
| testsChampSim/champsim.py:39-105 | each policy's loop rebuilds the single ChampSim binary (lines 50-53) while the previous policies' jobs are still queued; a job starts the binary only when a worker takes it (lines 81-83) | one worker and two trace files: the first `lru` job releases the semaphore when it starts, the loop rebuilds for `drrip` while that job runs, and the second `lru` job, started once the worker is free, runs the `drrip` binary | each job runs the binary of the policy that queued it | medium (not executed) | NewChampSimRunner.StaleBinaryExample | NewChampSimRunner.QueuedBinaryMatchesLabel |
| testsGem5/gem5.py:212-226 | the prefetcher pattern also matches inside `#self.l3cache.prefetcher = TaggedPrefetcher()`, the only prefetcher line of testsGem5/scripts/my_system.py (line 107) | any two points that differ only in prefetcher: the rewrite edits the comment, and gem5 builds the same system for both | each point's prefetcher attached to the last-level cache | high (not executed) | Gem5Runner.PrefetcherSweepInert | Gem5Runner.PrefetcherTakesEffect |
| testsGem5/gem5.py:258-264 | the instruction-limit pattern also matches inside `#system.cpu.max_insts_any_thread = 6000`, the only limit line of testsGem5/scripts/simulate.py (line 9) | any instruction count: the comment changes and every run simulates to the program's end | the run stopping after the requested number of instructions | high (not executed) | Gem5Runner.InstLimitInert | Gem5Runner.SimulateEdits |
