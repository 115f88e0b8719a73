# HID1KBrute in Dafny

HID1KBrute recovers where the facility code (FC) and card number (CN) sit
in the raw payload of 125 kHz HID proximity cards. It brute-forces every
window of the payload's bitstream, in both bit orders, and every pair of
disjoint FC and CN bit fields inside each window. It then consolidates the
candidates across several cards, and checks them against a catalog of real
card formats. Last, it ranks the surviving FC values.

The repository has three generations of this engine. Each is modelled as its
own module over shared building blocks.

| module | file | what it holds |
|---|---|---|
| `Analyzer` | `analyzer.dfy` | `analyzer.py`: the current engine, with known-CN and unknown-CN consolidation, first-hit format matching, the additive scorer and the unknown-CN summary |
| `Refactored` | `refactored.dfy` | `main.py`: the known-CN engine whose format bonus is the largest catalog boost any match earns |
| `Legacy` | `legacy.dfy` | `main_bk.py`: the legacy engine, with hex validation, FC values common to all cards, and a half-point score |
| `Basics` | `basics.dfy` | `Option`/`Result`, `min`/`max`, Python's `s[:k]` |
| `Bits` | `bits.dfy` | big-endian values, `bin(...).zfill(n)`, `s[::-1]`, `hex_to_binary`, lower-casing |
| `Names` | `names.dfy` | the default card name `Card_NNN` |
| `Matching` | `matching.dfy` | `Match`, the 7-field signature, `FCCandidate` and its derived counts |
| `Enumeration` | `enumeration.dfy` | the nested enumeration loops, each level as a method with a specification function, and the set-builder description of admissible matches |
| `Grouping` | `grouping.dfy` | `defaultdict(list)` / `defaultdict(int)` in first-seen key order |
| `Best` | `best.dfy` | a running maximum with a strict `>`, and Python's `max(..., key=...)` |
| `Formats` | `formats.dfy` | the five tolerance checks, first-hit format matching, and the largest-boost search |
| `Consistency` | `consistency.dfy` | `_filter_consistent_matches` and known-CN consolidation |
| `Ranking` | `ranking.dfy` | the stable descending sort, the known-FC restriction, and truncation |
| `Pools` | `pools.dfy` | appending the matches of several cards this way: `extend` in a loop, or assignment into a dict, where a card that raises aborts the whole step |

**Datatypes.**
- A bitstream is a `seq<bool>`.
- `Match`, `FCCandidate` and the card records are datatypes.
- Each variant's `RFIDAnalyzer` is a class. Its `cards` list and card counter are fields that `AddCard` updates.

**Modelling choices.**
- **Errors.** The source raises `ValueError` when `int(hex, 16)` rejects a payload. The model returns `Result.ValueError`, carrying that payload.
- **Inputs.** The catalog of card formats is a parameter. The source loads it from a file.
- **Numbers.** Consistency ratios and scores are exact `real`s.
- **Unknown CN.** `analyzer.py` marks it with the sentinel `-1`. The model uses `Option<int>`, and an explicit `-1` passed to `AddCard` also becomes "unknown". That is the effect the sentinel has in the source.
- **Unseen modules.** `analyzer.py` imports `models.py` and `utils.py`, which are not part of this model. Their `Match`, `FCCandidate` and `hex_to_binary` follow the definitions in `main.py` (lines 44-97 and 199-201).

## Model

| member | source | states |
|---|---|---|
| Basics.PyPrefix | main.py:388 | `candidates[:k]`: with `k >= 0` the first `min(k, n)` items; a negative `k` drops `-k` items from the end; always a prefix |
| Basics.RatioBounds | analyzer.py:211-213 | a share of at least half and at most all of the cards lies in [0.5, 1.0] |
| Bits.Value | main_bk.py:100-103 | `int(bits, 2)` is a number below `2^len(bits)` |
| Bits.ValueToBits | main_bk.py:100-103 | reading back the `n`-bit representation of `v < 2^n` gives `v` |
| Bits.ToBitsValue | main.py:199-201 | writing a bit string's value zero-filled to its own width gives the bit string back |
| Bits.Reverse | main.py:210 | the reversed stream has the same length, and bit `i` is bit `n-1-i` of the original |
| Bits.ReverseInvolutive | main.py:210 | reversing twice restores the stream |
| Bits.HexToBinary | main.py:199-201 | succeeds exactly when the string is non-empty and all hex digits; then it has `4·len` bits whose value is the hex value; otherwise the error carries the input |
| Bits.HexToBinaryUnique | main.py:199-201 | the result is the only bit string of width `4·len` with the hex value |
| Bits.LowerKeepsHexValue | main_bk.py:47 | lower-casing a hex string keeps it hex, leaves no upper-case digit and keeps its value |
| Names.DecimalRoundTrip | main.py:122 | the decimal digits of the counter read back as the counter |
| Names.DefaultNameSpellsCounter | main.py:122 | a default name is `Card_` followed by at least three decimal digits spelling the counter, exactly three below 1000 |
| Names.DefaultNameInjective | main.py:122 | different counters give different default names |
| Matching.CardCount | main.py:89-92 | `card_count` is at most the number of matches, zero exactly for no matches, and counts only names that occur |
| Matching.UniquePatterns | main.py:84-87 | `unique_patterns` holds exactly the signatures of the matches, no more of them than matches |
| Enumeration.FindFcCnCombinations | analyzer.py:77-128 | the four nested field loops for one window produce exactly the combination sequence of that window, in loop order |
| Enumeration.CombinationsMem | analyzer.py:88-128 | one window yields exactly its admissible matches: both fields non-empty, disjoint, ending before the window's last bit, with the values of their bits and passing both filters |
| Enumeration.SearchBitOrder | analyzer.py:64-73 | the window-length and offset loops over one bit order produce exactly that order's pass |
| Enumeration.FindMatches | analyzer.py:56-75 | a card's matches are the normal-order pass followed by the reversed-order pass |
| Enumeration.CardMatchesMem | analyzer.py:56-75 | a card's matches are exactly its admissible matches, over windows `bits[offset:offset+len]` of both bit orders, and no two share a signature |
| Enumeration.FoundProperties | analyzer.py:88-110 | every match is well formed: non-empty disjoint fields ending before the window's last bit, with the big-endian values of their bits. Its window length is between `min_bits`, `max_bits` and the stream length, and it passes the FC and CN filters |
| Grouping.KeyOrderMem | analyzer.py:149-151 | the dict's keys are exactly the keys that occur, each once |
| Grouping.SelectMem | analyzer.py:149-151 | a key's list holds exactly the matches with that key |
| Grouping.GroupBy | analyzer.py:227-239 | the grouping loop builds the keys in first-seen order and, for each key, the list of its matches in order |
| Grouping.CountBy | analyzer.py:416-418 | the counting loop gives each key that occurs the number of matches with that key |
| Best.RunningBestSpec | analyzer.py:246-253 | the running best keeps the initial value unless something beats it; otherwise it is the first element of largest score, and nothing scores more |
| Best.FirstMax | analyzer.py:267-278 | `max(xs, key=...)` is the first element of largest key |
| Formats.FirstFormatFrom | analyzer.py:293-300 | the first catalog format from index `j` that a match passes, with every format before it failing, or none exactly when all fail |
| Formats.FirstHitFrom | analyzer.py:293-300 | the first (match, format) pair that passes in scan order (matches outer, formats inner), with every earlier pair failing, or none exactly when every pair fails |
| Formats.WithFormatSpec | analyzer.py:289-300 | format matching changes only `matched_format`; a new name belongs to a passing format with every earlier pair failing; when nothing passes, the candidate is unchanged |
| Formats.ApplyFormatMatching | analyzer.py:289-300 | the nested loops with early return store the first hit's name |
| Formats.CheckRealWorldSpec | main.py:155-196 | the boost is non-negative and at least that of every passing format; zero means no format; a positive boost is that of the first passing format offering the largest |
| Formats.CheckRealWorldPattern | main.py:155-196 | the format loop returns exactly that boost and name |
| Formats.WithBoostSpec | main.py:305-317 | the stored boost is the largest any match earns, zero exactly when no format is stored, and it comes from the first match earning it; nothing else changes |
| Formats.ApplyRealWorldBoost | main.py:305-317 | the match loop stores exactly that boost and format |
| Consistency.FindSig | analyzer.py:332-339 | `next(...)` gives the first match with the signature, or `None` exactly when no match has it |
| Consistency.PartnersSpec | analyzer.py:328-343 | the partner loop completes exactly when every other card has a match with the signature; the partners are then one match per other card, all with that signature |
| Consistency.FindPartners | analyzer.py:328-345 | the `for ... else` loop returns exactly those partners, or none when it breaks |
| Consistency.BlockSpec | analyzer.py:324-345 | an anchor match contributes exactly when every card has its signature, and then one match per card, starting with the anchor |
| Consistency.FilterConsistentSpec | analyzer.py:315-347 | kept matches come from the input and have a signature present on every card; every anchor-card match whose signature is on every card is kept; a non-empty result covers every card |
| Consistency.KeptIsConsistent | analyzer.py:315-347 | a kept match has a signature present on every card |
| Consistency.ConsistentIsKept | analyzer.py:315-347 | an anchor-card match whose signature is on every card is kept |
| Consistency.KeptCoversCards | analyzer.py:315-347 | a non-empty result names every card of the input |
| Consistency.FilterConsistentMatches | main.py:319-353 | the filter's loops compute exactly the consistent matches |
| Consistency.ConsolidateGroup | analyzer.py:155-171 | one FC group's candidate, before format matching |
| Consistency.ConsolidateOneSpec | analyzer.py:155-171 | with one card, the whole group at consistency 1.0; with several, the consistent matches, emitted exactly when they cover all cards, so consistency is 1.0 |
| Consistency.ConsolidateAllSpec | analyzer.py:153-173 | candidates come one per FC value in order, with distinct FC values, consistency 1.0, matches of their own FC only and, with several cards, every card covered; with several cards an FC value yields a candidate exactly when its group's consistent matches cover every card, and the candidate holds exactly those consistent matches |
| Consistency.ConsolidateAllSingle | analyzer.py:155-158 | with one card, every FC value gives a candidate holding all its matches, in order |
| Consistency.ConsolidateAllFinished | analyzer.py:156-171 | every candidate is the finishing step applied to the fresh candidate of its own FC value and matches, at consistency 1.0 with no boost and no format |
| Consistency.KnownCnCandidatesSpec | analyzer.py:143-173 | the consolidation properties above, for the FC groups in dict order: with several cards, an FC value is reported exactly when its consistent matches cover every card, holding exactly those matches, then finished |
| Ranking.SortDescSpec | analyzer.py:356 | the descending sort orders by the key, is a permutation, and is stable: elements tying with any value keep their order |
| Ranking.KeepFc | analyzer.py:352-353 | the known-FC restriction keeps exactly the candidates with that FC, and everything when none is set |
| Ranking.TopSpec | analyzer.py:356-357 | the first `limit` of the sort: `min(limit, n)` many, drawn from the input, non-increasing, none scoring below an element left out, ties in input order |
| Ranking.TopCandidatesSpec | analyzer.py:349-357 | at most `limit` candidates, only with the known FC, by non-increasing score, none left out above one kept, all kept when the limit allows, ties in input order |
| Pools.ConcatSpec | analyzer.py:145-147 | appending each card's matches succeeds exactly when every card's succeeds; the error is the first failing card's; the result holds exactly all matches |
| Pools.FromEntriesError | analyzer.py:178-180 | filling the dict succeeds exactly when every card's matches do, and otherwise reports the first failure |
| Pools.FromEntriesKeys | analyzer.py:178-180 | the dict's keys are the card names, each once |
| Pools.FromEntriesLast | analyzer.py:178-180 | each key holds the value of the last card with that name |
| Pools.GatherMem | analyzer.py:411-413 | the matches of the selected cards, when all succeed, are exactly those of the selected cards |
| Analyzer.FcFiltered | analyzer.py:186 | keeps exactly the matches passing the known-FC test |
| Analyzer.MatchesOfSpec | analyzer.py:56-75 | a card's matches exist exactly when its payload is hex. They are exactly its admissible matches, each signature once. Each is well formed, named after the card, within the window bounds, with the known FC, and with the known CN only when the CN is known |
| Analyzer.GatesInIntegers | analyzer.py:200-204 | the card gate is `c >= 2 and 2c >= n`; the coverage gate at line 256 is `k >= 2 and 5k >= 4c` |
| Analyzer.PreferenceKeyIsTupleOrder | analyzer.py:267-278 | comparing the fallback's numeric key is comparing Python's 4-tuples |
| Analyzer.RepresentativeSpec | analyzer.py:264-278 | a card's representative is one of its matches, no match of that card is preferred, and it is the first with its preference |
| Analyzer.CoverageIsMax | analyzer.py:246-253 | no signature covers more cards than the best coverage |
| Analyzer.CoverageIsFirst | analyzer.py:246-253 | a positive best coverage is that of the first signature reaching it |
| Analyzer.BestPatternCoverage | analyzer.py:255-259 | when the coverage gate passes, the result is exactly the matches of the first signature covering the most cards |
| Analyzer.BestPatternFallback | analyzer.py:261-281 | otherwise the result is exactly one match per card of the group, each a most preferred match of its card |
| Analyzer.BestPatternNonEmpty | analyzer.py:210 | a non-empty group always gives a non-empty pattern, so the `if best_matches` test always passes |
| Analyzer.UnknownCnPoolSpec | analyzer.py:178-187 | the pooled matches are exactly those of the last card of each name that pass the FC filter |
| Analyzer.AdmittedBounds | analyzer.py:211-213 | an admitted candidate's consistency lies in [0.5, 1.0] and its matches are pooled matches of its FC |
| Analyzer.CandidatesFromSound | analyzer.py:192-218 | every unknown-CN candidate is admitted, within the consistency bounds, with no FC value repeated |
| Analyzer.CandidatesFromAll | analyzer.py:192-204 | exactly the pooled FC values in 1..65535 found on at least `max(2, n/2)` cards give a candidate |
| Analyzer.UnknownCnSpec | analyzer.py:175-220 | the unknown-CN candidates: admitted, consistency in [0.5, 1.0], pooled matches of their FC, distinct FC values, and exactly the FC values passing both gates |
| Analyzer.FcCandidatesErrors | analyzer.py:130-141 | `find_fc_candidates` raises exactly when some payload is not hex, with the first such payload, under either policy |
| Analyzer.KnownCnSpec | analyzer.py:143-173 | the known-CN pool is every card's matches; with one card, one candidate per FC value holding all its matches; with several, an FC value is reported exactly when its group's consistent matches cover every card, and its candidate holds exactly those matches; consistency 1.0, distinct FC values, and format matching applied to the fresh candidate |
| Analyzer.ScoreSpec | analyzer.py:359-393 | the +25 bonus never fires; the score is `100·consistency + 50·cards` plus between -50 and +130; a matched format is worth exactly 100 |
| Analyzer.RankedSpec | analyzer.py:349-357 | the ranking raises exactly when the search does; otherwise at most `max_candidates`, the known FC only, non-increasing score, none left out above one listed, ties in found order |
| Analyzer.UnknownCount | analyzer.py:402-404 | the count of unknown-CN cards is at most the card count, and positive exactly when some CN is unknown |
| Analyzer.UnknownConcatSpec | analyzer.py:410-413 | collecting the unknown-CN cards' matches raises exactly when one of their payloads is rejected, with the first; otherwise it holds exactly their matches |
| Analyzer.TalliesTop | analyzer.py:422-424 | as many of the sorted counts as there are keys, up to the limit. Each is a key that occurs, with its count, by non-increasing count. No key left out occurs more often, and equal counts keep first-seen order |
| Analyzer.SummarySpec | analyzer.py:395-436 | the empty dict exactly when every CN is known; raises exactly on a rejected unknown-CN payload; otherwise the card counts, every FC value seen, and the top 10 FC values and top 5 layouts |
| Analyzer.RFIDAnalyzer.constructor | analyzer.py:17-30 | stores the settings and the catalog, with no cards and the counter at 0 |
| Analyzer.RFIDAnalyzer.AddCard | analyzer.py:32-46 | an unnamed card advances the counter and takes the new `Card_NNN`; a missing CN is stored as unknown; the card is appended |
| Analyzer.RFIDAnalyzer.FindMatchesSingleCard | analyzer.py:56-75 | returns exactly the card's matches |
| Analyzer.RFIDAnalyzer.FindFcCandidates | analyzer.py:130-141 | nothing for no cards; the unknown-CN policy exactly when some CN is unknown |
| Analyzer.RFIDAnalyzer.FindFcCandidatesKnownCn | analyzer.py:143-173 | returns exactly the known-CN candidates |
| Analyzer.RFIDAnalyzer.FindFcCandidatesUnknownCn | analyzer.py:175-220 | raises on the first rejected payload; otherwise returns candidates of the unknown-CN policy |
| Analyzer.RFIDAnalyzer.CollectByFc | analyzer.py:183-187 | pools the dict's matches in key order, FC-filtered |
| Analyzer.RFIDAnalyzer.ConsolidateUnknownCn | analyzer.py:190-218 | consolidates every FC group of the pool in key order, skipping values that fail a gate |
| Analyzer.RFIDAnalyzer.FindBestPatternForFc | analyzer.py:222-281 | the best-covering signature's matches when the coverage gate passes, else the representatives |
| Analyzer.RFIDAnalyzer.FindBestCoverage | analyzer.py:241-253 | the running best coverage over the signature groups in dict order |
| Analyzer.RFIDAnalyzer.PickRepresentatives | analyzer.py:261-281 | one representative per card name, taken in set order |
| Analyzer.RFIDAnalyzer.GetBestCandidates | analyzer.py:349-357 | the ranking of the candidates `find_fc_candidates` returns |
| Analyzer.RFIDAnalyzer.AnalyzeUnknownCnPatterns | analyzer.py:395-436 | returns exactly the unknown-CN summary |
| Refactored.MatchesOfSpec | main.py:203-263 | matches exist exactly when the payload is hex, and otherwise the payload is reported. They are exactly the admissible matches, each signature once, well formed, named after the card, with `cn_value == known_cn` and the known FC. A negative known CN finds nothing |
| Refactored.BoostKeepsMatches | main.py:305-317 | the boost step changes only the boost and the format name |
| Refactored.FcCandidatesErrors | main.py:265-303 | nothing for no cards; raises exactly when some payload is not hex, with the first |
| Refactored.FcCandidatesSpec | main.py:265-303 | one card: one candidate per FC value holding all its matches; several cards: an FC value is reported exactly when its group's consistent matches cover every card, and its candidate holds exactly those matches. Consistency 1.0, distinct FC values, and the boost applied to the fresh candidate: the largest boost any match earns, so `total_score` is 1.0 plus the boost |
| Refactored.ScoreSpec | main.py:365-385 | the score is `100·consistency + 50·cards + boost` plus between -50 and +30. A different boost shifts it by the difference. Leaving 1..65535 costs exactly 50 |
| Refactored.RankedSpec | main.py:355-388 | the ranking raises exactly when the search does; otherwise at most `max_candidates`, the known FC only, non-increasing score, none left out above one listed, ties in found order |
| Refactored.RFIDAnalyzer.constructor | main.py:103-114 | stores the settings and the catalog, with no cards and the counter at 0 |
| Refactored.RFIDAnalyzer.AddCard | main.py:116-125 | an unnamed card advances the counter and takes the new `Card_NNN`; the card is appended |
| Refactored.RFIDAnalyzer.FindMatchesSingleCard | main.py:203-263 | returns exactly the card's matches |
| Refactored.RFIDAnalyzer.FindFcCandidates | main.py:265-303 | returns exactly the boosted candidates |
| Refactored.RFIDAnalyzer.GetBestFcCandidates | main.py:355-388 | returns exactly the ranking of the candidates found |
| Legacy.NewCardDataSpec | main_bk.py:43-47 | construction fails exactly when some character is not a hex digit, reporting the payload; otherwise it stores the same digits lower-cased, with the same value; the empty payload passes |
| Legacy.RegionsOverlapSpec | main_bk.py:164-168 | the overlap test is symmetric, is the negation of disjointness, and for non-empty ranges holds exactly when some bit lies in both |
| Legacy.MatchesOfSpec | main_bk.py:105-161 | fails exactly on an empty or non-hex payload, reporting it. Otherwise exactly the admissible matches, each well formed with non-overlapping regions, named after the card, with its CN and, when `search_fc` is set, that FC |
| Legacy.FcCountAll | main_bk.py:194-201 | an FC value is counted once per card for every card exactly when every card has a match of that value |
| Legacy.CommonFcs | main_bk.py:205 | `common_fcs` is exactly the values counted `num_cards` times |
| Legacy.CommonFcsSpec | main_bk.py:204-205 | with per-card counts, those are exactly the values on every card |
| Legacy.CommonFcErrors | main_bk.py:170-214 | nothing for no cards; raises exactly when some payload is rejected, with the first, in both branches |
| Legacy.CommonFcKnown | main_bk.py:179-184 | with `known_fc`, one entry holding every match of every card, or none exactly when no card has a match; no all-cards check |
| Legacy.KeptPoolSpec | main_bk.py:187-192 | `all_matches` holds exactly the matches of the last card of each key |
| Legacy.GroupsOfSpec | main_bk.py:208-214 | the FC dict has distinct keys, exactly the FC values present, each mapping to exactly its matches |
| Legacy.CommonPoolFcs | main_bk.py:203-212 | the FC values kept are exactly those on every card |
| Legacy.CommonFcUnknown | main_bk.py:186-214 | without `known_fc`, exactly the FC values on every card, each once, each with its matches from the last card of each key |
| Legacy.LabelsBound | main_bk.py:234-240 | there are at most as many card labels as matches, and at least one for a non-empty list |
| Legacy.HalfPointsSpec | main_bk.py:239-252 | twice the score is two per card label, plus one for uniform window lengths and one for uniform FC lengths, with bonuses only for several labels |
| Legacy.LookupFc | main_bk.py:225-228 | `[(known_fc, ...)]` when that key is present, `[]` exactly when it is not |
| Legacy.BestFcKnown | main_bk.py:221-228 | the ranking raises exactly when `find_common_fc` does; with `known_fc` it returns what was found for it |
| Legacy.SortedStrict | main_bk.py:257 | the tuple sort is a permutation, strictly descending by `(score, fc_value)` for distinct FC values |
| Legacy.TopGroups | main_bk.py:257-258 | the first `limit` groups: `min(limit, n)` many, from the groups, strictly descending, each group left out below every group kept |
| Legacy.BestFcUnknown | main_bk.py:230-258 | without `known_fc`, the top `max_candidates` common FC groups by `(score, fc_value)`, every group left out ranking below every group returned |
| Legacy.ScoreFc | main_bk.py:232-254 | the scoring loop computes the half-point score |
| Legacy.CountCard | main_bk.py:195-201 | one card adds one to the count of each of its distinct FC values |
| Legacy.KeepCommonFcs | main_bk.py:208-212 | the filtering loop keeps, in key order, exactly the matches whose FC value is common |
| Legacy.GroupFcMatches | main_bk.py:208-214 | the grouping loop builds the FC dict of the kept matches |
| Legacy.RFIDAnalyzer.constructor | main_bk.py:68-73 | stores the settings, with no cards and the counter at 0 |
| Legacy.RFIDAnalyzer.AddCard | main_bk.py:75-83 | an unnamed card advances the counter even when validation then fails; only a valid card is appended |
| Legacy.RFIDAnalyzer.FindMatchesSingleCard | main_bk.py:105-161 | returns exactly the card's matches for the target FC |
| Legacy.RFIDAnalyzer.FindCommonFc | main_bk.py:170-214 | returns exactly the common FC groups |
| Legacy.RFIDAnalyzer.CollectKnownFc | main_bk.py:179-184 | the `known_fc` branch |
| Legacy.RFIDAnalyzer.CollectCommonFc | main_bk.py:186-214 | the branch without `known_fc` |
| Legacy.RFIDAnalyzer.ScanCards | main_bk.py:190-201 | fills `all_matches`, or raises on the first rejected card, and counts each card's FC values once |
| Legacy.RFIDAnalyzer.GetBestFcCandidates | main_bk.py:216-258 | returns exactly the legacy ranking |

## Left out

- Command-line handling, printing and interaction: `main()`, `Colors`, `print_results`, the `_print_*` and `_interactive_*` methods, `_get_candidate_summary` and `load_cards_from_file`. They are presentation and I/O only.
- `_load_hid_patterns` and `utils.load_hid_patterns`: the format catalog and its tolerance are a parameter, not read from a JSON file. So the fallback tolerance of 2 and 3 for an empty catalog is not modelled.
- `add_cards` in all three variants: it is a loop of `add_card` calls over parsed dictionaries.
- `min_bits < max_bits` is checked only by the legacy command line (main_bk.py:537); the engines accept any bounds, and so does the model.
- Floating point: ratios and scores are exact reals, and `confidence_boost` is an integer. The JSON catalog may hold fractional boosts, which are not modelled.
- Legacy.HalfPoints: the legacy score uses halves, so the model works with twice the score. Comparing doubled scores orders the groups the same way.
- Python's `int(s, 16)` also accepts surrounding whitespace, underscores, a `0x` prefix, a leading `+` or `-` sign and non-ASCII Unicode digits, so `hex_to_binary("+1f")` in `main.py` returns `000000011111`. The model accepts only plain hex digits and returns an error for all of these. The legacy engine is unaffected, because its card validation rejects every such character first.
- `unknown_cn_mode` (analyzer.py:27) is stored but never read. The constructor stores it and nothing else uses it.
- The `pattern_analysis` entry of the summary is an empty `defaultdict` that nothing fills, and is not part of `Analysis`.
- The summary's pattern key is a formatted string of five numbers. The model uses the `Layout` datatype of those numbers instead; distinct numbers give distinct strings, so the counts agree.
- In-place updates of candidates are not modelled as mutation. `_apply_format_matching` and `_apply_real_world_boost` write a candidate's fields, and are modelled as functions that return the updated candidate. The candidate is fresh at that point, so nothing else observes the change.
- The in-place `list.sort` is not modelled as mutation: it is the function `Ranking.SortDesc`, a stable insertion sort.
- Legacy.SortedStrict: the tuple sort in main_bk.py:257 also compares the match lists when score and FC value tie. FC values are distinct keys of a dict, so that comparison is never reached, and the model leaves it out.
- Analyzer.RFIDAnalyzer.PickRepresentatives: iterating a Python set is hash-ordered, so the order of the representatives is not specified, only that there is exactly one per card name.
- Analyzer.RFIDAnalyzer.FindFcCandidatesUnknownCn: for the same reason, it is specified by the relation `UnknownCnOk`, not by a function, and so is `Analyzer.RFIDAnalyzer.FindBestPatternForFc`.
- Analyzer.RFIDAnalyzer.GetBestCandidates: it is stated as the ranking of some result of `find_fc_candidates` that the unknown-CN relation allows, because that result depends on set order.
- Matching.UniquePatterns: the source returns `list(set(...))`, whose order is hash-dependent; the model returns the set.
- Window lengths below 1 contribute nothing, because their field loops are empty. So the enumeration starts its window lengths at `max(min_bits, 0)`, not at `min_bits`.
- The nested loops are split into one method per loop level, each proved against its own specification function. These helper methods have no rows of their own: `FindFcFields`, `FindCnFields`, `FindCnLengths`, `CnField`, `SearchOffsets`, `CollectBlocks`, `FirstFormat`, `AppendFcFiltered`, `AppendKeepCommon`.
- Python dicts are modelled as a key sequence with a map (`Pools.Dict`), or as a sequence of FC groups (`Legacy.FcGroup`). Assigning an existing key keeps that key's first position and replaces its value, as in Python.
- KeyboardInterrupt and EOF handling, and the running time of the enumeration: only functional behaviour is modelled.
