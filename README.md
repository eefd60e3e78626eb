# Pairwise ranking, modelled in Dafny

pairwise-ranking is a console tool that ranks a list of items by asking the
user which of two items they prefer. This project models its core:

- **Scheduling.** Every unordered pair of item indices is listed, and in
  "reduced" voting the pairs that sit close together on the item circle are
  pruned (`Scheduling`, `Helpers`).
- **The voting round.** The `VotingRound` class holds score-based rounds, which
  vote on a fixed schedule, and rank-based rounds (`RankBased`), a
  user-driven binary insertion sort over an item array with vote and undo
  (`Ranking`, `VotingRounds`).
- **The voting file.** Items, a blank line, the seed, the format word, then
  one "a b w" line per vote, together with every rejection rule of the
  loader (`RoundTexts`, `VotingRounds`).
- **The older free-function variant** in src/functions.cpp: `verifyVotingRound`,
  pruning, vote and undo, the file reader and writer, and the voting line
  (`Legacy`).
- **Scores.** Tallying wins and losses, merging score lists, the ranking
  order, the fixed-width score table, and the "W L name" score file
  (`Scores`, `ScoreTables`, `ScoreFiles`).
- **The two Python test-registration scripts.** They rewrite the block of
  test names under each suite in CMakeLists.txt and the `run_tests` block
  of each suite's source, using Python's list slicing (`TextSearch`,
  `PythonLists`, `RegisterCTests`, `GenerateCTests`).

State the source changes in place is modelled as classes: `VotingRound`,
`RankBased` over an `array` of items, and the legacy `LegacyRound` struct.
Loops are methods proved against specification functions, and what the
source promises is proved about those functions as lemmas. Files are
modelled as their lists of lines.

## Model

| member | source | states |
|---|---|---|
| Types.OptionIndex | src/voting_round.cpp:646 | A vote's winner is written as 0 for A and 1 for B |
| Types.DistinctIffCardinality | src/voting_round.cpp:21-23 | Items are unique exactly when the set of items is as large as the list |
| Helpers.SumOfFirstIntegersIsSum | src/helpers.cpp:8-10 | n(n+1)/2 is the sum 1+…+n |
| Helpers.PruningAmount | src/helpers.cpp:11-16 | 0 below six items; otherwise at least 1, and small enough that the pruned distances stay under half the circle |
| Helpers.IsNumber | src/helpers.cpp:17-27 | True exactly when the string is non-empty and all decimal digits |
| Helpers.ParseNumber | src/helpers.cpp:37-43 | A value exactly when the string is a numeral, and then its decimal value |
| Helpers.NumberOfDigits | src/functions.cpp:476-481 | The exact decimal digit count: 10^(r-1) <= n < 10^r, with 1 digit for 0 to 9 |
| Helpers.NumberOfDigitsMonotone | src/functions.cpp:476-481 | A larger number never has fewer digits |
| Helpers.NatToString | src/voting_round.cpp:639 | `std::to_string` gives a numeral with no leading zero, of length NumberOfDigits(n), whose value is n |
| Helpers.ParseNumberOfNatToString | src/voting_round.cpp:403 | Parsing a printed number gives the number back |
| Helpers.LeadingWord | src/helpers.cpp:28-36 | The longest space-free prefix, which ends at a space or at the end |
| Helpers.Words | src/helpers.cpp:28-36 | `parseWords` gives only non-empty words without whitespace |
| Helpers.WordsOfJoinWords | src/helpers.cpp:28-36 | Words joined by single spaces split back into the same words |
| Helpers.ParseWords | src/helpers.cpp:28-36 | The stream loop yields exactly Words(s) |
| VotingFormats.CharacterToVotingFormat | src/voting_format.cpp:3-14 | 'f', 'r' and 'i' map to Full, Reduced and Ranked, and every other character to Invalid |
| VotingFormats.StringToVotingFormat | src/voting_format.cpp:15-26 | Only "full", "reduced" and "ranked" are valid, each mapping to the format it spells |
| VotingFormats.VotingFormatToString | src/voting_format.cpp:27-39 | Invalid gives "", and every valid format gives one of the three words |
| VotingFormats.FormatRoundTrip | src/voting_format.cpp:15-39 | Reading back a written format gives the same format, Invalid included |
| VotingFormats.FormatWordsDistinct | src/voting_format.cpp:27-39 | The three valid formats have three different words |
| Scheduling.SortIndexPair | src/voting_round.cpp:15-20 | The pair as (min, max) |
| Scheduling.GenerateIndexPairs | src/voting_round.cpp:42-56 | The nested loops produce AllPairs(n) |
| Scheduling.AllPairsMembership | src/voting_round.cpp:42-56 | A pair is listed exactly when i < j < n |
| Scheduling.AllPairsSorted | src/voting_round.cpp:42-56 | The pairs come in lexicographic order, each once |
| Scheduling.AllPairsCount | src/voting_round.cpp:42-56 | There are n(n-1)/2 pairs, which is sumOfFirstIntegers(n-1) |
| Scheduling.Without | src/voting_round.cpp:117-124 | Erasing a pair keeps exactly the other pairs |
| Scheduling.WithoutSet | src/voting_round.cpp:117-131 | Erasing a set keeps exactly the pairs outside it |
| Scheduling.RemoveNSpacedPairs | src/voting_round.cpp:117-124 | The erase loop removes the pairs at circular offset `offset` |
| Scheduling.PruneVotes | src/voting_round.cpp:125-131 | The iterations remove every pair at offsets 1 to `iterations` |
| Scheduling.ReduceVotes | src/voting_round.cpp:132-138 | Below six items the schedule is unchanged; otherwise the near pairs up to pruningAmount(n) are removed |
| Scheduling.OffsetPairsAreDistance | src/voting_round.cpp:114-116 | The pairs generated at offset d are exactly those at circular distance d |
| Scheduling.NearPairsAreClose | src/voting_round.cpp:125-131 | The pruned set is exactly the pairs at circular distance 1 to p |
| Scheduling.ScheduleMembership | src/voting_round.cpp:132-138 | A reduced schedule keeps exactly the pairs farther apart than pruningAmount(n); any other schedule keeps all pairs |
| Scheduling.ReducedScheduleHasNoAdjacentPair | src/voting_round.cpp:132-138 | No reduced pair is adjacent on the circle, (0, n-1) included |
| Scheduling.NearPairsCount | src/voting_round.cpp:125-131 | p rounds of pruning target exactly n·p pairs |
| Scheduling.WithoutSetCount | src/voting_round.cpp:117-124 | Erasing from a repeat-free list removes one element per member of the set found in it |
| Scheduling.ReducedScheduleCount | src/voting_round.cpp:132-138 | A reduced schedule has n(n-1)/2 - n·pruningAmount(n) pairs |
| Scheduling.ScheduleDistinct | src/voting_round.cpp:194-205 | Every schedule is repeat-free and holds only pairs i < j < n |
| Scheduling.WithoutSetSorted | src/voting_round.cpp:117-124 | Erasing keeps the remaining pairs in order |
| Ranking.StepKeepsWindowValid | src/voting_round.cpp:227-252 | A vote keeps start <= end <= sorted. It grows the sorted count by one exactly when the window closes, at index mid+1 for A and mid for B |
| Ranking.ResetWindowMeansInserted | src/voting_round.cpp:258 | The window is reset to [0, sorted) exactly when the vote inserted an item |
| Ranking.WindowAfterValid | src/voting_round.cpp:221-252 | Any vote sequence leaves a valid window, with at least two sorted items after one vote |
| Ranking.LaterWindowNested | src/voting_round.cpp:227-252 | A later window has a longer sorted prefix, or lies inside the window an earlier answer left |
| Ranking.LaterMatchupDiffers | src/voting_round.cpp:227-252 | A later matchup (mid, sorted) always differs from an earlier one |
| Ranking.WinnersOfHistory | src/voting_round.cpp:483-492 | The recorded votes hold the answers given |
| Ranking.SameItemMeansNoInsertion | src/voting_round.cpp:259-269 | Two consecutive votes on the same inserted item mean the first did not insert it |
| Ranking.RunStartWindow | src/voting_round.cpp:262-285 | The first vote of the last run on one item starts from the reset window, and none of that run's earlier votes inserted |
| Ranking.UninsertInsert | src/voting_round.cpp:298-304 | Moving an inserted item back out restores the items |
| Ranking.InsertPermutes | src/voting_round.cpp:240-248 | Inserting by shifting permutes the items |
| Ranking.UndoAfterStep | src/voting_round.cpp:253-338 | Undoing a vote restores the items it changed, and the items stay a permutation |
| Ranking.UndoPermutes | src/voting_round.cpp:298-304 | Undoing an insertion permutes the items |
| Ranking.ItemsAfter | src/voting_round.cpp:462-467 | Replaying votes keeps the length and permutes the items |
| Ranking.ConsistentStepKeepsOrder | src/voting_round.cpp:227-252 | Answering by a strict key keeps the sorted prefix ordered and bounds the window |
| Ranking.FinishedRankIsSorted | src/voting_round.cpp:227-252 | Once every item is sorted after key-consistent answers, the items are in strictly increasing key order |
| Ranking.ShiftIn | src/voting_round.cpp:240-248 | The shifting loop inserts items[sorted] at the insertion index |
| Ranking.ShiftOut | src/voting_round.cpp:298-304 | The reverse loop moves the inserted item back to just past the sorted prefix |
| Ranking.RankBased.constructor | src/voting_round.cpp:221-226 | One sorted item, window [0, 1) |
| Ranking.RankBased.CurrentIndexPair | src/voting_round.cpp:339-342 | (mid, sorted), with mid inside the window and below the sorted count |
| Ranking.RankBased.Vote | src/voting_round.cpp:227-252 | The window and the array move exactly as WindowStep and ItemsStep say, and validity is kept |
| Ranking.RankBased.UndoVote | src/voting_round.cpp:253-338 | Fails with no change when there are no votes. Otherwise the window is the one before the last vote and the array is un-shifted |
| Ranking.RankBased.Replay | src/voting_round.cpp:277-285 | Re-running the run's votes rebuilds the window before the last vote |
| RoundTexts.ParseVote | src/voting_round.cpp:139-161 | Three numeric words with a 0/1 winner give exactly that vote (0 for A, 1 for B); any other line gives the empty vote (0, 0) |
| RoundTexts.ParseVoteLine | src/voting_round.cpp:139-161 | A written vote line reads back as the same vote |
| RoundTexts.ParseVoteLines | src/voting_round.cpp:423-431 | Written vote lines read back as the same votes |
| RoundTexts.DuplicateMatchupsMeaning | src/voting_round.cpp:32-38 | A duplicate means two votes on the same unordered pair |
| RoundTexts.ConsistentVoteAt | src/voting_round.cpp:462-467 | Each vote of a consistent ranked history is the matchup shown at that point |
| RoundTexts.ItemCount | src/voting_round.cpp:376-382 | The item lines are the lines before the first empty one |
| RoundTexts.ParseRoundTextAsWritten | src/voting_round.cpp:372-458 | `create(lines)`'s checks. On success: at least two items taken from the top lines, a valid format, and one vote per line after the header |
| RoundTexts.CheckedRound | src/voting_round.cpp:416-458 | After the items and the seed: the round exactly when the format is valid, no vote line failed, every index is in range, no matchup repeats, and a score format has no more votes than its schedule |
| RoundTexts.ParseRoundText | src/voting_round.cpp:372-477 | The corrected load: accepts what the load as written accepts, except ranked votes that are not the presented matchups |
| RoundTexts.CheckedText | src/voting_round.cpp:383-458 | Whatever loads has distinct non-empty items, a valid format, and well-formed, in-range, unrepeated votes within the schedule |
| RoundTexts.ParsedIsAcceptable | src/voting_round.cpp:372-477 | Whatever the corrected load accepts satisfies all of its checks |
| RoundTexts.RoundTextRoundTrip | src/voting_round.cpp:622-649 | Writing an acceptable round and loading it back gives the same items, seed, format and votes |
| RoundTexts.UndoKeepsAcceptable | src/voting_round.cpp:493-506 | Dropping the last vote keeps every load check passing, ranked consistency included |
| RoundTexts.ScoreVoteKeepsAcceptable | src/voting_round.cpp:483-492 | When a score round's votes are its schedule's first pairs, voting on the next one keeps every load check passing: no empty vote, indices in range, no repeated matchup, no more votes than pairs |
| RoundTexts.NextMatchupIsNew | src/voting_round.cpp:227-252 | The matchup the insertion sort shows next was never voted on before |
| RoundTexts.RankedVoteKeepsAcceptable | src/voting_round.cpp:483-492 | Voting on the matchup a ranked round shows keeps every load check passing, and the votes stay the presented matchups |
| RoundTexts.RankedReplayOverrun | src/voting_round.cpp:462-467 | The load as written accepts a ranked file whose second vote is replayed with every item already sorted |
| RoundTexts.RankedReplayOverrunRejected | src/voting_round.cpp:462-467 | The corrected load rejects that file |
| RoundTexts.RankedReplayInBounds | src/voting_round.cpp:241 | For a file the corrected load accepts, every replayed ranked vote reads an item inside the array |
| VotingRounds.Shuffled | src/voting_round.cpp:478-482 | The seeded shuffle keeps the length and permutes the elements |
| VotingRounds.CreateScoreBased | src/voting_round.cpp:194-205 | Only full and reduced formats get a schedule, which is every pair, reduced for "reduced" |
| VotingRounds.ReadItems | src/voting_round.cpp:376-382 | The item loop reads the lines before the first empty one |
| VotingRounds.ReadVotes | src/voting_round.cpp:423-431 | The vote loop fails exactly when some line parses as (0, 0) |
| VotingRounds.FindMaxLength | src/voting_round.cpp:162-171 | 0 for no items, otherwise the length of a longest item |
| VotingRounds.PaddingRightAligns | src/voting_round.cpp:172-189 | Spaces then text right-aligns the text |
| VotingRounds.PaddedPairLayout | src/voting_round.cpp:172-189 | Both `counterString` overloads give "(c/t)" of length 2m+3, m the wider text, with both texts right-aligned in width m |
| VotingRounds.ChoiceLine | src/voting_round.cpp:614-617 | The line starts with the counter and places each item at a fixed column, padded to the longest item |
| VotingRounds.VotingRound.constructor | src/voting_round.cpp:358-364 | Items and original order are the input; no votes, not saved |
| VotingRounds.VotingRound.CreateFormat | src/voting_round.cpp:694-707 | Fails only for Invalid. Score formats get their schedule; ranked gets a fresh window [0, 1) |
| VotingRounds.VotingRound.Create | src/voting_round.cpp:347-371 | Fails exactly for fewer than two items, an empty item, or Invalid. Otherwise the round is valid with no votes, and the seed is the clock's when 0 is given |
| VotingRounds.VotingRound.Shuffle | src/voting_round.cpp:720-734 | Items and schedule are shuffled by the seed, and a fresh round becomes reproducible from its text |
| VotingRounds.VotingRound.RemainingVotesMeaning | src/voting_round.cpp:735-752 | Score rounds have votes left while fewer than scheduled; ranked rounds while the sorted count is below the item count |
| VotingRounds.VotingRound.NumberOfScheduledVotes | src/voting_round.cpp:767-780 | 0 for ranked; n(n-1)/2 for full; n(n-1)/2 - n·pruningAmount(n) for reduced with six or more items |
| VotingRounds.VotingRound.CurrentIndexPair | src/voting_round.cpp:708-719 | The next scheduled pair, or the insertion sort's (mid, sorted), always two in-range indices |
| VotingRounds.VotingRound.CurrentMatchup | src/voting_round.cpp:586-596 | Present exactly while votes remain, and then the two items of the current pair |
| VotingRounds.VotingRound.CurrentVotingLine | src/voting_round.cpp:597-618 | Present exactly while votes remain, and then the choice line for the current matchup |
| VotingRounds.VotingRound.Vote | src/voting_round.cpp:483-492 | With no vote left: false, no change. Otherwise exactly one vote on the current pair is appended, the round is unsaved, and a ranked round steps its window and array |
| VotingRounds.VotingRound.UndoVote | src/voting_round.cpp:493-506 | With no votes: false, no change. Otherwise exactly the last vote is removed, the round is unsaved, and a ranked round's array is un-shifted |
| VotingRounds.VotingRound.UndoRankedAnswer | src/voting_round.cpp:679-693 | For a ranked round, the window goes back to the one before the last answer, the items are un-inserted accordingly and stay a permutation of the original items |
| VotingRounds.VotingRound.ConvertToText | src/voting_round.cpp:622-649 | No lines without items; otherwise the original items, "", seed, format word and vote lines |
| VotingRounds.VotingRound.ReplayRanked | src/voting_round.cpp:462-467 | Replaying consistent ranked votes gives the window and array those votes produce |
| VotingRounds.VotingRound.CreateFromLines | src/voting_round.cpp:372-477 | Fails exactly when the corrected load rejects the lines; otherwise a saved, valid round whose text is the loaded contents |
| VotingRounds.VotingRound.Load | src/voting_round.cpp:442-477 | From checked contents: fails only on inconsistent ranked votes, otherwise builds the round |
| VotingRounds.ReadRoundText | src/voting_round.cpp:372-458 | The line-index walk computes ParseRoundTextAsWritten |
| VotingRounds.FreshRoundAcceptable | src/voting_round.cpp:347-371 | A new round of distinct non-empty items passes every load check |
| VotingRounds.RankByAnswers | src/voting_round.cpp:483-492 | Answering every ranked matchup by a strict key ends voting with the items sorted by that key and permuted |
| VotingRounds.VoteThenUndo | src/voting_round.cpp:493-506 | Undo after vote restores the votes, the items and the window |
| VotingRounds.VoteKeepsLoadable | src/voting_round.cpp:483-492 | Voting keeps the round valid, its contents acceptable to the loader, and a score round's votes in schedule order |
| VotingRounds.UndoKeepsLoadable | src/voting_round.cpp:493-506 | Undoing keeps the round valid, its contents acceptable to the loader, and a score round's votes in schedule order |
| VotingRounds.SaveAndReload | src/voting_round.cpp:622-649 | Saving a round and loading the text gives the same contents, items and current matchup |
| VotingRounds.SameTextSameMatchup | src/voting_round.cpp:442-477 | Two reproducible rounds with the same text hold the same items and show the same current matchup |
| Legacy.SortedPairs | src/functions.cpp:233-239 | One sorted key per scheduled pair |
| Legacy.ExpectedIndexPairs | src/functions.cpp:246-255 | 0 below two items, otherwise the size of the schedule the round should hold |
| Legacy.VerifyVotingRound | src/functions.cpp:280-325 | True exactly when all the checks hold |
| Legacy.FreshRoundVerifies | src/functions.cpp:97-122 | A new round with distinct items and a non-zero seed verifies |
| Legacy.VoteKeepsVerified | src/functions.cpp:968-978 | Voting on the next scheduled pair keeps a round verified |
| Legacy.UndoKeepsVerified | src/functions.cpp:979-989 | Removing the last vote keeps a round verified |
| Legacy.ParseVotingRound | src/functions.cpp:123-213 | Loads exactly what `create(lines)` loads, minus ranked files |
| Legacy.LoadedTextRoundTrip | src/functions.cpp:427-459 | The text of a loaded round reads back as itself, with the same schedule |
| Legacy.LoadedRoundVerifies | src/functions.cpp:280-325 | A loaded round with a non-zero seed and ordered vote pairs verifies |
| Legacy.PruningShrinks | src/functions.cpp:365-377 | Pruning shrinks the full schedule exactly when there are six or more items |
| Legacy.LegacyRound.constructor | src/functions.cpp:97-122 | A value-initialised struct: empty, zero, false |
| Legacy.LegacyRound.PruneVotes | src/functions.cpp:365-377 | Nothing once reduced or voted; otherwise the schedule is reduced, and the round is marked reduced exactly when pairs were removed |
| Legacy.LegacyRound.ShuffleVotingOrder | src/functions.cpp:92-96 | Pairs and items shuffled by the seed, nothing else changed |
| Legacy.LegacyRound.GenerateNewVotingRound | src/functions.cpp:97-122 | Fails exactly for fewer than two items or an empty item. Otherwise the round has the clock seed and every pair, pruned when asked |
| Legacy.LegacyRound.ParseVotingRoundFromText | src/functions.cpp:123-213 | Fails exactly when ParseVotingRound does; otherwise the loaded round |
| Legacy.LegacyRound.Build | src/functions.cpp:180-185 | A loaded round holds the file's items, seed and votes, with every pair, pruned for "reduced", then shuffled by the seed |
| Legacy.LegacyRound.ConvertVotingRoundToText | src/functions.cpp:427-459 | No lines when either item list is empty, otherwise the voting file |
| Legacy.LegacyRound.Vote | src/functions.cpp:968-978 | Fixed messages and no change without a round or pairs left; otherwise the next pair's vote is appended |
| Legacy.LegacyRound.Undo | src/functions.cpp:979-989 | A fixed message without a round; otherwise only the last vote, if any, is removed |
| Legacy.LegacyRound.CurrentVotingLine | src/functions.cpp:490-509 | Absent exactly when no votes remain |
| Legacy.LegacyRound.CurrentVotingLineShows | src/functions.cpp:490-509 | The line is the next vote's counter over the total, then both items of the next pair padded to the longest item |
| Legacy.LegacyCounterString | src/functions.cpp:482-489 | Equals the newer numeric counterString whenever the counter is no wider than the total |
| Scores.FindItem | src/calculate_scores.cpp:9-11 | The first entry with the item, or the end exactly when it is absent |
| Scores.SumsOfUpdate | src/calculate_scores.cpp:18-20 | Incrementing one entry changes only that item's totals |
| Scores.EntryHoldsTotals | src/calculate_scores.cpp:8-35 | With distinct names an entry holds its item's totals |
| Scores.AddScoreAdds | src/score_helpers.cpp:175-186 | The item's wins and losses grow by the score's; the name is appended only if new; other entries are unchanged |
| Scores.AddScoreKeepsNamesDistinct | src/score_helpers.cpp:175-186 | Names stay distinct |
| Scores.CalculateScores | src/calculate_scores.cpp:39-52 | The loop computes Tally: winner incremented, then loser, vote by vote |
| Scores.TallyMeaning | src/calculate_scores.cpp:39-52 | Each item has one win per vote won and one loss per vote lost. Totals equal the vote count, and names come in order of first appearance |
| Scores.TallyNames | src/calculate_scores.cpp:8-35 | Names are distinct, an item has an entry exactly when it took part, and no votes give no scores |
| Scores.WinsAndLossesCountVotes | src/calculate_scores.cpp:39-52 | With distinct items, wins plus losses is the number of votes involving the item's index |
| Scores.DedupOntoDistinct | src/score_helpers.cpp:175-193 | Adding names keeps them distinct and holds exactly the names seen |
| Scores.AddScores | src/score_helpers.cpp:187-193 | The loop adds every score of b into a |
| Scores.AddAllMeaning | src/score_helpers.cpp:187-193 | Totals are summed per item, and names keep first-appearance order |
| Scores.CombineScores | src/score_helpers.cpp:194-200 | The loop folds every set in |
| Scores.CombineMeaning | src/score_helpers.cpp:194-200 | Distinct names in first-appearance order, with wins and losses summed over all sets |
| Scores.CombinedEntry | src/score_helpers.cpp:194-200 | Every combined entry holds its item's sums |
| ScoreTables.StrLessOrder | src/score_helpers.cpp:98 | Name comparison is a strict total order |
| ScoreTables.ScoreBeforeByKey | src/score_helpers.cpp:35-103 | The comparator orders by net wins descending, then by confidence, then by name |
| ScoreTables.ScoreBeforeOrder | src/score_helpers.cpp:35-103 | The comparator is irreflexive and transitive, and its incomparability is transitive |
| ScoreTables.ScoreBeforeTotal | src/score_helpers.cpp:35-103 | Scores of different items are always comparable |
| ScoreTables.InsertScorePermutes | src/score_helpers.cpp:35-103 | Insertion adds exactly one element |
| ScoreTables.InsertScoreSorts | src/score_helpers.cpp:35-103 | Insertion keeps the list sorted |
| ScoreTables.SortScoresPermutes | src/score_helpers.cpp:35-103 | Sorting permutes the scores |
| ScoreTables.SortScoresSorts | src/score_helpers.cpp:35-103 | Sorting gives comparator order |
| ScoreTables.SortScoresRanks | src/score_helpers.cpp:35-103 | Net wins never rise. Equal positive net puts fewer votes first; equal negative net puts more votes first; then names ascend |
| ScoreTables.SortedPermutationUnique | src/score_helpers.cpp:35-103 | With distinct names only one sorted arrangement exists |
| ScoreTables.SortScoresCanonical | src/score_helpers.cpp:35-103 | With distinct names the input order does not affect the sorted result |
| ScoreTables.FindMaxLengthItem | src/score_helpers.cpp:104-113 | 0 for no scores, otherwise the length of a longest name |
| ScoreTables.FindMaxLengthWins | src/score_helpers.cpp:114-123 | 0 for no scores, otherwise the widest printed wins |
| ScoreTables.FindMaxLengthLosses | src/score_helpers.cpp:124-133 | 0 for no scores, otherwise the widest printed losses |
| ScoreTables.TableRowAligned | src/score_helpers.cpp:150-169 | A row is "\| item \| wins \| losses \|", each field right-aligned to its column |
| ScoreTables.ScoreRows | src/score_helpers.cpp:160-169 | One row per score, each of the table's width |
| ScoreTables.AppendLines | src/score_helpers.cpp:160-169 | The += loop appends each line and a newline |
| ScoreTables.CreateScoreTable | src/score_helpers.cpp:134-172 | The string built is the table of the sorted scores |
| ScoreTables.TableLayout | src/score_helpers.cpp:134-172 | Four frame lines plus one row per score, in sorted order, all of length 2+iw+3+ww+3+lw+2 |
| ScoreTables.TableWidths | src/score_helpers.cpp:134-149 | Each column is max(header length, widest entry) |
| ScoreTables.WidthsOfPermutation | src/score_helpers.cpp:104-133 | Widths do not depend on the scores' order |
| ScoreFiles.ParseScore | src/score_helpers.cpp:203-232 | A non-empty result comes from two numeric words and the text after the printed numbers; a missing name gives the empty score |
| ScoreFiles.ParseScoreLine | src/score_helpers.cpp:203-252 | A written score of a named item reads back as itself |
| ScoreFiles.ParseScoreOfPaddedNumber | src/score_helpers.cpp:224-231 | The name offset is computed from the values, so "05 3 x" names " x" |
| ScoreFiles.ParseScores | src/score_helpers.cpp:233-245 | The loop keeps the parsed lines in order and drops the failures |
| ScoreFiles.ParsedScoresFromLines | src/score_helpers.cpp:233-245 | No more scores than lines, each named and parsed from one of the lines |
| ScoreFiles.GenerateScoreFileData | src/score_helpers.cpp:246-252 | One "W L name" line per score, in order |
| ScoreFiles.ScoreFileRoundTrip | src/score_helpers.cpp:203-252 | Saved scores of named items read back as the same scores in order |
| TextSearch.FirstOccurrence | src/test/register_ctests.py:6 | The first position of the text, or none |
| TextSearch.FirstOccurrenceIffContains | src/test/register_ctests.py:6 | A first position exists exactly when the text occurs |
| TextSearch.LastOccurrenceBelow | src/test/register_ctests.py:6 | The last position below a bound, or none |
| TextSearch.TestNameIffPattern | src/test/register_ctests.py:3-6 | A line yields a name exactly when some "()" follows some "void " |
| TextSearch.TestNameOfDeclaration | src/test/register_ctests.py:3-6 | "void name()" followed by text without "()" yields name |
| TextSearch.FindAllTestsOfDeclarations | src/test/generate_ctests.py:11-14 | A file of declarations yields its names in order |
| TextSearch.FindAllTestsAppend | src/test/register_ctests.py:3-6 | The names of two parts are those of each part, in file order |
| TextSearch.FindAllTestsNone | src/test/register_ctests.py:3-6 | Lines without "void " yield no names |
| TextSearch.FirstLineFrom | src/test/register_ctests.py:8-13 | The first line from a start containing the needle, or none |
| PythonLists.DeleteThenInsert | src/test/register_ctests.py:44-48 | `del` then slice insertion replaces the slice by the block |
| RegisterCTests.FindLineIndexOfMatch | src/test/register_ctests.py:8-13 | The first matching index, or -1 |
| RegisterCTests.NextClosingLine | src/test/register_ctests.py:15-24 | The first ")" line from the start with no "addTestSuite" line before it; none means an "addTestSuite" line precedes every ")" line |
| RegisterCTests.FindLineIndexOfNextClosingParenthesis | src/test/register_ctests.py:15-24 | The loop returns NextClosingLine's index, or -1 |
| RegisterCTests.FindLineIndexOfNextReturn | src/test/register_ctests.py:26-33 | The first "return true" index from the start, or -1 |
| RegisterCTests.UpdateCMakeLists | src/test/register_ctests.py:35-51 | The `del` and slice insertion give CMakeListsUpdate |
| RegisterCTests.CMakeListsUpdateKeeps | src/test/register_ctests.py:35-51 | Lines through the suite's line and from the ")" line on are kept, with one "\t<name>\n" per test between them |
| RegisterCTests.CMakeListsUpdateWithoutClosing | src/test/register_ctests.py:40-48 | Without a closing ")" every line after the suite's line except the last is replaced |
| RegisterCTests.CMakeListsUpdateIdempotent | src/test/register_ctests.py:35-51 | A second rewrite with the same tests changes nothing |
| RegisterCTests.ClosingRewriteIdempotent | src/test/register_ctests.py:35-51 | For any entries free of ")" and "addTestSuite", a second rewrite of the suite's block changes nothing |
| RegisterCTests.UpdateTestSuiteFile | src/test/register_ctests.py:53-69 | The `del` and slice insertion give TestSuiteUpdate, with the file's own tests |
| RegisterCTests.TestSuiteUpdateKeeps | src/test/register_ctests.py:53-69 | Exactly the lines strictly between the signature and "return true" are replaced |
| RegisterCTests.TestSuiteUpdateIdempotent | src/test/register_ctests.py:53-69 | A second rewrite with the same tests changes nothing |
| RegisterCTests.MarkedRewriteIdempotent | src/test/register_ctests.py:53-69 | For any entries naming neither marker, a second rewrite of the block between the markers changes nothing |
| RegisterCTests.ReplaceKeepsTests | src/test/register_ctests.py:62-66 | A rewrite free of "void " keeps the file's tests |
| RegisterCTests.UpdateTestSuiteFileIdempotent | src/test/register_ctests.py:53-69 | Running the script's suite update on its own output changes nothing |
| GenerateCTests.FindLineInList | src/test/generate_ctests.py:16-21 | The 1-based number of the first matching line, or -1 |
| GenerateCTests.PreviousListLine | src/test/generate_ctests.py:23-32 | The nearest "list(APPEND test_cases" line below the bound with no "addTestSuite" line between; none means an "addTestSuite" line is nearer than every list line |
| GenerateCTests.FindPreviousTestCaseList | src/test/generate_ctests.py:23-32 | The backward loop returns PreviousListLine's number, or -1 |
| GenerateCTests.FindNextReturnInTestSuite | src/test/generate_ctests.py:34-41 | The first "return 1" line number from the given line on, or -1 |
| GenerateCTests.PatchCMakeLists | src/test/generate_ctests.py:45-57 | One pass of the loop gives CMakePatch |
| GenerateCTests.GenerateCMakeLists | src/test/generate_ctests.py:44-60 | The loop patches each suite in turn |
| GenerateCTests.CMakePatchKeeps | src/test/generate_ctests.py:48-57 | Lines after the list line up to two before the suite's line are replaced; the line before it and the rest are kept |
| GenerateCTests.CMakePatchOfNewSuite | src/test/generate_ctests.py:45-57 | A suite not yet named gets its entries in front of the last line, and nothing is removed |
| GenerateCTests.CMakePatchIdempotent | src/test/generate_ctests.py:44-57 | A second patch with the same tests changes nothing |
| GenerateCTests.PatchTestSuite | src/test/generate_ctests.py:63-77 | The `del` and slice insertion give TestSuitePatch, with the file's own tests |
| GenerateCTests.TestSuitePatchKeeps | src/test/generate_ctests.py:69-77 | Exactly the lines strictly between the signature and "return 1" are replaced |
| GenerateCTests.TestSuitePatchIdempotent | src/test/generate_ctests.py:63-77 | A second patch with the same tests changes nothing |
| GenerateCTests.MarkedBlockIdempotent | src/test/generate_ctests.py:63-77 | For any entries naming neither marker, a second patch of the block between the markers changes nothing |
| GenerateCTests.PatchTestSuiteIdempotent | src/test/generate_ctests.py:63-80 | Running the suite patch on its own output changes nothing |

## Left out

- Console, menu and keyboard code (src/program_loop.cpp, src/menus.cpp, src/keyboard_input.cpp, src/print.cpp, the menu strings in src/functions.cpp): interactive I/O.
- `fixSwedish` (src/functions.cpp:607-635): locale-specific byte rewriting.
- File reading and writing (`loadFile`, `saveFile`, `save`, `VotingRound::save`, `newRound`, `loadRound`, `combine`, the scripts' `open`, `glob` and `os.chdir`): files are their lists of lines, and the per-suite file loop of generate_ctests.py's suite patch is one call per file.
- VotingRounds.Shuffled: `std::default_random_engine` with `std::shuffle` is implementation-defined; a deterministic rotation by the seed stands in, and only "is a permutation" is relied upon.
- VotingRounds.VotingRound.Create: `generateSeed` reads the clock; its value is the parameter `clockSeed`, and so it is for Legacy.LegacyRound.GenerateNewVotingRound.
- VotingRounds.VotingRound.CurrentVotingLine: the ranked counter's total `~n·log2(n)` is floating point; it is the parameter `rankedEstimate`.
- VotingRounds.VotingRound.CurrentMatchup: the `(0, 0)` pair guard at src/voting_round.cpp:592-594 is left out, since a valid round never yields that pair.
- VotingRounds.VotingRound.UndoVote: the rank-based "only one sorted item" refusal coincides with "no votes" in every valid round, so it is not a separate case.
- VotingRounds.SaveAndReload: requires the round's contents to be acceptable to the loader, which the source does not check before saving. A round made by `create` from distinct items is acceptable (FreshRoundAcceptable), and VoteKeepsLoadable and UndoKeepsLoadable show that voting and undoing keep it so. For a score round this needs its votes to be the schedule's first pairs (VotingRound.FollowsSchedule). A round loaded from a hand-edited score file whose votes are out of schedule order can go on to vote on a pair it already holds, and its saved file is then refused as having duplicate matchups.
- VotingRounds.VotingRound.CreateFromLines: the corrected load (RoundTexts.ParseRoundText) refuses every ranked file whose votes are not exactly the matchups the insertion sort shows. The load as written checks only that the indices are in range and unrepeated, and its replay uses only each vote's answer. So it also accepts ranked files with other indices that never read past the array, such as items "a", "b" with the single vote "1 0 0". The model refuses these too, because `undoVote` uses the recorded indices: it takes `votes.back().b_idx` (src/voting_round.cpp:262) and the earlier votes' `b_idx` to find where the current item's answers start. With other indices it rebuilds the wrong window. For items "a", "b", "c" with the votes "0 1 0" and "1 1 1", undo replays the first vote from [0, 2) and leaves the empty window [2, 2), where the window before the last vote was [0, 2). The model's round invariant therefore keeps the recorded votes equal to the presented matchups.
- Helpers.ParseNumber: `std::stoul` overflow and the `uint32_t` truncation are not modelled; numbers are unbounded.
- ScoreTables.ScoreBefore: the `int32_t` casts and unsigned win counts are not modelled; counts are unbounded.
- ScoreTables.SortScores: `std::sort` is not stable, and the model fixes one order (insertion sort); SortScoresCanonical shows the result is the same for any input order when names are distinct.
- ScoreTables.CreateScoreTable: builds its rows through ScoreRows and AppendLines rather than one `+=` per field.
- ScoreFiles.ParseScore: the name offset is computed from the values, as the source does, so padded numbers shift the name (ParseScoreOfPaddedNumber).
- Legacy.VerifyVotingRound: `hasVotesWithInvalidVoteOption` cannot fire, since a vote's winner has only the values A and B.
- Legacy.PruningShrinks: for no items, `pruneVotes` subtracts 1 from a 32-bit unsigned count, which wraps to 2^32 - 1; Legacy.FullPairCount models that wrap, so a zero-item legacy round counts as shrunk and is marked reduced. The lemma requires at least one item because its if-and-only-if does not hold for zero.
- The legacy `calculateScores` and its increment helpers (src/functions.cpp:380-421) are the same code as src/calculate_scores.cpp and share Scores.CalculateScores.
- The unused helpers in the anonymous namespace of src/voting_round.cpp:57-113 (duplicates of the legacy checks) are modelled once, in Legacy.
- `numberOfDigits` uses `std::log10`; Helpers.NumberOfDigits is the exact digit count.
- The scripts' -1 "not found" results are fed into slicing; the model follows Python's negative slice bounds exactly (PythonLists).

## Findings

| source | as written | input that shows it | evidently intended | confidence | as-written member | corrected member |
|---|---|---|---|---|---|---|
| src/voting_round.cpp:462-467 | A ranked file is loaded by replaying every vote line through `RankBased::vote`. Nothing checks that the sort is unfinished, so `items[number_of_sorted_items_]` (line 241) is read past the end | lines "a", "b", "", "1", "ranked", "0 1 0", "1 1 0" | Load only ranked votes that are the matchups the insertion sort presents, so every replayed vote stays inside the array | not executed | RoundTexts.RankedReplayOverrun | RoundTexts.ParseRoundText |
