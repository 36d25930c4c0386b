# Typing-rhythm engine of TypingAnalyzer, in Dafny

TypingAnalyzer is an Android keyboard that learns how its user types common
words and raises an alert when the rhythm stops matching. Its engine,
`KeyboardAnalyzer`, is modelled here together with the column set of the
profiles table declared in `TimeProfileContract`.

* **Segmentation** (`Analyzer.KeyboardAnalyzer.PushChar`): key codes arrive one
  at a time with their hold duration. A letter extends the current word and
  its timings (hold of letter 0, then latency and hold of every further
  letter, so a word of L letters has 2L - 1 timings). A space ends the word
  (`updateEntry`), delete (key code -5) drops it, anything else is ignored.
  The clock reading is a parameter `now`.
* **Profile store** (`Profiles`, `ColumnNames`): the profiles table is a map
  from word to `Row(count, cols)`, since the `word` column is UNIQUE. `cols`
  maps `Column(kind, index, stat)` to a real. `ColumnNames.Name` gives each
  column its SQL name (`d3_var`, `l0_avg`, ...), and it is proved injective.
  So keying by `Column` is the same as keying by the names the code builds.
  `insertWord`, `extractTimings` and `updateWord` are loops over that map.
  `updateMean` and `updateVar` (`Moments`) are proved to compute the exact
  arithmetic mean and the unbiased sample variance of every sample seen.
* **Consistency test** (`Consistency`): a timing passes when it lies closer
  than 2 * sqrt(variance) to the stored average. A word passes when
  dom * passes >= num * (2L - 1), with (num, dom) = (1, 1), (2, 3) or (3, 4).
  `Math.sqrt` is an unconstrained function `sqrt: real -> real` passed to
  the constructor. Under an exact square root the test is proved equal to
  the squared test (x - avg)^2 < 4 * variance.
* **Anomaly score** (`AnomalyScore`): an inconsistent judged word adds
  sqrt(L). A consistent one subtracts sqrt(L), floored at 0. A score above
  20 is reset to 0 and raises the alert. Side effects are recorded in order
  in an `events` log: `Alert` (exitToHome), `ScoreSaved` (SharedPreferences
  write), `RowInserted` and `RowUpdated`.
* **Entry** (`Analyzer.Entry`): the whole effect of `updateEntry` on the
  store, the score and the log, as one function. The `Entry*` lemmas state
  each of its cases and the invariants it keeps. The methods of the class
  are proved to perform exactly that outcome.

Behaviour of the code that the model keeps as written:

* The timer moves only when `push_char` is entered with a non-empty word,
  whatever the key. So the first letter of a word never moves it, and the word's
  first latency is measured from the last key pressed while a word was under
  way. `PushChar` states this as `timer == if |old(curWord)| > 0 then now
  else old(timer)`.
* The score is judged, inspected and saved before the profile merge. A
  word still being calibrated (count < 5) is merged without judgement, by
  the short-circuit of `count < COUNT_THRESHOLD || checkWordUpdateScore(...)`.
* `(char)c == ' '` compares the low 16 bits of the key code. The model
  states it as `c % 0x1_0000 == 32`.

## Model

| member | source | states |
|---|---|---|
| Analyzer.KeyboardAnalyzer.constructor | app/src/main/java/com/example/mobile/typinganalyzer/KeyboardAnalyzer.java:36-51 | starts with an empty word and timings, the timer at the clock's reading, the saved score, the stored profiles and an empty event log, and establishes the class invariant. Rows kept for words that have left the word list are accepted as they are |
| Analyzer.KeyboardAnalyzer.PushChar | app/src/main/java/com/example/mobile/typinganalyzer/KeyboardAnalyzer.java:59-80 | keeps the invariant: letters only, 2L - 1 timings, latencies >= 0, well-formed store. The timer becomes `now` exactly when the word was non-empty on entry. A space performs `Entry` for the lower-cased word and clears the buffers. Delete clears them and changes nothing else. A letter appends the clamped latency (only if the word was non-empty), then the duration and the letter. Any other key changes nothing |
| Analyzer.KeyboardAnalyzer.GetLatency | app/src/main/java/com/example/mobile/typinganalyzer/KeyboardAnalyzer.java:85-93 | returns `PressLatency(now, old timer, duration)` and sets the timer to `now` |
| Analyzer.PressLatency | app/src/main/java/com/example/mobile/typinganalyzer/KeyboardAnalyzer.java:85-93 | the latency is never negative; it is the elapsed time minus the hold, or 0 when that is negative |
| Analyzer.KeyboardAnalyzer.ResetWord | app/src/main/java/com/example/mobile/typinganalyzer/KeyboardAnalyzer.java:96-99 | the word and its timings are empty afterwards |
| Analyzer.ToLower | app/src/main/java/com/example/mobile/typinganalyzer/KeyboardAnalyzer.java:198 | the lower-cased word keeps its length, has no capital letter, keeps letters letters, turns each capital into its lower-case letter (code + 32) and leaves every non-capital unchanged |
| Analyzer.ToLowerIgnoresCase | app/src/main/java/com/example/mobile/typinganalyzer/KeyboardAnalyzer.java:198 | two words lower-case alike if and only if they differ only in the case of ASCII letters, so the word list is matched without regard to case |
| Analyzer.IsSpace | app/src/main/java/com/example/mobile/typinganalyzer/KeyboardAnalyzer.java:65 | for a code that fits a char, `(char)c == ' '` holds exactly for 32; a space is never the delete code |
| Analyzer.SpaceCodesRepeat | app/src/main/java/com/example/mobile/typinganalyzer/KeyboardAnalyzer.java:65 | the cast keeps only the low 16 bits, so codes 0x10000 apart agree and 0x10020 also ends the word |
| Analyzer.IsLetterCode | app/src/main/java/com/example/mobile/typinganalyzer/KeyboardAnalyzer.java:73 | the code ranges 65..90 and 97..122 are exactly the ASCII codes of the letters A-Z and a-z |
| Analyzer.KeyboardAnalyzer.UpdateEntry | app/src/main/java/com/example/mobile/typinganalyzer/KeyboardAnalyzer.java:196-218 | the new store, score and appended events are exactly `Entry` of the lower-cased word; the word and its timings are untouched |
| Analyzer.KeyboardAnalyzer.UpdateStoredWord | app/src/main/java/com/example/mobile/typinganalyzer/KeyboardAnalyzer.java:208-213 | for a stored word of the word list, reads its timings and performs `Entry`'s outcome |
| Analyzer.KeyboardAnalyzer.CalibrateStoredWord | app/src/main/java/com/example/mobile/typinganalyzer/KeyboardAnalyzer.java:211-212 | for a stored word with count < 5, performs `Entry`'s outcome: merged, score untouched |
| Analyzer.KeyboardAnalyzer.JudgeStoredWord | app/src/main/java/com/example/mobile/typinganalyzer/KeyboardAnalyzer.java:211-213 | for a stored word with count >= 5, judges it, updates and saves the score, and merges only a consistent word: `Entry`'s outcome |
| Analyzer.KeyboardAnalyzer.ExtractTimings | app/src/main/java/com/example/mobile/typinganalyzer/KeyboardAnalyzer.java:234-246 | returns the row's average and variance of each of the word's 2L - 1 features, in feature order (`Flatten`) |
| Analyzer.KeyboardAnalyzer.CheckWordUpdateScore | app/src/main/java/com/example/mobile/typinganalyzer/KeyboardAnalyzer.java:118-156 | returns whether the count of timings within two standard deviations meets the length's ratio. The new score is `Rescore` of the old one by sqrt(L). The log gains the alert (if any), then the saved score |
| Analyzer.KeyboardAnalyzer.InspectScore | app/src/main/java/com/example/mobile/typinganalyzer/KeyboardAnalyzer.java:162-170 | a score above 20 becomes 0 and an `Alert` is logged; otherwise nothing changes |
| Analyzer.KeyboardAnalyzer.ExitToHome | app/src/main/java/com/example/mobile/typinganalyzer/KeyboardAnalyzer.java:172-177 | logs one `Alert` |
| Analyzer.KeyboardAnalyzer.UpdateWord | app/src/main/java/com/example/mobile/typinganalyzer/KeyboardAnalyzer.java:249-267 | the word's row gets count + 1. Every feature's columns are overwritten with updateMean/updateVar of the read-back average, variance and new timing. The word's other columns and every other row stay as they were |
| Analyzer.KeyboardAnalyzer.InsertWord | app/src/main/java/com/example/mobile/typinganalyzer/KeyboardAnalyzer.java:270-284 | the new row is `Inserted(timings)`: count 1, each timing as an average with variance 0 |
| Analyzer.Entry | app/src/main/java/com/example/mobile/typinganalyzer/KeyboardAnalyzer.java:196-218 | the score moves only for a word of the word list that is stored with count >= 5, i.e. a judged word; its cases are stated by the `Entry*` lemmas below |
| Analyzer.EntryShape | app/src/main/java/com/example/mobile/typinganalyzer/KeyboardAnalyzer.java:196-218 | the store gains the typed word exactly when it is in the word list and never loses a word; one word logs at most three events |
| Analyzer.EntryIgnoresUnknownWords | app/src/main/java/com/example/mobile/typinganalyzer/KeyboardAnalyzer.java:196-199 | a word outside the word list changes neither store nor score and logs nothing |
| Analyzer.EntryStoresFirstSighting | app/src/main/java/com/example/mobile/typinganalyzer/KeyboardAnalyzer.java:214-216 | a new word is inserted with count 1; reading its row back gives every timing with variance 0; the score is untouched |
| Analyzer.EntryCalibrates | app/src/main/java/com/example/mobile/typinganalyzer/KeyboardAnalyzer.java:208-213 | with count < 5 the row is always merged (count + 1) and the score is untouched |
| Analyzer.EntryRejects | app/src/main/java/com/example/mobile/typinganalyzer/KeyboardAnalyzer.java:208-213 | an inconsistent judged word leaves the store as it was. The score rises by sqrt(L), or, past 20, the alert is logged first and 0 is saved |
| Analyzer.EntryAccepts | app/src/main/java/com/example/mobile/typinganalyzer/KeyboardAnalyzer.java:208-213 | a consistent judged word is merged after the score is saved. From a score in [0, 20] the score drops by sqrt(L), not below 0, with no alert |
| Analyzer.EntryTouchesOnlyItsWord | app/src/main/java/com/example/mobile/typinganalyzer/KeyboardAnalyzer.java:196-218 | no row other than the typed word's is added, removed or changed |
| Analyzer.StaleRowIgnored | app/src/main/java/com/example/mobile/typinganalyzer/KeyboardAnalyzer.java:196-199 | a row kept for a word outside the word list, whatever it holds, leaves the store well formed: `wordSet.contains` is tested before the table is searched, so such a row is never read |
| Analyzer.EntryKeepsStoreWellFormed | app/src/main/java/com/example/mobile/typinganalyzer/KeyboardAnalyzer.java:196-218 | every outcome keeps the row of each stored word of the word list at exactly its word's feature columns, with count >= 1 and no negative variance |
| Analyzer.EntryKeepsScoreInRange | app/src/main/java/com/example/mobile/typinganalyzer/KeyboardAnalyzer.java:141-167 | a score in [0, 20] stays in [0, 20] whatever word is typed |
| Analyzer.EntryJudgesBySquaredTest | app/src/main/java/com/example/mobile/typinganalyzer/KeyboardAnalyzer.java:122-129 | with an exact square root, a stored word's count of passing timings equals the squared-test count |
| Analyzer.StoredColumnsDeclared | app/src/main/java/com/example/mobile/typinganalyzer/TimeProfileContract.java:10-69 | every column of a stored word of the word list is declared by the table, given words of at most 14 letters |
| AnomalyScore.Judge | app/src/main/java/com/example/mobile/typinganalyzer/KeyboardAnalyzer.java:141-150 | a consistent word never raises a non-negative score nor takes it below 0; an inconsistent word never lowers it |
| AnomalyScore.Inspect | app/src/main/java/com/example/mobile/typinganalyzer/KeyboardAnalyzer.java:162-170 | the alert is raised exactly when the score exceeds 20; the inspected score is at most 20, non-negative from a non-negative score, and unchanged without alert |
| AnomalyScore.Rescore | app/src/main/java/com/example/mobile/typinganalyzer/KeyboardAnalyzer.java:141-170 | after judging and inspecting, the score is at most 20, is 0 whenever the alert is raised, and is non-negative from a non-negative score and step |
| AnomalyScore.RescoreInRange | app/src/main/java/com/example/mobile/typinganalyzer/KeyboardAnalyzer.java:141-167 | from score >= 0 and step >= 0, the score after a judged word lies in [0, 20] |
| AnomalyScore.AlertExactlyAboveThreshold | app/src/main/java/com/example/mobile/typinganalyzer/KeyboardAnalyzer.java:162-170 | the alert is raised if and only if the judged score exceeds 20, and then the score is 0 |
| AnomalyScore.ConsistentLowers | app/src/main/java/com/example/mobile/typinganalyzer/KeyboardAnalyzer.java:144-150 | a consistent word gives max(0, score - step), never raises the score and never alerts |
| AnomalyScore.InconsistentRaises | app/src/main/java/com/example/mobile/typinganalyzer/KeyboardAnalyzer.java:141-143 | an inconsistent word that stays within 20 adds exactly step, without alert |
| AnomalyScore.StreakBelowThreshold | app/src/main/java/com/example/mobile/typinganalyzer/KeyboardAnalyzer.java:141-170 | k inconsistent words in a row add k * step while that stays within 20 |
| AnomalyScore.StreakAlerts | app/src/main/java/com/example/mobile/typinganalyzer/KeyboardAnalyzer.java:141-170 | the word whose penalty first passes 20 raises the alert and leaves the score at 0 |
| AnomalyScore.FourLetterStreak | app/src/main/java/com/example/mobile/typinganalyzer/KeyboardAnalyzer.java:141-170 | worked example of `StreakBelowThreshold` and `StreakAlerts`, not a property of its own: from 0, ten inconsistent four-letter words reach 20 silently and the eleventh alerts |
| Consistency.PassCount | app/src/main/java/com/example/mobile/typinganalyzer/KeyboardAnalyzer.java:122-129 | the squared-test count of passing timings lies between 0 and the number of timings |
| Consistency.PassesWithinStdDevs | app/src/main/java/com/example/mobile/typinganalyzer/KeyboardAnalyzer.java:125-126 | with sd the exact root of the variance, abs(x - avg) < 2 * sd if and only if (x - avg)^2 < 4 * variance |
| Consistency.NegativeVarianceNeverPasses | app/src/main/java/com/example/mobile/typinganalyzer/KeyboardAnalyzer.java:125-126 | under the squared test a negative variance never lets a timing pass |
| Consistency.StdDevPassCount | app/src/main/java/com/example/mobile/typinganalyzer/KeyboardAnalyzer.java:121-129 | miniScore never exceeds the number of timings |
| Consistency.StdDevPassCountIsPassCount | app/src/main/java/com/example/mobile/typinganalyzer/KeyboardAnalyzer.java:122-129 | with exact roots of the variances, miniScore equals the squared-test count |
| Consistency.ExactStdDevPassCount | app/src/main/java/com/example/mobile/typinganalyzer/KeyboardAnalyzer.java:122-129 | the same, for an exact `sqrt` and no negative variance |
| Consistency.AllPass | app/src/main/java/com/example/mobile/typinganalyzer/KeyboardAnalyzer.java:122-129 | when every timing passes the count is the number of timings |
| Consistency.NonePass | app/src/main/java/com/example/mobile/typinganalyzer/KeyboardAnalyzer.java:122-129 | when no timing passes the count is 0 |
| Consistency.Ratio | app/src/main/java/com/example/mobile/typinganalyzer/KeyboardAnalyzer.java:130-140 | 0 < num <= dom for every length |
| Consistency.Consistent | app/src/main/java/com/example/mobile/typinganalyzer/KeyboardAnalyzer.java:130-141 | a one-letter word is consistent exactly when its single timing passes, a two-letter word exactly when two of its three pass |
| Consistency.ConsistentIffEnoughPass | app/src/main/java/com/example/mobile/typinganalyzer/KeyboardAnalyzer.java:130-141 | the cross-multiplied ratio test holds if and only if at least 1, 2 or floor(3L/2) timings pass, for L = 1, 2 or >= 3 |
| Consistency.OneMissTolerance | app/src/main/java/com/example/mobile/typinganalyzer/KeyboardAnalyzer.java:130-141 | a word tolerates one failing timing if and only if it has at least two letters |
| Consistency.Extremes | app/src/main/java/com/example/mobile/typinganalyzer/KeyboardAnalyzer.java:130-141 | all timings passing is consistent; none passing is not |
| Consistency.ConsistentMonotone | app/src/main/java/com/example/mobile/typinganalyzer/KeyboardAnalyzer.java:141 | more passing timings never turn a consistent word inconsistent |
| Moments.UpdateMean | app/src/main/java/com/example/mobile/typinganalyzer/KeyboardAnalyzer.java:102-104 | the first sample is its own mean, and the new mean lies between the old mean and the new sample |
| Moments.UpdateVar | app/src/main/java/com/example/mobile/typinganalyzer/KeyboardAnalyzer.java:107-109 | a non-negative variance stays non-negative, and the second sample gives (x - mean)^2 / 2, the sample variance of two values |
| Moments.MeanStep | app/src/main/java/com/example/mobile/typinganalyzer/KeyboardAnalyzer.java:102-104 | the new mean times count + 1 is the old total plus x; the first sample is its own mean; the mean moves towards x without passing it |
| Moments.VarianceStaysNonNegative | app/src/main/java/com/example/mobile/typinganalyzer/KeyboardAnalyzer.java:107-109 | with count >= 1, updateVar keeps a non-negative variance non-negative |
| Moments.VarianceStep | app/src/main/java/com/example/mobile/typinganalyzer/KeyboardAnalyzer.java:107-109 | scaled by count(count + 1), updateVar is the running sum-of-squares recurrence |
| Moments.Accumulate | app/src/main/java/com/example/mobile/typinganalyzer/KeyboardAnalyzer.java:255-256 | after n observations the count is n and the variance is non-negative |
| Moments.AccumulateCentred | app/src/main/java/com/example/mobile/typinganalyzer/KeyboardAnalyzer.java:102-109 | the running mean and variance are tied to the sum and the sum of squares of the samples |
| Moments.MeanIsAverage | app/src/main/java/com/example/mobile/typinganalyzer/KeyboardAnalyzer.java:102-104 | after n samples the running mean is their arithmetic mean |
| Moments.SampleVariance | app/src/main/java/com/example/mobile/typinganalyzer/KeyboardAnalyzer.java:107-109 | after n >= 2 samples the running variance is their unbiased sample variance |
| Profiles.Columns | app/src/main/java/com/example/mobile/typinganalyzer/KeyboardAnalyzer.java:251-263 | the columns written for n features are exactly those features' avg and var columns |
| Profiles.ColumnsAt | app/src/main/java/com/example/mobile/typinganalyzer/KeyboardAnalyzer.java:257-263 | feature k's columns hold feature k's average and variance |
| Profiles.ColumnsStep | app/src/main/java/com/example/mobile/typinganalyzer/KeyboardAnalyzer.java:257-263 | the loop step i = 2k writes feature k to d(i/4) when k is even and to l(i/4) when k is odd, which extends the columns of features 0..k-1 by feature k's |
| Profiles.Flatten | app/src/main/java/com/example/mobile/typinganalyzer/KeyboardAnalyzer.java:234-246 | the read-back of n features has 2n values |
| Profiles.FlattenAt | app/src/main/java/com/example/mobile/typinganalyzer/KeyboardAnalyzer.java:237-244 | positions 2k and 2k + 1 of the read-back hold feature k's average and variance |
| Profiles.FlattenHoldLatency | app/src/main/java/com/example/mobile/typinganalyzer/KeyboardAnalyzer.java:238-241 | one pass of extractTimings' loop appends d(i) avg/var and l(i) avg/var, which are features 2i and 2i + 1 |
| Profiles.FlattenLastHold | app/src/main/java/com/example/mobile/typinganalyzer/KeyboardAnalyzer.java:243-244 | the last two values read are d(L-1) avg/var, feature 2L - 2 |
| Profiles.ExtractStored | app/src/main/java/com/example/mobile/typinganalyzer/KeyboardAnalyzer.java:234-246 | reading back the features just written gives them again |
| Profiles.StoreExtracted | app/src/main/java/com/example/mobile/typinganalyzer/KeyboardAnalyzer.java:234-246 | writing back what was read from a row of exactly n features rebuilds the row's columns |
| Profiles.Initial | app/src/main/java/com/example/mobile/typinganalyzer/KeyboardAnalyzer.java:273-281 | one feature per timing, each starting as a one-sample history: the timing as its average and variance 0 |
| Profiles.Updated | app/src/main/java/com/example/mobile/typinganalyzer/KeyboardAnalyzer.java:251-256 | one feature per timing, each the updateMean/updateVar of the stored average and variance with the new timing and the pre-update count; no stored non-negative variance turns negative |
| Profiles.Inserted | app/src/main/java/com/example/mobile/typinganalyzer/KeyboardAnalyzer.java:270-284 | a first row has count 1 and exactly the word's feature columns |
| Profiles.Merged | app/src/main/java/com/example/mobile/typinganalyzer/KeyboardAnalyzer.java:249-267 | a merged row has count + 1 and the same columns |
| Profiles.MergedAt | app/src/main/java/com/example/mobile/typinganalyzer/KeyboardAnalyzer.java:252-256 | feature k of the merged row is updateMean/updateVar of its old average and variance with the new timing and the pre-update count |
| Profiles.FlattenedVariances | app/src/main/java/com/example/mobile/typinganalyzer/KeyboardAnalyzer.java:234-246 | no variance read back from a well-formed row is negative |
| Profiles.InsertedWellFormed | app/src/main/java/com/example/mobile/typinganalyzer/KeyboardAnalyzer.java:270-284 | a first row is well formed: count 1, its feature columns, variances 0 |
| Profiles.MergedWellFormed | app/src/main/java/com/example/mobile/typinganalyzer/KeyboardAnalyzer.java:249-267 | merging keeps a row well formed; no variance becomes negative |
| Profiles.InsertedSummarises | app/src/main/java/com/example/mobile/typinganalyzer/KeyboardAnalyzer.java:270-284 | a first row holds the statistics of the one-sample history of each feature |
| Profiles.MergedSummarises | app/src/main/java/com/example/mobile/typinganalyzer/KeyboardAnalyzer.java:249-267 | if a row holds the statistics of each feature's past samples, the merged row holds those of the samples with the new timing appended |
| ColumnNames.Name | app/src/main/java/com/example/mobile/typinganalyzer/KeyboardAnalyzer.java:238-263 | a column name has at least six characters, starts with 'd' exactly for a hold column and ends in "_avg" (third-from-last character 'a') exactly for an average column |
| ColumnNames.AvgColumn | app/src/main/java/com/example/mobile/typinganalyzer/KeyboardAnalyzer.java:257-263 | feature k's average column: a hold column for even k and a latency column for odd k, at index k / 2 |
| ColumnNames.VarColumn | app/src/main/java/com/example/mobile/typinganalyzer/KeyboardAnalyzer.java:257-263 | feature k's variance column: a hold column for even k and a latency column for odd k, at index k / 2 |
| ColumnNames.Decimal | app/src/main/java/com/example/mobile/typinganalyzer/KeyboardAnalyzer.java:238 | String.valueOf(n) is non-empty, a single digit exactly for n < 10, and ends in n's last digit |
| ColumnNames.DecimalInjective | app/src/main/java/com/example/mobile/typinganalyzer/KeyboardAnalyzer.java:238-244 | different numbers have different decimal strings |
| ColumnNames.NameInjective | app/src/main/java/com/example/mobile/typinganalyzer/KeyboardAnalyzer.java:257-263 | different columns have different names |
| ColumnNames.ColumnsDistinct | app/src/main/java/com/example/mobile/typinganalyzer/KeyboardAnalyzer.java:257-263 | each feature has its own avg and var column, and no avg column is a var column |
| ColumnNames.HoldColumnName | app/src/main/java/com/example/mobile/typinganalyzer/KeyboardAnalyzer.java:238-239 | hold i is feature 2i and is named "d" + i + "_avg" / "_var" |
| ColumnNames.LatencyColumnName | app/src/main/java/com/example/mobile/typinganalyzer/KeyboardAnalyzer.java:240-241 | the latency after letter i is feature 2i + 1 and is named "l" + i + "_avg" / "_var" |
| ColumnNames.StepColumns | app/src/main/java/com/example/mobile/typinganalyzer/KeyboardAnalyzer.java:257-263 | the `(i>>1)%2`, `i>>2` choice of the loops names exactly feature i/2's columns |
| ColumnNames.FeatureColumnsMembers | app/src/main/java/com/example/mobile/typinganalyzer/KeyboardAnalyzer.java:273-281 | feature k's columns are among those of the first n features if and only if k < n |
| ColumnNames.LaidOutMembers | app/src/main/java/com/example/mobile/typinganalyzer/TimeProfileContract.java:15-68 | a column list laid out feature by feature names feature k's columns if and only if k < n |
| ProfileContract.NamedColumns | app/src/main/java/com/example/mobile/typinganalyzer/TimeProfileContract.java:15-68 | declared REAL columns 2k and 2k + 1 are the avg and var names of feature k, for k < 27 |
| ProfileContract.TimingColumnsLaidOut | app/src/main/java/com/example/mobile/typinganalyzer/TimeProfileContract.java:15-68 | the REAL columns list features 0..26 in feature order |
| ProfileContract.DeclaredFeatureColumn | app/src/main/java/com/example/mobile/typinganalyzer/TimeProfileContract.java:15-68 | feature k's avg and var columns are declared if and only if k < 27 |
| ProfileContract.HoldColumnsDeclared | app/src/main/java/com/example/mobile/typinganalyzer/TimeProfileContract.java:15-68 | d(i)_avg and d(i)_var are declared if and only if i <= 13 |
| ProfileContract.LatencyColumnsDeclared | app/src/main/java/com/example/mobile/typinganalyzer/TimeProfileContract.java:17-66 | l(i)_avg and l(i)_var are declared if and only if i <= 12; there is no l13 |
| ProfileContract.WordFitsSchema | app/src/main/java/com/example/mobile/typinganalyzer/TimeProfileContract.java:15-68 | every column the naming gives a word of L letters is declared if and only if L <= 14 |
| ProfileContract.FifteenLettersNeedD14 | app/src/main/java/com/example/mobile/typinganalyzer/TimeProfileContract.java:67-68 | a 15-letter word needs d14_avg, which is not declared |
| ProfileContract.BookkeepingColumns | app/src/main/java/com/example/mobile/typinganalyzer/TimeProfileContract.java:12-14 | count and word are declared columns and neither is a feature column |

## Left out

- Android glue is not modelled: Toasts, the Context, and the Intent and `startActivity` of `exitToHome`. `exitToHome` becomes the `Alert` event.
- The SQLite database, its helper, cursors, `ContentValues` and the readable/writable handles are replaced by a `map<string, Row>`. `searchWord` and `extractCount` become a map lookup and `db[word].count`. A row is updated by word rather than by `_id`; these coincide because `word` is UNIQUE.
- SharedPreferences are not modelled. Saving the score is the `ScoreSaved(score)` event. Parsing the saved score with `Double.valueOf` is not modelled: the constructor takes the score as a number.
- Loading the word list from resources is not modelled: the constructor takes the set. It requires every word to have 1 to 14 letters. Longer words would need undeclared columns, as `ProfileContract.FifteenLettersNeedD14` shows, and the word list resource is not part of this model.
- `elapsedRealtime` is not modelled: `PushChar` takes the clock reading `now` as a parameter.
- Floating point is not modelled: doubles are reals, with no rounding. `Math.sqrt` is an unconstrained function. Properties that need a true square root take `Consistency.SquareRoot(sqrt)` as a hypothesis. The NaN that `Math.sqrt` gives for a negative variance is not modelled; `Profiles.MergedWellFormed` proves that no stored variance becomes negative.
- `int`/`long` overflow is not modelled: counts, durations and latencies are unbounded integers.
- TypingAnalyzerKeyboard.java is not part of this model. `PushChar` takes the key code as an int, as `push_char` is written.
- Analyzer.KeyboardAnalyzer.constructor: requires the stored row of every word of the word list to be well formed (count >= 1, exactly its features' columns, no negative variance). Only `insertWord` and `updateWord` write rows, and `Analyzer.EntryKeepsStoreWellFormed` proves they keep this; a table altered outside the app is not modelled. Rows of words no longer in the list are accepted whatever they hold.
- Analyzer.ToLower: assumes a locale without special case rules. Java's `toLowerCase()` uses the default locale; under a Turkish or Azeri locale it maps 'I' to dotless 'ı', so such a word would miss the word list. Only ASCII letters reach it, since `push_char` keeps only those.
- Analyzer.KeyboardAnalyzer.InsertWord: requires the word to be absent from the store. `updateEntry` only calls it then, and a second insert of the same word would be refused by the UNIQUE constraint.
- Analyzer.KeyboardAnalyzer.UpdateStoredWord, Analyzer.KeyboardAnalyzer.CalibrateStoredWord and Analyzer.KeyboardAnalyzer.JudgeStoredWord are the three branches of `updateEntry`. They are split into methods of their own so each proof stays small; the code runs them inline.
- Moments.UpdateVar: requires count >= 1. At count 0 the source would divide by zero, but every stored row has count >= 1, which `Profiles.WellFormed` keeps.
