# Rule-based fake job posting labeller, modelled in Dafny

This project models how the fake-job-posts analysis labels each posting. There are two variants:

- the basic one in `code/fakejobs.py`;
- the extended one in `code/fakejobsextras.py`.

For every row of the data frame, `add_features` derives counts and booleans mostly from the `job_description` text. The extended variant also uses the `job_title`. `flag_anomalies` then turns each feature into a flag with a fixed threshold. The `potentially_fake` column is the OR of the flags, stored as 0 or 1.

Modules:

- `PyStr` models the Python `str` built-ins the feature lambdas use:
  - `split()` with no argument (the full `isspace` set);
  - `count(c)`;
  - `lower()` and `isupper()` (ASCII casing);
  - the substring test `p in s`;
  - the generator sums and `any(...)` built on them.

  `split()` is defined index by index. It is checked against an independent description: the concatenated tokens are exactly the non-whitespace characters. It is also shown to give back any list of tokens that are non-empty and free of whitespace once they are joined with single spaces. Splitting a text around a space gives the tokens of both sides, and `lower()` commutes with `split()`.
- `Postings` models a raw CSV row, the `fillna("")` normalisation done by `load_dataset`, and `astype(int)` on a boolean.
- `FakeJobs` is the basic variant:
  - five features, four flags and the label;
  - per-row loops for the `apply` calls (`ApplyFeatures`, `ApplyFlags`);
  - a `Frame` class holding the rows and the derived columns. Its `AddFeatures` and `FlagAnomalies` methods assign the new columns and leave the rows, their order and every other column unchanged.
- `FakeJobsExtras` is the extended variant:
  - twelve features, ten flags and the label;
  - the same loop and `Frame` structure as the basic variant.

  `avg_word_length` and `keyword_density` are exact `real` quotients with the `(n or 1)` guard. The `SequenceMatcher` similarity is supplied as a function parameter `ratio`.
- `Variants` relates the two: every posting the basic labeller marks as fake, the extended labeller marks too. It also shows that label 0 is reachable in both: when the title/description similarity is at most 0.8, a description made of thirteen or more copies of the word "job" is not flagged by either variant.

Where the code differs from the usual reading of the feature names, the model follows the code:

- `word.isupper()` is true for a token with at least one upper-case letter and no lower-case letter, so `"ABC1!"` counts as an upper-case word. It is not restricted to purely alphabetic tokens. See `PyStr.IsUpperExamples`.
- `contains_url` looks at the raw description, while the keyword and contact tests look at the lower-cased one. The model keeps this asymmetry rather than choosing a single policy.

## Model

| member | source | states |
|---|---|---|
| Postings.FillNa | code/fakejobs.py:7-8 | a missing cell becomes `""`, a present cell is kept as it is |
| Postings.Normalize | code/fakejobs.py:5-9 | loading fills missing description and requirements cells with `""` and leaves the title and all other columns unchanged |
| PyStr.Lower | code/fakejobs.py:16 | `lower()` keeps the length, leaves no upper-case ASCII letter, keeps every other character, and maps each upper-case letter to the lower-case letter at the same place in the alphabet |
| PyStr.LowerIgnoresCase | code/fakejobs.py:16 | two texts that differ only in the case of their letters have the same lower-cased form |
| PyStr.CountIn | code/fakejobsextras.py:35-37 | counting characters from a set never gives more than the length of the text |
| PyStr.CountInUnion | code/fakejobs.py:13-14 | counting two disjoint character sets counts distinct positions: the counts add up |
| PyStr.CountInAppend | code/fakejobs.py:13 | the count of a concatenation is the sum of the counts of its parts |
| PyStr.CountIsMultiplicity | code/fakejobs.py:13 | `x.count(c)` is the multiplicity of `c` in the text |
| PyStr.CountPresent | code/fakejobsextras.py:29 | the number of terms present is at most the number of terms, and positive exactly when some term occurs |
| PyStr.SplitFrom | code/fakejobs.py:15 | every token `split()` returns is non-empty and contains no whitespace |
| PyStr.SplitEmptyIff | code/fakejobsextras.py:14 | `split()` returns no token exactly when the text is all whitespace (or empty) |
| PyStr.SplitKeepsNonSpace | code/fakejobsextras.py:14 | the tokens, concatenated, are exactly the non-whitespace characters of the text, in order |
| PyStr.SplitLengthBounds | code/fakejobsextras.py:14-16 | token count <= sum of token lengths <= length of the text; tokens never overlap |
| PyStr.SplitJoinSpace | code/fakejobsextras.py:14 | splitting non-empty whitespace-free tokens joined by single spaces gives the tokens back |
| PyStr.SplitSpaceAppend | code/fakejobsextras.py:14 | splitting `x + " " + y` gives the tokens of `x` followed by the tokens of `y` |
| PyStr.SplitLower | code/fakejobsextras.py:14 | a law of the `split()` and `lower()` models taken together, not a step the code runs: the tokens of the lower-cased text are the lower-cased tokens of the text |
| PyStr.TermsOutsideAlphabet | code/fakejobsextras.py:25-34 | a text drawn from an alphabet contains none of a list of terms whose first letters lie outside it, so `any` is false and the sum of `in` tests is 0 |
| PyStr.CountUpper | code/fakejobs.py:15 | the number of upper-case words is at most the number of tokens |
| PyStr.IsUpperExamples | code/fakejobs.py:15 | `isupper` accepts `"ABC1!"` and `"URGENT"`, rejects `"123"`, `"Abc"` and `""` |
| PyStr.SpacesContainNoTerms | code/fakejobsextras.py:29 | a text of whitespace contains none of a list of terms that each have a non-whitespace character |
| FakeJobs.PotentiallyFake | code/fakejobs.py:24-29 | the label is 0 or 1, and 1 exactly when at least one of the four flags holds |
| FakeJobs.ClassifyIsZeroIff | code/fakejobs.py:12-29 | a description is labelled 0 exactly when it has >= 50 characters, <= 3 `!`, <= 5 upper-case words and no generic term |
| FakeJobs.FeatureBounds | code/fakejobs.py:12-15 | `exclamation_count + question_count <= description_length` and `uppercase_word_count <= token count <= description_length` |
| FakeJobs.EmptyDescription | code/fakejobs.py:12-16 | a missing or empty description has all four counts 0, no generic term, sets `is_short_description` and is labelled 1 |
| FakeJobs.ShortDescriptionIsFake | code/fakejobs.py:20-29 | any description shorter than 50 characters is labelled 1 |
| FakeJobs.ExclamationAppend | code/fakejobs.py:13 | appending one `!` raises `exclamation_count` by exactly one |
| FakeJobs.ExclamationsFlagAfterAppends | code/fakejobs.py:21 | after `n` more `!` are appended, `has_excessive_exclamations` holds exactly when there are at least four `!` in all |
| FakeJobs.ExclamationsBetween | code/fakejobs.py:13 | `n` exclamation marks between two texts without any are counted as `n` |
| FakeJobs.ExclamationsFlagStaysOn | code/fakejobs.py:21 | once `has_excessive_exclamations` holds, no appended text turns it off, and the label stays 1 |
| FakeJobs.GenericTermsIgnoreCase | code/fakejobs.py:16 | changing the case of letters never changes `contains_generic_terms` |
| FakeJobs.UpperCaseTermOccurs | code/fakejobs.py:16 | a description equal to a generic term up to case contains a generic term |
| FakeJobs.WorkFromHomeUpperCase | code/fakejobs.py:16 | `"WORK FROM HOME"` sets `contains_generic_terms` and is labelled 1 |
| FakeJobs.GreatOpportunityExample | code/fakejobs.py:12-21 | `"Great opportunity!!!! Earn cash now"` has 35 characters, four `!`, a generic term, excessive exclamations and label 1 |
| FakeJobs.ApplyFeatures | code/fakejobs.py:12-16 | one feature record per row, in row order, each computed from that row's description |
| FakeJobs.ApplyFlags | code/fakejobs.py:20-29 | one flag record and one 0/1 label per row, each from that row's features |
| FakeJobs.Frame.Load | code/fakejobs.py:5-9 | the loaded frame holds the normalised rows, in order, and no derived column yet |
| FakeJobs.Frame.AddFeatures | code/fakejobs.py:11-17 | adds the feature columns, one entry per row, and leaves the rows and the other columns unchanged |
| FakeJobs.Frame.FlagAnomalies | code/fakejobs.py:19-30 | adds the flag and label columns computed from the features, and leaves the rows and features unchanged |
| FakeJobs.Frame.Triage | code/fakejobs.py:58-59 | after both steps every row keeps its place, and its feature record, its flag record and its label are those computed from its own description |
| FakeJobsExtras.PotentiallyFake | code/fakejobsextras.py:55-66 | the label is 0 or 1, and 1 exactly when at least one of the ten flags holds |
| FakeJobsExtras.FeatureBounds | code/fakejobsextras.py:13-37 | `!` + `?` <= length, special chars <= length, upper-case words <= word count <= total token length <= length |
| FakeJobsExtras.SpecialCharsAreTheFour | code/fakejobsextras.py:35-37 | `special_char_count` is the sum of the counts of `$`, `%`, `&` and `*` |
| FakeJobsExtras.AvgWordLengthTimesCount | code/fakejobsextras.py:15-17 | `avg_word_length * (word_count or 1)` equals the total token length |
| FakeJobsExtras.NoWords | code/fakejobsextras.py:14-30 | `word_count` is 0 exactly when the description is all whitespace, and then both averages are 0 |
| FakeJobsExtras.KeywordDensityPositiveIff | code/fakejobsextras.py:24-30 | at most six keywords are present; the density is non-negative, and positive exactly when `contains_generic_terms` holds |
| FakeJobsExtras.HighKeywordDensityIff | code/fakejobsextras.py:49 | `keyword_density > 0.1` holds exactly when `10 * present > (word_count or 1)` |
| FakeJobsExtras.TermTestsIgnoreCase | code/fakejobsextras.py:25-33 | changing the case of letters changes neither the keyword, density-numerator nor contact tests |
| FakeJobsExtras.UrlNeedsLowerCase | code/fakejobsextras.py:34 | a description without lower-case letters never sets `contains_url` |
| FakeJobsExtras.UpperCaseUrlExample | code/fakejobsextras.py:31-34 | `"WWW.JOBS.EXAMPLE"` does not set `contains_url`, although its lower-cased form contains `"www"` |
| FakeJobsExtras.EmptyDescription | code/fakejobsextras.py:13-40 | a missing or empty description gives all counts and averages 0, no term found, and label 1 |
| FakeJobsExtras.ShortOrFewWordsIsFake | code/fakejobsextras.py:44-66 | fewer than 50 characters or fewer than ten words alone forces label 1 |
| FakeJobsExtras.HighSimilarityIsFake | code/fakejobsextras.py:52 | a similarity above 0.8 alone forces label 1 |
| FakeJobsExtras.ApplyFeatures | code/fakejobsextras.py:12-41 | one feature record per row, in row order, from that row's description and its title/description ratio |
| FakeJobsExtras.ApplyFlags | code/fakejobsextras.py:44-66 | one flag record and one 0/1 label per row, each from that row's features |
| FakeJobsExtras.Frame.Load | code/fakejobsextras.py:6-10 | the loaded frame holds the normalised rows, in order, and no derived column yet |
| FakeJobsExtras.Frame.AddFeatures | code/fakejobsextras.py:12-41 | adds the twelve feature columns, one entry per row, and leaves the rows and the other columns unchanged |
| FakeJobsExtras.Frame.FlagAnomalies | code/fakejobsextras.py:43-67 | adds the ten flag columns and the label computed from the features, and leaves the rows and features unchanged |
| FakeJobsExtras.Frame.Triage | code/fakejobsextras.py:98-99 | after both steps every row keeps its place, and its feature record, its flag record and its label are those computed from its own description and title/description similarity |
| Variants.GenericTermsArePrefix | code/fakejobsextras.py:24 | the basic generic terms are the first four extended keywords |
| Variants.GenericTermCarriesOver | code/fakejobsextras.py:25-27 | a basic generic term that is found is also an extended keyword that is found |
| Variants.BasicFakeIsExtendedFake | code/fakejobsextras.py:44-66 | every description the basic variant labels 1 is labelled 1 by the extended variant, for every similarity |
| Variants.RepeatedJobIsReal | code/fakejobsextras.py:44-66 | thirteen or more space-separated copies of "job", with similarity at most 0.8, get label 0 from both variants |
| Variants.FrameLabelsOrdered | code/fakejobs.py:24-29 | over the same rows, each basic label is at most the extended label of that row |

## Left out

- `visualize_data` in both files is plotting, done with matplotlib and seaborn. It is not modelled.
- `save_dataset` and `main` are file output and printing. Only the sequence `load_dataset`, `add_features`, `flag_anomalies` is modelled, as `Frame.Load` followed by `Frame.Triage`.
- `load_dataset` reads a CSV file. The model starts from the already-parsed rows (`RawPosting`), with `None` for a missing cell. Only the `fillna("")` step is modelled.
- `SequenceMatcher(None, title, description).ratio()` is a foreign `difflib` algorithm. It is a function parameter `ratio` whose results are not constrained. Only the `> 0.8` threshold is modelled, so the claim that identical title and description give ratio 1.0 is outside the model.
- On a table with no rows, pandas has no row to infer the result type of the row-wise `data.apply(..., axis=1)` at code/fakejobsextras.py:38-40. It is expected to call the lambda on a row of missing values, which fails inside `SequenceMatcher`, so the extended `add_features` fails on an empty table. This is pandas behaviour outside the model. The model's extended `Frame.AddFeatures` and `Frame.Triage` succeed on zero rows, and that failure is not modelled. The basic variant uses only column-wise `apply`, which handles zero rows.
- `job_title` is never filled, so a missing title would make the extended pipeline fail inside `SequenceMatcher`. The model's title is always a string, and that failure is not modelled.
- A failure partway through `add_features` would leave some new columns assigned. This is not modelled: the methods are total.
- `avg_word_length` and `keyword_density` use exact `real` division instead of binary floating point.
  - `avg_word_length` feeds no flag.
  - For `keyword_density > 0.1`, the numerator is at most 6. So only word counts below 60 could make the flag true, and for those the rounded quotient compares with 0.1 as the exact quotient does.
- Python's `len`, `lower()` and `isupper()` work on all of Unicode. The model uses ASCII casing: only `A`-`Z` and `a`-`z` have a case, and characters are Unicode scalar values rather than Python code points with surrogates.
  - `split()` uses the full set of characters Python treats as whitespace.
- The `requirements` column is normalised at load time and never read again. It is carried in the row but nothing is proved about it.
- FakeJobsExtras.UrlNeedsLowerCase: the case-sensitive URL test is shown for descriptions without any lower-case letter and on one example. There is no general statement for a mixed-case text whose only marker is upper-case.
