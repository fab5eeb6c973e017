/** The extended rule-based labeller: twelve features of the title and description,
    ten flags, and their disjunction as the `potentially_fake` label. */
module FakeJobsExtras {
  import opened PyStr
  import opened Postings

  /** Thresholds of `flag_anomalies`. */
  const ShortDescriptionLength: nat := 50
  const MinWordCount: nat := 10
  const MaxExclamations: nat := 3
  const MaxSpecialChars: nat := 5
  const MaxUppercaseWords: nat := 5
  const MaxKeywordDensity: real := 0.1
  const MaxSimilarity: real := 0.8

  /** The phrases looked for in the lower-cased description, by both
      `contains_generic_terms` and `keyword_density`. */
  const Keywords: seq<string> :=
    ["work from home", "earn", "immediate start", "no experience required", "urgent", "easy money"]

  /** The words `contains_contact_info` looks for in the lower-cased description. */
  const ContactTerms: seq<string> := ["email", "phone", "contact"]

  /** The markers `contains_url` looks for in the description as it is, without lower-casing. */
  const UrlMarkers: seq<string> := ["http", "www"]

  /** The characters `special_char_count` counts. */
  const SpecialChars: set<char> := {'$', '%', '&', '*'}

  /** The columns `add_features` adds to a row. */
  datatype Features = Features(
    descriptionLength: nat,
    wordCount: nat,
    avgWordLength: real,
    exclamationCount: nat,
    questionCount: nat,
    uppercaseWordCount: nat,
    containsGenericTerms: bool,
    keywordDensity: real,
    containsContactInfo: bool,
    containsUrl: bool,
    specialCharCount: nat,
    titleDescriptionSimilarity: real)

  /** The boolean columns `flag_anomalies` adds to a row. */
  datatype Flags = Flags(
    isShortDescription: bool,
    isLowWordCount: bool,
    hasExcessiveExclamations: bool,
    hasExcessiveSpecialChars: bool,
    hasUnusualFormat: bool,
    hasHighKeywordDensity: bool,
    hasContactInfo: bool,
    hasUrl: bool,
    isHighSimilarity: bool,
    hasGenericTerms: bool)

  /** `n or 1`: the divisor guard of the two averages. */
  function OrOne(n: nat): nat {
    if n == 0 then 1 else n
  }

  /** How many of the keywords occur in the lower-cased description: the numerator of `keyword_density`. */
  function KeywordsPresent(description: string): nat {
    CountPresent(Lower(description), Keywords)
  }

  /** `avg_word_length`: total token length over the guarded token count. */
  function AvgWordLength(description: string): real {
    (SumLengths(Split(description)) as real) / (OrOne(|Split(description)|) as real)
  }

  /** `keyword_density`: keywords present over the guarded token count. */
  function KeywordDensity(description: string): real {
    (KeywordsPresent(description) as real) / (OrOne(|Split(description)|) as real)
  }

  /** `contains_url`: a marker occurs in the raw description. */
  predicate ContainsUrl(description: string) {
    ContainsAny(description, UrlMarkers)
  }

  /** The features of one description; `similarity` is the `SequenceMatcher` ratio of the
      row's title and description, which this model takes as given. */
  function FeaturesOf(description: string, similarity: real): Features {
    Features(
      |description|,
      |Split(description)|,
      AvgWordLength(description),
      Count(description, '!'),
      Count(description, '?'),
      CountUpper(Split(description)),
      ContainsAny(Lower(description), Keywords),
      KeywordDensity(description),
      ContainsAny(Lower(description), ContactTerms),
      ContainsUrl(description),
      CountIn(description, SpecialChars),
      similarity)
  }

  function FlagsOf(f: Features): Flags {
    Flags(
      f.descriptionLength < ShortDescriptionLength,
      f.wordCount < MinWordCount,
      f.exclamationCount > MaxExclamations,
      f.specialCharCount > MaxSpecialChars,
      f.uppercaseWordCount > MaxUppercaseWords,
      f.keywordDensity > MaxKeywordDensity,
      f.containsContactInfo,
      f.containsUrl,
      f.titleDescriptionSimilarity > MaxSimilarity,
      f.containsGenericTerms)
  }

  /** The OR of the ten flags, as an integer. */
  function PotentiallyFake(fl: Flags): (fake: int)
    ensures fake == 0 || fake == 1
    ensures fake == 1 <==>
      fl.isShortDescription || fl.isLowWordCount || fl.hasExcessiveExclamations
      || fl.hasExcessiveSpecialChars || fl.hasUnusualFormat || fl.hasHighKeywordDensity
      || fl.hasContactInfo || fl.hasUrl || fl.isHighSimilarity || fl.hasGenericTerms
  {
    AsInt(fl.isShortDescription || fl.isLowWordCount || fl.hasExcessiveExclamations
      || fl.hasExcessiveSpecialChars || fl.hasUnusualFormat || fl.hasHighKeywordDensity
      || fl.hasContactInfo || fl.hasUrl || fl.isHighSimilarity || fl.hasGenericTerms)
  }

  /** The label the pipeline gives a row with this description and similarity ratio. */
  function Classify(description: string, similarity: real): int {
    PotentiallyFake(FlagsOf(FeaturesOf(description, similarity)))
  }

  // ---------------------------------------------------------------------
  // Properties of the features

  /** The counts never exceed the length of the description: `!`, `?` and the special
      characters are distinct positions, tokens do not overlap and are non-empty. */
  lemma FeatureBounds(description: string, similarity: real)
    ensures var f := FeaturesOf(description, similarity);
      f.exclamationCount + f.questionCount <= f.descriptionLength
      && f.specialCharCount <= f.descriptionLength
      && f.uppercaseWordCount <= f.wordCount
      && f.wordCount <= SumLengths(Split(description)) <= f.descriptionLength
  {
    CountInUnion(description, {'!'}, {'?'});
    SplitLengthBounds(description);
  }

  /** `special_char_count` counts `$`, `%`, `&`, `*` and nothing else: it is the sum of
      their four individual counts. */
  lemma SpecialCharsAreTheFour(description: string, similarity: real)
    ensures FeaturesOf(description, similarity).specialCharCount ==
      Count(description, '$') + Count(description, '%') + Count(description, '&') + Count(description, '*')
  {
    CountInUnion(description, {'$'}, {'%'});
    CountInUnion(description, {'$'} + {'%'}, {'&'});
    CountInUnion(description, {'$'} + {'%'} + {'&'}, {'*'});
    assert {'$'} + {'%'} + {'&'} + {'*'} == SpecialChars;
  }

  /** Exact division by a positive divisor, undone by multiplying back. */
  lemma DivTimes(a: real, b: real)
    requires b > 0.0
    ensures (a / b) * b == a
  {
  }

  /** For a positive divisor, the quotient exceeds `t` exactly when the dividend exceeds `t` times it. */
  lemma DivGreater(a: real, b: real, t: real)
    requires b > 0.0
    ensures a / b > t <==> a > t * b
  {
    DivTimes(a, b);
    if a / b > t {
      assert (a / b) * b > t * b;
    } else {
      assert (a / b) * b <= t * b;
    }
  }

  /** The average word length times the guarded word count is the total token length. */
  lemma AvgWordLengthTimesCount(description: string)
    ensures AvgWordLength(description) * (OrOne(|Split(description)|) as real) == SumLengths(Split(description)) as real
  {
    DivTimes(SumLengths(Split(description)) as real, OrOne(|Split(description)|) as real);
  }

  /** `word_count` is 0 exactly when the description holds no non-whitespace character, and
      then the average word length and the keyword density are 0 too: every keyword has a
      non-whitespace character. */
  lemma NoWords(description: string, similarity: real)
    ensures FeaturesOf(description, similarity).wordCount == 0 <==> AllSpace(description)
    ensures AllSpace(description) ==>
      FeaturesOf(description, similarity).avgWordLength == 0.0
      && FeaturesOf(description, similarity).keywordDensity == 0.0
  {
    SplitEmptyIff(description);
    if AllSpace(description) {
      LowerKeepsAllSpace(description);
      forall k | 0 <= k < |Keywords| ensures !AllSpace(Keywords[k]) {
        assert !IsSpace(Keywords[k][0]);
      }
      SpacesContainNoTerms(Lower(description), Keywords);
    }
  }

  /** At most six keywords can be present, and the density is positive exactly when
      `contains_generic_terms` holds. */
  lemma KeywordDensityPositiveIff(description: string, similarity: real)
    ensures KeywordsPresent(description) <= |Keywords| == 6
    ensures FeaturesOf(description, similarity).keywordDensity >= 0.0
    ensures FeaturesOf(description, similarity).keywordDensity > 0.0 <==>
      FeaturesOf(description, similarity).containsGenericTerms
  {
  }

  /** `keyword_density > 0.1` is the integer comparison `10 * present > max(word_count, 1)`. */
  lemma HighKeywordDensityIff(description: string, similarity: real)
    ensures FlagsOf(FeaturesOf(description, similarity)).hasHighKeywordDensity <==>
      10 * KeywordsPresent(description) > OrOne(|Split(description)|)
  {
    var p := KeywordsPresent(description) as real;
    var n := OrOne(|Split(description)|) as real;
    DivGreater(p, n, 0.1);
  }

  /** The keyword, density-numerator and contact tests ignore the case of the letters of
      the description. */
  lemma TermTestsIgnoreCase(s: string, t: string, similarity: real)
    requires SameUpToCase(s, t)
    ensures FeaturesOf(s, similarity).containsGenericTerms == FeaturesOf(t, similarity).containsGenericTerms
    ensures FeaturesOf(s, similarity).containsContactInfo == FeaturesOf(t, similarity).containsContactInfo
    ensures KeywordsPresent(s) == KeywordsPresent(t)
  {
    LowerIgnoresCase(s, t);
  }

  /** A description without lower-case letters never sets `contains_url`: the markers are
      matched against the raw text, and both contain lower-case letters. */
  lemma UrlNeedsLowerCase(description: string)
    requires forall i :: 0 <= i < |description| ==> !IsAsciiLower(description[i])
    ensures !ContainsUrl(description)
  {
    forall k | 0 <= k < |UrlMarkers| ensures !Contains(description, UrlMarkers[k]) {
      if Contains(description, UrlMarkers[k]) {
        ContainedCharsOccur(description, UrlMarkers[k], 0);
        assert false;
      }
    }
  }

  /** An upper-case "WWW.JOBS.EXAMPLE" does not set `contains_url`, although its lower-cased
      form, the one the keyword and contact tests look at, contains "www". */
  lemma UpperCaseUrlExample(description: string)
    requires description == "WWW.JOBS.EXAMPLE"
    ensures !ContainsUrl(description)
    ensures ContainsAny(Lower(description), UrlMarkers)
  {
    UrlNeedsLowerCase(description);
    var www := description[..3];
    assert SameUpToCase(www, UrlMarkers[1]);
    LowerIgnoresCase(www, UrlMarkers[1]);
    LowerOfLowerCase(UrlMarkers[1]);
    LowerSlice(description, 0, 3);
    assert OccursAt(Lower(description), UrlMarkers[1], 0);
  }

  /** An empty (or missing, after `fillna("")`) description: every count and both averages
      are 0, no term is found, and the row is labelled fake. */
  lemma EmptyDescription(raw: RawPosting, similarity: real)
    requires raw.jobDescription == None || raw.jobDescription == Some("")
    ensures var f := FeaturesOf(Normalize(raw).jobDescription, similarity);
      f == Features(0, 0, 0.0, 0, 0, 0, false, 0.0, false, false, 0, similarity)
    ensures Classify(Normalize(raw).jobDescription, similarity) == 1
  {
    NoWords("", similarity);
    assert !ContainsAny(Lower(""), Keywords) by {
      forall k | 0 <= k < |Keywords| ensures !Contains(Lower(""), Keywords[k]) {
        assert |Keywords[k]| > 0;
      }
    }
    assert !ContainsAny(Lower(""), ContactTerms) by {
      forall k | 0 <= k < |ContactTerms| ensures !Contains(Lower(""), ContactTerms[k]) {
        assert |ContactTerms[k]| > 0;
      }
    }
    assert !ContainsAny("", UrlMarkers) by {
      forall k | 0 <= k < |UrlMarkers| ensures !Contains("", UrlMarkers[k]) {
        assert |UrlMarkers[k]| > 0;
      }
    }
  }

  // ---------------------------------------------------------------------
  // Properties of the label

  /** A description shorter than 50 characters, or with fewer than ten words, is labelled
      fake whatever its other features. */
  lemma ShortOrFewWordsIsFake(description: string, similarity: real)
    requires |description| < ShortDescriptionLength || |Split(description)| < MinWordCount
    ensures Classify(description, similarity) == 1
  {
  }

  /** A title/description similarity above 0.8 alone labels the row fake. */
  lemma HighSimilarityIsFake(description: string, similarity: real)
    requires similarity > MaxSimilarity
    ensures Classify(description, similarity) == 1
  {
  }

  // ---------------------------------------------------------------------
  // The data frame

  /** The row-wise `apply` calls of `add_features`: one result per row, in row order, with the
      similarity column computed by `ratio` from each row's title and description. */
  method ApplyFeatures(rows: seq<Posting>, ratio: (string, string) -> real) returns (column: seq<Features>)
    ensures |column| == |rows|
    ensures forall i :: 0 <= i < |rows| ==>
      column[i] == FeaturesOf(rows[i].jobDescription, ratio(rows[i].jobTitle, rows[i].jobDescription))
  {
    column := [];
    for i := 0 to |rows|
      invariant |column| == i
      invariant forall k :: 0 <= k < i ==>
        column[k] == FeaturesOf(rows[k].jobDescription, ratio(rows[k].jobTitle, rows[k].jobDescription))
    {
      column := column + [FeaturesOf(rows[i].jobDescription, ratio(rows[i].jobTitle, rows[i].jobDescription))];
    }
  }

  /** The column-wise thresholds and the OR of `flag_anomalies`, row by row. */
  method ApplyFlags(column: seq<Features>) returns (flags: seq<Flags>, labels: seq<int>)
    ensures |flags| == |column| && |labels| == |column|
    ensures forall i :: 0 <= i < |column| ==> flags[i] == FlagsOf(column[i])
    ensures forall i :: 0 <= i < |column| ==> labels[i] == PotentiallyFake(flags[i])
    ensures forall i :: 0 <= i < |column| ==> labels[i] == 0 || labels[i] == 1
  {
    flags, labels := [], [];
    for i := 0 to |column|
      invariant |flags| == i && |labels| == i
      invariant forall k :: 0 <= k < i ==> flags[k] == FlagsOf(column[k])
      invariant forall k :: 0 <= k < i ==> labels[k] == PotentiallyFake(flags[k])
    {
      var fl := FlagsOf(column[i]);
      flags := flags + [fl];
      labels := labels + [PotentiallyFake(fl)];
    }
  }

  /** The table of postings with the columns the pipeline adds; a derived column is `None`
      until the function that assigns it has run. */
  class Frame {
    var rows: seq<Posting>
    var features: Option<seq<Features>>
    var flags: Option<seq<Flags>>
    var potentiallyFake: Option<seq<int>>

    /** Every column that exists has one entry per row. */
    ghost predicate Valid()
      reads this
    {
      (features.Some? ==> |features.value| == |rows|)
      && (flags.Some? ==> |flags.value| == |rows|)
      && (potentiallyFake.Some? ==> |potentiallyFake.value| == |rows|)
    }

    /** `load_dataset` once the file has been parsed into raw rows. */
    constructor Load(raw: seq<RawPosting>)
      ensures Valid()
      ensures |rows| == |raw| && forall i :: 0 <= i < |raw| ==> rows[i] == Normalize(raw[i])
      ensures features == None && flags == None && potentiallyFake == None
    {
      rows := seq(|raw|, i requires 0 <= i < |raw| => Normalize(raw[i]));
      features, flags, potentiallyFake := None, None, None;
    }

    /** `add_features`, with `ratio` standing for `SequenceMatcher(None, title, description).ratio()`:
        assigns the feature columns and leaves the rows and every other column as they were. */
    method AddFeatures(ratio: (string, string) -> real)
      requires Valid()
      modifies this
      ensures Valid()
      ensures rows == old(rows) && flags == old(flags) && potentiallyFake == old(potentiallyFake)
      ensures features.Some? && |features.value| == |rows|
      ensures forall i :: 0 <= i < |rows| ==>
        features.value[i] == FeaturesOf(rows[i].jobDescription, ratio(rows[i].jobTitle, rows[i].jobDescription))
    {
      var column := ApplyFeatures(rows, ratio);
      features := Some(column);
    }

    /** `flag_anomalies`: needs the feature columns, assigns the flag and label columns, and
        leaves the rows and the features as they were. */
    method FlagAnomalies()
      requires Valid() && features.Some?
      modifies this
      ensures Valid()
      ensures rows == old(rows) && features == old(features)
      ensures flags.Some? && potentiallyFake.Some?
      ensures forall i :: 0 <= i < |rows| ==> flags.value[i] == FlagsOf(features.value[i])
      ensures forall i :: 0 <= i < |rows| ==> potentiallyFake.value[i] == PotentiallyFake(flags.value[i])
    {
      var fl, labels := ApplyFlags(features.value);
      flags, potentiallyFake := Some(fl), Some(labels);
    }

    /** `add_features` followed by `flag_anomalies`, as `main` runs them: every row keeps its
        place, and the feature, flag and label columns all hold the values of its own description
        and similarity. */
    method Triage(ratio: (string, string) -> real)
      requires Valid()
      modifies this
      ensures Valid() && rows == old(rows)
      ensures features.Some? && flags.Some? && potentiallyFake.Some?
      ensures forall i :: 0 <= i < |rows| ==>
        features.value[i] == FeaturesOf(rows[i].jobDescription, ratio(rows[i].jobTitle, rows[i].jobDescription))
      ensures forall i :: 0 <= i < |rows| ==> flags.value[i] == FlagsOf(features.value[i])
      ensures forall i :: 0 <= i < |rows| ==>
        potentiallyFake.value[i] == Classify(rows[i].jobDescription, ratio(rows[i].jobTitle, rows[i].jobDescription))
    {
      AddFeatures(ratio);
      FlagAnomalies();
    }
  }
}
