/** The basic rule-based labeller: five features of the description, four flags,
    and their disjunction as the `potentially_fake` label. */
module FakeJobs {
  import opened PyStr
  import opened Postings

  /** Thresholds of `flag_anomalies`. */
  const ShortDescriptionLength: nat := 50
  const MaxExclamations: nat := 3
  const MaxUppercaseWords: nat := 5

  /** The phrases `contains_generic_terms` looks for in the lower-cased description. */
  const GenericTerms: seq<string> := ["work from home", "earn", "immediate start", "no experience required"]

  /** The columns `add_features` adds to a row. */
  datatype Features = Features(
    descriptionLength: nat,
    exclamationCount: nat,
    questionCount: nat,
    uppercaseWordCount: nat,
    containsGenericTerms: bool)

  /** The boolean columns `flag_anomalies` adds to a row. */
  datatype Flags = Flags(
    isShortDescription: bool,
    hasExcessiveExclamations: bool,
    hasUnusualFormat: bool,
    hasGenericTerms: bool)

  /** The features of one description. */
  function FeaturesOf(description: string): Features {
    Features(
      |description|,
      Count(description, '!'),
      Count(description, '?'),
      CountUpper(Split(description)),
      ContainsAny(Lower(description), GenericTerms))
  }

  function FlagsOf(f: Features): Flags {
    Flags(
      f.descriptionLength < ShortDescriptionLength,
      f.exclamationCount > MaxExclamations,
      f.uppercaseWordCount > MaxUppercaseWords,
      f.containsGenericTerms)
  }

  /** The OR of the four flags, as an integer. */
  function PotentiallyFake(fl: Flags): (fake: int)
    ensures fake == 0 || fake == 1
    ensures fake == 1 <==>
      fl.isShortDescription || fl.hasExcessiveExclamations || fl.hasUnusualFormat || fl.hasGenericTerms
  {
    AsInt(fl.isShortDescription || fl.hasExcessiveExclamations || fl.hasUnusualFormat || fl.hasGenericTerms)
  }

  /** The label the pipeline gives a row with this description. */
  function Classify(description: string): int {
    PotentiallyFake(FlagsOf(FeaturesOf(description)))
  }

  /** The label is 0 exactly when the description is long enough, has at most three `!`,
      at most five upper-case words and none of the generic terms. */
  lemma ClassifyIsZeroIff(description: string)
    ensures Classify(description) == 0 <==>
      |description| >= ShortDescriptionLength
      && Count(description, '!') <= MaxExclamations
      && CountUpper(Split(description)) <= MaxUppercaseWords
      && !ContainsAny(Lower(description), GenericTerms)
  {
  }

  // ---------------------------------------------------------------------
  // Properties of the features and the label

  /** The counts of `!` and `?` count distinct positions of the description, and every
      upper-case word is one of the tokens `split()` returns, of which there are at most
      as many as characters. */
  lemma FeatureBounds(description: string)
    ensures FeaturesOf(description).exclamationCount + FeaturesOf(description).questionCount
      <= FeaturesOf(description).descriptionLength
    ensures FeaturesOf(description).uppercaseWordCount <= |Split(description)|
      <= FeaturesOf(description).descriptionLength
  {
    CountInUnion(description, {'!'}, {'?'});
    SplitLengthBounds(description);
  }

  /** An empty (or missing, after `fillna("")`) description has all counts zero and no
      generic term, and is labelled fake because it is short. */
  lemma EmptyDescription(raw: RawPosting)
    requires raw.jobDescription == None || raw.jobDescription == Some("")
    ensures Normalize(raw).jobDescription == ""
    ensures FeaturesOf(Normalize(raw).jobDescription) == Features(0, 0, 0, 0, false)
    ensures FlagsOf(FeaturesOf(Normalize(raw).jobDescription)).isShortDescription
    ensures Classify(Normalize(raw).jobDescription) == 1
  {
    var f := FeaturesOf("");
    assert !ContainsAny(Lower(""), GenericTerms) by {
      forall k | 0 <= k < |GenericTerms| ensures !Contains(Lower(""), GenericTerms[k]) {
        assert |GenericTerms[k]| > 0;
      }
    }
  }

  /** Any description shorter than 50 characters is labelled fake, whatever else it holds. */
  lemma ShortDescriptionIsFake(description: string)
    requires |description| < ShortDescriptionLength
    ensures Classify(description) == 1
  {
  }

  /** Appending one `!` adds exactly one to `exclamation_count`. */
  lemma ExclamationAppend(description: string)
    ensures FeaturesOf(description + "!").exclamationCount == FeaturesOf(description).exclamationCount + 1
  {
    CountInAppend(description, "!", {'!'});
  }

  /** After appending `n` more `!` to a description, `has_excessive_exclamations` holds exactly
      when there are at least four `!` in all: it turns on at the fourth and stays on. */
  lemma ExclamationsFlagAfterAppends(description: string, n: nat)
    ensures FlagsOf(FeaturesOf(description + Repeat('!', n))).hasExcessiveExclamations <==>
      Count(description, '!') + n >= 4
  {
    CountInAppend(description, Repeat('!', n), {'!'});
    CountRepeat('!', n);
  }

  /** `n` exclamation marks between two texts without any: `exclamation_count` is `n`. */
  lemma ExclamationsBetween(head: string, n: nat, tail: string)
    requires '!' !in head && '!' !in tail
    ensures Count(head + Repeat('!', n) + tail, '!') == n
  {
    CountInAppend(head + Repeat('!', n), tail, {'!'});
    CountInAppend(head, Repeat('!', n), {'!'});
    CountAbsent(head, '!');
    CountAbsent(tail, '!');
    CountRepeat('!', n);
  }

  /** Whatever is appended, `exclamation_count` never decreases, so the flag never turns off. */
  lemma ExclamationsFlagStaysOn(description: string, suffix: string)
    requires FlagsOf(FeaturesOf(description)).hasExcessiveExclamations
    ensures FlagsOf(FeaturesOf(description + suffix)).hasExcessiveExclamations
    ensures Classify(description + suffix) == 1
  {
    CountInAppend(description, suffix, {'!'});
  }

  /** `contains_generic_terms` ignores the case of the letters of the description. */
  lemma GenericTermsIgnoreCase(s: string, t: string)
    requires SameUpToCase(s, t)
    ensures FeaturesOf(s).containsGenericTerms == FeaturesOf(t).containsGenericTerms
  {
    LowerIgnoresCase(s, t);
  }

  /** An upper-case "WORK FROM HOME" contains a generic term. */
  lemma WorkFromHomeUpperCase(d: string)
    requires d == "WORK FROM HOME"
    ensures FeaturesOf(d).containsGenericTerms
    ensures Classify(d) == 1
  {
    UpperCaseTermOccurs(d, 0);
  }

  /** A description that is one of the generic terms in any mixture of cases contains a generic term. */
  lemma UpperCaseTermOccurs(d: string, k: nat)
    requires k < |GenericTerms| && SameUpToCase(d, GenericTerms[k])
    ensures ContainsAny(Lower(d), GenericTerms)
  {
    var term := GenericTerms[k];
    LowerIgnoresCase(d, term);
    LowerOfLowerCase(term);
    assert OccursAt(Lower(d), term, 0);
  }

  /** "Great opportunity!!!! Earn cash now": four `!`, the term "earn", and 35 characters. */
  lemma GreatOpportunityExample(d: string)
    requires d == "Great opportunity!!!! Earn cash now"
    ensures FeaturesOf(d).descriptionLength == 35
    ensures FeaturesOf(d).exclamationCount == 4
    ensures FeaturesOf(d).containsGenericTerms
    ensures FlagsOf(FeaturesOf(d)).hasExcessiveExclamations
    ensures Classify(d) == 1
  {
    GreatOpportunityExclamations(d);
    GreatOpportunityEarn(d);
  }

  lemma GreatOpportunityExclamations(d: string)
    requires d == "Great opportunity!!!! Earn cash now"
    ensures Count(d, '!') == 4
  {
    var head, bangs, tail := d[..17], d[17..21], d[21..];
    assert d == head + bangs + tail;
    assert '!' !in head && '!' !in tail;
    assert bangs == Repeat('!', 4);
    ExclamationsBetween(head, 4, tail);
  }

  lemma GreatOpportunityEarn(d: string)
    requires d == "Great opportunity!!!! Earn cash now"
    ensures ContainsAny(Lower(d), GenericTerms)
  {
    var earn := d[22..26];
    assert SameUpToCase(earn, GenericTerms[1]);
    LowerIgnoresCase(earn, GenericTerms[1]);
    LowerOfLowerCase(GenericTerms[1]);
    LowerSlice(d, 22, 26);
    assert OccursAt(Lower(d), GenericTerms[1], 22);
  }

  // ---------------------------------------------------------------------
  // The data frame

  /** `data['job_description'].apply(...)` for all five feature columns: one result per row, in row order. */
  method ApplyFeatures(rows: seq<Posting>) returns (column: seq<Features>)
    ensures |column| == |rows|
    ensures forall i :: 0 <= i < |rows| ==> column[i] == FeaturesOf(rows[i].jobDescription)
  {
    column := [];
    for i := 0 to |rows|
      invariant |column| == i
      invariant forall k :: 0 <= k < i ==> column[k] == FeaturesOf(rows[k].jobDescription)
    {
      var f := FeaturesOf(rows[i].jobDescription);
      column := column + [f];
    }
  }

  /** The column-wise thresholds and the OR of `flag_anomalies`, row by row. */
  method ApplyFlags(column: seq<Features>) returns (flags: seq<Flags>, labels: seq<int>)
    ensures |flags| == |column| && |labels| == |column|
    ensures forall i :: 0 <= i < |column| ==> flags[i] == FlagsOf(column[i])
    ensures forall i :: 0 <= i < |column| ==> labels[i] == PotentiallyFake(flags[i])
    ensures forall i :: 0 <= i < |column| ==> labels[i] == 0 || labels[i] == 1
  {
    flags, labels := [], [];
    for i := 0 to |column|
      invariant |flags| == i && |labels| == i
      invariant forall k :: 0 <= k < i ==> flags[k] == FlagsOf(column[k])
      invariant forall k :: 0 <= k < i ==> labels[k] == PotentiallyFake(flags[k])
    {
      var fl := FlagsOf(column[i]);
      flags := flags + [fl];
      labels := labels + [PotentiallyFake(fl)];
    }
  }

  /** The table of postings with the columns the pipeline adds; a derived column is `None`
      until the function that assigns it has run. */
  class Frame {
    var rows: seq<Posting>
    var features: Option<seq<Features>>
    var flags: Option<seq<Flags>>
    var potentiallyFake: Option<seq<int>>

    /** Every column that exists has one entry per row. */
    ghost predicate Valid()
      reads this
    {
      (features.Some? ==> |features.value| == |rows|)
      && (flags.Some? ==> |flags.value| == |rows|)
      && (potentiallyFake.Some? ==> |potentiallyFake.value| == |rows|)
    }

    /** `load_dataset` once the file has been parsed into raw rows. */
    constructor Load(raw: seq<RawPosting>)
      ensures Valid()
      ensures |rows| == |raw| && forall i :: 0 <= i < |raw| ==> rows[i] == Normalize(raw[i])
      ensures features == None && flags == None && potentiallyFake == None
    {
      rows := seq(|raw|, i requires 0 <= i < |raw| => Normalize(raw[i]));
      features, flags, potentiallyFake := None, None, None;
    }

    /** `add_features`: assigns the feature columns and leaves the rows and every other column as they were. */
    method AddFeatures()
      requires Valid()
      modifies this
      ensures Valid()
      ensures rows == old(rows) && flags == old(flags) && potentiallyFake == old(potentiallyFake)
      ensures features.Some? && |features.value| == |rows|
      ensures forall i :: 0 <= i < |rows| ==> features.value[i] == FeaturesOf(rows[i].jobDescription)
    {
      var column := ApplyFeatures(rows);
      features := Some(column);
    }

    /** `flag_anomalies`: needs the feature columns, assigns the flag and label columns, and
        leaves the rows and the features as they were. */
    method FlagAnomalies()
      requires Valid() && features.Some?
      modifies this
      ensures Valid()
      ensures rows == old(rows) && features == old(features)
      ensures flags.Some? && potentiallyFake.Some?
      ensures forall i :: 0 <= i < |rows| ==> flags.value[i] == FlagsOf(features.value[i])
      ensures forall i :: 0 <= i < |rows| ==> potentiallyFake.value[i] == PotentiallyFake(flags.value[i])
    {
      var fl, labels := ApplyFlags(features.value);
      flags, potentiallyFake := Some(fl), Some(labels);
    }

    /** `add_features` followed by `flag_anomalies`, as `main` runs them: every row keeps its
        place, and the feature, flag and label columns all hold the values of its own description. */
    method Triage()
      requires Valid()
      modifies this
      ensures Valid() && rows == old(rows)
      ensures features.Some? && flags.Some? && potentiallyFake.Some?
      ensures forall i :: 0 <= i < |rows| ==> features.value[i] == FeaturesOf(rows[i].jobDescription)
      ensures forall i :: 0 <= i < |rows| ==> flags.value[i] == FlagsOf(features.value[i])
      ensures forall i :: 0 <= i < |rows| ==> potentiallyFake.value[i] == Classify(rows[i].jobDescription)
    {
      AddFeatures();
      FlagAnomalies();
    }
  }
}
