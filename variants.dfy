/** How the two labellers relate: the extended one keeps the four rules of the basic one,
    with the same thresholds, and its keyword list starts with the basic generic terms. */
module Variants {
  import opened PyStr
  import opened Postings
  import FakeJobs
  import FakeJobsExtras

  /** The basic generic terms are the first four extended keywords. */
  lemma GenericTermsArePrefix()
    ensures FakeJobs.GenericTerms == FakeJobsExtras.Keywords[..4]
  {
  }

  /** A generic term found by the basic test is found by the extended one. */
  lemma GenericTermCarriesOver(description: string)
    requires ContainsAny(Lower(description), FakeJobs.GenericTerms)
    ensures ContainsAny(Lower(description), FakeJobsExtras.Keywords)
  {
    var s := Lower(description);
    var k :| 0 <= k < |FakeJobs.GenericTerms| && Contains(s, FakeJobs.GenericTerms[k]);
    GenericTermsArePrefix();
    assert FakeJobsExtras.Keywords[k] == FakeJobs.GenericTerms[k];
  }

  /** Every description the basic labeller marks as potentially fake, the extended labeller
      marks too, whatever the title/description similarity. */
  lemma BasicFakeIsExtendedFake(description: string, similarity: real)
    requires FakeJobs.Classify(description) == 1
    ensures FakeJobsExtras.Classify(description, similarity) == 1
  {
    if FakeJobs.FeaturesOf(description).containsGenericTerms {
      GenericTermCarriesOver(description);
    }
  }

  /** Row by row, after both pipelines have labelled the same raw rows, the extended label is
      never below the basic one. */
  lemma FrameLabelsOrdered(basic: seq<int>, extended: seq<int>, rows: seq<Posting>, ratio: (string, string) -> real)
    requires |basic| == |rows| && |extended| == |rows|
    requires forall i :: 0 <= i < |rows| ==> basic[i] == FakeJobs.Classify(rows[i].jobDescription)
    requires forall i :: 0 <= i < |rows| ==>
      extended[i] == FakeJobsExtras.Classify(rows[i].jobDescription, ratio(rows[i].jobTitle, rows[i].jobDescription))
    ensures forall i :: 0 <= i < |rows| ==> basic[i] <= extended[i]
  {
    forall i | 0 <= i < |rows| ensures basic[i] <= extended[i] {
      if basic[i] == 1 {
        BasicFakeIsExtendedFake(rows[i].jobDescription, ratio(rows[i].jobTitle, rows[i].jobDescription));
      }
    }
  }

  /** The letters of the word "job", and the space. */
  const JobAlphabet: set<char> := {'j', 'o', 'b', ' '}

  /** `" ".join(["job"] * n)`: tokens, length and alphabet. */
  lemma JobsText(n: nat)
    requires n > 0
    ensures Split(JoinSpace(Copies("job", n))) == Copies("job", n)
    ensures |JoinSpace(Copies("job", n))| == 4 * n - 1
    ensures CharsIn(JoinSpace(Copies("job", n)), JobAlphabet)
  {
    var ts := Copies("job", n);
    PrintableWord("job");
    assert CharsIn("job", JobAlphabet) by {
      forall i | 0 <= i < 3 ensures "job"[i] in JobAlphabet {
        assert i == 0 || i == 1 || i == 2;
      }
    }
    SplitJoinSpace(ts);
    JoinSpaceLength(ts);
    SumLengthsCopies("job", n);
    JoinSpaceCharsIn(ts, JobAlphabet);
  }

  /** Label 0 is reachable in both variants: thirteen or more copies of "job" make a description
      of at least 51 characters and at least ten words, with no upper-case word, no `!` or special
      character, and none of the terms or markers; with a similarity of at most 0.8, neither variant
      flags it. */
  lemma RepeatedJobIsReal(n: nat, similarity: real)
    requires n >= 13 && similarity <= FakeJobsExtras.MaxSimilarity
    ensures FakeJobs.Classify(JoinSpace(Copies("job", n))) == 0
    ensures FakeJobsExtras.Classify(JoinSpace(Copies("job", n)), similarity) == 0
  {
    var d := JoinSpace(Copies("job", n));
    JobsText(n);
    forall i | 0 <= i < |d| ensures !IsAsciiUpper(d[i]) && d[i] !in {'!'} && d[i] !in FakeJobsExtras.SpecialChars {
      assert d[i] in JobAlphabet;
    }
    LowerOfLowerCase(d);
    CountInNone(d, {'!'});
    CountInNone(d, FakeJobsExtras.SpecialChars);
    forall k | 0 <= k < n ensures !IsUpper(Copies("job", n)[k]) {
      assert !IsAsciiUpper("job"[0]) && !IsAsciiUpper("job"[1]) && !IsAsciiUpper("job"[2]);
    }
    CountUpperNone(Copies("job", n));
    TermsOutsideAlphabet(d, JobAlphabet, FakeJobs.GenericTerms);
    TermsOutsideAlphabet(d, JobAlphabet, FakeJobsExtras.Keywords);
    TermsOutsideAlphabet(d, JobAlphabet, FakeJobsExtras.ContactTerms);
    TermsOutsideAlphabet(d, JobAlphabet, FakeJobsExtras.UrlMarkers);
    FakeJobs.ClassifyIsZeroIff(d);
  }
}
