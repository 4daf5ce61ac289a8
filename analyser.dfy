/** The classifier object `StringAnalyser`: built once from the goal
    bibliography and the keyword groups, then asked again and again whether a
    new batch of candidate papers beats the best result so far. */
module Analyser {
  import opened SortedStrings
  import opened Normalizer
  import opened Scoring
  import opened Acceptance

  class StringAnalyser {
    /** The tokeniser, stemmer and stopword list every normalisation uses. */
    const lang: Linguistics
    /** `__keywords`: the normalised keyword groups, concatenated. */
    const keywords: seq<string>
    /** `__goals`: the papers of the goal bibliography. */
    const goals: seq<Paper>
    /** `__meanKeywords`: the baseline hit count of the goal abstracts. */
    const meanKeywords: real

    var precision: real
    var sensibility: real
    var precisionTemp: real
    var sensibilityTemp: real
    var relevantes: nat
    var nRelevantes: nat

    /** The six numbers the getters expose. */
    function State(): Metrics
      reads this
    {
      Metrics(precision, sensibility, precisionTemp, sensibilityTemp, relevantes, nRelevantes)
    }

    /** What a candidate paper is scored against. */
    function Context(): Profile
    {
      Profile(lang, keywords, goals, meanKeywords)
    }

    constructor (lang: Linguistics, keywords: seq<string>, goals: seq<Paper>, meanKeywords: real)
      ensures Context() == Profile(lang, keywords, goals, meanKeywords)
      ensures State() == Initial
    {
      this.lang := lang;
      this.keywords := keywords;
      this.goals := goals;
      this.meanKeywords := meanKeywords;
      precision := Unset;
      sensibility := Unset;
      precisionTemp := 0.0;
      sensibilityTemp := 0.0;
      relevantes := 0;
      nRelevantes := 0;
    }

    /** `__init__` with `analyseGoal`: normalise the keyword groups, build the
        goal papers from the parsed records, and compute the baseline; the
        baseline's ZeroDivisionError, when no record has an abstract, leaves
        no classifier. */
    static method Create(lang: Linguistics, entries: seq<Entry>, keywordGroups: seq<seq<string>>)
      returns (analyser: Option<StringAnalyser>)
      ensures analyser.None? <==> Processed(entries) == 0
      ensures analyser.Some? ==>
                && fresh(analyser.value)
                && analyser.value.State() == Initial
                && analyser.value.lang == lang
                && analyser.value.keywords == NormalizedGroups(lang, keywordGroups)
                && |analyser.value.goals| == |entries|
                && (forall i :: 0 <= i < |entries| ==> analyser.value.goals[i] == PaperOf(entries[i]))
                && Some(analyser.value.meanKeywords) == Baseline(lang, analyser.value.keywords, entries)
    {
      var keywords := PrepareKeywords(lang, keywordGroups);
      var goals := CreatePapers(entries);
      var mean := AnalyseAbstract(lang, keywords, entries);
      if mean.None? {
        return None;
      }
      var a := new StringAnalyser(lang, keywords, goals, mean.value);
      return Some(a);
    }

    /** `analysePaperAbstract`: count the keywords binary search finds among
        the paper's normalised abstract tokens; 0.5 if the count reaches the
        baseline, 0 otherwise. */
    method AnalysePaperAbstract(paper: Paper) returns (total: real)
      ensures total == AbstractScore(Context(), paper)
      ensures total == 0.5 <==> AbstractHits(lang, keywords, paper.abstractText) as real >= meanKeywords
    {
      total := 0.0;
      var contTotal: nat := 0;
      var tokens := lang.tokenize(paper.abstractText);
      var prepared := PrepareWords(lang, tokens);
      for n := 0 to |keywords|
        invariant contTotal == HitCount(keywords[..n], NormalizedSet(lang, tokens))
      {
        var result := BinarySearch(prepared, 0, |prepared| - 1, keywords[n]);
        SearchIsMembership(prepared, keywords[n]);
        if result != -1 {
          contTotal := contTotal + 1;
        }
        assert keywords[..n + 1][..n] == keywords[..n];
      }
      assert keywords[..|keywords|] == keywords;
      if contTotal as real >= meanKeywords {
        total := total + 0.5;
      }
    }

    /** `analyseJournalAuthor`: a quarter point for every goal paper with the
        same author string and for every goal paper with the same journal. */
    method AnalyseJournalAuthor(paper: Paper) returns (total: real)
      ensures total == JournalAuthorScore(goals, paper)
      ensures 0.0 <= total <= 0.5 * |goals| as real
    {
      total := 0.0;
      for n := 0 to |goals|
        invariant total == JournalAuthorScore(goals[..n], paper)
      {
        var goal := goals[n];
        assert goals[..n + 1][..n] == goals[..n];
        if goal.authors == paper.authors {
          total := total + 0.25;
        }
        if goal.journal == paper.journal {
          total := total + 0.25;
        }
      }
      assert goals[..|goals|] == goals;
    }

    /** `analysePaper`: append the paper to the relevant list when its two
        scores add up to 0.5 or more, to the non-relevant list otherwise. */
    method AnalysePaper(paper: Paper, relevantPapers: seq<Paper>, nonRelevantPapers: seq<Paper>)
      returns (relevantAfter: seq<Paper>, nonRelevantAfter: seq<Paper>)
      ensures IsRelevant(Context(), paper) ==>
                relevantAfter == relevantPapers + [paper] && nonRelevantAfter == nonRelevantPapers
      ensures !IsRelevant(Context(), paper) ==>
                relevantAfter == relevantPapers && nonRelevantAfter == nonRelevantPapers + [paper]
    {
      var total := 0.0;
      var abstractScore := AnalysePaperAbstract(paper);
      total := total + abstractScore;
      var journalAuthorScore := AnalyseJournalAuthor(paper);
      total := total + journalAuthorScore;
      if total >= 0.5 {
        relevantAfter, nonRelevantAfter := relevantPapers + [paper], nonRelevantPapers;
      } else {
        relevantAfter, nonRelevantAfter := relevantPapers, nonRelevantPapers + [paper];
      }
    }

    /** `substitutePS`: install the temporaries as the best when the
        differences say the new result is better, and report whether it did. */
    method SubstitutePS(precisionDiference: real, sensibilityDiference: real) returns (accepted: bool)
      modifies this
      ensures Decision(accepted, State()) == Substitute(old(State()), precisionDiference, sensibilityDiference)
      ensures accepted <==> sensibilityDiference > precisionDiference
    {
      var sensibilityBetter := false;
      var precisionBetter := false;
      if precisionDiference < 0.0 {
        precisionBetter := true;
      } else {
        precisionBetter := false;
      }
      if sensibilityDiference > 0.0 {
        sensibilityBetter := true;
      } else {
        sensibilityBetter := false;
      }
      if sensibilityBetter && precisionBetter {
        precision := precisionTemp;
        sensibility := sensibilityTemp;
        return true;
      } else if sensibilityBetter {
        if sensibilityDiference > precisionDiference {
          precision := precisionTemp;
          sensibility := sensibilityTemp;
          return true;
        }
      } else if precisionBetter {
        if Abs(precisionDiference) > Abs(sensibilityDiference) {
          precision := precisionTemp;
          sensibility := sensibilityTemp;
          return true;
        }
      }
      return false;
    }

    /** `compareSensibilityPrecision`: on the first evaluation store the
        temporaries as the best and compare with zero differences; afterwards
        compare the temporaries with the stored best. */
    method CompareSensibilityPrecision() returns (accepted: bool)
      modifies this
      ensures Decision(accepted, State()) == Compare(old(State()))
    {
      var precisionDiference := 0.0;
      var sensibilityDiference := 0.0;
      if precision == Unset {
        precision := precisionTemp;
        sensibility := sensibilityTemp;
      } else {
        precisionDiference := precisionTemp - precision;
        sensibilityDiference := sensibilityTemp - sensibility;
      }
      accepted := SubstitutePS(precisionDiference, sensibilityDiference);
    }

    /** `calSenPre`: compute the batch's sensitivity and precision, reject it
        at the gates, or store its counts and compare it with the best. */
    method CalSenPre(relevantPapers: seq<Paper>, nonRelevantPapers: seq<Paper>) returns (verdict: Verdict)
      modifies this
      ensures verdict.Returned? ==>
                Evaluate(old(State()), |relevantPapers|, |nonRelevantPapers|, |goals|) == Decided(verdict.accepted, State())
      ensures verdict.ZeroDivisionError? ==>
                Evaluate(old(State()), |relevantPapers|, |nonRelevantPapers|, |goals|) == ZeroDivision(State())
    {
      var r := |relevantPapers|;
      var n := |nonRelevantPapers|;
      if r + |goals| == 0 {
        return ZeroDivisionError;
      }
      sensibilityTemp := Percent(r, r + |goals|);
      if r + n == 0 {
        return ZeroDivisionError;
      }
      precisionTemp := Percent(r, r + n);
      if precision != Unset && sensibility != Unset {
        if sensibilityTemp < 80.0 && sensibility >= 80.0 {
          return Returned(false);
        }
        if precisionTemp >= 60.0 && precision < 60.0 {
          return Returned(false);
        }
      }
      relevantes := r;
      nRelevantes := n;
      var accepted := CompareSensibilityPrecision();
      return Returned(accepted);
    }

    /** `analysePapers`: split the batch into relevant and non-relevant papers
        in batch order, then evaluate the split as `calSenPre` does. */
    method AnalysePapers(papers: seq<Paper>) returns (verdict: Verdict)
      modifies this
      ensures verdict.Returned? ==>
                Evaluate(old(State()), |Relevant(Context(), papers)|, |NonRelevant(Context(), papers)|, |goals|)
                  == Decided(verdict.accepted, State())
      ensures verdict.ZeroDivisionError? ==>
                Evaluate(old(State()), |Relevant(Context(), papers)|, |NonRelevant(Context(), papers)|, |goals|)
                  == ZeroDivision(State())
    {
      var relevantPapers: seq<Paper> := [];
      var nonRelevantPapers: seq<Paper> := [];
      for n := 0 to |papers|
        invariant relevantPapers == Relevant(Context(), papers[..n])
        invariant nonRelevantPapers == NonRelevant(Context(), papers[..n])
        invariant State() == old(State())
      {
        assert papers[..n + 1][..n] == papers[..n];
        relevantPapers, nonRelevantPapers := AnalysePaper(papers[n], relevantPapers, nonRelevantPapers);
      }
      assert papers[..|papers|] == papers;
      verdict := CalSenPre(relevantPapers, nonRelevantPapers);
    }
  }
}
