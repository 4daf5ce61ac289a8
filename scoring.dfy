/** The goal set and the relevance scorer of `StringAnalyser`: papers built from
    bibliography records, the keyword baseline of the goal abstracts, the
    abstract and journal/author scores of a candidate paper, and the split of a
    batch into relevant and non-relevant papers. */
module Scoring {
  import opened Normalizer

  datatype Option<T> = None | Some(value: T)

  /** A bibliographic paper; `authors` is the author list as one string. */
  datatype Paper = Paper(title: string, abstractText: string, journal: string, authors: string)

  /** One bibliography record as the parser delivers it: field name to text. */
  type Entry = map<string, string>

  /** A field of a record, or the empty default when the record lacks it. */
  function Field(entry: Entry, key: string): string
  {
    if key in entry then entry[key] else ""
  }

  /** The paper `createPapers` builds from one record. */
  function PaperOf(entry: Entry): Paper
  {
    Paper(Field(entry, "title"), Field(entry, "abstract"), Field(entry, "journal"), Field(entry, "author"))
  }

  /** `createPapers`: one paper per record, in record order; a missing field is
      skipped and keeps its empty default, so no record is ever dropped. */
  method CreatePapers(entries: seq<Entry>) returns (papers: seq<Paper>)
    ensures |papers| == |entries|
    ensures forall i :: 0 <= i < |entries| ==> papers[i] == PaperOf(entries[i])
  {
    papers := [];
    for n := 0 to |entries|
      invariant |papers| == n
      invariant forall i :: 0 <= i < n ==> papers[i] == PaperOf(entries[i])
    {
      var item := entries[n];
      var paper := Paper("", "", "", "");
      if "title" in item {
        paper := paper.(title := item["title"]);
      }
      if "abstract" in item {
        paper := paper.(abstractText := item["abstract"]);
      }
      if "journal" in item {
        paper := paper.(journal := item["journal"]);
      }
      if "author" in item {
        paper := paper.(authors := item["author"]);
      }
      papers := papers + [paper];
    }
  }

  /** How many records `analyseAbstract` processes: those that have an abstract. */
  function Processed(entries: seq<Entry>): (k: nat)
    ensures k <= |entries|
  {
    if entries == [] then 0
    else Processed(entries[..|entries| - 1]) + (if "abstract" in entries[|entries| - 1] then 1 else 0)
  }

  /** The hit count `compareAbstract` and `analysePaperAbstract` give an abstract:
      the keywords found among its normalised tokens. */
  function AbstractHits(lang: Linguistics, keywords: seq<string>, text: string): (hits: nat)
    ensures hits <= |keywords|
  {
    HitCount(keywords, NormalizedSet(lang, lang.tokenize(text)))
  }

  /** The sum of the hit counts over the records with an abstract. */
  function TotalHits(lang: Linguistics, keywords: seq<string>, entries: seq<Entry>): (total: nat)
    ensures total <= Processed(entries) * |keywords|
  {
    if entries == [] then 0
    else
      var front := entries[..|entries| - 1];
      var e := entries[|entries| - 1];
      var hits := if "abstract" in e then AbstractHits(lang, keywords, e["abstract"]) else 0;
      var total := TotalHits(lang, keywords, front);
      BoundStep(total, Processed(front), |keywords|, hits, "abstract" in e);
      total + hits
  }

  lemma BoundStep(total: nat, k: nat, bound: nat, hits: nat, counted: bool)
    requires total <= k * bound && hits <= bound && (!counted ==> hits == 0)
    ensures total + hits <= (k + if counted then 1 else 0) * bound
  {
    if counted {
      assert (k + 1) * bound == k * bound + bound;
    }
  }

  /** `meanKeywords`: the mean hit count over the goal abstracts, or nothing
      when no record has an abstract and the division fails. */
  function Baseline(lang: Linguistics, keywords: seq<string>, entries: seq<Entry>): (mean: Option<real>)
    ensures mean.None? <==> Processed(entries) == 0
    ensures mean.Some? ==> mean.value == Mean(TotalHits(lang, keywords, entries), Processed(entries))
    ensures mean.Some? ==> 0.0 <= mean.value <= |keywords| as real
  {
    var k := Processed(entries);
    if k == 0 then None
    else
      var total := TotalHits(lang, keywords, entries);
      MeanBound(total, k, |keywords|);
      Some(Mean(total, k))
  }

  /** Python's true division of a total by a count. */
  function Mean(total: nat, k: nat): (m: real)
    requires 0 < k
    ensures m * k as real == total as real
    ensures 0.0 <= m
  {
    total as real / k as real
  }

  lemma MeanBound(total: nat, k: nat, bound: nat)
    requires 0 < k && total <= k * bound
    ensures Mean(total, k) <= bound as real
  {
    assert (k * bound) as real == k as real * bound as real;
  }

  /** `analyseAbstract`: add up the hit counts of the records with an
      abstract, skip the others, and divide by how many were processed. */
  method AnalyseAbstract(lang: Linguistics, keywords: seq<string>, entries: seq<Entry>) returns (mean: Option<real>)
    ensures mean == Baseline(lang, keywords, entries)
  {
    var contObject: nat := 0;
    var totalcont: nat := 0;
    for n := 0 to |entries|
      invariant contObject == Processed(entries[..n])
      invariant totalcont == TotalHits(lang, keywords, entries[..n])
    {
      var item := entries[n];
      if "abstract" in item {
        var cont := CompareAbstract(lang, keywords, lang.tokenize(item["abstract"]));
        totalcont := totalcont + cont;
        contObject := contObject + 1;
      }
      assert entries[..n + 1][..n] == entries[..n];
    }
    assert entries[..|entries|] == entries;
    if contObject == 0 {
      mean := None;
    } else {
      mean := Some(Mean(totalcont, contObject));
    }
  }

  /** A record without an abstract leaves the baseline as it was. */
  lemma MissingAbstractIgnored(lang: Linguistics, keywords: seq<string>, entries: seq<Entry>, e: Entry)
    requires "abstract" !in e
    ensures Baseline(lang, keywords, entries + [e]) == Baseline(lang, keywords, entries)
  {
    assert (entries + [e])[..|entries|] == entries;
  }

  /** What a candidate paper is scored against: the normalised keywords, the
      goal papers and the baseline. */
  datatype Profile = Profile(lang: Linguistics, keywords: seq<string>, goals: seq<Paper>, meanKeywords: real)

  /** `analysePaperAbstract`: 0.5 when the paper's hit count reaches the
      baseline, 0 otherwise. */
  function AbstractScore(profile: Profile, paper: Paper): (s: real)
    ensures s == 0.5 <==> AbstractHits(profile.lang, profile.keywords, paper.abstractText) as real >= profile.meanKeywords
    ensures s == 0.0 || s == 0.5
  {
    if AbstractHits(profile.lang, profile.keywords, paper.abstractText) as real >= profile.meanKeywords then 0.5 else 0.0
  }

  /** The goal papers whose author string equals the candidate's. */
  function AuthorMatches(goals: seq<Paper>, paper: Paper): (k: nat)
    ensures k <= |goals|
  {
    if goals == [] then 0
    else AuthorMatches(goals[..|goals| - 1], paper) + (if goals[|goals| - 1].authors == paper.authors then 1 else 0)
  }

  /** The goal papers whose journal equals the candidate's. */
  function JournalMatches(goals: seq<Paper>, paper: Paper): (k: nat)
    ensures k <= |goals|
  {
    if goals == [] then 0
    else JournalMatches(goals[..|goals| - 1], paper) + (if goals[|goals| - 1].journal == paper.journal then 1 else 0)
  }

  /** `analyseJournalAuthor`: a quarter point per goal paper with the same
      authors and per goal paper with the same journal, with no cap. */
  function JournalAuthorScore(goals: seq<Paper>, paper: Paper): (s: real)
    ensures 0.0 <= s <= 0.5 * |goals| as real
  {
    0.25 * (AuthorMatches(goals, paper) + JournalMatches(goals, paper)) as real
  }

  /** The journal/author term is not capped at 0.5: two goal papers equal to
      the candidate already give a full point. */
  lemma JournalAuthorUncapped(paper: Paper)
    ensures JournalAuthorScore([paper, paper], paper) == 1.0
  {
    assert [paper, paper][..1] == [paper];
    assert [paper][..0] == [];
    assert AuthorMatches([paper], paper) == 1 && JournalMatches([paper], paper) == 1;
    assert AuthorMatches([paper, paper], paper) == 2 && JournalMatches([paper, paper], paper) == 2;
  }

  /** The total score `analysePapers` compares with 0.5. */
  function Score(profile: Profile, paper: Paper): real
  {
    AbstractScore(profile, paper) + JournalAuthorScore(profile.goals, paper)
  }

  predicate IsRelevant(profile: Profile, paper: Paper)
  {
    Score(profile, paper) >= 0.5
  }

  /** A paper is relevant exactly when its abstract reaches the baseline, or
      when at least two author/journal agreements with goal papers add up. */
  lemma RelevantIff(profile: Profile, paper: Paper)
    ensures IsRelevant(profile, paper) <==>
              || AbstractHits(profile.lang, profile.keywords, paper.abstractText) as real >= profile.meanKeywords
              || AuthorMatches(profile.goals, paper) + JournalMatches(profile.goals, paper) >= 2
  {
    var k := AuthorMatches(profile.goals, paper) + JournalMatches(profile.goals, paper);
    assert k >= 2 <==> 0.25 * k as real >= 0.5;
  }

  /** The relevant papers of a batch, in batch order. */
  function Relevant(profile: Profile, papers: seq<Paper>): (rel: seq<Paper>)
    ensures forall q :: q in rel ==> IsRelevant(profile, q)
    ensures |rel| <= |papers|
  {
    if papers == [] then []
    else
      var p := papers[|papers| - 1];
      Relevant(profile, papers[..|papers| - 1]) + (if IsRelevant(profile, p) then [p] else [])
  }

  /** The non-relevant papers of a batch, in batch order. */
  function NonRelevant(profile: Profile, papers: seq<Paper>): (nrel: seq<Paper>)
    ensures forall q :: q in nrel ==> !IsRelevant(profile, q)
    ensures |nrel| <= |papers|
  {
    if papers == [] then []
    else
      var p := papers[|papers| - 1];
      NonRelevant(profile, papers[..|papers| - 1]) + (if IsRelevant(profile, p) then [] else [p])
  }

  /** Every paper of a batch lands in exactly one of the two lists: together
      they hold the batch, so R + N is the batch size. */
  lemma {:induction false} PartitionComplete(profile: Profile, papers: seq<Paper>)
    ensures multiset(Relevant(profile, papers)) + multiset(NonRelevant(profile, papers)) == multiset(papers)
    ensures |Relevant(profile, papers)| + |NonRelevant(profile, papers)| == |papers|
  {
    if papers != [] {
      var front := papers[..|papers| - 1];
      var p := papers[|papers| - 1];
      PartitionComplete(profile, front);
      assert multiset(papers) == multiset(front) + multiset{p} by {
        assert papers == front + [p];
      }
      if IsRelevant(profile, p) {
        assert Relevant(profile, papers) == Relevant(profile, front) + [p];
        assert NonRelevant(profile, papers) == NonRelevant(profile, front);
      } else {
        assert Relevant(profile, papers) == Relevant(profile, front);
        assert NonRelevant(profile, papers) == NonRelevant(profile, front) + [p];
      }
    }
  }
}
