/** Keyword normalisation of `StringAnalyser` (`prepareWords`, `prepareKeywords`)
    and the keyword hit count of `compareAbstract`. The tokeniser, the stemmer and
    the stopword list come from a linguistic library and are parameters here. */
module Normalizer {
  import opened Lex
  import opened SortedStrings

  /** The library services `prepareWords` calls: `word_tokenize`, the Porter
      stemmer's `stem`, and the English stopword list in the library's order. */
  datatype Linguistics = Linguistics(
    tokenize: string -> seq<string>,
    stem: string -> string,
    stopwords: seq<string>)

  /** `listWord` after the first loop of `prepareWords`: the tokens of every item, in order. */
  function Tokens(lang: Linguistics, items: seq<string>): seq<string>
  {
    if items == [] then []
    else Tokens(lang, items[..|items| - 1]) + lang.tokenize(items[|items| - 1])
  }

  /** `newWords` before deduplication: the stem of every token that is not
      (case-sensitively) a stopword, in token order. */
  function Survivors(lang: Linguistics, tokens: seq<string>): seq<string>
  {
    if tokens == [] then []
    else
      var t := tokens[|tokens| - 1];
      Survivors(lang, tokens[..|tokens| - 1]) + (if t in lang.stopwords then [] else [lang.stem(t)])
  }

  /** The values `prepareWords(items)` returns. */
  function NormalizedSet(lang: Linguistics, items: seq<string>): set<string>
  {
    set w | w in Survivors(lang, Tokens(lang, items))
  }

  /** A word survives normalisation exactly when it is the stem of a token that
      is not a stopword: stopwords are removed before stemming, and nothing else is. */
  lemma {:induction false} SurvivorsMembers(lang: Linguistics, tokens: seq<string>, w: string)
    ensures w in Survivors(lang, tokens) <==>
            exists t :: t in tokens && t !in lang.stopwords && lang.stem(t) == w
  {
    if tokens != [] {
      var front, t := tokens[..|tokens| - 1], tokens[|tokens| - 1];
      SurvivorsMembers(lang, front, w);
      assert tokens == front + [t];
      if exists u :: u in tokens && u !in lang.stopwords && lang.stem(u) == w {
        var u :| u in tokens && u !in lang.stopwords && lang.stem(u) == w;
        if u != t {
          assert u in front;
        }
      }
    }
  }

  /** Some list of the values of a finite set, each once. */
  ghost function Enumerate(s: set<string>): (e: seq<string>)
    ensures NoDup(e)
    ensures forall x :: x in e <==> x in s
    decreases |s|
  {
    if s == {} then []
    else
      var x :| x in s;
      [x] + Enumerate(s - {x})
  }

  /** The one sorted list, without repeats, of the values of `s`. */
  ghost function SortedListOf(s: set<string>): seq<string>
  {
    MergeSorted(Enumerate(s))
  }

  /** Two lists without repeats that hold the same values hold them equally often. */
  lemma SameValuesSameMultiset(a: seq<string>, b: seq<string>)
    requires NoDup(a) && NoDup(b)
    requires forall x :: x in a <==> x in b
    ensures multiset(a) == multiset(b)
  {
    forall x ensures multiset(a)[x] == multiset(b)[x] {
      assert x in a <==> x in multiset(a);
      assert x in b <==> x in multiset(b);
    }
  }

  /** A sorted list without repeats is determined by its values. */
  lemma {:induction false} SortedListOfUnique(w: seq<string>, s: set<string>)
    requires Sorted(w) && NoDup(w)
    requires forall x :: x in w <==> x in s
    ensures w == SortedListOf(s)
  {
    var e := Enumerate(s);
    MergeSortedCorrect(e);
    SameValuesSameMultiset(w, e);
    SortedUnique(w, MergeSorted(e));
  }

  /** What `prepareWords(items)` returns, as a value. */
  ghost function Normalized(lang: Linguistics, items: seq<string>): seq<string>
  {
    SortedListOf(NormalizedSet(lang, items))
  }

  /** The first loop of `prepareWords`: tokenise every item and concatenate the tokens. */
  method TokenizeAll(lang: Linguistics, listAbstract: seq<string>) returns (listWord: seq<string>)
    ensures listWord == Tokens(lang, listAbstract)
  {
    listWord := [];
    for n := 0 to |listAbstract|
      invariant listWord == Tokens(lang, listAbstract[..n])
    {
      assert listAbstract[..n + 1][..n] == listAbstract[..n];
      listWord := listWord + lang.tokenize(listAbstract[n]);
    }
    assert listAbstract[..|listAbstract|] == listAbstract;
  }

  /** The second loop of `prepareWords`: sort a copy of the stopword list, then
      keep the stem of every token that binary search does not find in it. */
  method RemoveStopwords(lang: Linguistics, listWord: seq<string>) returns (stems: seq<string>)
    ensures stems == Survivors(lang, listWord)
  {
    var stopWords := new string[|lang.stopwords|](n requires 0 <= n < |lang.stopwords| => lang.stopwords[n]);
    assert stopWords[..] == lang.stopwords;
    MergeSort(stopWords);
    var stops := stopWords[..];
    stems := [];
    for n := 0 to |listWord|
      invariant stems == Survivors(lang, listWord[..n])
    {
      var word := listWord[n];
      var result := BinarySearch(stops, 0, |stops| - 1, word);
      SearchIsMembership(stops, word);
      assert word in stops <==> word in multiset(lang.stopwords);
      if result == -1 {
        stems := stems + [lang.stem(word)];
      }
      assert listWord[..n + 1][..n] == listWord[..n];
    }
    assert listWord[..|listWord|] == listWord;
  }

  /** `list(set(newWords))`: the same values, each once, in the set's iteration
      order (any order: the list is sorted next). */
  method Deduplicate(stems: seq<string>) returns (unique: seq<string>)
    ensures NoDup(unique)
    ensures forall x :: x in unique <==> x in stems
  {
    var pending := set w | w in stems;
    unique := [];
    while pending != {}
      invariant NoDup(unique)
      invariant forall x :: x in unique ==> x !in pending
      invariant forall x :: x in stems <==> x in unique || x in pending
      decreases |pending|
    {
      var w :| w in pending;
      unique := unique + [w];
      pending := pending - {w};
    }
  }

  /** `prepareWords(listAbstract)`: tokenise every item, drop the stopwords,
      stem the rest, remove repeats through a set and sort the result. */
  method PrepareWords(lang: Linguistics, listAbstract: seq<string>) returns (newWords: seq<string>)
    ensures Sorted(newWords) && NoDup(newWords)
    ensures forall w :: w in newWords <==> w in NormalizedSet(lang, listAbstract)
    ensures newWords == Normalized(lang, listAbstract)
  {
    var listWord := TokenizeAll(lang, listAbstract);
    var stems := RemoveStopwords(lang, listWord);
    var unique := Deduplicate(stems);
    var sorted := new string[|unique|](n requires 0 <= n < |unique| => unique[n]);
    assert sorted[..] == unique;
    MergeSort(sorted);
    newWords := sorted[..];
    assert forall x :: x in newWords <==> x in multiset(unique);
    SortedListOfUnique(newWords, NormalizedSet(lang, listAbstract));
  }

  /** The keyword list `prepareKeywords(keywords)` builds: the normalised words
      of every group, group after group, with no deduplication across groups and
      no final sort. */
  ghost function NormalizedGroups(lang: Linguistics, groups: seq<seq<string>>): seq<string>
  {
    if groups == [] then []
    else NormalizedGroups(lang, groups[..|groups| - 1]) + Normalized(lang, groups[|groups| - 1])
  }

  /** The number of groups whose normalised words include `w`. */
  function GroupsWith(lang: Linguistics, groups: seq<seq<string>>, w: string): nat
  {
    if groups == [] then 0
    else GroupsWith(lang, groups[..|groups| - 1], w) + (if w in NormalizedSet(lang, groups[|groups| - 1]) then 1 else 0)
  }

  /** `prepareKeywords(keywords)`: extend the list by `prepareWords(group)` for each group. */
  method PrepareKeywords(lang: Linguistics, keywords: seq<seq<string>>) returns (newList: seq<string>)
    ensures newList == NormalizedGroups(lang, keywords)
    ensures forall w :: multiset(newList)[w] == GroupsWith(lang, keywords, w)
  {
    newList := [];
    for n := 0 to |keywords|
      invariant newList == NormalizedGroups(lang, keywords[..n])
    {
      assert keywords[..n + 1][..n] == keywords[..n];
      var words := PrepareWords(lang, keywords[n]);
      newList := newList + words;
    }
    assert keywords[..|keywords|] == keywords;
    forall w ensures multiset(newList)[w] == GroupsWith(lang, keywords, w) {
      KeywordRepeats(lang, keywords, w);
    }
  }

  /** A keyword occurs in the prepared list once for every group that yields it:
      a stem shared by two groups is counted twice by every later hit count. */
  lemma {:induction false} KeywordRepeats(lang: Linguistics, groups: seq<seq<string>>, w: string)
    ensures multiset(NormalizedGroups(lang, groups))[w] == GroupsWith(lang, groups, w)
  {
    if groups != [] {
      var g := groups[|groups| - 1];
      KeywordRepeats(lang, groups[..|groups| - 1], w);
      NormalizedOnce(lang, g, w);
    }
  }

  /** Within one group's normalised list, `w` occurs once if it is a value of the group and never otherwise. */
  lemma NormalizedOnce(lang: Linguistics, items: seq<string>, w: string)
    ensures multiset(Normalized(lang, items))[w] == if w in NormalizedSet(lang, items) then 1 else 0
  {
    var e := Enumerate(NormalizedSet(lang, items));
    MergeSortedCorrect(e);
    assert w in e <==> w in multiset(e);
  }

  /** `compareAbstract`'s count: how many entries of `keywords`, repeats
      included, are among the normalised words `tokens`. */
  function HitCount(keywords: seq<string>, tokens: set<string>): (hits: nat)
    ensures hits <= |keywords|
  {
    if keywords == [] then 0
    else HitCount(keywords[..|keywords| - 1], tokens) + (if keywords[|keywords| - 1] in tokens then 1 else 0)
  }

  /** The count adds up over a split of the keyword list, so a keyword listed
      twice is counted twice. */
  lemma {:induction false} HitCountAppend(a: seq<string>, b: seq<string>, tokens: set<string>)
    ensures HitCount(a + b, tokens) == HitCount(a, tokens) + HitCount(b, tokens)
    decreases |b|
  {
    if b != [] {
      var front := b[..|b| - 1];
      HitCountAppend(a, front, tokens);
      assert (a + b)[..|a + b| - 1] == a + front;
      assert (a + b)[|a + b| - 1] == b[|b| - 1];
    } else {
      assert a + b == a;
    }
  }

  /** The count reaches the length of the keyword list exactly when every
      keyword is among the words, and is 0 exactly when none is. */
  lemma {:induction false} HitCountExtremes(keywords: seq<string>, tokens: set<string>)
    ensures HitCount(keywords, tokens) == |keywords| <==> forall k :: k in keywords ==> k in tokens
    ensures HitCount(keywords, tokens) == 0 <==> forall k :: k in keywords ==> k !in tokens
  {
    if keywords != [] {
      var front := keywords[..|keywords| - 1];
      var last := keywords[|keywords| - 1];
      HitCountExtremes(front, tokens);
      assert keywords == front + [last];
      assert forall k :: k in keywords <==> k in front || k == last;
    }
  }

  /** `compareAbstract(tokens)` over the keyword list `keywords`: normalise the
      tokens with `prepareWords`, then count the keywords binary search finds there. */
  method CompareAbstract(lang: Linguistics, keywords: seq<string>, tokens: seq<string>) returns (cont: nat)
    ensures cont == HitCount(keywords, NormalizedSet(lang, tokens))
  {
    var prepared := PrepareWords(lang, tokens);
    cont := 0;
    for n := 0 to |keywords|
      invariant cont == HitCount(keywords[..n], NormalizedSet(lang, tokens))
    {
      var result := BinarySearch(prepared, 0, |prepared| - 1, keywords[n]);
      SearchIsMembership(prepared, keywords[n]);
      if result != -1 {
        cont := cont + 1;
      }
      assert keywords[..n + 1][..n] == keywords[..n];
    }
    assert keywords[..|keywords|] == keywords;
  }
}
