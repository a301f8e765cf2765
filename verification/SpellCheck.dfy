/** Spell checking a text word by word, and correcting a word by swapping adjacent letters. */
module SpellCheck {

  const MAX_AUTO_CORRECT_WORD_SIZE := 8
  const NUL := '\0'

  datatype Word = Word(text: string, start: nat, length: nat)

  datatype Misspelling = Misspelling(location: nat, length: nat)

  /** The provider and the two word iterators: `accepts` is the JavaScript callback (an answer that is not a
      boolean counts as accepted), `words` and `parts` what the iterators yield. */
  datatype Speller = Speller(hasProvider: bool, accepts: string -> bool, words: string -> seq<Word>,
                             parts: string -> seq<string>)

  predicate WordOk(sp: Speller, word: string) {
    sp.accepts(word) || forall i :: 0 <= i < |sp.parts(word)| ==> sp.accepts(sp.parts(word)[i])
  }

  /** All misspellings, in order. */
  function Misspellings(sp: Speller, words: seq<Word>): seq<Misspelling> {
    if words == [] then []
    else
      var last := words[|words| - 1];
      Misspellings(sp, words[..|words| - 1])
      + if WordOk(sp, last.text) then [] else [Misspelling(last.start, last.length)]
  }

  function AllResults(sp: Speller, text: string): seq<Misspelling> {
    if text == "" || !sp.hasProvider then [] else Misspellings(sp, sp.words(text))
  }

  method IsValidContraction(sp: Speller, word: string) returns (ok: bool)
    ensures ok <==> forall i :: 0 <= i < |sp.parts(word)| ==> sp.accepts(sp.parts(word)[i])
  {
    var parts := sp.parts(word);
    for i := 0 to |parts|
      invariant forall j :: 0 <= j < i ==> sp.accepts(parts[j])
    {
      if !sp.accepts(parts[i]) {
        return false;
      }
    }
    return true;
  }

  /** Stopping at the first result yields the first of all results. */
  method SpellCheckText(sp: Speller, text: string, stopAtFirst: bool) returns (results: seq<Misspelling>)
    ensures text == "" || !sp.hasProvider ==> results == []
    ensures !stopAtFirst ==> results == AllResults(sp, text)
    ensures stopAtFirst ==> results == AllResults(sp, text)[..if AllResults(sp, text) == [] then 0 else 1]
  {
    results := [];
    if text == "" || !sp.hasProvider {
      return;
    }
    var words := sp.words(text);
    for i := 0 to |words|
      invariant results == Misspellings(sp, words[..i])
      invariant stopAtFirst ==> results == []
    {
      assert words[..i + 1][..i] == words[..i];
      if sp.accepts(words[i].text) {
        continue;
      }
      var contraction := IsValidContraction(sp, words[i].text);
      if contraction {
        continue;
      }
      results := results + [Misspelling(words[i].start, words[i].length)];
      if stopAtFirst {
        MisspellingsGrow(sp, words, i + 1);
        return;
      }
    }
    assert words[..|words|] == words;
  }

  lemma {:induction false} MisspellingsGrow(sp: Speller, words: seq<Word>, n: nat)
    requires n <= |words|
    ensures Misspellings(sp, words[..n]) <= Misspellings(sp, words)
    decreases |words| - n
  {
    if n < |words| {
      assert words[..n + 1][..n] == words[..n];
      MisspellingsGrow(sp, words, n + 1);
    } else {
      assert words[..n] == words;
    }
  }

  /** A word that the provider refuses, and with it some part of the word. */
  predicate IsMisspelled(sp: Speller, word: Word) {
    !sp.accepts(word.text) && exists i :: 0 <= i < |sp.parts(word.text)| && !sp.accepts(sp.parts(word.text)[i])
  }

  /** `at` lists, in order, the misspelled words, and the results tell where each starts and how long it is. */
  ghost predicate Reports(sp: Speller, words: seq<Word>, at: seq<nat>, results: seq<Misspelling>) {
    && |results| == |at|
    && (forall i, j :: 0 <= i < j < |at| ==> at[i] < at[j])
    && (forall i :: 0 <= i < |at| ==>
          && at[i] < |words| && IsMisspelled(sp, words[at[i]])
          && results[i].location == words[at[i]].start && results[i].length == words[at[i]].length)
    && (forall k :: 0 <= k < |words| && IsMisspelled(sp, words[k]) ==> k in at)
  }

  lemma {:induction false} AllMisspelledReported(sp: Speller, words: seq<Word>) returns (at: seq<nat>)
    ensures Reports(sp, words, at, Misspellings(sp, words))
    decreases |words|
  {
    if words == [] {
      at := [];
    } else {
      var last := |words| - 1;
      at := AllMisspelledReported(sp, words[..last]);
      ReportOneMore(sp, words, at, Misspellings(sp, words[..last]));
      if IsMisspelled(sp, words[last]) {
        at := at + [last];
      }
    }
  }

  lemma ReportOneMore(sp: Speller, words: seq<Word>, at: seq<nat>, results: seq<Misspelling>)
    requires words != [] && Reports(sp, words[..|words| - 1], at, results)
    ensures var last := |words| - 1;
      if IsMisspelled(sp, words[last]) then
        Reports(sp, words, at + [last], results + [Misspelling(words[last].start, words[last].length)])
      else Reports(sp, words, at, results)
  {
    var last := |words| - 1;
    forall k | 0 <= k < last && IsMisspelled(sp, words[k]) ensures k in at {
      assert words[..last][k] == words[k];
    }
  }

  // ---- Autocorrection

  /** The length spellCheck reports for a text: that of the first misspelling, or zero. */
  function MisspellingLength(sp: Speller, text: string): nat {
    if AllResults(sp, text) == [] then 0 else AllResults(sp, text)[0].length
  }

  function Swap(word: string, i: nat): string
    requires i + 1 < |word|
  {
    word[i := word[i + 1]][i + 1 := word[i]]
  }

  lemma SwapIs(word: string, i: nat, k: nat)
    requires i + 1 < |word| && k < |word|
    ensures |Swap(word, i)| == |word|
    ensures Swap(word, i)[k] == if k == i then word[i + 1] else if k == i + 1 then word[i] else word[k]
  {}

  predicate SwapAccepted(sp: Speller, word: string, i: nat) {
    i + 1 < |word| && MisspellingLength(sp, Swap(word, i)) == 0
  }

  /** What assigning from a NUL-terminated buffer copies. */
  function UpToNul(s: string): string {
    if s == "" || s[0] == NUL then "" else [s[0]] + UpToNul(s[1..])
  }

  lemma {:induction false} UpToNulOfWord(word: string, rest: string)
    requires NUL !in word && rest != "" && rest[0] == NUL
    ensures UpToNul(word + rest) == word
    decreases |word|
  {
    if word != "" {
      assert (word + rest)[1..] == word[1..] + rest;
      UpToNulOfWord(word[1..], rest);
    } else {
      assert word + rest == rest;
    }
  }

  /** After looking at the first `n` swaps: none accepted so far, or one, which is the correction. */
  ghost predicate Collected(sp: Speller, word: string, n: nat, correction: string) {
    if correction == "" then forall j: nat :: j < n ==> !SwapAccepted(sp, word, j)
    else exists k: nat :: OnlyAccepted(sp, word, n, k) && correction == Swap(word, k)
  }

  ghost predicate OnlyAccepted(sp: Speller, word: string, n: nat, k: nat) {
    k < n && SwapAccepted(sp, word, k) && forall j: nat :: j < n && SwapAccepted(sp, word, j) ==> j == k
  }

  /** Of all the adjacent swaps of `word`, the one at `k` alone is accepted. */
  ghost predicate OnlySwapAccepted(sp: Speller, word: string, k: nat) {
    SwapAccepted(sp, word, k) && forall j: nat :: SwapAccepted(sp, word, j) ==> j == k
  }

  lemma CollectMore(sp: Speller, word: string, n: nat, correction: string)
    requires Collected(sp, word, n, correction) && n + 1 < |word|
    ensures !SwapAccepted(sp, word, n) ==> Collected(sp, word, n + 1, correction)
    ensures SwapAccepted(sp, word, n) && correction == "" ==> Collected(sp, word, n + 1, Swap(word, n))
    ensures SwapAccepted(sp, word, n) && correction != "" ==> forall k: nat :: !OnlySwapAccepted(sp, word, k)
  {
    if correction == "" {
      assert SwapAccepted(sp, word, n) ==> OnlyAccepted(sp, word, n + 1, n);
    } else {
      var k: nat :| OnlyAccepted(sp, word, n, k) && correction == Swap(word, k);
      assert !SwapAccepted(sp, word, n) ==> OnlyAccepted(sp, word, n + 1, k);
    }
  }

  /** A correction is offered exactly when one adjacent swap, and only one, is accepted, and then it is that
      swap. Words that are too short or too long get none. */
  method GetAutoCorrectionWord(sp: Speller, word: string) returns (correction: string)
    ensures |word| < 2 || |word| > 8 ==> correction == ""
    ensures NUL !in word && 2 <= |word| <= 8 ==>
              (correction != "" <==> exists k: nat :: OnlySwapAccepted(sp, word, k))
    ensures NUL !in word && correction != "" ==>
              exists k: nat :: OnlySwapAccepted(sp, word, k) && correction == Swap(word, k)
  {
    correction := "";
    var n := |word|;
    if n < 2 || n > MAX_AUTO_CORRECT_WORD_SIZE {
      return;
    }
    var buffer := new char[MAX_AUTO_CORRECT_WORD_SIZE + 1](k => NUL);
    for k := 0 to MAX_AUTO_CORRECT_WORD_SIZE + 1
      invariant forall m :: 0 <= m < k ==> buffer[m] == if m < n then word[m] else NUL
    {
      buffer[k] := if k >= n then NUL else word[k];
    }
    for i := 0 to n - 1
      invariant buffer[..n] == word && forall m :: n <= m < buffer.Length ==> buffer[m] == NUL
      invariant NUL !in word ==> Collected(sp, word, i, correction)
    {
      if NUL !in word {
        CollectMore(sp, word, i, correction);
      }
      buffer[i], buffer[i + 1] := buffer[i + 1], buffer[i];
      assert buffer[..n] == Swap(word, i);
      var results := SpellCheckText(sp, buffer[..n], true);
      var length := if |results| == 1 then results[0].length else 0;
      assert length == 0 <==> SwapAccepted(sp, word, i);
      if length == 0 {
        if correction == "" {
          correction := UpToNul(buffer[..]);
          if NUL !in word {
            assert buffer[..] == Swap(word, i) + buffer[n..];
            UpToNulOfWord(Swap(word, i), buffer[n..]);
          }
        } else {
          correction := "";
          break;
        }
      }
      buffer[i], buffer[i + 1] := buffer[i + 1], buffer[i];
    }
    if NUL !in word && correction != "" {
      ghost var k: nat :| OnlyAccepted(sp, word, n - 1, k) && correction == Swap(word, k);
      assert OnlySwapAccepted(sp, word, k);
    }
  }
}
