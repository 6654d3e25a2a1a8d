/** A word-puzzle engine: it picks a dictionary word of a given length,
    scrambles its letters, optionally corrupts a few of them so that the
    puzzle has no solution, and checks answers against the dictionary and
    the puzzle's letter multiset.

    The random draws of the original (`choice`, `shuffle`, `randint`) are
    arbitrary choices here (`:|`), so every contract holds for every
    possible outcome of the draws. */
module Anagrams {

  datatype Option<+T> = None | Some(value: T)

  datatype Result<+T> = Success(value: T) | Failure(error: Error)

  /** The ways an operation can end without a result. */
  datatype Error =
    | NoWordOfLength     // `choice` on an empty list of candidates
    | IndexOutOfRange    // assignment to a list slot past its end
    | RetriesExhausted   // the corruption retry budget ran out

  /** The alphabet that replacement letters are drawn from. */
  const Letters: seq<char> := "abcdefghijklmnopqrstuvwxyz"

  // ---------------------------------------------------------------------
  // Letter counting
  // ---------------------------------------------------------------------

  /** The letter table the original builds: one key per letter that occurs,
      holding its number of occurrences PLUS ONE (every entry starts at 1
      and is then incremented), and no key for absent letters. */
  ghost function LetterCounts(s: seq<char>): map<char, int>
  {
    map c | c in s :: multiset(s)[c] + 1
  }

  /** Appending one letter bumps exactly that letter's entry, creating it at 1
      first when it is new; this is one step of the counting loop. */
  lemma LetterCountsSnoc(s: seq<char>, l: char)
    ensures LetterCounts(s + [l]) ==
            LetterCounts(s)[l := (if l in LetterCounts(s) then LetterCounts(s)[l] else 1) + 1]
  {
  }

  /** Two letter tables are equal exactly when the two inputs are
      permutations of each other: the "+1" shift does not matter, because
      it is applied on both sides and only to letters that occur. */
  lemma LetterCountsEqualIffPermutation(a: seq<char>, b: seq<char>)
    ensures LetterCounts(a) == LetterCounts(b) <==> multiset(a) == multiset(b)
  {
    var ma, mb := LetterCounts(a), LetterCounts(b);
    if ma == mb {
      forall c ensures multiset(a)[c] == multiset(b)[c] {
        if c in a {
          assert c in ma;
          assert ma[c] == multiset(a)[c] + 1;
        } else {
          assert c !in ma && c !in mb;
        }
      }
    }
    if multiset(a) == multiset(b) {
      forall c ensures c in a <==> c in b {
        assert c in a <==> c in multiset(a);
        assert c in b <==> c in multiset(b);
      }
    }
  }

  // ---------------------------------------------------------------------
  // Corruption draws
  // ---------------------------------------------------------------------

  /** One replacement draw: a slot index and the letter written there. */
  datatype Pick = Pick(index: nat, letter: char)

  /** Every draw could have come from `randint(0, hi)` and `choice(Letters)`. */
  ghost predicate Drawn(picks: seq<Pick>, hi: int)
  {
    forall k :: 0 <= k < |picks| ==> picks[k].index <= hi && picks[k].letter in Letters
  }

  /** Applies the draws in order to a copy of `chars`, as a list assignment
      would: a slot index past the end stops with IndexOutOfRange. */
  function Overwrite(chars: seq<char>, picks: seq<Pick>): Result<seq<char>>
    decreases |picks|
  {
    if picks == [] then Success(chars)
    else if picks[0].index >= |chars| then Failure(IndexOutOfRange)
    else Overwrite(chars[picks[0].index := picks[0].letter], picks[1..])
  }

  /** The positions at which `s` differs from `original`. */
  ghost function Changed(original: seq<char>, s: seq<char>): set<nat>
    requires |s| == |original|
  {
    set k: nat | k < |s| && s[k] != original[k]
  }

  /** `s` is `original` with at most `budget` slots overwritten, each by a
      letter of the alphabet. */
  ghost predicate Corrupted(original: seq<char>, s: seq<char>, budget: nat)
  {
    && |s| == |original|
    && |Changed(original, s)| <= budget
    && forall k :: k in Changed(original, s) ==> s[k] in Letters
  }

  lemma SubsetCardinality(a: set<nat>, b: set<nat>)
    requires a <= b
    ensures |a| <= |b|
  {
    assert b == a + (b - a);
  }

  /** Applying one more draw after a successful prefix is the same as
      applying the prefix and then that draw. */
  lemma {:induction false} OverwriteAppend(chars: seq<char>, picks: seq<Pick>, p: Pick)
    requires Overwrite(chars, picks).Success?
    ensures Overwrite(chars, picks + [p]) == Overwrite(Overwrite(chars, picks).value, [p])
    decreases |picks|
  {
    if picks != [] {
      assert (picks + [p])[0] == picks[0];
      assert (picks + [p])[1..] == picks[1..] + [p];
      OverwriteAppend(chars[picks[0].index := picks[0].letter], picks[1..], p);
    }
  }

  /** A successful run of `n` draws keeps the length, changes at most `n`
      slots, and every changed slot holds a letter of the alphabet. */
  lemma {:induction false} OverwriteCorrupts(chars: seq<char>, picks: seq<Pick>, hi: int)
    requires Drawn(picks, hi)
    requires Overwrite(chars, picks).Success?
    ensures Corrupted(chars, Overwrite(chars, picks).value, |picks|)
    decreases |picks|
  {
    var s := Overwrite(chars, picks).value;
    if picks != [] {
      var i, c := picks[0].index, picks[0].letter;
      var next := chars[i := c];
      assert Drawn(picks[1..], hi) by {
        forall k | 0 <= k < |picks[1..]| ensures picks[1..][k].index <= hi && picks[1..][k].letter in Letters {
          assert picks[1..][k] == picks[k + 1];
        }
      }
      assert picks[0].index <= hi && c in Letters;
      OverwriteCorrupts(next, picks[1..], hi);
      assert Changed(chars, s) <= Changed(next, s) + {i};
      SubsetCardinality(Changed(chars, s), Changed(next, s) + {i});
      forall k | k in Changed(chars, s) ensures s[k] in Letters {
        if k !in Changed(next, s) {
          assert k == i;
        }
      }
    } else {
      assert Changed(chars, s) == {};
    }
  }

  /** Draws whose indexes all lie inside the word never fail. */
  lemma {:induction false} InRangeDrawsSucceed(chars: seq<char>, picks: seq<Pick>)
    requires forall k :: 0 <= k < |picks| ==> picks[k].index < |chars|
    ensures Overwrite(chars, picks).Success?
    decreases |picks|
  {
    if picks != [] {
      var next := chars[picks[0].index := picks[0].letter];
      forall k | 0 <= k < |picks[1..]| ensures picks[1..][k].index < |next| {
        assert picks[1..][k] == picks[k + 1];
      }
      InRangeDrawsSucceed(next, picks[1..]);
    }
  }

  /** `randint(0, len(word))` includes `len(word)`: for every word long
      enough to get a replacement, the first draw may be the slot one past
      the end, and writing there fails. */
  lemma AsWrittenDrawCanOverrun(word: seq<char>)
    requires |word| >= 5
    ensures Drawn([Pick(|word|, 'a')], |word|)
    ensures Overwrite(word, [Pick(|word|, 'a')]) == Failure(IndexOutOfRange)
  {
  }

  /** A concrete instance: "frogs" gets one replacement, and the draw 5 is
      allowed by `randint(0, 5)` but is not a slot of the list. */
  lemma FrogsOverrun()
    ensures |"frogs"| / 5 == 1 && Drawn([Pick(5, 'x')], |"frogs"|)
    ensures Overwrite("frogs", [Pick(5, 'x')]) == Failure(IndexOutOfRange)
  {
  }

  // ---------------------------------------------------------------------
  // Selection and answers
  // ---------------------------------------------------------------------

  /** The dictionary words of exactly length `n`. */
  function WordsOfLength(words: set<string>, n: int): set<string>
  {
    set w | w in words && |w| == n
  }

  /** `answer` solves `anagram`: it is a dictionary word made of exactly the
      anagram's letters. Which word was selected plays no part. */
  predicate Solves(words: set<string>, anagram: seq<char>, answer: seq<char>)
  {
    answer in words && multiset(answer) == multiset(anagram)
  }

  /** Rearranges `a` in place into an arbitrary order (Fisher-Yates with an
      arbitrary swap partner at each step). */
  method Shuffle(a: array<char>)
    modifies a
    ensures multiset(a[..]) == multiset(old(a[..]))
  {
    var i := a.Length;
    while i > 1
      invariant 0 <= i <= a.Length
      invariant multiset(a[..]) == multiset(old(a[..]))
    {
      i := i - 1;
      var j :| 0 <= j <= i;
      a[i], a[j] := a[j], a[i];
    }
  }

  class AnagramMaster {
    /** The dictionary; fixed once constructed. */
    const words: set<string>
    /** The word most recently selected, if any. */
    var currentWord: Option<string>

    constructor (ws: seq<string>)
      ensures words == set w | w in ws
      ensures currentWord == None
    {
      words := set w | w in ws;
      currentWord := None;
    }

    /** Builds the letter table of `word` one letter at a time. */
    method CountLetters(word: seq<char>) returns (counts: map<char, int>)
      ensures forall c :: c in counts <==> c in word
      ensures forall c :: c in counts ==> counts[c] == multiset(word)[c] + 1
      ensures counts == LetterCounts(word)
    {
      counts := map[];
      for i := 0 to |word|
        invariant counts == LetterCounts(word[..i])
      {
        var l := word[i];
        LetterCountsSnoc(word[..i], l);
        assert word[..i + 1] == word[..i] + [l];
        if l !in counts {
          counts := counts[l := 1];
        }
        counts := counts[l := counts[l] + 1];
      }
      assert word[..|word|] == word;
    }

    /** An answer is correct exactly when it is a dictionary word with the
        anagram's letter multiset; a non-word is rejected before the
        anagram is looked at. */
    method IsCorrect(anagram: seq<char>, answer: seq<char>) returns (correct: bool)
      ensures answer !in words ==> !correct
      ensures correct <==> Solves(words, anagram, answer)
    {
      if answer !in words {
        return false;
      }
      var countAnagram := CountLetters(anagram);
      var countAnswer := CountLetters(answer);
      LetterCountsEqualIffPermutation(anagram, answer);
      correct := countAnagram == countAnswer;
    }

    /** Picks an arbitrary dictionary word of length `wordLength` and
        remembers it; with no such word it fails and changes nothing. */
    method SelectWord(wordLength: int) returns (r: Result<string>)
      modifies this`currentWord
      ensures r.Success? <==> WordsOfLength(words, wordLength) != {}
      ensures r.Success? ==> r.value in words && |r.value| == wordLength
      ensures r.Success? ==> currentWord == Some(r.value)
      ensures r.Failure? ==> r.error == NoWordOfLength && currentWord == old(currentWord)
    {
      var wordsOfLen := WordsOfLength(words, wordLength);
      if wordsOfLen == {} {
        return Failure(NoWordOfLength);
      }
      var w :| w in wordsOfLen;
      currentWord := Some(w);
      r := Success(w);
    }

    /** One corruption pass: overwrites `len(word) / 5` slots of a copy of
        `word`, each at an index drawn from `randint(0, hi)`, with a letter
        drawn from the alphabet. `picks` records the draws made. */
    method ReplaceLetters(word: seq<char>, hi: int) returns (r: Result<seq<char>>, ghost picks: seq<Pick>)
      requires hi >= |word| - 1
      ensures Drawn(picks, hi) && r == Overwrite(word, picks)
      ensures r.Success? ==> |picks| == |word| / 5
      ensures r.Success? ==> Corrupted(word, r.value, |word| / 5)
      ensures r.Failure? ==> r.error == IndexOutOfRange
      ensures hi < |word| ==> r.Success?
      ensures |word| < 5 ==> r == Success(word)
    {
      var chars := new char[|word|](k requires 0 <= k < |word| => word[k]);
      var numOfChars := |word| / 5;
      picks := [];
      assert chars[..] == word;
      for i := 0 to numOfChars
        invariant |picks| == i && Drawn(picks, hi)
        invariant Overwrite(word, picks) == Success(chars[..])
        invariant hi < |word| ==> forall k :: 0 <= k < i ==> picks[k].index < |word|
      {
        var index :| 0 <= index <= hi;
        assert Letters[0] in Letters;
        var letter :| letter in Letters;
        OverwriteAppend(word, picks, Pick(index, letter));
        picks := picks + [Pick(index, letter)];
        if index >= chars.Length {
          return Failure(IndexOutOfRange), picks;
        }
        chars[index] := letter;
      }
      r := Success(chars[..]);
      OverwriteCorrupts(word, picks, hi);
      if hi < |word| {
        InRangeDrawsSucceed(word, picks);
      }
    }

    /** Corrupts `word` until the result is not (as a string) a dictionary
        word, restarting every attempt from the original `word`. Each retry
        is a nested call, so `fuel` stands for the interpreter's recursion
        limit and RetriesExhausted for the error raised when it is reached.
        Indexes are drawn from `randint(0, len(word) - 1)`. */
    method MakeUnsolvable(word: seq<char>, fuel: nat) returns (r: Result<seq<char>>)
      ensures r.Success? ==> r.value !in words && Corrupted(word, r.value, |word| / 5)
      ensures r.Failure? ==> r.error == RetriesExhausted
      ensures |word| < 5 ==> r == if word in words then Failure(RetriesExhausted) else Success(word)
      decreases fuel
    {
      var attempt, picks := ReplaceLetters(word, |word| - 1);
      var result := attempt.value;
      if result in words {
        if fuel == 0 {
          return Failure(RetriesExhausted);
        }
        r := MakeUnsolvable(word, fuel - 1);
      } else {
        r := Success(result);
      }
    }

    /** The retry loop exactly as the original draws its indexes, from
        `randint(0, len(word))`: besides running out of retries it can stop
        with IndexOutOfRange (see AsWrittenDrawCanOverrun). */
    method MakeUnsolvableAsWritten(word: seq<char>, fuel: nat) returns (r: Result<seq<char>>)
      ensures r.Success? ==> r.value !in words && Corrupted(word, r.value, |word| / 5)
      ensures r.Failure? ==> r.error == RetriesExhausted || (r.error == IndexOutOfRange && |word| >= 5)
      ensures |word| < 5 ==> r == if word in words then Failure(RetriesExhausted) else Success(word)
      decreases fuel
    {
      var attempt, picks := ReplaceLetters(word, |word|);
      if attempt.Failure? {
        return attempt;
      }
      var result := attempt.value;
      if result in words {
        if fuel == 0 {
          return Failure(RetriesExhausted);
        }
        r := MakeUnsolvableAsWritten(word, fuel - 1);
      } else {
        r := Success(result);
      }
    }

    /** Selects a word of length `difficulty`, shuffles its letters and,
        when `unsolvable` is set, corrupts them with the retry loop as the
        original writes it, so an unsolvable puzzle of length 5 or more can
        stop with IndexOutOfRange. `shuffled` is the puzzle before
        corruption. */
    method GenerateAnagramWithDifficulty(difficulty: int, unsolvable: bool, fuel: nat)
      returns (r: Result<seq<char>>, ghost shuffled: seq<char>)
      modifies this`currentWord
      ensures r.Failure? && r.error == NoWordOfLength <==> WordsOfLength(words, difficulty) == {}
      ensures r.Failure? ==> || r.error == NoWordOfLength
                             || (unsolvable && r.error == RetriesExhausted)
                             || (unsolvable && r.error == IndexOutOfRange && difficulty >= 5)
      ensures r.Failure? && r.error == NoWordOfLength ==> currentWord == old(currentWord)
      ensures r.Success? || r.error != NoWordOfLength ==>
                currentWord.Some? && currentWord.value in words && |currentWord.value| == difficulty
      ensures r.Success? || r.error != NoWordOfLength ==> multiset(shuffled) == multiset(currentWord.value)
      ensures r.Success? && !unsolvable ==> r.value == shuffled && Solves(words, r.value, currentWord.value)
      ensures r.Success? && unsolvable ==> r.value !in words && Corrupted(shuffled, r.value, difficulty / 5)
      ensures r.Success? && unsolvable && difficulty < 5 ==> Solves(words, r.value, currentWord.value)
    {
      var selected := SelectWord(difficulty);
      if selected.Failure? {
        return Failure(NoWordOfLength), [];
      }
      var word := selected.value;
      var result := new char[|word|](k requires 0 <= k < |word| => word[k]);
      assert result[..] == word;
      Shuffle(result);
      shuffled := result[..];
      if unsolvable {
        r := MakeUnsolvableAsWritten(result[..], fuel);
      } else {
        r := Success(result[..]);
      }
    }
  }
}
