# Anagram puzzle engine, modelled in Dafny

`anagrams.dfy` models the `AnagramMaster` class of `anagrams.py`. It is a small
word-puzzle engine. It holds a fixed dictionary (`words`), selects a word of a
requested length, shuffles its letters into a puzzle, and can corrupt the puzzle
so that it is no longer a dictionary word. It also checks answers: an answer is
correct when it is a dictionary word with the same letters as the puzzle.

The random draws of the original are arbitrary choices in the model:

- `choice` over the candidate words or over the alphabet is an arbitrary element.
- `randint` is an arbitrary integer in its inclusive range.
- `shuffle` is a Fisher-Yates pass with an arbitrary swap partner at each step.

Every contract therefore holds for every possible outcome of the draws. The
replacement draws of one corruption pass are reported as a ghost trace of
`Pick`s. The pass's result is tied to the pure function `Overwrite`, which
applies those draws in order. `Overwrite` fails with `IndexOutOfRange` where
the Python list assignment would raise `IndexError`.

State follows the source:

- `words` is a `const` field, because it is set once in the constructor.
- `currentWord` is a mutable field that `SelectWord` assigns.
- The letter table is built in a loop, `CountLetters`.
- Each corruption pass overwrites slots of an array copy of the input, `ReplaceLetters`.

## Model

| member | source | states |
|---|---|---|
| `Anagrams.AnagramMaster.constructor` | anagrams.py:19-24 | the dictionary is the set of the given words (duplicates collapse), and no word is selected yet |
| `Anagrams.AnagramMaster.CountLetters` | anagrams.py:52-65 | the table has a key for exactly the letters that occur, and each key holds its occurrence count plus one |
| `Anagrams.LetterCountsSnoc` | anagrams.py:59-61 | one loop step: appending a letter creates its entry at 1 if new, then increments only that entry |
| `Anagrams.LetterCountsEqualIffPermutation` | anagrams.py:47-50 | two letter tables are equal if and only if the two inputs have the same letter multiset; the plus-one shift cancels out |
| `Anagrams.AnagramMaster.IsCorrect` | anagrams.py:36-50 | a non-dictionary answer is rejected; otherwise the answer is correct exactly when its letter multiset equals the anagram's; the selected word plays no part |
| `Anagrams.AnagramMaster.SelectWord` | anagrams.py:90-96 | succeeds if and only if some dictionary word has the requested length; the result is such a word and becomes `currentWord`; with no candidate it fails with NoWordOfLength and leaves `currentWord` unchanged |
| `Anagrams.Shuffle` | anagrams.py:31 | the shuffled array holds the same multiset of letters as before |
| `Anagrams.AnagramMaster.ReplaceLetters` | anagrams.py:73-82 | one pass makes `len(word) / 5` draws, with indexes in `[0, hi]` and letters from the alphabet, and returns what `Overwrite` gives for them; on success the length is kept, at most `len(word) / 5` slots change and each changed slot holds an alphabet letter; indexes below the length never fail; words shorter than 5 come back unchanged |
| `Anagrams.OverwriteAppend` | anagrams.py:78-80 | applying one more draw after a successful prefix equals applying it to the prefix's result |
| `Anagrams.OverwriteCorrupts` | anagrams.py:76-82 | a successful run of n alphabet draws keeps the length and changes at most n slots, each to an alphabet letter |
| `Anagrams.InRangeDrawsSucceed` | anagrams.py:79-80 | draws whose indexes are all below the length never fail |
| `Anagrams.AsWrittenDrawCanOverrun` | anagrams.py:79-80 | for any word of length at least 5, `randint(0, len(word))` may draw `len(word)`, and writing that slot fails with IndexOutOfRange |
| `Anagrams.FrogsOverrun` | anagrams.py:76-80 | "frogs" gets one replacement, and the draw 5 allowed by `randint(0, 5)` fails |
| `Anagrams.AnagramMaster.MakeUnsolvable` | anagrams.py:67-88 | a returned result is never, as a string, a dictionary word; it differs from the input in at most `len(word) / 5` slots, each now an alphabet letter; every retry restarts from the input; the only failure is running out of retries; an input shorter than 5 comes back unchanged, or runs out of retries if it is itself a dictionary word |
| `Anagrams.AnagramMaster.MakeUnsolvableAsWritten` | anagrams.py:67-88 | the retry loop with indexes from `randint(0, len(word))`. A returned result is never, as a string, a dictionary word. It differs from the input in at most `len(word) / 5` slots, each now an alphabet letter. It fails by running out of retries, or, for an input of length at least 5, with IndexOutOfRange. An input shorter than 5 comes back unchanged, or runs out of retries if it is itself a dictionary word |
| `Anagrams.AnagramMaster.GenerateAnagramWithDifficulty` | anagrams.py:26-34 | fails with NoWordOfLength if and only if no word has length `difficulty`, and then leaves `currentWord` unchanged. Otherwise, on success and on every other failure, `currentWord` is a dictionary word of that length and the shuffled puzzle is a permutation of it. Without `unsolvable`, the call succeeds, the result is that permutation and `currentWord` solves it. With `unsolvable`, corruption is the as-written retry loop. It can fail by running out of retries, or with IndexOutOfRange when `difficulty` is at least 5. A result is not a dictionary word and differs from the permutation in at most `difficulty / 5` slots. For difficulty below 5, `currentWord` still solves it |

## Left out

- Loading the dictionary is not part of this model: the module-level `open` of the word file, `read_words` and the `__main__` block. These are file I/O.
- Only the possible outcomes of `choice`, `randint` and `shuffle` are modelled, not their probabilities.
- `Anagrams.Shuffle`: states only that the result is a permutation. It does not state that every ordering is reachable or equally likely.
- `Anagrams.AnagramMaster.MakeUnsolvable`: each retry is a nested call with no bound of its own. It ends only when the interpreter's recursion limit raises its error, after about 1000 nested calls under CPython's default. This always happens for an input shorter than 5 that is itself a dictionary word. The model stands for that limit with `fuel`, and `RetriesExhausted` stands for that error. The exact default limit is not modelled.
- `Anagrams.AnagramMaster.MakeUnsolvableAsWritten`: bounded by `fuel` in the same way.
- The default arguments `difficulty=1` and `unsolvable=False` of `generate_anagram_with_difficulty` are not modelled. `GenerateAnagramWithDifficulty` always takes both explicitly.
- `len(word) / 5` is floor division, as under Python 2. Under Python 3 it would be a float, and `range` would reject it.
- The solvable path returns a list and the unsolvable path returns a string. Both are `seq<char>` here.
- `Anagrams.AnagramMaster.IsCorrect`: the answer is a character sequence, so `''.join(answer)` is the answer itself. A list whose elements are multi-character strings is not modelled.
- The set of tuples that `_count_letters` builds and then discards does not affect the result, so it is not modelled.
- `AnagramMaster()` with the default `words=None` raises `TypeError` in `set(None)`. It is not modelled: the constructor takes a sequence of words.
- Three alternative behaviours are deliberately not modelled. The model keeps the code's behaviour instead:
  - It allows zero replacements for words shorter than 5, instead of always replacing at least one letter.
  - It checks unsolvability by exact string membership, not by letter multiset.
  - It stores the selected word in `currentWord`, instead of returning it alongside the puzzle.

  `GenerateAnagramWithDifficulty` proves what the code actually gives for short words: an "unsolvable" puzzle of length below 5 is still solved by the selected word.

## Findings

| source | as written | input that shows it | evidently intended | confidence | as-written member | corrected member |
|---|---|---|---|---|---|---|
| anagrams.py:79-80 | `randint(0, len(word))` includes `len(word)`, and `chars[len(word)] = ...` then raises `IndexError` | any word of length at least 5, e.g. "frogs" with the draw 5 | draw indexes in `[0, len(word) - 1]`, so every pass succeeds | high; follows from the documented inclusive bound of `randint` (not executed) | `Anagrams.AnagramMaster.MakeUnsolvableAsWritten`, shown by `Anagrams.AsWrittenDrawCanOverrun` and `Anagrams.FrogsOverrun` | `Anagrams.AnagramMaster.MakeUnsolvable` (never IndexOutOfRange, by `Anagrams.InRangeDrawsSucceed`); `GenerateAnagramWithDifficulty` keeps the as-written call so that it matches the source |
