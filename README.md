# Forced alignment for Mandarin: the text side, in Dafny

This project models the text processing of a Mandarin forced-alignment
toolkit. The toolkit prepares transcripts for an aligner and builds its
pronunciation dictionary. Three scripts are modelled, each as its own module.

- `utils.dfy` (module `Utils`) models `utils.py`:
  - `process_text` removes `#<digits>` prosody tags and punctuation;
  - `process_hanzi` groups a character with a following `儿` unless that
    character is `虐` or `二`;
  - `process_pinyin` merges a syllable with a following `er…` syllable when
    the aligned hanzi ends in `儿`, and can drop tones;
  - the per-line logic of the AISHELL-3 and Biaobei processors;
  - `get_processor`.
- `preprocess.dfy` (module `Preprocess`) models `preprocess.py`, the legacy
  AISHELL-3 script:
  - it splits `content.txt` lines into hanzi and pinyin;
  - it applies the manual transcript fixes;
  - it replaces traditional and rare characters;
  - it splits erhua tokens (`dianr3` becomes `dian3 r5`);
  - it derives each utterance's id and speaker;
  - it assembles the `.lab` text.
- `create_dictionary.dfy` (module `CreateDictionary`) models
  `create_dictionary.py`:
  - `pinyin_to_ipa_erhua` rhotacizes the candidate phone lists of a syllable
    through an ordered suffix table;
  - `is_erhua` decides which syllables take that route;
  - `main` collects the syllables of the corpus, gathers, deduplicates and
    sorts the entries, and writes them with the `yo` correction.
- Two helper modules support them:
  - `builtins.dfy` (`Builtins`) holds the Python behaviour the scripts rely on:
    `split`, `join`, `strip`, stepped and negative slices, `zip`, `replace`,
    and exceptions as `Result` values;
  - `order.dfy` (`Order`) holds Python's ordering of strings and of
    `(str, str)` tuples, and `sorted(set(...))`.

The loops that compute values are methods with loops: the per-line loops
of the processors, `process_hanzi`, `process_pinyin`, the loops of
`get_sentences`, the concatenation of one `.lab` text and the dictionary
loops. Each `ensures` ties the result to a recursive function, and lemmas
prove the properties of that function. Two loops take a different form:
- the `for folder in ["train", "test"]` loop of the AISHELL-3 processor and
  of `get_sentences` is written out as two calls of the folder method;
- the loop of `main` in preprocess.py over all utterances is not modelled,
  because each iteration only writes a file. The text each iteration writes
  is `LabText`.

## How the model follows the code

- An erhua rime replaces two phones or one. The model decides by membership
  of the matched key in the `strip_two` list, as the code does. It does not
  look at the phones themselves.
- Exactly one element is appended after a match. When no key matches, the
  candidate is kept unchanged and no error is raised.
- The `yo` correction is made while the file is written, after sorting.
- Python exceptions are returned as `Err` values:
  - a line without exactly two tab-separated fields raises `ValueError`;
  - a pinyin token too short for the `[-2]` index raises `IndexError`;
  - the length assertion of `get_sentences` raises `AssertionError`.
- `create_dictionary.py` reads its utterances from `get_sentences` in
  `preprocess.py`. In that script every corpus token keeps its tone digit,
  and an erhua token becomes `dian3 r5`, which still ends in a digit. So a
  toned corpus never reaches the erhua branch (`TonedTokenNotErhua`).
- `utils.py` does not import `preprocess.py`: `Aishell3Processor` keeps its
  own class-level copies of `REPLACE_HANZI` and `MANUAL_FIXES`
  (utils.py:74-106), and its `.get(h, h)` lookup replaces exactly as the
  `if h in REPLACE_HANZI` loop of `get_sentences` does. The copies are
  identical, so the `Utils` module reuses the line parsing and the tables of
  the `Preprocess` module instead of declaring them twice; this import has
  no counterpart in the program.
- The suffix table is kept in its declared order. `aor` comes before `iaor`,
  so no syllable ever selects `iaor` (`IaorShadowed`, `IaorNeverMatches`).

## Model

| member | source | states |
|---|---|---|
| `Utils.ProcessText` | utils.py:18-23 | no character of the result is punctuation, the result is an in-order subsequence of the input, and a transcript without punctuation is returned unchanged |
| `Utils.ProcessTextStep` | utils.py:22-23 | a first character that does not start a `#`+digits tag is kept exactly when it is not punctuation, and the rest is processed on its own |
| `Utils.ProcessTextRemovesTag` | utils.py:22 | `StripTags` as used by `ProcessText`: a `#` followed by one or more digits is removed completely, and the text on either side is processed independently |
| `Utils.ProcessTextIdempotent` | utils.py:18-23 | processing already processed text changes nothing |
| `Utils.HanziGroupsPartition` | utils.py:56-70 | `HanziGroups` (the grouping of `process_hanzi`): concatenating the groups gives back the input, and every group is one character or a character (not `虐` or `二`) followed by `儿` |
| `Utils.HanziGroupsGreedy` | utils.py:60-66 | a `儿` is never left as a group of its own after a character that could take it |
| `Utils.HanziGroupsUnique` | utils.py:56-70 | any grouping that partitions the input into valid groups and is greedy equals the computed one |
| `Utils.ProcessHanzi` | utils.py:56-70 | the while loop computes exactly the greedy grouping |
| `Utils.ProcessPinyin` | utils.py:26-53 | the index-driven loop computes `PinyinFrom`, the recursive definition, including the `IndexError` of a one-letter word before an `er` syllable whose hanzi group ends in 儿 |
| `Utils.PinyinLoop` | utils.py:34-52 | the `while` loop over the whitespace-split words, with `hanzi_index` counting the syllables emitted, computes `PinyinFrom` from word 0 and group 0 |
| `Utils.PinyinLength` | utils.py:34-52 | one output per iteration, each consuming one or two words: the output is at most as long as the word list and at least half of it |
| `Utils.PinyinWithoutEr` | utils.py:37-51 | when no later word starts with `er`, `append_er` never holds, so nothing merges and nothing fails: there is one output per word, the word without its tone or the word itself |
| `Utils.PinyinTotal` | utils.py:42 | words of at least two characters never raise |
| `Utils.PinyinAlignment` | utils.py:34-52 | the j-th output is built from the word at the j-th start position and the j-th hanzi; starts advance by the width of each step and cover all words |
| `Utils.Aishell3LineAligned` | utils.py:115-136 | `Aishell3Line` (one line of `process`): a line without two fields raises `ValueError`; an error of `process_pinyin` is passed on; a length mismatch between processed pinyin and hanzi skips the line without failing; equal lengths always yield it, with the word pairs lined up one to one, the id `wav[:-4]`, the speaker `wav[:-8]` (a prefix of the id) and the path `<folder>/wav/<speaker>` |
| `Utils.Aishell3UtteranceAligned` | utils.py:126-135 | `Aishell3Utterance` (the dictionary `process` yields for a wav name): the error is passed on, a count mismatch skips, and otherwise the pairs line up, the id is `wav[:-4]`, the speaker `wav[:-8]` and the path the speaker's folder under `wav` |
| `Utils.BiaobeiPairAligned` | utils.py:240-259 | `BiaobeiPair` (one pair of lines of `process`): the same four cases for a Biaobei line pair, with the fixed pinyin for the one known transcript, the id from the first field, the path `Wave` and the speaker `0` |
| `Utils.CollectSpec` | utils.py:126-136 | `Collect` (what a folder's generator yields): skipped lines are not fatal; the run fails only when a line raises, with the first error; otherwise it yields at most one utterance per line, and an utterance is yielded exactly when some line yields it |
| `Utils.CollectOrder` | utils.py:126-136 | a run that succeeds yields the utterances at strictly increasing line positions, and those positions are exactly the lines not skipped: line order, each line once |
| `Utils.Aishell3Folder` | utils.py:114-136 | the loop over one folder yields the collected outcomes of its lines |
| `Utils.Aishell3Process` | utils.py:111-136 | the `train` folder, then the `test` folder |
| `Utils.BiaobeiProcess` | utils.py:236-259 | the loop over line pairs, stopping at an unpaired last line, yields the collected outcomes of the pairs |
| `Utils.GetProcessor` | utils.py:262-268 | `biaobei` and `aishell3` select their processors, and every other name selects the general one |
| `Preprocess.ReplaceHanziOnce` | preprocess.py:10-35 | a listed character is always changed, and replacing twice is the same as replacing once |
| `Preprocess.ReplaceHanziTokens` | preprocess.py:55-59 | the loop replaces listed tokens and keeps every other token, with count and order preserved |
| `Preprocess.SplitErhuaTokenInverse` | preprocess.py:62-67 | `SplitErhuaToken`: an erhua token is split into base-with-tone plus ` r5` and can be joined back; every other token is kept |
| `Preprocess.SplitErhuaTokenExamples` | preprocess.py:63-65 | `dianr3` becomes `dian3 r5`; `er2`, `r5` and `ta1` are kept |
| `Preprocess.SplitErhuaAll` | preprocess.py:61-67 | one processed token per token, or `IndexError` exactly when some token is shorter than two characters |
| `Preprocess.SplitErhuaTokens` | preprocess.py:61-67 | the loop computes exactly that |
| `Preprocess.SpeakerOf` | preprocess.py:73-74 | the speaker is the id minus its last four characters, a prefix of the id, and empty for an id shorter than four |
| `Preprocess.IdOfWavName` | preprocess.py:73-74 | for a name `<stem>.wav` with no other dot, the id is the stem |
| `Preprocess.SentenceOfSpec` | preprocess.py:47-74 | `SentenceOf` (one line of `get_sentences`): `ValueError` exactly when the line lacks two fields; `IndexError` exactly when a pinyin token is too short; `AssertionError` exactly when the pinyin and hanzi counts differ; otherwise the k-th word pairs the k-th processed pinyin with the k-th replaced hanzi |
| `Preprocess.GetSentence` | preprocess.py:47-74 | the loop body computes that outcome |
| `Preprocess.GetSentences` | preprocess.py:46-74 | the loop over a folder computes the utterances of all lines, or the first error |
| `Builtins.AllOkSpec` | preprocess.py:46-74 | a folder succeeds exactly when every line does, with one utterance per line in order; otherwise it fails with the error of the first failing line |
| `Preprocess.GetCorpusSentences` | preprocess.py:40-74 | the `train` folder, then the `test` folder |
| `Preprocess.SentenceOfPinyins` | preprocess.py:61-67 | every pinyin of an utterance has at least two characters |
| `Preprocess.CorpusOrigins` | preprocess.py:41-74 | a corpus that loads is the `train` folder's utterances followed by the `test` folder's |
| `Preprocess.FolderOrigins` | preprocess.py:41-74 | a folder that loads holds exactly one utterance per line, each the one its line yields, in line order |
| `Preprocess.CorpusPinyins` | preprocess.py:41-74 | every pinyin of every utterance in the corpus has at least two characters |
| `Preprocess.LabText` | preprocess.py:78-90 | the `.lab` text is the tokens, each followed by a space when spacing is on, concatenated and stripped |
| `Preprocess.LabTextHanzi` | preprocess.py:78-90 | with the script's settings and trimmed hanzi, the `.lab` text is the hanzi joined by single spaces |
| `CreateDictionary.FirstMatchFrom` | create_dictionary.py:34-35 | the result is the first table key, in declared order, that the syllable ends with; no earlier key matches |
| `CreateDictionary.IaorShadowed` | create_dictionary.py:16-17 | a syllable ending in `iaor` matches `aor`, which is declared first |
| `CreateDictionary.IaorNeverMatches` | create_dictionary.py:8-28 | no syllable selects the `iaor` entry |
| `CreateDictionary.IongrBeforeOngr` | create_dictionary.py:13 | a syllable ending in `iongr` selects `iongr`; any other syllable ending in `ongr` selects `ongr` |
| `CreateDictionary.VowelRMatches` | create_dictionary.py:22-27 | every syllable ending in a vowel letter and `r` finds a key |
| `CreateDictionary.StripTwoNasal` | create_dictionary.py:29 | the keys in `strip_two` are exactly those ending in `nr` or `ngr` |
| `CreateDictionary.RhotacizeShape` | create_dictionary.py:31-45 | `Rhotacize` (the splice of one candidate): with no match the candidate is unchanged; otherwise its last two phones (nasal rime) or last phone are replaced by exactly one element, everything before them kept |
| `CreateDictionary.JurYurRime` | create_dictionary.py:40-41 | `jur` and `yur` match `ur` but get `ɥɚ` instead of `u˞` |
| `CreateDictionary.DianrExample` | create_dictionary.py:9 | `dianr` with candidate `t j ɛ n` gives `t j ɐ ɻ`, whose last element holds a space |
| `CreateDictionary.PinyinToIpaErhua` | create_dictionary.py:6-47 | one output per candidate of the syllable without its `r`, in order, each the spliced candidate |
| `CreateDictionary.IsErhuaSpec` | create_dictionary.py:49-50 | `IsErhua`: a syllable is erhua exactly when it ends in `r` and is not `er`; `r` counts |
| `CreateDictionary.TonedTokenNotErhua` | create_dictionary.py:49-50 | a corpus token ending in a tone digit is not erhua after preprocessing |
| `CreateDictionary.PinyinsMembers` | create_dictionary.py:53-56 | the collected syllables are exactly the pinyin of the words of the utterances |
| `CreateDictionary.CollectPinyins` | create_dictionary.py:53-57 | the nested loops collect that set |
| `CreateDictionary.AddWordPinyins` | create_dictionary.py:55-56 | the inner loop adds the pinyin of every word |
| `CreateDictionary.SyllableEntries` | create_dictionary.py:68-80 | `EntriesOf` (the entries of one syllable): one entry per candidate, through the erhua or the plain conversion, phones joined by spaces |
| `CreateDictionary.CollectEntries` | create_dictionary.py:67-80 | the entries gathered are exactly the entries of the collected syllables |
| `CreateDictionary.BuildDictionary` | create_dictionary.py:52-81 | a corpus error ends the run with it; otherwise the result is strictly sorted (hence free of duplicates) and holds exactly the entries of the corpus syllables |
| `Order.SortedUnique` | create_dictionary.py:81 | `sorted(set(...))` is strictly increasing and has the same members |
| `Order.StrictlySortedUnique` | create_dictionary.py:81 | two strictly sorted lists with the same members are equal, so the dictionary is determined by its entries |
| `Order.LeastExists` | create_dictionary.py:57 | a non-empty set of syllables has a least member, so it can be walked in sorted order |
| `CreateDictionary.YoFixExact` | create_dictionary.py:85-86 | `YoFix`, applied by `DictLine` to each entry: the correction applies to the entry `(yo, w o)` and no other |
| `CreateDictionary.WriteDictionary` | create_dictionary.py:83-87 | the file is the entries' lines in order, so the correction does not reorder them |
| `CreateDictionary.DictionaryReadBack` | create_dictionary.py:83-87 | splitting the file at newlines and each line at its tab gives back the entries, with the `yo` correction |

## Left out

- `GeneralProcessor.process` and `convert_characters_to_pinyin`
  (utils.py:139-225) are not modelled. They call the `g2pw` neural
  converter, search directories, read and write files and work in batches.
- File access is not modelled: opening `content.txt`, the Biaobei labelling
  file and the dictionary file, writing `.lab` files, and the paths built
  for them. A file's lines are given as a sequence and the text to be
  written is returned.
- Printing is not modelled: the mismatch warnings, the syllable count and
  the progress bars.
- The `pinyin_to_ipa` library is not modelled. It is the parameter
  `convert`, which gives the candidate phone lists of a syllable.
  `convert` is total. So an exception the library raises for a syllable it
  does not accept (such as a bare `r` or a toned `r5` token) cannot occur
  in the model, although in the script it would end `BuildDictionary`
  early.
- `IsDigit`: the regular expression `\d` is taken to match only the ASCII
  digits. Python also matches other Unicode decimal digits.
- The processors and `get_sentences` are generators. An exception part way
  through is modelled as an error for the whole run. The utterances yielded
  before it, and the `.lab` files written before it, are not modelled.
- The `erhuas` list (create_dictionary.py:61-65) is never used and is left
  out. The two identical branches of the `if erhua` (create_dictionary.py:77-80)
  are modelled once.
- `postprocess.py` and `statistics.py` are not part of this model. They handle
  TextGrid files, floating-point times and console output.
- Strings are sequences of code points. There is no normalisation or
  encoding.
