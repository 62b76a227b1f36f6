/** The dataset processors: transcript normalisation shared by all
    datasets (prosody tags and punctuation, erhua grouping of hanzi, erhua
    merging of pinyin), the per-line logic of the AISHELL-3 and Biaobei
    processors, and the registry that picks a processor by dataset name.
    Reading the corpus files is not modelled: their lines come in as
    sequences, and each processor returns the utterances it would yield. */
module Utils {
  import opened Builtins
  import Preprocess

  /* ---------------------------------------------------------------------
     process_text
     --------------------------------------------------------------------- */

  /** `string.punctuation` followed by the full-width and CJK marks. */
  const Punctuation: string :=
    "!\"#$%&'()*+,-./:;<=>?@[\\]^_`{|}~" + "。，、；：“”（）《》〈〉【】{}！？…—「」～•■『』·"

  /** `\d`, restricted to the ASCII digits. */
  predicate IsDigit(c: char) {
    '0' <= c <= '9'
  }

  /** What remains of `s` after its leading run of digits. */
  function SkipDigits(s: string): (r: string)
    ensures |r| <= |s| && r == s[|s| - |r|..]
    ensures |r| > 0 ==> !IsDigit(r[0])
  {
    if |s| > 0 && IsDigit(s[0]) then SkipDigits(s[1..]) else s
  }

  /** `re.sub(r"#\d+", "", s)`: scanning from the left, every `#` followed
      by one or more digits is deleted together with all of those digits. */
  function StripTags(s: string): string
    decreases |s|
  {
    if |s| == 0 then []
    else if |s| >= 2 && s[0] == '#' && IsDigit(s[1]) then StripTags(SkipDigits(s[1..]))
    else [s[0]] + StripTags(s[1..])
  }

  /** The characters of `s` that are not punctuation, in order. */
  function RemovePunctuation(s: string): (r: string)
    ensures forall c :: c in r ==> c !in Punctuation
  {
    if |s| == 0 then [] else (if s[0] in Punctuation then [] else [s[0]]) + RemovePunctuation(s[1..])
  }

  /** `a` is `b` with some characters deleted. */
  predicate IsSubsequence(a: string, b: string)
    decreases |b|
  {
    if |a| == 0 then true
    else if |b| == 0 then false
    else (a[0] == b[0] && IsSubsequence(a[1..], b[1..])) || IsSubsequence(a, b[1..])
  }

  lemma {:induction false} SubsequenceOfSuffix(a: string, b: string, n: nat)
    requires n <= |b| && IsSubsequence(a, b[n..])
    ensures IsSubsequence(a, b)
    decreases n
  {
    if n > 0 && |a| > 0 {
      assert b[n - 1..][1..] == b[n..];
      SubsequenceOfSuffix(a, b, n - 1);
    }
  }

  lemma {:induction false} SubsequenceTransitive(a: string, b: string, c: string)
    requires IsSubsequence(a, b) && IsSubsequence(b, c)
    ensures IsSubsequence(a, c)
    decreases |c|
  {
    if |a| > 0 {
      if IsSubsequence(b, c[1..]) {
        SubsequenceTransitive(a, b, c[1..]);
      } else if a[0] == b[0] && IsSubsequence(a[1..], b[1..]) {
        SubsequenceTransitive(a[1..], b[1..], c[1..]);
      } else {
        SubsequenceTransitive(a, b[1..], c[1..]);
      }
    }
  }

  lemma {:induction false} StripTagsSubsequence(s: string)
    ensures IsSubsequence(StripTags(s), s)
    decreases |s|
  {
    if |s| == 0 {
    } else if |s| >= 2 && s[0] == '#' && IsDigit(s[1]) {
      var t := SkipDigits(s[1..]);
      StripTagsSubsequence(t);
      assert t == s[|s| - |t|..];
      SubsequenceOfSuffix(StripTags(s), s, |s| - |t|);
    } else {
      StripTagsSubsequence(s[1..]);
      assert ([s[0]] + StripTags(s[1..]))[1..] == StripTags(s[1..]);
    }
  }

  lemma {:induction false} RemovePunctuationSubsequence(s: string)
    ensures IsSubsequence(RemovePunctuation(s), s)
    decreases |s|
  {
    if |s| > 0 {
      RemovePunctuationSubsequence(s[1..]);
      if s[0] !in Punctuation {
        assert ([s[0]] + RemovePunctuation(s[1..]))[1..] == RemovePunctuation(s[1..]);
      } else {
        assert [] + RemovePunctuation(s[1..]) == RemovePunctuation(s[1..]);
      }
    }
  }

  /** `DatasetProcessor.process_text`: the characters of the transcript, one
      per element, with prosody tags and punctuation removed. No punctuation
      survives, the result is the input with characters deleted, and a
      transcript without punctuation (so without `#`) is kept whole. */
  function ProcessText(text: string): (r: seq<char>)
    ensures forall c :: c in r ==> c !in Punctuation
    ensures IsSubsequence(r, text)
    ensures (forall c :: c in text ==> c !in Punctuation) ==> r == text
  {
    StripTagsSubsequence(text);
    RemovePunctuationSubsequence(StripTags(text));
    SubsequenceTransitive(RemovePunctuation(StripTags(text)), StripTags(text), text);
    PlainTextKept(text);
    RemovePunctuation(StripTags(text))
  }

  /** Text without punctuation has no tag and nothing to remove. */
  lemma PlainTextKept(text: string)
    ensures (forall c :: c in text ==> c !in Punctuation) ==> RemovePunctuation(StripTags(text)) == text
  {
    if forall c :: c in text ==> c !in Punctuation {
      HashIsPunctuation();
      StripTagsWithoutHash(text);
      RemovePunctuationWithoutPunctuation(text);
    }
  }

  /** One character at the front that does not start a tag: it is kept
      exactly when it is not punctuation, and the rest is processed on its
      own. With `ProcessTextRemovesTag` this describes the whole
      transcript. */
  lemma ProcessTextStep(c: char, b: string)
    requires !(c == '#' && |b| > 0 && IsDigit(b[0]))
    ensures ProcessText([c] + b) == (if c in Punctuation then [] else [c]) + ProcessText(b)
  {
    var s := [c] + b;
    assert s[1..] == b;
    StripTagsKeep(s, b);
    var t := StripTags(b);
    assert ([c] + t)[1..] == t;
    RemovePunctuationStep([c] + t, t);
  }

  lemma {:induction false} SkipDigitsAppend(x: string, c: string)
    requires |c| == 0 || !IsDigit(c[0])
    ensures SkipDigits(x + c) == SkipDigits(x) + c
    decreases |x|
  {
    if |x| > 0 && IsDigit(x[0]) {
      assert (x + c)[1..] == x[1..] + c;
      SkipDigitsAppend(x[1..], c);
    }
  }

  lemma {:induction false} SkipAllDigits(d: string)
    requires forall c :: c in d ==> IsDigit(c)
    ensures SkipDigits(d) == []
    decreases |d|
  {
    if |d| > 0 {
      assert d[0] in d;
      assert forall c :: c in d[1..] ==> c in d;
      SkipAllDigits(d[1..]);
    }
  }

  /** The first characters and the tail of `a + c` come from `a`. */
  lemma AppendTail(a: string, c: string)
    requires |a| >= 1
    ensures (a + c)[1..] == a[1..] + c && (a + c)[0] == a[0]
    ensures |a| >= 2 ==> (a + c)[1] == a[1]
  {
    assert (a + c)[1..] == a[1..] + c;
  }

  /** One step of `StripTags` on a string that starts with a tag: the
      `#` and its digits are dropped. */
  lemma StripTagsTag(s: string, t: string)
    requires |s| >= 2 && s[0] == '#' && IsDigit(s[1]) && s[1..] == t
    ensures StripTags(s) == StripTags(SkipDigits(t))
  {
  }

  /** One step of `StripTags` on `a + c` when `a` starts with a tag. */
  lemma StripTagsStepTag(a: string, c: string)
    requires |a| >= 2 && a[0] == '#' && IsDigit(a[1])
    requires |c| == 0 || !IsDigit(c[0])
    ensures StripTags(a + c) == StripTags(SkipDigits(a[1..]) + c)
  {
    AppendTail(a, c);
    StripTagsTag(a + c, a[1..] + c);
    SkipDigitsAppend(a[1..], c);
  }

  /** One step of `StripTags` on a string that does not start with a
      tag: its first character is kept. */
  lemma StripTagsKeep(s: string, t: string)
    requires |s| >= 1 && !(|s| >= 2 && s[0] == '#' && IsDigit(s[1])) && s[1..] == t
    ensures StripTags(s) == [s[0]] + StripTags(t)
  {
  }

  /** One step of `StripTags` on `a + c` when `a` does not start with a
      tag. */
  lemma StripTagsStepPlain(a: string, c: string)
    requires |a| >= 1 && !(|a| >= 2 && a[0] == '#' && IsDigit(a[1]))
    requires |c| == 0 || !IsDigit(c[0])
    ensures StripTags(a + c) == [a[0]] + StripTags(a[1..] + c)
  {
    AppendTail(a, c);
    if |a| == 1 && |c| > 0 {
      assert (a + c)[1] == c[0];
    }
    StripTagsKeep(a + c, a[1..] + c);
  }

  /** A tag at the end of `a` cannot reach into `c` when `c` does not start
      with a digit, so `a` and `c` lose their tags independently. */
  lemma {:induction false} StripTagsAppend(a: string, c: string)
    requires |c| == 0 || !IsDigit(c[0])
    ensures StripTags(a + c) == StripTags(a) + StripTags(c)
    decreases |a|, 1
  {
    if |a| == 0 {
      assert a + c == c;
    } else if |a| >= 2 && a[0] == '#' && IsDigit(a[1]) {
      StripTagsAppendTag(a, c);
    } else {
      StripTagsAppendPlain(a, c);
    }
  }

  /** `StripTagsAppend` when `a` starts with a tag. */
  lemma {:induction false} StripTagsAppendTag(a: string, c: string)
    requires |a| >= 2 && a[0] == '#' && IsDigit(a[1])
    requires |c| == 0 || !IsDigit(c[0])
    ensures StripTags(a + c) == StripTags(a) + StripTags(c)
    decreases |a|, 0
  {
    StripTagsStepTag(a, c);
    StripTagsTag(a, a[1..]);
    StripTagsAppend(SkipDigits(a[1..]), c);
  }

  /** `StripTagsAppend` when `a` starts with a character that is kept. */
  lemma {:induction false} StripTagsAppendPlain(a: string, c: string)
    requires |a| >= 1 && !(|a| >= 2 && a[0] == '#' && IsDigit(a[1]))
    requires |c| == 0 || !IsDigit(c[0])
    ensures StripTags(a + c) == StripTags(a) + StripTags(c)
    decreases |a|, 0
  {
    StripTagsStepPlain(a, c);
    StripTagsKeep(a, a[1..]);
    StripTagsAppend(a[1..], c);
    PrefixAssociative([a[0]], StripTags(a[1..]), StripTags(c));
  }

  lemma {:induction false} RemovePunctuationAppend(a: string, b: string)
    ensures RemovePunctuation(a + b) == RemovePunctuation(a) + RemovePunctuation(b)
    decreases |a|
  {
    if |a| == 0 {
      assert a + b == b;
    } else {
      AppendTail(a, b);
      RemovePunctuationStep(a + b, a[1..] + b);
      RemovePunctuationStep(a, a[1..]);
      RemovePunctuationAppend(a[1..], b);
      var h := if a[0] in Punctuation then [] else [a[0]];
      PrefixAssociative(h, RemovePunctuation(a[1..]), RemovePunctuation(b));
    }
  }

  /** One step of `RemovePunctuation`: the first character is dropped or
      kept. */
  lemma RemovePunctuationStep(s: string, t: string)
    requires |s| >= 1 && s[1..] == t
    ensures RemovePunctuation(s) == (if s[0] in Punctuation then [] else [s[0]]) + RemovePunctuation(t)
  {
  }

  /** Putting a prefix in front of a concatenation. */
  lemma PrefixAssociative(h: string, x: string, y: string)
    ensures h + (x + y) == (h + x) + y
  {
  }

  /** A tag at the front is dropped with all its digits. */
  lemma StripTagsLeadingTag(digits: string, b: string)
    requires |digits| > 0 && forall c :: c in digits ==> IsDigit(c)
    requires |b| == 0 || !IsDigit(b[0])
    ensures StripTags(['#'] + (digits + b)) == StripTags(b)
  {
    var tag := ['#'] + (digits + b);
    assert tag[1..] == digits + b;
    assert digits[0] in digits;
    SkipDigitsAppend(digits, b);
    SkipAllDigits(digits);
    assert [] + b == b;
  }

  lemma StripTagsRemovesTag(a: string, digits: string, b: string)
    requires |digits| > 0 && forall c :: c in digits ==> IsDigit(c)
    requires |b| == 0 || !IsDigit(b[0])
    ensures StripTags(a + "#" + digits + b) == StripTags(a) + StripTags(b)
  {
    assert a + "#" + digits + b == a + (['#'] + (digits + b));
    StripTagsAppend(a, ['#'] + (digits + b));
    StripTagsLeadingTag(digits, b);
  }

  /** A prosody tag `#` + digits vanishes without a trace: removing it
      before or after processing gives the same characters, provided the
      text after it does not continue the digit run. */
  lemma ProcessTextRemovesTag(a: string, digits: string, b: string)
    requires |digits| > 0 && forall c :: c in digits ==> IsDigit(c)
    requires |b| == 0 || !IsDigit(b[0])
    ensures ProcessText(a + "#" + digits + b) == ProcessText(a) + ProcessText(b)
  {
    StripTagsRemovesTag(a, digits, b);
    RemovePunctuationAppend(StripTags(a), StripTags(b));
  }

  lemma {:induction false} StripTagsWithoutHash(s: string)
    requires '#' !in s
    ensures StripTags(s) == s
    decreases |s|
  {
    if |s| > 0 {
      assert forall c :: c in s[1..] ==> c in s;
      StripTagsWithoutHash(s[1..]);
      assert s == [s[0]] + s[1..];
    }
  }

  lemma {:induction false} RemovePunctuationWithoutPunctuation(s: string)
    requires forall c :: c in s ==> c !in Punctuation
    ensures RemovePunctuation(s) == s
    decreases |s|
  {
    if |s| > 0 {
      assert s[0] in s;
      assert forall c :: c in s[1..] ==> c in s;
      RemovePunctuationWithoutPunctuation(s[1..]);
      assert s == [s[0]] + s[1..];
    }
  }

  /** The tag marker is itself punctuation. */
  lemma HashIsPunctuation()
    ensures '#' in Punctuation
  {
    assert Punctuation[2] == '#';
  }

  /** Processing an already processed transcript changes nothing. */
  lemma ProcessTextIdempotent(text: string)
    ensures ProcessText(ProcessText(text)) == ProcessText(text)
  {
  }

  /* ---------------------------------------------------------------------
     process_hanzi
     --------------------------------------------------------------------- */

  /** The hanzi `儿`, and the two characters it never attaches to. */
  const Er: char := '儿'
  const Nue: char := '虐'
  const ErNumeral: char := '二'

  /** The next group starts with a character followed by `儿`, which
      attaches to it unless the character is `虐` or `二`. */
  predicate AttachesEr(s: seq<char>) {
    |s| >= 2 && s[1] == Er && s[0] != Nue && s[0] != ErNumeral
  }

  /** A group is one character, or a character other than `虐` and `二`
      followed by `儿`. */
  predicate IsGroup(g: string) {
    |g| == 1 || (|g| == 2 && g[1] == Er && g[0] != Nue && g[0] != ErNumeral)
  }

  /** The greedy rule: a single-character group is never followed by a group
      starting with `儿` unless the character is `虐` or `二`. */
  predicate Greedy(groups: seq<string>) {
    forall j :: 0 <= j < |groups| - 1 && |groups[j]| == 1 && |groups[j + 1]| > 0 && groups[j + 1][0] == Er ==>
      groups[j][0] == Nue || groups[j][0] == ErNumeral
  }

  /** The grouping `process_hanzi` computes, one group at a time. */
  function HanziGroups(s: seq<char>): seq<string>
    decreases |s|
  {
    if |s| == 0 then []
    else if AttachesEr(s) then [s[..2]] + HanziGroups(s[2..])
    else [s[..1]] + HanziGroups(s[1..])
  }

  /** The groups partition the input: each is a group, and together they
      concatenate back to it. */
  lemma {:induction false} HanziGroupsPartition(s: seq<char>)
    ensures Concat(HanziGroups(s)) == s
    ensures forall g :: g in HanziGroups(s) ==> IsGroup(g)
    decreases |s|
  {
    if |s| > 0 {
      var n := if AttachesEr(s) then 2 else 1;
      HanziGroupsPartition(s[n..]);
      var r := HanziGroups(s);
      assert r == [s[..n]] + HanziGroups(s[n..]);
      assert r[1..] == HanziGroups(s[n..]);
      assert s == s[..n] + s[n..];
    }
  }

  lemma {:induction false} HanziGroupsGreedy(s: seq<char>)
    ensures Greedy(HanziGroups(s))
    decreases |s|
  {
    if |s| > 0 {
      var n := if AttachesEr(s) then 2 else 1;
      HanziGroupsGreedy(s[n..]);
      HanziGroupsPartition(s[n..]);
      var rest := HanziGroups(s[n..]);
      if n == 1 && |rest| > 0 {
        assert Concat(rest) == rest[0] + Concat(rest[1..]);
        assert rest[0] in rest;
        assert rest[0][0] == s[1];
      }
      assert HanziGroups(s)[1..] == rest;
    }
  }

  /** The grouping is the only partition into groups that obeys the greedy
      rule: `process_hanzi` is fully described by those two properties. */
  lemma {:induction false} HanziGroupsUnique(s: seq<char>, groups: seq<string>)
    requires Concat(groups) == s
    requires forall g :: g in groups ==> IsGroup(g)
    requires Greedy(groups)
    ensures groups == HanziGroups(s)
    decreases |groups|
  {
    if |groups| > 0 {
      var g := groups[0];
      assert g in groups;
      assert s == g + Concat(groups[1..]);
      assert forall h :: h in groups[1..] ==> h in groups;
      var tail := groups[1..];
      assert Greedy(tail) by {
        forall j | 0 <= j < |tail| - 1 && |tail[j]| == 1 && |tail[j + 1]| > 0 && tail[j + 1][0] == Er
          ensures tail[j][0] == Nue || tail[j][0] == ErNumeral
        {
          assert tail[j] == groups[j + 1] && tail[j + 1] == groups[j + 2];
        }
      }
      HanziGroupsUnique(s[|g|..], tail);
      if |g| == 1 && |tail| > 0 {
        assert tail[0] in groups;
        assert Concat(tail) == tail[0] + Concat(tail[1..]);
        assert s[1] == tail[0][0];
      }
      assert g == s[..|g|];
    } else {
      assert s == [];
    }
  }

  /** One iteration of the `process_hanzi` loop at position `i`, which
      takes `n` characters. */
  lemma HanziGroupsStep(text: seq<char>, i: nat, n: nat)
    requires i < |text|
    requires n == if i + 1 < |text| && text[i + 1] == Er && text[i] != Nue && text[i] != ErNumeral then 2 else 1
    ensures i + n <= |text|
    ensures HanziGroups(text[i..]) == [text[i..i + n]] + HanziGroups(text[i + n..])
    ensures text[i..i + n] == if n == 2 then [text[i], Er] else [text[i]]
  {
    var rest := text[i..];
    assert AttachesEr(rest) <==> n == 2;
    assert rest[..n] == text[i..i + n] && rest[n..] == text[i + n..];
  }

  /** `DatasetProcessor.process_hanzi`: the loop that walks the characters
      and appends either one character or a character with its `儿`. */
  method ProcessHanzi(text: seq<char>) returns (result: seq<string>)
    ensures result == HanziGroups(text)
  {
    result := [];
    var i := 0;
    while i < |text|
      invariant i <= |text|
      invariant HanziGroups(text) == result + HanziGroups(text[i..])
    {
      var group, n;
      if i + 1 < |text| && text[i + 1] == Er && text[i] != Nue && text[i] != ErNumeral {
        group, n := [text[i], Er], 2;
      } else {
        group, n := [text[i]], 1;
      }
      HanziGroupsStep(text, i, n);
      GroupsAppend(result, group, HanziGroups(text[i + n..]));
      result := result + [group];
      i := i + n;
    }
    assert text[i..] == [];
  }

  /** Moving one group from the pending part to the result. */
  lemma GroupsAppend(result: seq<string>, group: string, rest: seq<string>)
    ensures result + ([group] + rest) == (result + [group]) + rest
  {
  }

  /* ---------------------------------------------------------------------
     process_pinyin
     --------------------------------------------------------------------- */

  /** Whether word `i` is followed by an `er…` word while hanzi group `k`
      ends in `儿` (the next word is `""` after the last one). */
  predicate AppendEr(words: seq<string>, hanzi: seq<string>, i: nat, k: nat) {
    && i + 1 < |words|
    && StartsWith(words[i + 1], "er")
    && k < |hanzi|
    && EndsWith(hanzi[k], [Er])
  }

  /** Word `i` and the `er…` word after it become one syllable: `append_er`
      holds and the second-to-last character of word `i` is not `r`. */
  predicate MergesAt(words: seq<string>, hanzi: seq<string>, i: nat, k: nat)
    requires i < |words|
  {
    AppendEr(words, hanzi, i, k) && |words[i]| >= 2 && words[i][|words[i]| - 2] != 'r'
  }

  /** A merged syllable: the word without its tone, `r`, and the tone again
      unless tones are removed. */
  function MergedWord(w: string, removeTone: bool): string
    requires |w| >= 1
  {
    if removeTone then DropLast(w, 1) + "r" else DropLast(w, 1) + "r" + [w[|w| - 1]]
  }

  /** A word that is not merged: without its tone, or unchanged. */
  function PlainWord(w: string, removeTone: bool): string {
    if removeTone then DropLast(w, 1) else w
  }

  /** The result of the `process_pinyin` loop from word `i` and hanzi group
      `k` on. Reading the second-to-last character of a one-character word
      that `append_er` selects raises `IndexError`. */
  function PinyinFrom(words: seq<string>, hanzi: seq<string>, i: nat, k: nat, removeTone: bool): Result<seq<string>>
    requires i <= |words|
    decreases |words| - i
  {
    if i == |words| then Ok([])
    else if AppendEr(words, hanzi, i, k) && |words[i]| < 2 then Err(IndexError)
    else if MergesAt(words, hanzi, i, k) then
      Prepend([MergedWord(words[i], removeTone)], PinyinFrom(words, hanzi, i + 2, k + 1, removeTone))
    else
      Prepend([PlainWord(words[i], removeTone)], PinyinFrom(words, hanzi, i + 1, k + 1, removeTone))
  }

  /** What `process_pinyin(pinyin, hanzi, remove_tone)` returns. */
  function ProcessedPinyin(pinyin: string, hanzi: seq<string>, removeTone: bool): Result<seq<string>> {
    PinyinFrom(Words(pinyin), hanzi, 0, 0, removeTone)
  }

  /** One iteration of the `process_pinyin` loop at word `i` that does
      not fail: it emits `syllable` and consumes `step` words. */
  lemma PinyinFromStep(words: seq<string>, hanzi: seq<string>, i: nat, k: nat, removeTone: bool, syllable: string, step: nat)
    requires i < |words|
    requires !(AppendEr(words, hanzi, i, k) && |words[i]| < 2)
    requires MergesAt(words, hanzi, i, k) ==> syllable == MergedWord(words[i], removeTone) && step == 2
    requires !MergesAt(words, hanzi, i, k) ==> syllable == PlainWord(words[i], removeTone) && step == 1
    ensures i + step <= |words|
    ensures PinyinFrom(words, hanzi, i, k, removeTone) == Prepend([syllable], PinyinFrom(words, hanzi, i + step, k + 1, removeTone))
  {
  }

  /** `DatasetProcessor.process_pinyin`: the loop over the words, where
      `hanzi_index` counts the syllables produced so far. */
  method ProcessPinyin(pinyin: string, hanzi: seq<string>, removeTone: bool) returns (r: Result<seq<string>>)
    ensures r == ProcessedPinyin(pinyin, hanzi, removeTone)
  {
    r := PinyinLoop(Words(pinyin), hanzi, removeTone);
  }

  /** The loop of `process_pinyin` over the words of the line. */
  method PinyinLoop(words: seq<string>, hanzi: seq<string>, removeTone: bool) returns (r: Result<seq<string>>)
    ensures r == PinyinFrom(words, hanzi, 0, 0, removeTone)
  {
    var result := [];
    var i, hanziIndex := 0, 0;
    PrependNil(PinyinFrom(words, hanzi, 0, 0, removeTone));
    while i < |words|
      invariant i <= |words|
      invariant hanziIndex == |result|
      invariant PinyinFrom(words, hanzi, 0, 0, removeTone) == Prepend(result, PinyinFrom(words, hanzi, i, hanziIndex, removeTone))
      decreases |words| - i
    {
      var currentWord := words[i];
      var nextWord := if i + 1 < |words| then words[i + 1] else "";
      var appendEr := StartsWith(nextWord, "er") && hanziIndex < |hanzi| && EndsWith(hanzi[hanziIndex], [Er]);
      assert appendEr == AppendEr(words, hanzi, i, hanziIndex);
      if appendEr && |currentWord| < 2 {
        return Err(IndexError);
      }
      var syllable, step;
      if appendEr && currentWord[|currentWord| - 2] != 'r' {
        if removeTone {
          syllable := DropLast(currentWord, 1) + "r";
        } else {
          var tone := currentWord[|currentWord| - 1];
          syllable := DropLast(currentWord, 1) + "r" + [tone];
        }
        step := 2;
      } else {
        syllable := if removeTone then DropLast(currentWord, 1) else currentWord;
        step := 1;
      }
      PinyinFromStep(words, hanzi, i, hanziIndex, removeTone, syllable, step);
      PrependPrepend(result, [syllable], PinyinFrom(words, hanzi, i + step, hanziIndex + 1, removeTone));
      result := result + [syllable];
      i := i + step;
      hanziIndex := hanziIndex + 1;
    }
    assert result + [] == result;
    r := Ok(result);
  }

  /** Every syllable consumes one word, or two when merged: the output is no
      longer than the input and at least half as long. */
  lemma {:induction false} PinyinLength(words: seq<string>, hanzi: seq<string>, i: nat, k: nat, removeTone: bool)
    requires i <= |words|
    requires PinyinFrom(words, hanzi, i, k, removeTone).Ok?
    ensures var v := PinyinFrom(words, hanzi, i, k, removeTone).value;
      |v| <= |words| - i <= 2 * |v|
    decreases |words| - i
  {
    if i < |words| {
      if MergesAt(words, hanzi, i, k) {
        PinyinLength(words, hanzi, i + 2, k + 1, removeTone);
      } else {
        PinyinLength(words, hanzi, i + 1, k + 1, removeTone);
      }
    }
  }

  /** When no later word starts with `er`, nothing merges and nothing can
      fail: one syllable per word, each converted on its own. */
  lemma {:induction false} PinyinWithoutEr(words: seq<string>, hanzi: seq<string>, i: nat, k: nat, removeTone: bool)
    requires i <= |words|
    requires forall j :: i < j < |words| ==> !StartsWith(words[j], "er")
    ensures PinyinFrom(words, hanzi, i, k, removeTone).Ok?
    ensures var v := PinyinFrom(words, hanzi, i, k, removeTone).value;
      |v| == |words| - i && forall j :: 0 <= j < |v| ==> v[j] == PlainWord(words[i + j], removeTone)
    decreases |words| - i
  {
    if i < |words| {
      PinyinWithoutEr(words, hanzi, i + 1, k + 1, removeTone);
      assert !AppendEr(words, hanzi, i, k);
      var w := PinyinFrom(words, hanzi, i + 1, k + 1, removeTone).value;
      var v := PinyinFrom(words, hanzi, i, k, removeTone).value;
      assert v == [PlainWord(words[i], removeTone)] + w;
      forall j | 1 <= j < |v| ensures v[j] == PlainWord(words[i + j], removeTone) {
        assert v[j] == w[j - 1] && i + 1 + (j - 1) == i + j;
      }
    }
  }

  /** Words of at least two characters, as tone-numbered syllables always
      are, never make `process_pinyin` fail. */
  lemma {:induction false} PinyinTotal(words: seq<string>, hanzi: seq<string>, i: nat, k: nat, removeTone: bool)
    requires i <= |words|
    requires forall j :: i <= j < |words| ==> |words[j]| >= 2
    ensures PinyinFrom(words, hanzi, i, k, removeTone).Ok?
    decreases |words| - i
  {
    if i < |words| {
      if MergesAt(words, hanzi, i, k) {
        PinyinTotal(words, hanzi, i + 2, k + 1, removeTone);
      } else {
        PinyinTotal(words, hanzi, i + 1, k + 1, removeTone);
      }
    }
  }

  /** How many words the syllable at word `i`, checked against hanzi group
      `k`, uses up. */
  function Width(words: seq<string>, hanzi: seq<string>, i: nat, k: nat): nat
    requires i < |words|
  {
    if MergesAt(words, hanzi, i, k) then 2 else 1
  }

  /** The syllable made from word `i`, checked against hanzi group `k`. */
  function Syllable(words: seq<string>, hanzi: seq<string>, i: nat, k: nat, removeTone: bool): string
    requires i < |words|
  {
    if MergesAt(words, hanzi, i, k) then MergedWord(words[i], removeTone) else PlainWord(words[i], removeTone)
  }

  /** The word at which each syllable starts, reading from word `i` with
      hanzi group `k`. */
  function SyllableStarts(words: seq<string>, hanzi: seq<string>, i: nat, k: nat): seq<nat>
    requires i <= |words|
    decreases |words| - i
  {
    if i == |words| then [] else [i] + SyllableStarts(words, hanzi, i + Width(words, hanzi, i, k), k + 1)
  }

  /** The syllable starts begin at word `i` and stay within the words. */
  lemma {:induction false} SyllableStartsBounds(words: seq<string>, hanzi: seq<string>, i: nat, k: nat)
    requires i <= |words|
    ensures var st := SyllableStarts(words, hanzi, i, k);
      && (|st| == 0 <==> i == |words|)
      && (|st| > 0 ==> st[0] == i)
      && forall j :: 0 <= j < |st| ==> i <= st[j] < |words|
    decreases |words| - i
  {
    if i < |words| {
      var n := Width(words, hanzi, i, k);
      SyllableStartsBounds(words, hanzi, i + n, k + 1);
      var st := SyllableStarts(words, hanzi, i, k);
      var rest := SyllableStarts(words, hanzi, i + n, k + 1);
      assert st == [i] + rest;
      forall j | 1 <= j < |st| ensures i <= st[j] < |words| {
        assert st[j] == rest[j - 1];
      }
    }
  }

  /** From any syllable on, the starts are those read from that syllable's
      word and hanzi group. */
  lemma {:induction false} SyllableStartsSuffix(words: seq<string>, hanzi: seq<string>, i: nat, k: nat, j: nat)
    requires i <= |words|
    requires j < |SyllableStarts(words, hanzi, i, k)|
    ensures SyllableStarts(words, hanzi, i, k)[j] < |words|
    ensures SyllableStarts(words, hanzi, i, k)[j..]
         == SyllableStarts(words, hanzi, SyllableStarts(words, hanzi, i, k)[j], k + j)
    decreases j
  {
    SyllableStartsBounds(words, hanzi, i, k);
    if j > 0 {
      var n := Width(words, hanzi, i, k);
      var st := SyllableStarts(words, hanzi, i, k);
      var rest := SyllableStarts(words, hanzi, i + n, k + 1);
      assert st == [i] + rest;
      SyllableStartsSuffix(words, hanzi, i + n, k + 1, j - 1);
      assert st[j..] == rest[j - 1..] && st[j] == rest[j - 1] && k + j == (k + 1) + (j - 1);
    }
  }

  /** Each syllable starts right after the words the previous one used. */
  lemma SyllableStartsChain(words: seq<string>, hanzi: seq<string>, i: nat, k: nat)
    requires i <= |words|
    ensures var st := SyllableStarts(words, hanzi, i, k);
      forall j :: 0 <= j < |st| - 1 ==> st[j] < |words| && st[j + 1] == st[j] + Width(words, hanzi, st[j], k + j)
  {
    var st := SyllableStarts(words, hanzi, i, k);
    forall j | 0 <= j < |st| - 1
      ensures st[j] < |words| && st[j + 1] == st[j] + Width(words, hanzi, st[j], k + j)
    {
      SyllableStartsSuffix(words, hanzi, i, k, j);
      assert st[j + 1] == st[j..][1];
    }
  }

  /** The last syllable ends exactly at the last word: with
      `SyllableStartsChain`, the words are covered without gap or
      overlap. */
  lemma {:induction false} SyllableStartsCover(words: seq<string>, hanzi: seq<string>, i: nat, k: nat)
    requires i <= |words|
    ensures var st := SyllableStarts(words, hanzi, i, k);
      |st| > 0 ==> st[|st| - 1] < |words| && st[|st| - 1] + Width(words, hanzi, st[|st| - 1], k + |st| - 1) == |words|
    decreases |words| - i
  {
    if i < |words| {
      var n := Width(words, hanzi, i, k);
      SyllableStartsCover(words, hanzi, i + n, k + 1);
      SyllableStartsBounds(words, hanzi, i + n, k + 1);
      var st := SyllableStarts(words, hanzi, i, k);
      var rest := SyllableStarts(words, hanzi, i + n, k + 1);
      assert st == [i] + rest;
      if |rest| > 0 {
        assert st[|st| - 1] == rest[|rest| - 1] && k + |st| - 1 == (k + 1) + |rest| - 1;
      }
    }
  }

  /** One iteration of the `process_pinyin` loop on success: the syllable
      at word `i`, then the rest. */
  lemma PinyinStep(words: seq<string>, hanzi: seq<string>, i: nat, k: nat, removeTone: bool)
    requires i < |words|
    requires PinyinFrom(words, hanzi, i, k, removeTone).Ok?
    ensures i + Width(words, hanzi, i, k) <= |words|
    ensures PinyinFrom(words, hanzi, i + Width(words, hanzi, i, k), k + 1, removeTone).Ok?
    ensures PinyinFrom(words, hanzi, i, k, removeTone).value
         == [Syllable(words, hanzi, i, k, removeTone)]
            + PinyinFrom(words, hanzi, i + Width(words, hanzi, i, k), k + 1, removeTone).value
  {
  }

  /** The full shape of a successful result: syllable `j` is made from the
      word where it starts, checked against hanzi group `k + j`, and merges
      with the following `er…` word exactly when `MergesAt` holds there.
      With `SyllableStartsCover` this says which words became which
      syllables. */
  lemma {:induction false} PinyinAlignment(words: seq<string>, hanzi: seq<string>, i: nat, k: nat, removeTone: bool)
    requires i <= |words|
    requires PinyinFrom(words, hanzi, i, k, removeTone).Ok?
    ensures var v := PinyinFrom(words, hanzi, i, k, removeTone).value;
      var st := SyllableStarts(words, hanzi, i, k);
      && |st| == |v|
      && forall j :: 0 <= j < |v| ==>
           st[j] < |words| && v[j] == Syllable(words, hanzi, st[j], k + j, removeTone)
    decreases |words| - i
  {
    if i < |words| {
      var n := Width(words, hanzi, i, k);
      PinyinStep(words, hanzi, i, k, removeTone);
      PinyinAlignment(words, hanzi, i + n, k + 1, removeTone);
      SyllableStartsStep(words, hanzi, i, k);
      AlignmentShift(words, hanzi, i, k, removeTone,
                     SyllableStarts(words, hanzi, i, k), SyllableStarts(words, hanzi, i + n, k + 1),
                     PinyinFrom(words, hanzi, i, k, removeTone).value,
                     PinyinFrom(words, hanzi, i + n, k + 1, removeTone).value);
    }
  }

  /** The syllable starts from word `i`: `i` itself, then those after it. */
  lemma SyllableStartsStep(words: seq<string>, hanzi: seq<string>, i: nat, k: nat)
    requires i < |words|
    ensures i + Width(words, hanzi, i, k) <= |words|
    ensures SyllableStarts(words, hanzi, i, k) == [i] + SyllableStarts(words, hanzi, i + Width(words, hanzi, i, k), k + 1)
  {
  }

  /** The alignment of the syllables after the first, shifted by one, with
      the first syllable in front. */
  lemma AlignmentShift(words: seq<string>, hanzi: seq<string>, i: nat, k: nat, removeTone: bool,
                       st: seq<nat>, rest: seq<nat>, v: seq<string>, w: seq<string>)
    requires i < |words|
    requires st == [i] + rest && v == [Syllable(words, hanzi, i, k, removeTone)] + w
    requires |rest| == |w|
    requires forall j :: 0 <= j < |w| ==>
               rest[j] < |words| && w[j] == Syllable(words, hanzi, rest[j], k + 1 + j, removeTone)
    ensures |st| == |v|
    ensures forall j :: 0 <= j < |v| ==>
              st[j] < |words| && v[j] == Syllable(words, hanzi, st[j], k + j, removeTone)
  {
    forall j | 1 <= j < |v|
      ensures st[j] < |words| && v[j] == Syllable(words, hanzi, st[j], k + j, removeTone)
    {
      assert st[j] == rest[j - 1] && v[j] == w[j - 1] && k + j == k + 1 + (j - 1);
    }
  }

  /* ---------------------------------------------------------------------
     The dataset processors
     --------------------------------------------------------------------- */

  /** One yielded utterance: aligned (pinyin, hanzi) pairs and where its
      audio lives. */
  datatype Sentence = Sentence(word: seq<(string, string)>, wavPath: string, speaker: string, id: string)

  /** `os.path.join(folder, "wav", name)` for a relative folder name: an
      absolute `name` replaces the rest. */
  function WavPath(folder: string, name: string): string {
    if StartsWith(name, "/") then name else folder + "/wav/" + name
  }

  /** What a processor yields for one utterance once its pinyin has been
      processed: the error of `process_pinyin`, nothing when the syllables
      and the hanzi groups differ in number, else the aligned pairs. */
  function Utterance(pinyin: Result<seq<string>>, hanzi: seq<string>, wavPath: string, speaker: string, id: string): Result<Option<Sentence>> {
    match pinyin
    case Err(e) => Err(e)
    case Ok(p) =>
      if |p| != |hanzi| then Ok(None)
      else Ok(Some(Sentence(Zip(p, hanzi), wavPath, speaker, id)))
  }

  /** An error of `process_pinyin` is passed on; a count mismatch skips the
      utterance without failing; equal counts always yield it, with its
      pairs lined up one to one. */
  lemma UtteranceAligned(pinyin: Result<seq<string>>, hanzi: seq<string>, wavPath: string, speaker: string, id: string)
    ensures var r := Utterance(pinyin, hanzi, wavPath, speaker, id);
      && (pinyin.Err? ==> r == Err(pinyin.error))
      && (pinyin.Ok? && |pinyin.value| != |hanzi| ==> r == Ok(None))
      && (pinyin.Ok? && |pinyin.value| == |hanzi| ==>
            && r.Ok? && r.value.Some?
            && r.value.value.wavPath == wavPath && r.value.value.speaker == speaker && r.value.value.id == id
            && |r.value.value.word| == |hanzi|
            && forall j :: 0 <= j < |hanzi| ==> r.value.value.word[j] == (pinyin.value[j], hanzi[j]))
  {
  }

  /** The utterance of an AISHELL-3 line named `wav`: its id is the name
      without `.wav`, its speaker the name without its last eight
      characters, and its audio sits in the speaker's folder. */
  function Aishell3Utterance(pinyin: Result<seq<string>>, hanzi: seq<string>, folder: string, wav: string): Result<Option<Sentence>> {
    Utterance(pinyin, hanzi, WavPath(folder, DropLast(wav, 8)), DropLast(wav, 8), DropLast(wav, 4))
  }

  lemma Aishell3UtteranceAligned(pinyin: Result<seq<string>>, hanzi: seq<string>, folder: string, wav: string)
    ensures var r := Aishell3Utterance(pinyin, hanzi, folder, wav);
      && (pinyin.Err? ==> r == Err(pinyin.error))
      && (pinyin.Ok? && |pinyin.value| != |hanzi| ==> r == Ok(None))
      && (pinyin.Ok? && |pinyin.value| == |hanzi| ==>
            && r.Ok? && r.value.Some?
            && |r.value.value.word| == |hanzi|
            && (forall j :: 0 <= j < |hanzi| ==> r.value.value.word[j] == (pinyin.value[j], hanzi[j]))
            && r.value.value.id == DropLast(wav, 4)
            && r.value.value.speaker == DropLast(wav, 8)
            && r.value.value.wavPath == WavPath(folder, r.value.value.speaker)
            && r.value.value.speaker <= r.value.value.id)
  {
    UtteranceAligned(pinyin, hanzi, WavPath(folder, DropLast(wav, 8)), DropLast(wav, 8), DropLast(wav, 4));
    assert DropLast(wav, 8) <= DropLast(wav, 4);
  }

  /** One `content.txt` line of AISHELL-3 as `Aishell3Processor.process`
      treats it: `None` for a line whose pinyin and hanzi counts differ,
      which is skipped. */
  function Aishell3Line(folder: string, line: string, removeTone: bool): Result<Option<Sentence>> {
    var fields := Preprocess.LineFields(line);
    if |fields| != 2 then Err(ValueError)
    else
      var wav := fields[0];
      var tokens := Preprocess.LineTokens(wav, fields[1]);
      var hanzi := Preprocess.ReplaceAll(Evens(tokens));
      Aishell3Utterance(ProcessedPinyin(Join(" ", Odds(tokens)), hanzi, removeTone), hanzi, folder, wav)
  }

  /** An AISHELL-3 line without two fields raises `ValueError`, and an error
      of `process_pinyin` is passed on. Otherwise a line whose processed
      pinyin and replaced hanzi differ in length is skipped without failing,
      and a line where they agree is always yielded, with its pairs lined up
      one to one, its id the wav name without its last four characters, its
      speaker the wav name without its last eight (so a prefix of the id),
      and its path the speaker's folder under `wav`. */
  lemma Aishell3LineAligned(folder: string, line: string, removeTone: bool)
    ensures var r := Aishell3Line(folder, line, removeTone);
      var fields := Preprocess.LineFields(line);
      && (|fields| != 2 ==> r == Err(ValueError))
      && (|fields| == 2 ==>
            var tokens := Preprocess.LineTokens(fields[0], fields[1]);
            var hanzi := Preprocess.ReplaceAll(Evens(tokens));
            var pinyin := ProcessedPinyin(Join(" ", Odds(tokens)), hanzi, removeTone);
            && (pinyin.Err? ==> r == Err(pinyin.error))
            && (pinyin.Ok? && |pinyin.value| != |hanzi| ==> r == Ok(None))
            && (pinyin.Ok? && |pinyin.value| == |hanzi| ==>
                  && r.Ok? && r.value.Some?
                  && |r.value.value.word| == |hanzi|
                  && (forall j :: 0 <= j < |hanzi| ==> r.value.value.word[j] == (pinyin.value[j], hanzi[j]))
                  && r.value.value.id == DropLast(fields[0], 4)
                  && r.value.value.speaker == DropLast(fields[0], 8)
                  && r.value.value.wavPath == WavPath(folder, r.value.value.speaker)
                  && r.value.value.speaker <= r.value.value.id))
  {
    var fields := Preprocess.LineFields(line);
    if |fields| == 2 {
      var wav := fields[0];
      var tokens := Preprocess.LineTokens(wav, fields[1]);
      var hanzi := Preprocess.ReplaceAll(Evens(tokens));
      var pinyin := ProcessedPinyin(Join(" ", Odds(tokens)), hanzi, removeTone);
      assert Aishell3Line(folder, line, removeTone) == Aishell3Utterance(pinyin, hanzi, folder, wav);
      Aishell3UtteranceAligned(pinyin, hanzi, folder, wav);
    }
  }

  /** The one Biaobei transcript whose pinyin line is replaced. */
  const FixedBiaobeiText := "这图#2难不成#2是#1Ｐ过的#4？"
  const FixedBiaobeiPinyin := "zhe4 tu2 nan2 bu4 cheng2 shi4 pi1 guo4 de5"

  /** One Biaobei line pair (`<id>\t<hanzi with prosody tags>`, then the
      pinyin line) as `BiaobeiProcessor.process` treats it. */
  function BiaobeiPair(first: string, second: string, removeTone: bool): Result<Option<Sentence>> {
    var fields := SplitOn(Strip(first), '\t');
    if |fields| != 2 then Err(ValueError)
    else
      var chinese := fields[1];
      var pinyinText := if chinese == FixedBiaobeiText then FixedBiaobeiPinyin else Strip(second);
      var hanzi := HanziGroups(ProcessText(chinese));
      Utterance(ProcessedPinyin(pinyinText, hanzi, removeTone), hanzi, "Wave", "0", fields[0])
  }

  /** A Biaobei first line without two fields raises `ValueError`, and an
      error of `process_pinyin` is passed on. Otherwise a pair whose
      syllables and hanzi groups differ in number is skipped without
      failing, and a pair where they agree is always yielded, with its pairs
      lined up one to one, its id from the first field, its path `Wave`
      and its speaker `0`. */
  lemma BiaobeiPairAligned(first: string, second: string, removeTone: bool)
    ensures var r := BiaobeiPair(first, second, removeTone);
      var fields := SplitOn(Strip(first), '\t');
      && (|fields| != 2 ==> r == Err(ValueError))
      && (|fields| == 2 ==>
            var hanzi := HanziGroups(ProcessText(fields[1]));
            var pinyinText := if fields[1] == FixedBiaobeiText then FixedBiaobeiPinyin else Strip(second);
            var pinyin := ProcessedPinyin(pinyinText, hanzi, removeTone);
            && (pinyin.Err? ==> r == Err(pinyin.error))
            && (pinyin.Ok? && |pinyin.value| != |hanzi| ==> r == Ok(None))
            && (pinyin.Ok? && |pinyin.value| == |hanzi| ==>
                  && r.Ok? && r.value.Some?
                  && |r.value.value.word| == |hanzi|
                  && (forall j :: 0 <= j < |hanzi| ==> r.value.value.word[j] == (pinyin.value[j], hanzi[j]))
                  && r.value.value.id == fields[0]
                  && r.value.value.wavPath == "Wave"
                  && r.value.value.speaker == "0"))
  {
    var fields := SplitOn(Strip(first), '\t');
    if |fields| == 2 {
      var hanzi := HanziGroups(ProcessText(fields[1]));
      var pinyinText := if fields[1] == FixedBiaobeiText then FixedBiaobeiPinyin else Strip(second);
      UtteranceAligned(ProcessedPinyin(pinyinText, hanzi, removeTone), hanzi, "Wave", "0", fields[0]);
    }
  }

  /** Adds one line's outcome in front of the outcome of the lines after it:
      an error ends the run, a skipped line adds nothing. */
  function Emit(x: Result<Option<Sentence>>, rest: Result<seq<Sentence>>): Result<seq<Sentence>> {
    match x
    case Err(e) => Err(e)
    case Ok(None) => rest
    case Ok(Some(s)) => Prepend([s], rest)
  }

  /** The sentences gathered so far followed by one more outcome and the
      rest. */
  lemma EmitPrepend(sentences: seq<Sentence>, x: Result<Option<Sentence>>, rest: Result<seq<Sentence>>)
    ensures Prepend(sentences, Emit(x, rest)) == match x
      case Err(e) => Err(e)
      case Ok(None) => Prepend(sentences, rest)
      case Ok(Some(s)) => Prepend(sentences + [s], rest)
  {
    if x.Ok? && x.value.Some? {
      PrependPrepend(sentences, [x.value.value], rest);
    }
  }

  /** What a processor yields from the outcomes of its lines, in order. */
  function Collect(outcomes: seq<Result<Option<Sentence>>>): Result<seq<Sentence>>
    decreases |outcomes|
  {
    if |outcomes| == 0 then Ok([]) else Emit(outcomes[0], Collect(outcomes[1..]))
  }

  /** Skipped lines are not fatal: the run fails only when some line raises,
      and then with the error of the first such line. Otherwise it yields
      the utterances of exactly the lines that are not skipped;
      `CollectOrder` adds that they come in line order, once each. */
  lemma {:induction false} CollectSpec(outcomes: seq<Result<Option<Sentence>>>)
    ensures Collect(outcomes).Ok? <==> forall j :: 0 <= j < |outcomes| ==> outcomes[j].Ok?
    ensures Collect(outcomes).Err? ==>
              exists j :: 0 <= j < |outcomes| && outcomes[j] == Err(Collect(outcomes).error)
                && forall i :: 0 <= i < j ==> outcomes[i].Ok?
    ensures Collect(outcomes).Ok? ==>
              && |Collect(outcomes).value| <= |outcomes|
              && forall s :: s in Collect(outcomes).value <==> Ok(Some(s)) in outcomes
    decreases |outcomes|
  {
    if |outcomes| > 0 {
      CollectSpec(outcomes[1..]);
      assert forall j :: 1 <= j < |outcomes| ==> outcomes[j] == outcomes[1..][j - 1];
      var r := Collect(outcomes);
      if r.Err? {
        if outcomes[0].Err? {
        } else {
          var j :| 0 <= j < |outcomes[1..]| && outcomes[1..][j] == Err(Collect(outcomes[1..]).error)
            && forall i :: 0 <= i < j ==> outcomes[1..][i].Ok?;
          assert outcomes[j + 1] == Err(r.error);
          assert forall i :: 1 <= i < j + 1 ==> outcomes[i] == outcomes[1..][i - 1];
        }
      }
      if r.Ok? {
        assert outcomes == [outcomes[0]] + outcomes[1..];
      }
    }
  }

  /** `idx` lists, in increasing order, the positions of exactly the
      outcomes that yield an utterance, and `v` holds those utterances in
      the same order. */
  predicate YieldsAt(outcomes: seq<Result<Option<Sentence>>>, idx: seq<nat>, v: seq<Sentence>) {
    && |idx| == |v|
    && (forall j :: 0 <= j < |idx| ==> idx[j] < |outcomes| && outcomes[idx[j]] == Ok(Some(v[j])))
    && (forall j, h :: 0 <= j < h < |idx| ==> idx[j] < idx[h])
    && (forall k :: 0 <= k < |outcomes| && outcomes[k].Ok? && outcomes[k].value.Some? ==> k in idx)
  }

  /** A run that succeeds yields the utterances of the non-skipped lines in
      line order, each exactly once. */
  lemma {:induction false} CollectOrder(outcomes: seq<Result<Option<Sentence>>>)
    requires Collect(outcomes).Ok?
    ensures exists idx :: YieldsAt(outcomes, idx, Collect(outcomes).value)
    decreases |outcomes|
  {
    if |outcomes| == 0 {
      assert YieldsAt(outcomes, [], []);
    } else {
      var tail := outcomes[1..];
      CollectOrder(tail);
      var idx' :| YieldsAt(tail, idx', Collect(tail).value);
      var v' := Collect(tail).value;
      var shifted := ShiftPositions(outcomes, idx', v');
      if outcomes[0].value.Some? {
        YieldsFirst(outcomes, shifted, v');
        assert Collect(outcomes).value == [outcomes[0].value.value] + v';
      } else {
        YieldsSkipped(outcomes, shifted, v');
        assert Collect(outcomes).value == v';
      }
    }
  }

  /** The positions for the tail of `outcomes`, each moved up by one: they
      list the yielding outcomes after the first. */
  lemma ShiftPositions(outcomes: seq<Result<Option<Sentence>>>, idx': seq<nat>, v': seq<Sentence>) returns (shifted: seq<nat>)
    requires |outcomes| > 0
    requires YieldsAt(outcomes[1..], idx', v')
    ensures |shifted| == |v'|
    ensures forall j :: 0 <= j < |shifted| ==> 0 < shifted[j] < |outcomes| && outcomes[shifted[j]] == Ok(Some(v'[j]))
    ensures forall j, h :: 0 <= j < h < |shifted| ==> shifted[j] < shifted[h]
    ensures forall k :: 0 < k < |outcomes| && outcomes[k].Ok? && outcomes[k].value.Some? ==> k in shifted
  {
    var tail := outcomes[1..];
    shifted := seq(|idx'|, i requires 0 <= i < |idx'| => idx'[i] + 1);
    forall j | 0 <= j < |shifted|
      ensures 0 < shifted[j] < |outcomes| && outcomes[shifted[j]] == Ok(Some(v'[j]))
    {
      assert outcomes[shifted[j]] == tail[idx'[j]];
    }
    forall k | 0 < k < |outcomes| && outcomes[k].Ok? && outcomes[k].value.Some? ensures k in shifted {
      assert tail[k - 1] == outcomes[k];
      var m :| 0 <= m < |idx'| && idx'[m] == k - 1;
      assert shifted[m] == k;
    }
  }

  /** When the first outcome is skipped, the moved positions are all. */
  lemma YieldsSkipped(outcomes: seq<Result<Option<Sentence>>>, shifted: seq<nat>, v': seq<Sentence>)
    requires |outcomes| > 0 && outcomes[0] == Ok(None)
    requires |shifted| == |v'|
    requires forall j :: 0 <= j < |shifted| ==> 0 < shifted[j] < |outcomes| && outcomes[shifted[j]] == Ok(Some(v'[j]))
    requires forall j, h :: 0 <= j < h < |shifted| ==> shifted[j] < shifted[h]
    requires forall k :: 0 < k < |outcomes| && outcomes[k].Ok? && outcomes[k].value.Some? ==> k in shifted
    ensures YieldsAt(outcomes, shifted, v')
  {
  }

  /** When the first outcome yields, position 0 goes in front. */
  lemma YieldsFirst(outcomes: seq<Result<Option<Sentence>>>, shifted: seq<nat>, v': seq<Sentence>)
    requires |outcomes| > 0 && outcomes[0].Ok? && outcomes[0].value.Some?
    requires |shifted| == |v'|
    requires forall j :: 0 <= j < |shifted| ==> 0 < shifted[j] < |outcomes| && outcomes[shifted[j]] == Ok(Some(v'[j]))
    requires forall j, h :: 0 <= j < h < |shifted| ==> shifted[j] < shifted[h]
    requires forall k :: 0 < k < |outcomes| && outcomes[k].Ok? && outcomes[k].value.Some? ==> k in shifted
    ensures YieldsAt(outcomes, [0] + shifted, [outcomes[0].value.value] + v')
  {
    var idx, v := [0] + shifted, [outcomes[0].value.value] + v';
    forall j | 0 <= j < |idx| ensures idx[j] < |outcomes| && outcomes[idx[j]] == Ok(Some(v[j])) {
      if j > 0 {
        assert idx[j] == shifted[j - 1] && v[j] == v'[j - 1];
      }
    }
    forall j, h | 0 <= j < h < |idx| ensures idx[j] < idx[h] {
      assert idx[h] == shifted[h - 1];
      if j > 0 {
        assert idx[j] == shifted[j - 1];
      }
    }
    forall k | 0 <= k < |outcomes| && outcomes[k].Ok? && outcomes[k].value.Some? ensures k in idx {
      if k > 0 {
        assert k in shifted;
      }
    }
  }

  /** The outcomes of AISHELL-3 lines, one per line. */
  function Aishell3Outcomes(folder: string, lines: seq<string>, removeTone: bool): (r: seq<Result<Option<Sentence>>>)
    ensures |r| == |lines|
    decreases |lines|
  {
    if |lines| == 0 then [] else [Aishell3Line(folder, lines[0], removeTone)] + Aishell3Outcomes(folder, lines[1..], removeTone)
  }

  lemma Aishell3OutcomesStep(folder: string, lines: seq<string>, i: nat, removeTone: bool)
    requires i < |lines|
    ensures Collect(Aishell3Outcomes(folder, lines[i..], removeTone))
         == Emit(Aishell3Line(folder, lines[i], removeTone), Collect(Aishell3Outcomes(folder, lines[i + 1..], removeTone)))
  {
    assert lines[i..][1..] == lines[i + 1..];
    var o := Aishell3Outcomes(folder, lines[i..], removeTone);
    assert o[1..] == Aishell3Outcomes(folder, lines[i + 1..], removeTone);
  }

  /** The loop of `Aishell3Processor.process` over one folder's lines. */
  method Aishell3Folder(folder: string, lines: seq<string>, removeTone: bool) returns (r: Result<seq<Sentence>>)
    ensures r == Collect(Aishell3Outcomes(folder, lines, removeTone))
  {
    var sentences := [];
    assert lines[0..] == lines;
    PrependNil(Collect(Aishell3Outcomes(folder, lines, removeTone)));
    for i := 0 to |lines|
      invariant Collect(Aishell3Outcomes(folder, lines, removeTone))
             == Prepend(sentences, Collect(Aishell3Outcomes(folder, lines[i..], removeTone)))
    {
      Aishell3OutcomesStep(folder, lines, i, removeTone);
      var rest := Collect(Aishell3Outcomes(folder, lines[i + 1..], removeTone));
      var outcome := Aishell3Line(folder, lines[i], removeTone);
      EmitPrepend(sentences, outcome, rest);
      match outcome {
        case Err(e) =>
          return Err(e);
        case Ok(None) =>
        case Ok(Some(s)) =>
          sentences := sentences + [s];
      }
    }
    assert lines[|lines|..] == [] && sentences + [] == sentences;
    r := Ok(sentences);
  }

  /** `Aishell3Processor.process`: the `train` folder, then the `test`
      folder. */
  method Aishell3Process(train: seq<string>, test: seq<string>, removeTone: bool) returns (r: Result<seq<Sentence>>)
    ensures r == match Collect(Aishell3Outcomes("train", train, removeTone))
                 case Err(e) => Err(e)
                 case Ok(first) => Prepend(first, Collect(Aishell3Outcomes("test", test, removeTone)))
  {
    var first := Aishell3Folder("train", train, removeTone);
    if first.Err? {
      return first;
    }
    var second := Aishell3Folder("test", test, removeTone);
    r := Prepend(first.value, second);
  }

  /** The outcomes of Biaobei line pairs; a last unpaired line is ignored. */
  function BiaobeiOutcomes(lines: seq<string>, removeTone: bool): (r: seq<Result<Option<Sentence>>>)
    ensures |r| == |lines| / 2
    decreases |lines|
  {
    if |lines| < 2 then [] else [BiaobeiPair(lines[0], lines[1], removeTone)] + BiaobeiOutcomes(lines[2..], removeTone)
  }

  lemma BiaobeiOutcomesStep(lines: seq<string>, i: nat, removeTone: bool)
    requires i + 1 < |lines|
    ensures Collect(BiaobeiOutcomes(lines[i..], removeTone))
         == Emit(BiaobeiPair(lines[i], lines[i + 1], removeTone), Collect(BiaobeiOutcomes(lines[i + 2..], removeTone)))
  {
    assert lines[i..][2..] == lines[i + 2..];
    var o := BiaobeiOutcomes(lines[i..], removeTone);
    assert o[1..] == BiaobeiOutcomes(lines[i + 2..], removeTone);
  }

  /** `BiaobeiProcessor.process`: the loop over line pairs. */
  method BiaobeiProcess(lines: seq<string>, removeTone: bool) returns (r: Result<seq<Sentence>>)
    ensures r == Collect(BiaobeiOutcomes(lines, removeTone))
  {
    var sentences := [];
    assert lines[0..] == lines;
    PrependNil(Collect(BiaobeiOutcomes(lines, removeTone)));
    var i := 0;
    while i < |lines|
      invariant i <= |lines|
      invariant Collect(BiaobeiOutcomes(lines, removeTone))
             == Prepend(sentences, Collect(BiaobeiOutcomes(lines[i..], removeTone)))
    {
      if i + 1 >= |lines| {
        break;
      }
      BiaobeiOutcomesStep(lines, i, removeTone);
      var rest := Collect(BiaobeiOutcomes(lines[i + 2..], removeTone));
      var outcome := BiaobeiPair(lines[i], lines[i + 1], removeTone);
      EmitPrepend(sentences, outcome, rest);
      match outcome {
        case Err(e) =>
          return Err(e);
        case Ok(None) =>
        case Ok(Some(s)) =>
          sentences := sentences + [s];
      }
      i := i + 2;
    }
    BiaobeiOutcomesEnd(lines, i, removeTone);
    assert sentences + [] == sentences;
    r := Ok(sentences);
  }

  /** Fewer than two lines left: nothing more is yielded. */
  lemma BiaobeiOutcomesEnd(lines: seq<string>, i: nat, removeTone: bool)
    requires i <= |lines| < i + 2
    ensures Collect(BiaobeiOutcomes(lines[i..], removeTone)) == Ok([])
  {
    assert |lines[i..]| < 2;
  }

  /* ---------------------------------------------------------------------
     get_processor
     --------------------------------------------------------------------- */

  datatype Processor = BiaobeiProcessor | Aishell3Processor | GeneralProcessor

  /** `get_processor`: the registered processor for a known dataset name,
      and the general one for every other name; there is always one. */
  function GetProcessor(datasetName: string): (p: Processor)
    ensures p == BiaobeiProcessor <==> datasetName == "biaobei"
    ensures p == Aishell3Processor <==> datasetName == "aishell3"
    ensures p == GeneralProcessor <==> datasetName != "biaobei" && datasetName != "aishell3"
  {
    var processors := map["biaobei" := BiaobeiProcessor, "aishell3" := Aishell3Processor, "general" := GeneralProcessor];
    if datasetName in processors then processors[datasetName] else GeneralProcessor
  }
}
