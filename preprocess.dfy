/** The legacy AISHELL-3 preprocessing script: it reads `content.txt`
    lines (`<wav name>\t<hanzi> <pinyin> <hanzi> <pinyin> ...`), replaces
    traditional and rare characters, splits an erhua syllable such as
    `dianr3` into `dian3 r5`, and writes each utterance's `.lab` text.
    Reading and writing files is not modelled: a folder's lines come in as
    a sequence and the `.lab` text is returned. */
module Preprocess {
  import opened Builtins

  /** Write pinyin (true) or hanzi (false) into the `.lab` files. */
  const UsePinyin := false
  /** Follow every `.lab` token with a space. */
  const AddSpacing := true

  /** Traditional, Japanese and rare characters and their replacements. */
  const ReplaceHanziTable: map<string, string> := map[
    "聖" := "圣",
    "龑" := "䶮",
    "姍" := "姗",
    "見" := "见",
    "靂" := "雳",
    "時" := "时",
    "咘" := "布",
    "芓" := "字",
    "會" := "会",
    "甯" := "宁",
    "堺" := "界",
    "沒" := "没",
    "脹" := "胀",
    "妳" := "你",
    "愛" := "爱",
    "後" := "后",
    "峯" := "峰",
    "給" := "给",
    "龍" := "龙",
    "魟" := "𫚉",
    "扞" := "捍",
    "們" := "们",
    "鮑" := "鲍",
    "堃" := "坤",
    "來" := "来",
    "渀" := "奔"
  ]

  /** Transcripts that replace the corpus text of two recordings. */
  const ManualFixes: map<string, string> := map[
    "SSB17450244.wav" := "他 ta1 不 bu2 到 dao4 两 liang3 岁 sui4 的 de5 儿 er2 子 zi5 碰 peng4 触 chu4 车 che1 钥 yao4 匙 shi5",
    "SSB09660370.wav" := "偶 ou3 像 xiang4 喜 xi3 剧 ju4 电 dian4 视 shi4 剧 ju4 有 you3 什 shen2 么 me5"
  ]

  datatype LabSentence = LabSentence(word: seq<(string, string)>, split: string, speaker: string, id: string)

  /** One hanzi token after the replacement table. */
  function ReplaceHanzi(h: string): (r: string)
    ensures h in ReplaceHanziTable ==> r == ReplaceHanziTable[h]
    ensures h !in ReplaceHanziTable ==> r == h
  {
    if h in ReplaceHanziTable then ReplaceHanziTable[h] else h
  }

  /** The replacement only ever rewrites a character into a different one,
      and no replacement is itself replaced again. */
  lemma ReplaceHanziOnce(h: string)
    ensures h in ReplaceHanziTable ==> ReplaceHanzi(h) != h
    ensures ReplaceHanzi(ReplaceHanzi(h)) == ReplaceHanzi(h)
  {
  }

  /** Every hanzi token replaced, keeping their number and order. */
  function ReplaceAll(hanzi: seq<string>): (r: seq<string>)
    ensures |r| == |hanzi|
  {
    if |hanzi| == 0 then [] else [ReplaceHanzi(hanzi[0])] + ReplaceAll(hanzi[1..])
  }

  lemma {:induction false} ReplaceAllAt(hanzi: seq<string>, k: nat)
    requires k < |hanzi|
    ensures ReplaceAll(hanzi)[k] == ReplaceHanzi(hanzi[k])
    decreases k
  {
    if k > 0 { ReplaceAllAt(hanzi[1..], k - 1); }
  }

  /** The loop of the script over the hanzi tokens of one line. */
  method ReplaceHanziTokens(hanzi: seq<string>) returns (processed: seq<string>)
    ensures processed == ReplaceAll(hanzi)
  {
    processed := [];
    for k := 0 to |hanzi|
      invariant |processed| == k
      invariant forall j :: 0 <= j < k ==> processed[j] == ReplaceHanzi(hanzi[j])
    {
      processed := processed + [ReplaceHanzi(hanzi[k])];
    }
    forall k | 0 <= k < |hanzi| ensures processed[k] == ReplaceAll(hanzi)[k] { ReplaceAllAt(hanzi, k); }
  }

  /** The erhua test of the preprocessing loop: not the syllable `r5`, not
      the syllable `er` with a tone, and an `r` just before the tone. */
  predicate IsErhuaToken(p: string)
    requires |p| >= 2
  {
    p != "r5" && p[..|p| - 1] != "er" && p[|p| - 2] == 'r'
  }

  /** `dianr3` becomes `dian3 r5`: the `r` moves behind the tone as a
      syllable of its own, inside the same token. Other tokens are kept. */
  function SplitErhuaToken(p: string): (r: string)
    requires |p| >= 2
  {
    if IsErhuaToken(p) then p[..|p| - 2] + [p[|p| - 1]] + " r5" else p
  }

  /** Reverses the split: `dian3 r5` back to `dianr3`. */
  function JoinErhuaToken(q: string): string {
    if |q| >= 4 && q[|q| - 3..] == " r5" then q[..|q| - 4] + "r" + [q[|q| - 4]] else q
  }

  /** An erhua token is split into a base syllable with the tone and a
      separate `r5`, and joining them again gives the original token. Every
      other token passes through untouched. */
  lemma SplitErhuaTokenInverse(p: string)
    requires |p| >= 2
    ensures IsErhuaToken(p) ==>
              EndsWith(SplitErhuaToken(p), " r5") && JoinErhuaToken(SplitErhuaToken(p)) == p
    ensures !IsErhuaToken(p) ==> SplitErhuaToken(p) == p
  {
    if IsErhuaToken(p) {
      var q := SplitErhuaToken(p);
      assert q[|q| - 3..] == " r5";
      assert q[..|q| - 4] == p[..|p| - 2];
      assert q[|q| - 4] == p[|p| - 1];
      assert p == p[..|p| - 2] + "r" + [p[|p| - 1]];
    }
  }

  lemma SplitErhuaTokenExamples()
    ensures SplitErhuaToken("dianr3") == "dian3 r5"
    ensures SplitErhuaToken("er2") == "er2"
    ensures SplitErhuaToken("r5") == "r5"
    ensures SplitErhuaToken("ta1") == "ta1"
  {
    assert "dianr3"[..5] != "er";
    assert "er2"[..2] == "er";
  }

  /** Processes every pinyin token of a line. A token shorter than two
      characters makes the erhua test index out of range, which raises
      `IndexError` for the whole line; otherwise each token gives exactly
      one processed token. */
  function SplitErhuaAll(pinyin: seq<string>): (r: Result<seq<string>>)
    ensures r.Err? <==> exists k :: 0 <= k < |pinyin| && |pinyin[k]| < 2
    ensures r.Err? ==> r.error == IndexError
    ensures r.Ok? ==>
              |r.value| == |pinyin|
              && forall k :: 0 <= k < |pinyin| ==> |pinyin[k]| >= 2 && r.value[k] == SplitErhuaToken(pinyin[k])
    decreases |pinyin|
  {
    if |pinyin| == 0 then Ok([])
    else if |pinyin[0]| < 2 then Err(IndexError)
    else match SplitErhuaAll(pinyin[1..])
      case Err(e) => Err(e)
      case Ok(rest) => Ok([SplitErhuaToken(pinyin[0])] + rest)
  }

  /** The loop of the script over the pinyin tokens of one line. */
  method SplitErhuaTokens(pinyin: seq<string>) returns (r: Result<seq<string>>)
    ensures r == SplitErhuaAll(pinyin)
  {
    var processed := [];
    for k := 0 to |pinyin|
      invariant |processed| == k
      invariant forall j :: 0 <= j < k ==> |pinyin[j]| >= 2 && processed[j] == SplitErhuaToken(pinyin[j])
    {
      var p := pinyin[k];
      if |p| < 2 {
        assert SplitErhuaAll(pinyin).Err?;
        return Err(IndexError);
      }
      processed := processed + [SplitErhuaToken(p)];
    }
    r := Ok(processed);
    assert SplitErhuaAll(pinyin).Ok?;
    assert SplitErhuaAll(pinyin).value == processed;
  }

  /** `line.rstrip().split("\t")`, which must give exactly the wav name and
      the transcript. */
  function LineFields(line: string): seq<string> {
    SplitOn(RStrip(line), '\t')
  }

  /** The transcript after the manual fixes, split at single spaces:
      hanzi at the even positions, pinyin at the odd ones. */
  function LineTokens(wav: string, text: string): seq<string> {
    SplitOn(if wav in ManualFixes then ManualFixes[wav] else text, ' ')
  }

  /** The utterance id: the wav name with `.wav` removed. */
  function IdOf(wav: string): string {
    RemoveAll(wav, ".wav")
  }

  /** The speaker: the id without its last four characters, so always a
      prefix of the id, and empty when the id has fewer than four. */
  function SpeakerOf(wav: string): (r: string)
    ensures r <= IdOf(wav)
    ensures |r| == if |IdOf(wav)| >= 4 then |IdOf(wav)| - 4 else 0
  {
    DropLast(IdOf(wav), 4)
  }

  lemma IdOfWavName(stem: string)
    requires '.' !in stem
    ensures IdOf(stem + ".wav") == stem
    ensures |stem| >= 4 ==> SpeakerOf(stem + ".wav") == stem[..|stem| - 4]
  {
    RemoveAllSuffix(stem, ".wav");
  }

  /** One `content.txt` line as `get_sentences` turns it into an utterance. */
  function SentenceOf(folder: string, line: string): Result<LabSentence>
  {
    var fields := LineFields(line);
    if |fields| != 2 then Err(ValueError)
    else
      var wav := fields[0];
      var tokens := LineTokens(wav, fields[1]);
      var pinyin, hanzi := Odds(tokens), Evens(tokens);
      var processedHanzi := ReplaceAll(hanzi);
      match SplitErhuaAll(pinyin)
      case Err(e) => Err(e)
      case Ok(processedPinyin) =>
        if |processedPinyin| != |processedHanzi| then Err(AssertionError)
        else Ok(LabSentence(Zip(processedPinyin, processedHanzi), folder, SpeakerOf(wav), IdOf(wav)))
  }

  /** A line with other than two tab-separated fields raises `ValueError`; a
      pinyin token shorter than two characters raises `IndexError`; unequal
      numbers of pinyin and hanzi fail the assertion. Otherwise the
      utterance pairs the k-th processed pinyin with the k-th processed
      hanzi, one pair per token of each, and carries the id and speaker
      derived from the wav name. */
  lemma SentenceOfSpec(folder: string, line: string)
    ensures |LineFields(line)| != 2 <==> SentenceOf(folder, line) == Err(ValueError)
    ensures |LineFields(line)| == 2 ==>
      var r := SentenceOf(folder, line);
      var tokens := LineTokens(LineFields(line)[0], LineFields(line)[1]);
      var pinyin, hanzi := Odds(tokens), Evens(tokens);
      && ((exists k :: 0 <= k < |pinyin| && |pinyin[k]| < 2) <==> r == Err(IndexError))
      && ((forall k :: 0 <= k < |pinyin| ==> |pinyin[k]| >= 2) && |pinyin| != |hanzi| <==> r == Err(AssertionError))
      && (r.Ok? ==>
            && |r.value.word| == |pinyin| == |hanzi|
            && (forall k :: 0 <= k < |hanzi| ==>
                  |pinyin[k]| >= 2 && r.value.word[k] == (SplitErhuaToken(pinyin[k]), ReplaceHanzi(hanzi[k])))
            && r.value.split == folder
            && r.value.id == IdOf(LineFields(line)[0])
            && r.value.speaker == SpeakerOf(LineFields(line)[0]))
  {
    if |LineFields(line)| == 2 {
      var hanzi := Evens(LineTokens(LineFields(line)[0], LineFields(line)[1]));
      forall k | 0 <= k < |hanzi| ensures ReplaceAll(hanzi)[k] == ReplaceHanzi(hanzi[k]) {
        ReplaceAllAt(hanzi, k);
      }
    }
  }

  /** The outcome of every line of one folder, in order. */
  function Outcomes(folder: string, lines: seq<string>): seq<Result<LabSentence>> {
    seq(|lines|, i requires 0 <= i < |lines| => SentenceOf(folder, lines[i]))
  }

  /** All lines of one folder; the first malformed line ends the run with
      its error. */
  function SentencesOf(folder: string, lines: seq<string>): Result<seq<LabSentence>> {
    AllOk(Outcomes(folder, lines))
  }

  /** The pinyin of every word of an utterance is at least two characters
      long: an erhua token grows by its `r5`, any other is kept. */
  lemma SentenceOfPinyins(folder: string, line: string, s: LabSentence)
    requires SentenceOf(folder, line) == Ok(s)
    ensures forall k :: 0 <= k < |s.word| ==> |s.word[k].0| >= 2
  {
    SentenceOfSpec(folder, line);
  }

  /** `get_sentences` over the whole corpus: the `train` folder, then the
      `test` folder. An error in either ends the run. */
  function CorpusSentences(train: seq<string>, test: seq<string>): Result<seq<LabSentence>> {
    match SentencesOf("train", train)
    case Err(e) => Err(e)
    case Ok(a) => Prepend(a, SentencesOf("test", test))
  }

  /** A corpus that loads holds the utterances of the `train` folder, then
      those of the `test` folder. */
  lemma CorpusOrigins(train: seq<string>, test: seq<string>)
    requires CorpusSentences(train, test).Ok?
    ensures SentencesOf("train", train).Ok? && SentencesOf("test", test).Ok?
    ensures CorpusSentences(train, test).value == SentencesOf("train", train).value + SentencesOf("test", test).value
  {
  }

  /** A folder that loads holds exactly one utterance per line, in order. */
  lemma FolderOrigins(folder: string, lines: seq<string>)
    requires SentencesOf(folder, lines).Ok?
    ensures var ss := SentencesOf(folder, lines).value;
      && |ss| == |lines|
      && forall i :: 0 <= i < |lines| ==> SentenceOf(folder, lines[i]) == Ok(ss[i])
  {
    AllOkSpec(Outcomes(folder, lines));
  }

  /** Every word's pinyin in the corpus is at least two characters long. */
  lemma CorpusPinyins(train: seq<string>, test: seq<string>)
    requires CorpusSentences(train, test).Ok?
    ensures var ss := CorpusSentences(train, test).value;
      forall i, k :: 0 <= i < |ss| && 0 <= k < |ss[i].word| ==> |ss[i].word[k].0| >= 2
  {
    CorpusOrigins(train, test);
    FolderOrigins("train", train);
    FolderOrigins("test", test);
    var a, b := SentencesOf("train", train).value, SentencesOf("test", test).value;
    var ss := CorpusSentences(train, test).value;
    forall i | 0 <= i < |ss| ensures forall k :: 0 <= k < |ss[i].word| ==> |ss[i].word[k].0| >= 2 {
      if i < |a| {
        assert ss[i] == a[i];
        SentenceOfPinyins("train", train[i], a[i]);
      } else {
        assert ss[i] == b[i - |a|];
        SentenceOfPinyins("test", test[i - |a|], b[i - |a|]);
      }
    }
  }

  /** The body of the `get_sentences` loop for one line, with its two
      inner loops. */
  method GetSentence(folder: string, line: string) returns (r: Result<LabSentence>)
    ensures r == SentenceOf(folder, line)
  {
    var fields := LineFields(line);
    if |fields| != 2 {
      return Err(ValueError);
    }
    var wav := fields[0];
    var tokens := LineTokens(wav, fields[1]);
    var processedHanzi := ReplaceHanziTokens(Evens(tokens));
    var processedPinyin := SplitErhuaTokens(Odds(tokens));
    if processedPinyin.Err? {
      return Err(processedPinyin.error);
    }
    if |processedPinyin.value| != |processedHanzi| {
      return Err(AssertionError);
    }
    r := Ok(LabSentence(Zip(processedPinyin.value, processedHanzi), folder, SpeakerOf(wav), IdOf(wav)));
  }

  /** `get_sentences` for one folder: the utterances of its lines in order,
      or the error of the first line that raises. */
  method GetSentences(folder: string, lines: seq<string>) returns (r: Result<seq<LabSentence>>)
    ensures r == SentencesOf(folder, lines)
  {
    var sentences := [];
    ghost var outcomes := Outcomes(folder, lines);
    assert outcomes[0..] == outcomes;
    PrependNil(SentencesOf(folder, lines));
    for i := 0 to |lines|
      invariant SentencesOf(folder, lines) == Prepend(sentences, AllOk(outcomes[i..]))
    {
      AllOkStep(outcomes, i);
      var s := GetSentence(folder, lines[i]);
      if s.Err? {
        return Err(s.error);
      }
      PrependPrepend(sentences, [s.value], AllOk(outcomes[i + 1..]));
      sentences := sentences + [s.value];
    }
    assert outcomes[|lines|..] == [] && sentences + [] == sentences;
    r := Ok(sentences);
  }

  /** `get_sentences`: the two folders in turn. */
  method GetCorpusSentences(train: seq<string>, test: seq<string>) returns (r: Result<seq<LabSentence>>)
    ensures r == CorpusSentences(train, test)
  {
    var a := GetSentences("train", train);
    if a.Err? {
      return Err(a.error);
    }
    var b := GetSentences("test", test);
    if b.Err? {
      return Err(b.error);
    }
    r := Ok(a.value + b.value);
  }

  /** The token an utterance contributes per word: its pinyin or its hanzi,
      followed by a space when spacing is on. */
  function LabToken(w: (string, string), usePinyin: bool, addSpacing: bool): string {
    (if usePinyin then w.0 else w.1) + (if addSpacing then " " else "")
  }

  /** The text written to one `.lab` file, built by concatenation in a loop
      and stripped of surrounding whitespace at the end. */
  method LabText(word: seq<(string, string)>, usePinyin: bool, addSpacing: bool) returns (text: string)
    ensures text == Strip(Concat(seq(|word|, k requires 0 <= k < |word| => LabToken(word[k], usePinyin, addSpacing))))
  {
    var processed := "";
    for k := 0 to |word|
      invariant processed == Concat(seq(k, j requires 0 <= j < k => LabToken(word[j], usePinyin, addSpacing)))
    {
      var tokens := seq(k + 1, j requires 0 <= j < k + 1 => LabToken(word[j], usePinyin, addSpacing));
      ConcatSnoc(tokens);
      assert tokens[..k] == seq(k, j requires 0 <= j < k => LabToken(word[j], usePinyin, addSpacing));
      processed := processed + LabToken(word[k], usePinyin, addSpacing);
    }
    text := Strip(processed);
  }

  /** With the settings of the script (hanzi, spaced), an utterance whose
      hanzi are all trimmed is written as its hanzi separated by single
      spaces: the spacing after the last one is stripped. */
  lemma LabTextHanzi(word: seq<(string, string)>)
    requires |word| > 0
    requires forall k :: 0 <= k < |word| ==> Trimmed(word[k].1)
    ensures Strip(Concat(seq(|word|, k requires 0 <= k < |word| => LabToken(word[k], UsePinyin, AddSpacing))))
         == Join(" ", seq(|word|, k requires 0 <= k < |word| => word[k].1))
  {
    var hanzi := seq(|word|, k requires 0 <= k < |word| => word[k].1);
    ConcatSpaced(hanzi);
    assert seq(|hanzi|, k requires 0 <= k < |hanzi| => hanzi[k] + " ")
        == seq(|word|, k requires 0 <= k < |word| => LabToken(word[k], UsePinyin, AddSpacing));
    JoinTrimmed(hanzi);
    StripSpaced(Join(" ", hanzi));
  }
}
