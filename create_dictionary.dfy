/** The pronunciation dictionary builder: every pinyin syllable that occurs
    in the corpus is converted to IPA phones, erhua syllables (a rime with
    a final `r`) by splicing a rhotacized rime into the conversion of the
    syllable without its `r`; the (pinyin, phones) entries are deduplicated,
    sorted and written one per line. The pinyin-to-IPA converter is a
    library outside this model and comes in as the parameter `convert`,
    giving the candidate phone lists of a syllable. */
module CreateDictionary {
  import opened Builtins
  import opened Order
  import Preprocess

  /** The rhotacized rimes, keyed by the ending of the erhua syllable, in
      the order the table is declared; the first key the syllable ends with
      is used. Some values hold a space: they are one list element that is
      written as two phones. */
  const SuffixTable: seq<(string, string)> := [
    ("anr", "ɐ ɻ"),  // 0
    ("enr", "ɚ"),  // 1
    ("inr", "ɚ"),  // 2
    ("unr", "ɚ"),  // 3
    ("angr", "ɑ̃ ɻ"),  // 4
    ("engr", "ɤ̃ ɻ"),  // 5
    ("ingr", "ɤ̃ ɻ"),  // 6
    ("iongr", "ʊ̃ ɻ"),  // 7
    ("ongr", "ʊ̃ ɻ"),  // 8
    ("our", "ou̯˞"),  // 9
    ("iur", "ou̯ ɻ"),  // 10
    ("aor", "ou̯˞"),  // 11
    ("iaor", "ɑu̯ ɻ"),  // 12
    ("eir", "ɚ"),  // 13
    ("uir", "ɚ"),  // 14
    ("air", "ɐ ɻ"),  // 15
    ("ier", "ɛ ɻ"),  // 16
    ("uer", "œ ɻ"),  // 17
    ("er", "ɤ ɻ"),  // 18
    ("or", "ɔ ɻ"),  // 19
    ("ar", "ɐ ɻ"),  // 20
    ("ir", "ɚ"),  // 21
    ("ur", "u˞"),  // 22
    ("vr", "ɚ")   // 23
  ]

  /** The nasal-final keys, whose rime replaces two phones instead of one. */
  const StripTwo: seq<string> := ["anr", "enr", "inr", "unr", "angr", "engr", "ingr", "iongr", "ongr"]

  /** The rime appended for `jur` and `yur` instead of the table value. */
  const JurRime := "ɥɚ"

  /** The first table key at or after position `t` that `pinyin` ends with. */
  function FirstMatchFrom(pinyin: string, t: nat): (r: Option<nat>)
    requires t <= |SuffixTable|
    ensures r.Some? ==> t <= r.value < |SuffixTable| && EndsWith(pinyin, SuffixTable[r.value].0)
    ensures forall u :: t <= u < |SuffixTable| && (r.None? || u < r.value) ==> !EndsWith(pinyin, SuffixTable[u].0)
    decreases |SuffixTable| - t
  {
    if t == |SuffixTable| then None
    else if EndsWith(pinyin, SuffixTable[t].0) then Some(t)
    else FirstMatchFrom(pinyin, t + 1)
  }

  /** The position of the table key the erhua loop stops at, if any. */
  function FirstMatch(pinyin: string): Option<nat> {
    FirstMatchFrom(pinyin, 0)
  }

  /** The scan selects key `t` exactly when the syllable ends with it and
      with no key declared before it. */
  lemma FirstMatchIs(pinyin: string, t: nat)
    requires t < |SuffixTable| && EndsWith(pinyin, SuffixTable[t].0)
    requires forall u :: 0 <= u < t ==> !EndsWith(pinyin, SuffixTable[u].0)
    ensures FirstMatch(pinyin) == Some(t)
  {
    var r := FirstMatchFrom(pinyin, 0);
    assert r.Some?;
    assert r.value <= t;
  }

  lemma EndsWithTransitive(s: string, a: string, b: string)
    requires EndsWith(s, a) && EndsWith(a, b)
    ensures EndsWith(s, b)
  {
    assert s[|s| - |b|..] == a[|a| - |b|..];
  }

  /** A string ending in `b` cannot end in `a` when neither of `a`, `b` ends
      the other. */
  lemma NotEndsWith(s: string, a: string, b: string)
    requires EndsWith(s, b) && !EndsWith(a, b) && !EndsWith(b, a)
    ensures !EndsWith(s, a)
  {
    if EndsWith(s, a) {
      if |a| <= |b| { EndsWithBoth(s, a, b); } else { EndsWithBoth(s, b, a); }
    }
  }

  /** A string whose `j`-th character from the end differs from that of
      `key` does not end with `key`. */
  lemma Mismatch(s: string, key: string, j: nat)
    requires j < |key| && j < |s| && key[|key| - 1 - j] != s[|s| - 1 - j]
    ensures !EndsWith(s, key)
  {
    if |key| <= |s| {
      assert s[|s| - |key|..][|key| - 1 - j] == s[|s| - 1 - j];
    }
  }

  /** The keys declared before `aor` have `n`, `g` or `u` before their
      final `r`. */
  lemma KeyBeforeAor(u: nat)
    requires u < 11
    ensures var key := SuffixTable[u].0;
      |key| >= 2 && key[|key| - 2] in "ngu"
  {
  }

  /** `iaor` can never match: every syllable ending in `iaor` also ends in
      `aor`, which is declared first, so it gets the rime of `aor`. */
  lemma IaorShadowed(pinyin: string)
    requires EndsWith(pinyin, "iaor")
    ensures FirstMatch(pinyin) == Some(11) && SuffixTable[11].0 == "aor"
  {
    forall u | 0 <= u < 11 ensures !EndsWith(pinyin, SuffixTable[u].0) {
      IaorSkips(pinyin, u);
    }
    EndsWithTransitive(pinyin, "iaor", "aor");
    FirstMatchIs(pinyin, 11);
  }

  /** A syllable ending in `iaor` does not end in a key declared before
      `aor`. */
  lemma IaorSkips(pinyin: string, u: nat)
    requires EndsWith(pinyin, "iaor") && u < 11
    ensures !EndsWith(pinyin, SuffixTable[u].0)
  {
    assert pinyin[|pinyin| - 2] == 'o';
    KeyBeforeAor(u);
    Mismatch(pinyin, SuffixTable[u].0, 1);
  }

  /** No syllable at all selects the `iaor` entry. */
  lemma IaorNeverMatches(pinyin: string)
    ensures FirstMatch(pinyin) != Some(12)
  {
    if EndsWith(pinyin, "iaor") {
      IaorShadowed(pinyin);
    }
  }

  /** The keys declared before `iongr` differ from `ongr` in the second or
      the fourth character from the end. */
  lemma KeyBeforeIongr(u: nat)
    requires u < 7
    ensures var key := SuffixTable[u].0;
      || (|key| >= 2 && key[|key| - 2] == 'n')
      || (|key| == 4 && key[0] in "aei")
  {
  }

  /** `iongr` is declared before `ongr`, so it wins for syllables ending in
      `iongr`; the other syllables ending in `ongr` get `ongr`. */
  lemma IongrBeforeOngr(pinyin: string)
    requires EndsWith(pinyin, "ongr")
    ensures FirstMatch(pinyin) == if EndsWith(pinyin, "iongr") then Some(7) else Some(8)
  {
    forall u | 0 <= u < 7 ensures !EndsWith(pinyin, SuffixTable[u].0) {
      OngrSkips(pinyin, u);
    }
    if EndsWith(pinyin, "iongr") {
      FirstMatchIs(pinyin, 7);
    } else {
      FirstMatchIs(pinyin, 8);
    }
  }

  /** A syllable ending in `ongr` does not end in a key declared before
      `iongr`. */
  lemma OngrSkips(pinyin: string, u: nat)
    requires EndsWith(pinyin, "ongr") && u < 7
    ensures !EndsWith(pinyin, SuffixTable[u].0)
  {
    assert pinyin[|pinyin| - 2] == 'g' && pinyin[|pinyin| - 4] == 'o';
    var key := SuffixTable[u].0;
    KeyBeforeIongr(u);
    if |key| >= 2 && key[|key| - 2] == 'n' {
      Mismatch(pinyin, key, 1);
    } else {
      Mismatch(pinyin, key, 3);
    }
  }

  /** Every syllable ending in a vowel letter followed by `r` finds a key. */
  lemma VowelRMatches(pinyin: string)
    requires exists v :: v in "aeiouv" && EndsWith(pinyin, [v, 'r'])
    ensures FirstMatch(pinyin).Some?
  {
    var v :| v in "aeiouv" && EndsWith(pinyin, [v, 'r']);
    var u := if v == 'e' then 18 else if v == 'o' then 19 else if v == 'a' then 20
             else if v == 'i' then 21 else if v == 'u' then 22 else 23;
    assert SuffixTable[u].0 == [v, 'r'];
  }

  /** How many trailing phones the rime of a key replaces. */
  function Cut(key: string): nat {
    if key in StripTwo then 2 else 1
  }

  /** One candidate phone list of the syllable without its `r`, turned into
      the erhua pronunciation: the matched key's last one or two phones are
      replaced by its rhotacized rime. Without a matching key the candidate
      is kept as it is. */
  function Rhotacize(pinyin: string, ipa: seq<string>): seq<string> {
    match FirstMatch(pinyin)
    case None => ipa
    case Some(t) =>
      DropLast(ipa, Cut(SuffixTable[t].0)) + [if pinyin == "jur" || pinyin == "yur" then JurRime else SuffixTable[t].1]
  }

  /** The keys whose rime replaces two phones are exactly the nasal ones,
      ending in `nr` or `ngr`; every key is at least two letters long. */
  lemma StripTwoNasal(t: nat)
    requires t < |SuffixTable|
    ensures var key := SuffixTable[t].0;
      && |key| >= 2
      && (Cut(key) == 2 <==> EndsWith(key, "nr") || EndsWith(key, "ngr"))
      && !EndsWith("ngr", key)
  {
    var key := SuffixTable[t].0;
    if t < 9 {
      KeyNasal(t);
      NasalEnding(key);
      assert key in StripTwo;
      if |key| == 3 {
        assert key[0] != "ngr"[0];
      }
    } else {
      KeyNotNasal(t);
    }
  }

  /** The keys before `our` are the `strip_two` keys, in the same order,
      and end in `nr` or `ngr`. */
  lemma KeyNasal(t: nat)
    requires t < 9
    ensures var key := SuffixTable[t].0;
      && key == StripTwo[t]
      && 3 <= |key| <= 5 && key[0] != 'n' && key[|key| - 1] == 'r'
      && (key[|key| - 2] == 'n' || (key[|key| - 2] == 'g' && key[|key| - 3] == 'n'))
  {
  }

  /** A key whose last letters are `n`, `r` or `n`, `g`, `r` ends in `nr`
      or `ngr`. */
  lemma NasalEnding(key: string)
    requires |key| >= 3 && key[|key| - 1] == 'r'
    requires key[|key| - 2] == 'n' || (key[|key| - 2] == 'g' && key[|key| - 3] == 'n')
    ensures EndsWith(key, "nr") || EndsWith(key, "ngr")
  {
    if key[|key| - 2] == 'n' {
      assert key[|key| - 2..] == "nr";
    } else {
      assert key[|key| - 3..] == "ngr";
    }
  }

  /** The keys from `our` on are not in `strip_two` and do not end in
      `nr` or `ngr`. */
  lemma KeyNotNasal(t: nat)
    requires 9 <= t < |SuffixTable|
    ensures var key := SuffixTable[t].0;
      && 2 <= |key| <= 4 && key[|key| - 1] == 'r' && key[|key| - 2] !in "ng"
      && key !in StripTwo
  {
  }

  /** Whether the erhua syllable ends in a nasal rime, which replaces two
      phones of a candidate. */
  predicate NasalErhua(pinyin: string) {
    EndsWith(pinyin, "nr") || EndsWith(pinyin, "ngr")
  }

  /** What the splice does to one candidate. Without a matching key it is
      unchanged. With one, the candidate loses its last two phones for a
      nasal rime and its last phone otherwise, everything before them is
      kept, and exactly one element is appended: `ɥɚ` for `jur` and `yur`,
      the matched key's rime for every other syllable. */
  lemma RhotacizeShape(pinyin: string, ipa: seq<string>)
    ensures FirstMatch(pinyin).None? ==> Rhotacize(pinyin, ipa) == ipa
    ensures FirstMatch(pinyin).Some? ==>
      var r := Rhotacize(pinyin, ipa);
      var kept := DropLast(ipa, if NasalErhua(pinyin) then 2 else 1);
      && |r| == |kept| + 1
      && r[..|kept|] == kept
      && r[|kept|] == if pinyin == "jur" || pinyin == "yur" then JurRime else SuffixTable[FirstMatch(pinyin).value].1
  {
    if FirstMatch(pinyin).Some? {
      var t := FirstMatch(pinyin).value;
      var key := SuffixTable[t].0;
      StripTwoNasal(t);
      if EndsWith(key, "nr") {
        EndsWithTransitive(pinyin, key, "nr");
      } else if EndsWith(key, "ngr") {
        EndsWithTransitive(pinyin, key, "ngr");
      } else {
        NotEndsWith(pinyin, "nr", key);
        NotEndsWith(pinyin, "ngr", key);
      }
      var kept := DropLast(ipa, Cut(key));
      assert (kept + [Rhotacize(pinyin, ipa)[|kept|]])[..|kept|] == kept;
    }
  }

  /** `jur` and `yur` match the key `ur`, but get `ɥɚ` instead of its rime
      `u˞`, in place of the last phone of each candidate. */
  lemma JurYurRime(pinyin: string, ipa: seq<string>)
    requires pinyin == "jur" || pinyin == "yur"
    ensures FirstMatch(pinyin) == Some(22) && SuffixTable[22] == ("ur", "u˞")
    ensures Rhotacize(pinyin, ipa) == DropLast(ipa, 1) + [JurRime]
  {
    JurYurMatch(pinyin);
    assert "ur" !in StripTwo;
  }

  lemma JurYurMatch(pinyin: string)
    requires pinyin == "jur" || pinyin == "yur"
    ensures FirstMatch(pinyin) == Some(22)
  {
    forall u | 0 <= u < 22 ensures !EndsWith(pinyin, SuffixTable[u].0) {
      JurYurSkips(pinyin, u);
    }
    assert SuffixTable[22].0 == "ur";
    FirstMatchIs(pinyin, 22);
  }

  lemma JurYurSkips(pinyin: string, u: nat)
    requires pinyin == "jur" || pinyin == "yur"
    requires u < 22
    ensures !EndsWith(pinyin, SuffixTable[u].0)
  {
    KeyBeforeUr(u);
  }

  /** The keys before `ur` whose next-to-last letter is `u` are `our` and
      `iur`. */
  lemma KeyBeforeUr(u: nat)
    requires u < 22
    ensures var key := SuffixTable[u].0;
      && 2 <= |key|
      && (key[|key| - 2] == 'u' ==> |key| == 3 && key[0] in "oi")
  {
  }

  /** `dianr`: the candidate `t j ɛ n` of `dian` loses `ɛ n` to the rime of
      `anr`, giving three elements that are written as four phones. */
  lemma DianrExample()
    ensures Rhotacize("dianr", ["t", "j", "ɛ", "n"]) == ["t", "j", "ɐ ɻ"]
    ensures Join(" ", ["t", "j", "ɐ ɻ"]) == "t j ɐ ɻ"
  {
    assert EndsWith("dianr", SuffixTable[0].0);
    assert "anr" in StripTwo;
  }

  /** `pinyin_to_ipa_erhua`: for each candidate of the syllable without its
      last character, the scan over the table that stops at the first key
      the syllable ends with. */
  method PinyinToIpaErhua(pinyin: string, convert: string -> seq<seq<string>>) returns (newIpas: seq<seq<string>>)
    ensures |newIpas| == |convert(DropLast(pinyin, 1))|
    ensures forall j :: 0 <= j < |newIpas| ==> newIpas[j] == Rhotacize(pinyin, convert(DropLast(pinyin, 1))[j])
  {
    var ipas := convert(DropLast(pinyin, 1));
    newIpas := [];
    for c := 0 to |ipas|
      invariant |newIpas| == c
      invariant forall j :: 0 <= j < c ==> newIpas[j] == Rhotacize(pinyin, ipas[j])
    {
      var ipa := ipas[c];
      var t := 0;
      while t < |SuffixTable|
        invariant t <= |SuffixTable|
        invariant FirstMatch(pinyin) == FirstMatchFrom(pinyin, t)
        invariant ipa == ipas[c]
      {
        var (k, v) := SuffixTable[t];
        if EndsWith(pinyin, k) {
          if k in StripTwo {
            ipa := DropLast(ipa, 2);
          } else {
            ipa := DropLast(ipa, 1);
          }
          if pinyin == "jur" || pinyin == "yur" {
            ipa := ipa + [JurRime];
          } else {
            ipa := ipa + [v];
          }
          assert ipa == Rhotacize(pinyin, ipas[c]);
          break;
        }
        t := t + 1;
      }
      newIpas := newIpas + [ipa];
    }
  }

  /** `is_erhua`: the syllable ends in `r` and is not `er` itself. */
  predicate IsErhua(pinyin: string)
    requires |pinyin| > 0
  {
    pinyin[|pinyin| - 1] == 'r' && pinyin != "er"
  }

  /** A syllable is erhua exactly when it ends in `r` and is not `er`; the
      bare `r` counts, `er` does not. */
  lemma IsErhuaSpec(pinyin: string)
    requires |pinyin| > 0
    ensures IsErhua(pinyin) <==> EndsWith(pinyin, "r") && pinyin != "er"
    ensures IsErhua("r") && !IsErhua("er") && IsErhua("dianr") && !IsErhua("dian3")
  {
    assert "r"[|"r"| - 1..] == "r";
  }

  /** A corpus token with a tone digit is never an erhua syllable, not even
      after the preprocessing has moved the `r` of `dianr3` into `dian3 r5`:
      the processed token still ends in a digit. */
  lemma TonedTokenNotErhua(p: string)
    requires |p| >= 2 && '0' <= p[|p| - 1] <= '9'
    ensures |Preprocess.SplitErhuaToken(p)| >= 2
    ensures !IsErhua(Preprocess.SplitErhuaToken(p))
  {
    var q := Preprocess.SplitErhuaToken(p);
    if Preprocess.IsErhuaToken(p) {
      assert q[|q| - 1] == '5';
    }
  }

  /** The candidate phone lists a syllable is written with: the converter's
      own for a plain syllable, the spliced ones for an erhua syllable. */
  function Candidates(pinyin: string, convert: string -> seq<seq<string>>): seq<seq<string>>
    requires |pinyin| > 0
  {
    if IsErhua(pinyin) then
      var ipas := convert(DropLast(pinyin, 1));
      seq(|ipas|, j requires 0 <= j < |ipas| => Rhotacize(pinyin, ipas[j]))
    else convert(pinyin)
  }

  /** The dictionary entries of one syllable: the syllable with each of its
      candidates, the phones separated by single spaces. */
  function EntriesOf(pinyin: string, convert: string -> seq<seq<string>>): (r: seq<Entry>)
    requires |pinyin| > 0
  {
    var c := Candidates(pinyin, convert);
    seq(|c|, j requires 0 <= j < |c| => (pinyin, Join(" ", c[j])))
  }

  /** The pinyin of every word of every utterance, in corpus order. */
  function Pinyins(ss: seq<Preprocess.LabSentence>): seq<string>
    decreases |ss|
  {
    if |ss| == 0 then []
    else Pinyins(ss[..|ss| - 1]) + WordPinyins(ss[|ss| - 1].word)
  }

  function WordPinyins(word: seq<(string, string)>): seq<string> {
    seq(|word|, k requires 0 <= k < |word| => word[k].0)
  }

  /** The syllables collected are exactly the pinyin of the words of the
      utterances. */
  lemma {:induction false} PinyinsMembers(ss: seq<Preprocess.LabSentence>, p: string)
    ensures p in Pinyins(ss) <==> exists i, k :: 0 <= i < |ss| && 0 <= k < |ss[i].word| && ss[i].word[k].0 == p
    decreases |ss|
  {
    if |ss| > 0 {
      var n := |ss| - 1;
      var init := ss[..n];
      PinyinsMembers(init, p);
      if p in Pinyins(ss) {
        if p in Pinyins(init) {
          var i, k :| 0 <= i < |init| && 0 <= k < |init[i].word| && init[i].word[k].0 == p;
          assert ss[i] == init[i];
        } else {
          var k :| 0 <= k < |ss[n].word| && WordPinyins(ss[n].word)[k] == p;
          assert ss[n].word[k].0 == p;
        }
      } else {
        forall i, k | 0 <= i < |ss| && 0 <= k < |ss[i].word| ensures ss[i].word[k].0 != p {
          if i < n {
            assert ss[i] == init[i];
          } else {
            assert WordPinyins(ss[n].word)[k] == ss[i].word[k].0;
          }
        }
      }
    }
  }

  lemma PinyinsSnoc(ss: seq<Preprocess.LabSentence>, i: nat)
    requires i < |ss|
    ensures Pinyins(ss[..i + 1]) == Pinyins(ss[..i]) + WordPinyins(ss[i].word)
  {
    assert ss[..i + 1][..i] == ss[..i];
  }

  /** An entry of the dictionary built from the utterances `ss`. */
  predicate InDictionary(ss: seq<Preprocess.LabSentence>, convert: string -> seq<seq<string>>, e: Entry) {
    e.0 in Pinyins(ss) && |e.0| > 0 && e in EntriesOf(e.0, convert)
  }

  /** `main` up to writing the file: reads the corpus, collects the set of
      syllables, walks it in increasing order and gathers the entries of
      each, then sorts and deduplicates them. An error while reading the
      corpus ends the run without a dictionary. */
  method BuildDictionary(train: seq<string>, test: seq<string>, convert: string -> seq<seq<string>>)
    returns (r: Result<seq<Entry>>)
    ensures r.Err? <==> Preprocess.CorpusSentences(train, test).Err?
    ensures r.Err? ==> r.error == Preprocess.CorpusSentences(train, test).error
    ensures r.Ok? ==>
      && StrictlySorted(r.value)
      && forall e :: e in r.value <==> InDictionary(Preprocess.CorpusSentences(train, test).value, convert, e)
  {
    var corpus := Preprocess.GetCorpusSentences(train, test);
    if corpus.Err? {
      return Err(corpus.error);
    }
    var ss := corpus.value;
    Preprocess.CorpusPinyins(train, test);
    var pinyins := CollectPinyins(ss);
    var entries := CollectEntries(pinyins, convert);
    r := Ok(SortedUnique(entries));
  }

  /** The set of all syllables of the utterances. */
  method CollectPinyins(ss: seq<Preprocess.LabSentence>) returns (pinyins: set<string>)
    requires forall i, k :: 0 <= i < |ss| && 0 <= k < |ss[i].word| ==> |ss[i].word[k].0| >= 2
    ensures forall p :: p in pinyins <==> p in Pinyins(ss)
    ensures forall p :: p in pinyins ==> |p| >= 2
  {
    pinyins := {};
    for i := 0 to |ss|
      invariant forall p :: p in pinyins <==> p in Pinyins(ss[..i])
      invariant forall p :: p in pinyins ==> |p| >= 2
    {
      pinyins := AddWordPinyins(pinyins, ss[i].word);
      PinyinsSnoc(ss, i);
    }
    assert ss[..|ss|] == ss;
  }

  /** The inner loop of the collection: adds the pinyin of each word. */
  method AddWordPinyins(pinyins: set<string>, word: seq<(string, string)>) returns (r: set<string>)
    requires forall k :: 0 <= k < |word| ==> |word[k].0| >= 2
    requires forall p :: p in pinyins ==> |p| >= 2
    ensures forall p :: p in r <==> p in pinyins || p in WordPinyins(word)
    ensures forall p :: p in r ==> |p| >= 2
  {
    r := pinyins;
    for k := 0 to |word|
      invariant forall p :: p in r <==> p in pinyins || p in WordPinyins(word[..k])
      invariant forall p :: p in r ==> |p| >= 2
    {
      assert WordPinyins(word[..k + 1]) == WordPinyins(word[..k]) + [word[k].0];
      r := r + {word[k].0};
    }
    assert word[..|word|] == word;
  }

  /** The entries of every syllable of the set, taken from the smallest
      syllable up. */
  method CollectEntries(pinyins: set<string>, convert: string -> seq<seq<string>>) returns (entries: seq<Entry>)
    requires forall p :: p in pinyins ==> |p| > 0
    ensures forall e :: e in entries <==> e.0 in pinyins && e in EntriesOf(e.0, convert)
  {
    var remaining := pinyins;
    entries := [];
    while remaining != {}
      invariant remaining <= pinyins
      invariant forall e :: e in entries <==> e.0 in pinyins && e.0 !in remaining && e in EntriesOf(e.0, convert)
      decreases |remaining|
    {
      LeastExists(remaining);
      var p :| p in remaining && forall q :: q in remaining && q != p ==> StrLess(p, q);
      var es := SyllableEntries(p, convert);
      assert forall e :: e in es ==> e.0 == p;
      entries := entries + es;
      remaining := remaining - {p};
    }
  }

  /** The inner loop of `main` for one syllable: one entry per candidate. */
  method SyllableEntries(p: string, convert: string -> seq<seq<string>>) returns (es: seq<Entry>)
    requires |p| > 0
    ensures es == EntriesOf(p, convert)
  {
    var ipas;
    if IsErhua(p) {
      ipas := PinyinToIpaErhua(p, convert);
      ErhuaCandidates(p, convert, ipas);
    } else {
      ipas := convert(p);
    }
    es := [];
    for c := 0 to |ipas|
      invariant |es| == c
      invariant forall j :: 0 <= j < c ==> es[j] == (p, Join(" ", ipas[j]))
    {
      es := es + [(p, Join(" ", ipas[c]))];
    }
    EntriesOfIs(p, convert, es);
  }

  /** The spliced candidates are those of `Candidates`. */
  lemma ErhuaCandidates(p: string, convert: string -> seq<seq<string>>, ipas: seq<seq<string>>)
    requires |p| > 0 && IsErhua(p)
    requires |ipas| == |convert(DropLast(p, 1))|
    requires forall j :: 0 <= j < |ipas| ==> ipas[j] == Rhotacize(p, convert(DropLast(p, 1))[j])
    ensures ipas == Candidates(p, convert)
  {
  }

  /** A list with one entry per candidate, in order, is `EntriesOf`. */
  lemma EntriesOfIs(p: string, convert: string -> seq<seq<string>>, es: seq<Entry>)
    requires |p| > 0
    requires |es| == |Candidates(p, convert)|
    requires forall j :: 0 <= j < |es| ==> es[j] == (p, Join(" ", Candidates(p, convert)[j]))
    ensures es == EntriesOf(p, convert)
  {
  }

  /** The one entry the writer corrects: `yo` is written `j ɔ`, not `w o`. */
  function YoFix(e: Entry): Entry {
    if e.0 + "\t" + e.1 == "yo\tw o" then ("yo", "j ɔ") else e
  }

  /** One line of the dictionary file: syllable, tab, phones, newline. */
  function DictLine(e: Entry): string {
    var f := YoFix(e);
    f.0 + "\t" + f.1 + "\n"
  }

  /** The correction applies to the entry `(yo, w o)` and to no other: the
      line `yo\tw o` has one tab, so it splits back only one way. */
  lemma YoFixExact(e: Entry)
    ensures YoFix(e) == if e == ("yo", "w o") then ("yo", "j ɔ") else e
  {
    if e.0 + "\t" + e.1 == "yo\tw o" {
      var line := e.0 + "\t" + e.1;
      assert line[|e.0|] == '\t';
      assert e.0 == line[..2] == "yo";
      assert e.1 == line[3..] == "w o";
    }
  }

  /** The writer's loop: the lines of the entries, in order, as one text. */
  method WriteDictionary(entries: seq<Entry>) returns (text: string)
    ensures text == Concat(seq(|entries|, k requires 0 <= k < |entries| => DictLine(entries[k])))
  {
    text := "";
    for k := 0 to |entries|
      invariant text == Concat(seq(k, j requires 0 <= j < k => DictLine(entries[j])))
    {
      var lines := seq(k + 1, j requires 0 <= j < k + 1 => DictLine(entries[j]));
      ConcatSnoc(lines);
      assert lines[..k] == seq(k, j requires 0 <= j < k => DictLine(entries[j]));
      text := text + DictLine(entries[k]);
    }
  }

  /** A field that can be written between tabs and newlines unambiguously. */
  predicate PlainField(f: string) {
    '\t' !in f && '\n' !in f
  }

  /** Reading the file back: splitting it at newlines gives one line per
      entry and an empty rest, and splitting a line at its tab gives the
      entry, with the `yo` correction applied. */
  lemma {:induction false} DictionaryReadBack(entries: seq<Entry>)
    requires forall k :: 0 <= k < |entries| ==> PlainField(entries[k].0) && PlainField(entries[k].1)
    ensures var lines := SplitOn(Concat(seq(|entries|, k requires 0 <= k < |entries| => DictLine(entries[k]))), '\n');
      && |lines| == |entries| + 1
      && lines[|entries|] == ""
      && forall k :: 0 <= k < |entries| ==> SplitOn(lines[k], '\t') == [YoFix(entries[k]).0, YoFix(entries[k]).1]
  {
    var bodies := seq(|entries|, k requires 0 <= k < |entries| => YoFix(entries[k]).0 + "\t" + YoFix(entries[k]).1);
    var text := Concat(seq(|entries|, k requires 0 <= k < |entries| => DictLine(entries[k])));
    ConcatLines(bodies);
    assert seq(|bodies|, k requires 0 <= k < |bodies| => bodies[k] + "\n")
        == seq(|entries|, k requires 0 <= k < |entries| => DictLine(entries[k]));
    forall f | f in bodies + [""] ensures '\n' !in f {
      if f != "" {
        var k :| 0 <= k < |entries| && bodies[k] == f;
        YoFixPlain(entries[k]);
      }
    }
    SplitOnJoin(bodies + [""], '\n');
    forall k | 0 <= k < |entries|
      ensures SplitOn(bodies[k], '\t') == [YoFix(entries[k]).0, YoFix(entries[k]).1]
    {
      YoFixPlain(entries[k]);
      SplitOnJoin([YoFix(entries[k]).0, YoFix(entries[k]).1], '\t');
    }
  }

  /** The correction keeps both fields plain. */
  lemma YoFixPlain(e: Entry)
    requires PlainField(e.0) && PlainField(e.1)
    ensures PlainField(YoFix(e).0) && PlainField(YoFix(e).1)
    ensures '\n' !in YoFix(e).0 + "\t" + YoFix(e).1
  {
  }

  /** Lines each followed by a newline are the lines joined by newlines,
      with an empty last field. */
  lemma {:induction false} ConcatLines(bodies: seq<string>)
    ensures Concat(seq(|bodies|, k requires 0 <= k < |bodies| => bodies[k] + "\n")) == Join("\n", bodies + [""])
    decreases |bodies|
  {
    if |bodies| > 0 {
      ConcatLines(bodies[1..]);
      var lines := seq(|bodies|, k requires 0 <= k < |bodies| => bodies[k] + "\n");
      assert lines[1..] == seq(|bodies[1..]|, k requires 0 <= k < |bodies[1..]| => bodies[1..][k] + "\n");
      assert (bodies + [""])[1..] == bodies[1..] + [""];
    }
  }
}
