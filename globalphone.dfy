/** The text handling of the GlobalPhone preparator
    (abkhazia/corpora/globalphone/abstract_globalphone.py): the accolade
    syntax of the pronunciation dictionary, the pairing of utterance ids
    with transcriptions, and the derivation of utterance and speaker ids
    from file names. File reads and writes become sequences of lines and
    sequences of output entries. */
module GlobalPhone {
  import opened Base
  import opened Strings

  // ------------------------------------------------------------ accolades

  /** `strip_accolades(expr)`: `expr[1:-1]` when `expr` starts with `{` and
      ends with `}`, RuntimeError otherwise; `expr[0]` of an empty string is
      an IndexError. */
  function StripAccolades(expr: string): (r: Result<string>)
    ensures r == Failure(IndexError) <==> expr == []
    ensures expr != [] ==> (r.Success? <==> expr[0] == '{' && expr[|expr| - 1] == '}')
    ensures expr != [] && r.Failure? ==> r.error == RuntimeError
    ensures r.Success? ==> expr == "{" + r.value + "}"
  {
    if expr == [] then Failure(IndexError)
    else if !(expr[0] == '{' && expr[|expr| - 1] == '}') then Failure(RuntimeError)
    else Success(expr[1..|expr| - 1])
  }

  /** Wrapping in accolades and stripping them is the identity. */
  lemma StripAccoladesWrap(s: string)
    ensures StripAccolades("{" + s + "}") == Success(s)
  {
    var e := "{" + s + "}";
    assert e[1..|e| - 1] == s;
  }

  predicate BraceFree(s: string) {
    '{' !in s && '}' !in s
  }

  // -------------------------------------------------------------- phones

  /** One phone token of a pronunciation: `{p` opens a word and keeps `p`,
      `WB}` closes it and is dropped, any other token is kept as it is. The
      `assert` statements of the source become AssertionError: an opening
      `{WB`, a closing token other than `WB}`, a bare `WB`, or a phone still
      holding an accolade. `phone[0]` of an empty token is an IndexError.
      The result is `None` for the dropped word boundary. */
  function ParsePhone(phone: string): (r: Result<Option<string>>)
    ensures r == Failure(IndexError) <==> phone == []
    ensures r == Success(None) <==> phone == "WB}"
    ensures r.Success? && r.value.Some? ==> BraceFree(r.value.value) && r.value.value != "WB"
    ensures r.Success? && r.value.Some? ==> phone == r.value.value || phone == "{" + r.value.value
    ensures phone != [] && phone[0] == '{' && BraceFree(phone[1..]) && phone[1..] != "WB"
            ==> r == Success(Some(phone[1..]))
    ensures phone != [] && BraceFree(phone) && phone != "WB" ==> r == Success(Some(phone))
    ensures phone != [] && r.Failure? ==> r.error == AssertionError
    ensures r.Success? <==>
              || phone == "WB}"
              || (phone != [] && phone[0] == '{' && BraceFree(phone[1..]) && phone[1..] != "WB")
              || (phone != [] && BraceFree(phone) && phone != "WB")
  {
    if phone == [] then Failure(IndexError)
    else
      var phn :=
        if phone[0] == '{' then phone[1..]
        else if phone[|phone| - 1] == '}' then phone[..|phone| - 1]
        else phone;
      var boundaryOk :=
        if phone[0] == '{' then phn != "WB"
        else if phone[|phone| - 1] == '}' then phn == "WB"
        else phn != "WB";
      if !boundaryOk || !BraceFree(phn) then Failure(AssertionError)
      else if phn == "WB" then Success(None)
      else Success(Some(phn))
  }

  /** The phones a pronunciation keeps, in order, or the failure of its
      first bad token. */
  function KeptPhones(trs: seq<string>): Result<seq<string>>
    decreases |trs|
  {
    if trs == [] then Success([])
    else
      var kept :- KeptPhones(trs[..|trs| - 1]);
      var p :- ParsePhone(trs[|trs| - 1]);
      Success(if p.Some? then kept + [p.value] else kept)
  }

  /** Every kept phone is free of accolades and is not the word boundary. */
  lemma {:induction false} KeptPhonesClean(trs: seq<string>)
    requires KeptPhones(trs).Success?
    ensures forall p :: p in KeptPhones(trs).value ==> BraceFree(p) && p != "WB"
    decreases |trs|
  {
    if trs != [] {
      KeptPhonesClean(trs[..|trs| - 1]);
    }
  }

  /** The inner loop of `make_lexicon` over the tokens of a pronunciation. */
  method ParseTranscript(trs: seq<string>) returns (r: Result<seq<string>>)
    ensures r == KeptPhones(trs)
  {
    var transcript: seq<string> := [];
    var i := 0;
    while i < |trs|
      invariant 0 <= i <= |trs|
      invariant KeptPhones(trs[..i]) == Success(transcript)
    {
      assert trs[..i + 1][..i] == trs[..i];
      var phn := ParsePhone(trs[i]);
      if phn.Failure? {
        KeptPhonesFailure(trs, i + 1);
        return Failure(phn.error);
      }
      if phn.value.Some? {
        transcript := transcript + [phn.value.value];
      }
      i := i + 1;
    }
    assert trs[..i] == trs;
    return Success(transcript);
  }

  /** A failure at some prefix is the failure of the whole pronunciation. */
  lemma {:induction false} KeptPhonesFailure(trs: seq<string>, n: nat)
    requires n <= |trs| && KeptPhones(trs[..n]).Failure?
    ensures KeptPhones(trs) == KeptPhones(trs[..n])
    decreases |trs|
  {
    if n < |trs| {
      assert trs[..|trs| - 1][..n] == trs[..n];
      KeptPhonesFailure(trs[..|trs| - 1], n);
    } else {
      assert trs[..n] == trs;
    }
  }

  // ------------------------------------------------------------- lexicon

  /** One dictionary line: `{word} {pron}` with the line break removed. The
      line is split on single spaces; the first field is the word in
      accolades, the other fields, joined back, the pronunciation in
      accolades. A word still holding an accolade is a RuntimeError. */
  function LexiconEntry(line: string): (r: Result<(string, string)>)
  {
    var fields := Split(RemoveLineBreaks(line), " ");
    var word :- StripAccolades(fields[0]);
    if !BraceFree(word) then Failure(RuntimeError)
    else
      var inner :- StripAccolades(Join(fields[1..], " "));
      var kept :- KeptPhones(Split(inner, " "));
      Success((word, Join(kept, " ")))
  }

  /** A word that still holds an accolade once stripped is rejected with
      RuntimeError, before the pronunciation is read. */
  lemma BracedWordIsRuntimeError(line: string, w: string)
    requires StripAccolades(Split(RemoveLineBreaks(line), " ")[0]) == Success(w)
    requires !BraceFree(w)
    ensures LexiconEntry(line) == Failure(RuntimeError)
  {
  }

  /** A parsed word and its pronunciation hold no accolade, and the
      pronunciation holds no word-boundary marker among its phones. */
  lemma LexiconEntryClean(line: string)
    requires LexiconEntry(line).Success?
    ensures BraceFree(LexiconEntry(line).value.0) && BraceFree(LexiconEntry(line).value.1)
  {
    var fields := Split(RemoveLineBreaks(line), " ");
    var inner := StripAccolades(Join(fields[1..], " ")).value;
    var kept := KeptPhones(Split(inner, " ")).value;
    KeptPhonesClean(Split(inner, " "));
    var t := Join(kept, " ");
    forall c | c in t ensures c != '{' && c != '}' {
      JoinChars(kept, " ", c);
      if c !in " " {
        var i :| 0 <= i < |kept| && c in kept[i];
        assert kept[i] in kept;
      }
    }
  }

  /** A line in the documented form parses to its word and phones. */
  lemma LexiconEntryOfWord(word: string)
    requires BraceFree(word) && ' ' !in word && '\r' !in word && '\n' !in word
    requires word != [] && word != "WB"
    ensures LexiconEntry("{" + word + "} {" + word + "}") == Success((word, word))
  {
    var line := "{" + word + "} {" + word + "}";
    var w := "{" + word + "}";
    assert RemoveLineBreaks(line) == line by {
      RemoveNothing(line, c => c == '\r' || c == '\n');
    }
    var fields := Split(line, " ");
    assert fields == [w, w] by {
      assert line == w + [' '] + w;
      SplitTwo(w, w, ' ');
    }
    StripAccoladesWrap(word);
    assert Join(fields[1..], " ") == w by {
      assert fields[1..] == [w];
      assert Join([w], " ") == w;
    }
    assert Split(word, " ") == [word] by {
      SplitAbsentChar(word, ' ');
    }
    PlainPhoneKept(word);
    assert Join([word], " ") == word;
  }

  lemma PlainPhoneKept(phone: string)
    requires BraceFree(phone) && phone != [] && phone != "WB"
    ensures KeptPhones([phone]) == Success([phone])
  {
    assert phone[0] in phone && phone[|phone| - 1] in phone;
    assert ParsePhone(phone) == Success(Some(phone));
    assert [phone][..0] == [];
    assert KeptPhones([]) == Success([]);
    assert [] + [phone] == [phone];
  }

  /** The entries of the whole dictionary, or the failure of its first bad
      line. */
  function LexiconEntries(lines: seq<string>): Result<seq<(string, string)>> {
    MapAll(lines, LexiconEntry)
  }

  /** The parse of one line, its pronunciation through the loop of
      ParseTranscript. */
  method ParseLine(line: string) returns (r: Result<(string, string)>)
    ensures r == LexiconEntry(line)
  {
    var fields := Split(RemoveLineBreaks(line), " ");
    var word :- StripAccolades(fields[0]);
    if !BraceFree(word) {
      return Failure(RuntimeError);
    }
    var inner :- StripAccolades(Join(fields[1..], " "));
    var kept :- ParseTranscript(Split(inner, " "));
    return Success((word, Join(kept, " ")));
  }

  /** The list the source builds when `words` and `transcripts` name one
      list: each word followed by its pronunciation. */
  function Interleaved(entries: seq<(string, string)>): (r: seq<string>)
    ensures |r| == 2 * |entries|
    decreases |entries|
  {
    if entries == [] then []
    else
      var last := entries[|entries| - 1];
      Interleaved(entries[..|entries| - 1]) + [last.0, last.1]
  }

  lemma InterleavedAppend(entries: seq<(string, string)>, e: (string, string))
    ensures Interleaved(entries + [e]) == Interleaved(entries) + [e.0, e.1]
  {
    assert (entries + [e])[..|entries|] == entries;
  }

  lemma {:induction false} InterleavedAt(entries: seq<(string, string)>, k: nat)
    requires k < |entries|
    ensures Interleaved(entries)[2 * k] == entries[k].0
    ensures Interleaved(entries)[2 * k + 1] == entries[k].1
    decreases |entries|
  {
    if k < |entries| - 1 {
      InterleavedAt(entries[..|entries| - 1], k);
    }
  }

  /** `make_lexicon` as written: `words = transcripts = []` binds both
      names to the same list, so the word and then the pronunciation of
      each line go into it, and the output zips that list with itself. */
  method MakeLexicon(lines: seq<string>) returns (r: Result<seq<(string, string)>>)
    ensures r.Failure? <==> LexiconEntries(lines).Failure?
    ensures r.Failure? ==> r.error == LexiconEntries(lines).error
    ensures r.Success? ==> var l := Interleaved(LexiconEntries(lines).value); r.value == Zip(l, l)
  {
    var words: seq<string> := [];
    ghost var entries: seq<(string, string)> := [];
    var i := 0;
    while i < |lines|
      invariant 0 <= i <= |lines|
      invariant MapAll(lines[..i], LexiconEntry) == Success(entries)
      invariant words == Interleaved(entries)
    {
      var entry := ParseLine(lines[i]);
      MapAllStep(lines, LexiconEntry, i);
      if entry.Failure? {
        MapAllFailure(lines, LexiconEntry, i + 1);
        return Failure(entry.error);
      }
      InterleavedAppend(entries, entry.value);
      words := words + [entry.value.0];    // words.append(word)
      words := words + [entry.value.1];    // transcripts.append(...), the same list
      entries := entries + [entry.value];
      i := i + 1;
    }
    assert lines[..i] == lines;
    return Success(Zip(words, words));
  }

  /** What the aliasing does to the output: twice as many entries as lines,
      each pairing a string with itself, a word at even positions and a
      pronunciation at odd ones. An entry whose word differs from its
      pronunciation is never written. */
  lemma AliasedLexiconIsDiagonal(entries: seq<(string, string)>)
    ensures var l := Interleaved(entries);
      && |Zip(l, l)| == 2 * |entries|
      && (forall i :: 0 <= i < |Zip(l, l)| ==> Zip(l, l)[i].0 == Zip(l, l)[i].1)
      && (forall k :: 0 <= k < |entries| ==>
            Zip(l, l)[2 * k] == (entries[k].0, entries[k].0)
            && Zip(l, l)[2 * k + 1] == (entries[k].1, entries[k].1))
      && (forall k :: 0 <= k < |entries| && entries[k].0 != entries[k].1 ==> entries[k] !in Zip(l, l))
  {
    var l := Interleaved(entries);
    forall k | 0 <= k < |entries|
      ensures Zip(l, l)[2 * k] == (entries[k].0, entries[k].0)
      ensures Zip(l, l)[2 * k + 1] == (entries[k].1, entries[k].1)
    {
      InterleavedAt(entries, k);
    }
  }

  /** `make_lexicon` with separate `words` and `transcripts` lists, as the
      names and the output format `word pronunciation` intend. */
  method MakeLexiconSeparate(lines: seq<string>) returns (r: Result<seq<(string, string)>>)
    ensures r == LexiconEntries(lines)
  {
    var words: seq<string> := [];
    var transcripts: seq<string> := [];
    ghost var entries: seq<(string, string)> := [];
    var i := 0;
    while i < |lines|
      invariant 0 <= i <= |lines|
      invariant MapAll(lines[..i], LexiconEntry) == Success(entries)
      invariant |words| == |transcripts| == i
      invariant Zip(words, transcripts) == entries
    {
      var entry := ParseLine(lines[i]);
      MapAllStep(lines, LexiconEntry, i);
      if entry.Failure? {
        MapAllFailure(lines, LexiconEntry, i + 1);
        return Failure(entry.error);
      }
      ZipAppend(words, transcripts, entry.value.0, entry.value.1);
      words := words + [entry.value.0];
      transcripts := transcripts + [entry.value.1];
      entries := entries + [entry.value];
      i := i + 1;
    }
    assert lines[..i] == lines;
    return Success(Zip(words, transcripts));
  }

  /** The intended lexicon has one entry per line, the i-th pairing the
      word of line i with its pronunciation, both free of accolades. */
  lemma LexiconEntriesSpec(lines: seq<string>)
    requires LexiconEntries(lines).Success?
    ensures |LexiconEntries(lines).value| == |lines|
    ensures forall i :: 0 <= i < |lines| ==>
      LexiconEntry(lines[i]).Success? && LexiconEntries(lines).value[i] == LexiconEntry(lines[i]).value
    ensures forall e :: e in LexiconEntries(lines).value ==> BraceFree(e.0) && BraceFree(e.1)
  {
    MapAllSuccess(lines, LexiconEntry);
    var entries := LexiconEntries(lines).value;
    forall e | e in entries ensures BraceFree(e.0) && BraceFree(e.1) {
      var i :| 0 <= i < |entries| && entries[i] == e;
      LexiconEntryClean(lines[i]);
    }
  }

  // ------------------------------------------------------- transcriptions

  /** Python's `lines[start::2]`. */
  function EveryOther(lines: seq<string>, start: nat): (r: seq<string>)
    ensures |r| == if start < |lines| then (|lines| - start + 1) / 2 else 0
    ensures forall i :: 0 <= i < |r| ==> start + 2 * i < |lines| && r[i] == lines[start + 2 * i]
    decreases |lines| - start
  {
    if start >= |lines| then [] else [lines[start]] + EveryOther(lines, start + 2)
  }

  /** What `re.sub(r'\s+|:|;', '', e)` deletes: ASCII whitespace (the pattern
      is compiled without the UNICODE flag), colons and semicolons. */
  predicate IdNoise(c: char) {
    IsRegexSpace(c) || c == ':' || c == ';'
  }

  /** The (utterance id, text) pairs of one transcription file of speaker
      `spkId`: ids from lines 1, 3, 5, ... (counting from 0), texts from
      lines 2, 4, ..., paired up to the shorter list. */
  function TranscriptionPairs(spkId: string, lines: seq<string>): (r: seq<(string, string)>)
  {
    var ids := seq(|EveryOther(lines, 1)|, i requires 0 <= i < |EveryOther(lines, 1)| =>
                     spkId + "_" + Remove(EveryOther(lines, 1)[i], IdNoise));
    var texts := seq(|EveryOther(lines, 2)|, i requires 0 <= i < |EveryOther(lines, 2)| =>
                       RemoveLineBreaks(EveryOther(lines, 2)[i]));
    Zip(ids, texts)
  }

  /** Line 2k+1 names the utterance whose text is line 2k+2: the header
      line 0 is skipped, a trailing id without text is dropped, the id is
      the speaker, `_`, and the line without spaces, `:` and `;`, and the
      text is the line without its line breaks. */
  lemma TranscriptionPairsSpec(spkId: string, lines: seq<string>)
    ensures var r := TranscriptionPairs(spkId, lines);
      && |r| == (if |lines| == 0 then 0 else (|lines| - 1) / 2)
      && forall k :: 0 <= k < |r| ==>
           && r[k].0 == spkId + "_" + Remove(lines[2 * k + 1], IdNoise)
           && r[k].1 == RemoveLineBreaks(lines[2 * k + 2])
           && (forall c :: c in r[k].0[|spkId| + 1..] ==> !IdNoise(c))
           && '\r' !in r[k].1 && '\n' !in r[k].1
  {
    var r := TranscriptionPairs(spkId, lines);
    forall k | 0 <= k < |r|
      ensures forall c :: c in r[k].0[|spkId| + 1..] ==> !IdNoise(c)
    {
      assert r[k].0[|spkId| + 1..] == Remove(lines[2 * k + 1], IdNoise);
    }
  }

  /** The last index of `c` in `s`. */
  function LastIndex(s: string, c: char): (r: Option<nat>)
    ensures r.Some? ==> r.value < |s| && s[r.value] == c && c !in s[r.value + 1..]
    ensures r.None? ==> c !in s
  {
    if s == [] then None
    else if s[|s| - 1] == c then Some(|s| - 1)
    else
      var r := LastIndex(s[..|s| - 1], c);
      assert r.Some? ==> s[r.value + 1..] == s[..|s| - 1][r.value + 1..] + [s[|s| - 1]];
      r
  }

  /** `os.path.splitext(name)[0]` for a name without `/`: the part before
      the last dot, unless only dots precede that dot. */
  function SplitExtRoot(name: string): (r: string)
    ensures r <= name
  {
    match LastIndex(name, '.')
    case None => name
    case Some(d) => if forall i :: 0 <= i < d ==> name[i] == '.' then name else name[..d]
  }

  /** The speaker id of a transcription file: its base name without the
      extension. */
  function SpeakerIdOfFile(path: string): (r: string)
    ensures r <= Basename(path)
  {
    SplitExtRoot(Basename(path))
  }

  lemma SpeakerIdOfTrl(stem: string)
    requires stem != [] && stem[0] != '.' && '/' !in stem
    ensures SplitExtRoot(stem + ".trl") == stem
  {
    var name := stem + ".trl";
    assert name[|stem|] == '.';
    assert name[|stem| + 1..] == "trl";
    assert LastIndex(name, '.') == Some(|stem|);
    assert name[0] != '.';
  }

  /** The pairs written for one transcription file at `path`. */
  function TranscriptionOfFile(path: string, lines: seq<string>): seq<(string, string)> {
    TranscriptionPairs(SpeakerIdOfFile(path), lines)
  }

  // --------------------------------------------------- segments, speakers

  /** The utterance id of a wav file: its base name with `.wav` removed. */
  function UttIdOfWav(path: string): string {
    Replace(Basename(path), ".wav", "")
  }

  /** `make_segment`: one (utterance, wav) line per wav file, the whole
      file being the utterance. WavIds states what the line is for a wav
      named `<dir>/<stem>.wav`. */
  function SegmentEntries(wavs: seq<string>): (r: seq<(string, string)>)
    ensures |r| == |wavs|
    ensures forall i :: 0 <= i < |r| ==> r[i] == (UttIdOfWav(wavs[i]), Basename(wavs[i]))
  {
    seq(|wavs|, i requires 0 <= i < |wavs| => (UttIdOfWav(wavs[i]), Basename(wavs[i])))
  }

  /** `make_speaker`: one (utterance, speaker) line per wav file, the speaker
      being the first five characters of the base name. WavIds states what
      the line is for a wav named `<dir>/<stem>.wav`. */
  function SpeakerEntries(wavs: seq<string>): (r: seq<(string, string)>)
    ensures |r| == |wavs|
    ensures forall i :: 0 <= i < |r| ==> r[i] == (UttIdOfWav(wavs[i]), Prefix(Basename(wavs[i]), 5))
  {
    seq(|wavs|, i requires 0 <= i < |wavs| => (UttIdOfWav(wavs[i]), Prefix(Basename(wavs[i]), 5)))
  }

  /** For a wav named `<dir>/<stem>.wav`, where `.wav` occurs only at the
      end, the utterance id is the stem, the segment refers to
      `<stem>.wav`, and when the stem has at least five characters the
      speaker is the first five characters of the utterance id. */
  lemma WavIds(dir: string, stem: string)
    requires '/' !in stem && |stem| >= 5
    requires forall j: nat :: j < |stem| ==> !OccursAt(stem + ".wav", ".wav", j)
    ensures UttIdOfWav(dir + "/" + stem + ".wav") == stem
    ensures SegmentEntries([dir + "/" + stem + ".wav"]) == [(stem, stem + ".wav")]
    ensures SpeakerEntries([dir + "/" + stem + ".wav"]) == [(stem, stem[..5])]
  {
    var path := dir + "/" + stem + ".wav";
    WavNames(dir, stem);
    var seg := SegmentEntries([path]);
    assert seg[0] == (stem, stem + ".wav");
    var spk := SpeakerEntries([path]);
    assert Prefix(stem + ".wav", 5) == stem[..5] by {
      assert (stem + ".wav")[..5] == stem[..5];
    }
    assert spk[0] == (stem, stem[..5]);
  }

  /** The base name of `<dir>/<stem>.wav` and the utterance id derived from it. */
  lemma WavNames(dir: string, stem: string)
    requires '/' !in stem
    requires forall j: nat :: j < |stem| ==> !OccursAt(stem + ".wav", ".wav", j)
    ensures Basename(dir + "/" + stem + ".wav") == stem + ".wav"
    ensures UttIdOfWav(dir + "/" + stem + ".wav") == stem
  {
    assert dir + "/" + stem + ".wav" == dir + "/" + (stem + ".wav");
    BasenameOfJoin(dir, stem + ".wav");
    ReplaceSuffix(stem, ".wav", "");
  }

  // ----------------------------------------------------------- audio files

  /** The name an `.adc.shn` file is compared with the exclusion list by. */
  function ShnStem(path: string): string {
    Replace(Basename(path), ".adc.shn", "")
  }

  /** The kept `.adc.shn` files, in order: those whose stem is not excluded. */
  function KeptShns(files: seq<string>, exclude: seq<string>): (r: seq<string>)
    ensures forall f :: f in r <==> f in files && ShnStem(f) !in exclude
    ensures IsSubsequence(r, files)
    ensures forall f :: multiset(r)[f] == if ShnStem(f) !in exclude then multiset(files)[f] else 0
  {
    KeptFiles(files, exclude);
    FilterMap(files, KeptBy(exclude), SamePath)
  }

  /** Membership, order and multiplicity of the kept files. */
  lemma KeptFiles(files: seq<string>, exclude: seq<string>)
    ensures var r := FilterMap(files, KeptBy(exclude), SamePath);
      && (forall f :: f in r <==> f in files && ShnStem(f) !in exclude)
      && IsSubsequence(r, files)
      && (forall f :: multiset(r)[f] == if ShnStem(f) !in exclude then multiset(files)[f] else 0)
  {
    var keep := KeptBy(exclude);
    forall g ensures g in FilterMap(files, keep, SamePath) <==> g in files && ShnStem(g) !in exclude {
      FilterMapMembership(files, keep, SamePath, g);
    }
    FilterMapSubsequence(files, keep, SamePath, files);
    forall g ensures multiset(FilterMap(files, keep, SamePath))[g]
                     == if ShnStem(g) !in exclude then multiset(files)[g] else 0 {
      FilterMapCount(files, keep, SamePath, g);
    }
  }

  /** The test `list_audio_files` keeps a file by. */
  function KeptBy(exclude: seq<string>): string -> bool {
    f => ShnStem(f) !in exclude
  }

  /** A kept file is listed as it is. */
  function SamePath(f: string): string {
    f
  }

  /** `list_audio_files`: the kept `.adc.shn` paths and, position by
      position, the base name of each with `.adc.shn` replaced by `.wav`.
      KeptShns and AudioFileRename state which files are kept and what
      they are renamed to. */
  function ListAudioFiles(files: seq<string>, exclude: seq<string>): (r: (seq<string>, seq<string>))
    ensures r.0 == KeptShns(files, exclude)
    ensures |r.1| == |r.0|
    ensures forall i :: 0 <= i < |r.1| ==> r.1[i] == Replace(Basename(r.0[i]), ".adc.shn", ".wav")
  {
    var shns := KeptShns(files, exclude);
    (shns, seq(|shns|, i requires 0 <= i < |shns| => Replace(Basename(shns[i]), ".adc.shn", ".wav")))
  }

  /** A file `<dir>/<stem>.adc.shn` is excluded exactly when `stem` is in
      the list, and a kept one becomes `<stem>.wav`. */
  lemma AudioFileRename(dir: string, stem: string)
    requires '/' !in stem
    requires forall j: nat :: j < |stem| ==> !OccursAt(stem + ".adc.shn", ".adc.shn", j)
    ensures ShnStem(dir + "/" + stem + ".adc.shn") == stem
    ensures Replace(Basename(dir + "/" + stem + ".adc.shn"), ".adc.shn", ".wav") == stem + ".wav"
  {
    assert dir + "/" + stem + ".adc.shn" == dir + "/" + (stem + ".adc.shn");
    BasenameOfJoin(dir, stem + ".adc.shn");
    ReplaceSuffix(stem, ".adc.shn", "");
    ReplaceSuffix(stem, ".adc.shn", ".wav");
  }
}
