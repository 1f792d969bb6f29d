# A verified model of the abkhazia corpus core

abkhazia turns speech corpora into the uniform layout the Kaldi recipes
read. A corpus is held in memory as a `Corpus` object: a set of tables
keyed by utterance, wav, word or phone id. Each corpus preparator fills
those tables from one distribution's own files.

This project models four parts of that system in Dafny and proves what
each one does:

- **The `Corpus` record.** `corpus.dfy` covers:
  - construction and the derived views: utterances, speakers,
    `spk2utt`, `wav2utt`, words and `has_several_utts_per_wav`;
  - validation as an uninterpreted check;
  - the extraction of a subcorpus, and pruning;
  - the choice of split function.
- **The Librivox split.** `librivox.dfy` covers partitioning by the
  `_`-separated tags of the utterance ids, and the deduplicated speaker
  lists.
- **The GlobalPhone preparator's text handling.** `globalphone.dfy`
  covers:
  - the accolade syntax of the dictionary and the three phone rules;
  - `make_lexicon`, as written and as intended;
  - the id/text pairing of transcriptions;
  - the wav-derived segment and speaker ids;
  - the audio-file filter.
- **The CID preparator's TextGrid reader.** `cid.dfy` covers the
  line-by-line state machine that yields one record per interval, and
  the segments and speakers built from those records.

`base.dfy` (errors, `Option`, `Result`, and sequence helpers) and
`strings.dfy` (the Python string operations the source relies on) are
shared.

These parts of the source change state step by step:

- the `Corpus` methods;
- the split object's constructor;
- the lexicon loop;
- the TextGrid generator;
- the segment dictionary.

They are Dafny classes and methods with loops. Each one is proved
against a specification function, and the lemmas state what those
functions guarantee. The comprehensions and string manipulations are
functions.

Some Python behaviours are modelled explicitly:

- **Dictionary and set order.** Python 2 leaves it unspecified, so the
  loops choose the next key with `:|`, and the contracts hold for every
  order.
- **Exceptions.** A raised exception is a `Failure` carrying the
  exception class (`KeyError`, `TypeError`, `IndexError`, `ValueError`,
  `RuntimeError`, `AssertionError`). It propagates where Python lets it.
  The one exception class not modelled is the UnicodeEncodeError of
  Python 2's byte-string `format` in the GlobalPhone lexicon code, listed
  under "Left out".

Some behaviour outside the modelled code is passed in as parameters:

- **`Corpus.validate`.** Its body lives in `CorpusValidation`, which is
  not part of this model. It is a function from the tables to
  `Pass | Fail(error)`.
- **`os.path.realpath`.** It is a function on strings.
- **`float()` and the truth value of a float in the CID reader.** They
  are a parser, `string -> Option<F>`, and a non-zero test over an
  abstract type `F`.
- **File contents and directory listings.** They are sequences of lines
  and of paths.

## Model

| member | source | states |
|---|---|---|
| Corpus.Corpus.constructor | abkhazia/corpus/corpus.py:108-117 | a new corpus has all six dictionaries empty and both lists empty |
| Corpus.Corpus.IsValid | abkhazia/corpus/corpus.py:142-148 | the result is true iff validation passes; an exception of any class gives false |
| Corpus.Corpus.SpkToUtt | abkhazia/corpus/corpus.py:158-172 | the keys are exactly the speakers utt2spk names; every utterance is listed exactly once, under its own speaker; the list lengths sum to the number of utterances |
| Corpus.Corpus.GroupUtterances | abkhazia/corpus/corpus.py:167-171 | the loop over utt2spk gives every speaker of utt2spk a list, puts each utterance in its speaker's list, and lists as many utterances as utt2spk has |
| Corpus.SpeakerIndexAdd | abkhazia/corpus/corpus.py:170-171 | appending one more utterance to its speaker's list keeps the index correct for the utterances seen so far |
| Corpus.Corpus.Spks | abkhazia/corpus/corpus.py:154-156 | `spks()` is the set of values of utt2spk |
| Corpus.Corpus.Utts | abkhazia/corpus/corpus.py:150-152 | `utts()` holds an id iff utt2spk has it, and has as many ids as there are utterances |
| Corpus.Corpus.WavToUtt | abkhazia/corpus/corpus.py:174-187 | TypeError iff some segment lacks a start or a stop (`float(None)`); otherwise the keys are exactly the referenced wavs; each list names exactly the (utt, start, stop) entries of that wav's segments, once; as many entries as segments |
| Corpus.Corpus.IndexWavs | abkhazia/corpus/corpus.py:182-186 | TypeError iff some segment has no start or no stop; otherwise every wav a segment names has a list, each timed utterance sits in the list of its wav, and the lists hold as many entries as there are segments |
| Corpus.WavIndexAdd | abkhazia/corpus/corpus.py:185-186 | appending one timed utterance to its wav's list keeps the index correct for the segments seen so far |
| Corpus.WordsCharacterized | abkhazia/corpus/corpus.py:206-210 | `words(False)` holds a word iff some transcription has it as a whitespace token; `words(True)` is that set intersected with the lexicon, hence a subset of it |
| Corpus.WordsIgnoreLexicon | abkhazia/corpus/corpus.py:206-210 | without the lexicon filter the word set does not depend on the lexicon |
| Corpus.Words | abkhazia/corpus/corpus.py:198-210 | every word of `words()` is a whitespace token, with or without the lexicon filter |
| Corpus.Corpus.HasSeveralUttsPerWav | abkhazia/corpus/corpus.py:212-217 | the result is true iff some segment has a start or a stop that is not None |
| Corpus.Corpus.SelectUtterances | abkhazia/corpus/corpus.py:240-243 | KeyError (None) iff some id lacks a segment, a transcription or a speaker; otherwise the three tables restricted to exactly the ids |
| Corpus.Corpus.Subcorpus | abkhazia/corpus/corpus.py:219-248 | the result is a fresh corpus equal to the subcorpus specification, or the same exception; this corpus is left as it was |
| Corpus.Corpus.Assign | abkhazia/corpus/corpus.py:228-243 | after the attribute assignments the corpus holds exactly the given tables |
| Corpus.SubcorpusContents | abkhazia/corpus/corpus.py:228-248 | a missing id is a KeyError; a result has exactly the requested utterances with their original segment, text and speaker; its wav ids are among the source's (all of them if not pruned), each mapped to `realpath` of the source's path; its lexicon and phones are sub-dictionaries of the source's (equal if not pruned); silences and variants are the source's; the result passed validation |
| Corpus.Corpus.Prune | abkhazia/corpus/corpus.py:250-272 | TypeError with nothing changed when a segment has no timestamps; otherwise the tables become the pruned tables |
| Corpus.Pruned | abkhazia/corpus/corpus.py:250-272 | the tables `prune` is meant to give (the corrected prune): wavs, lexicon and phones only lose entries and keep their values; segments, text and utt2spk are left as they are, because the loop at corpus.py:254-256 only rebinds a local name; silences and variants are unchanged |
| Corpus.PrunedShrinks | abkhazia/corpus/corpus.py:253-272 | every pruned table is a sub-dictionary of the old one; segments, text, utt2spk, silences and variants are unchanged; wavs are restricted to the referenced wavs, the lexicon to the text's words, phones to the pruned lexicon's phones |
| Corpus.PrunedIdempotent | abkhazia/corpus/corpus.py:258-272 | pruning twice is pruning once |
| Corpus.PrunedHasNoOrphans | abkhazia/corpus/corpus.py:258-272 | after pruning, every wav is used by a segment, every word occurs in a transcription, and every phone occurs in a pronunciation |
| Corpus.PrunedKeepsReferences | abkhazia/corpus/corpus.py:258-272 | pruning removes no entry that a segment, a transcription or a kept pronunciation refers to |
| Corpus.WholeWavSegmentsBlockPrune | abkhazia/corpus/corpus.py:57-64 | a non-empty corpus in the documented whole-wav form (start and stop None) always has a segment that `float()` rejects |
| Corpus.SplitDispatch | abkhazia/corpus/corpus.py:274-279 | `split` is chosen iff `by_speakers` is the object False; None and every other value select `split_by_speakers` |
| LibrivoxSplit.CorpusSplitLibrivox.constructor | abkhazia/corpus/corpus_split_librivox.py:54-67 | for a corpus with at least one utterance: `utts` lists every (utterance, speaker) entry of utt2spk exactly once; `size` is the number of utterances; `speakers` is the set of values of utt2spk (the empty corpus is the ValueError of Create) |
| LibrivoxSplit.EnumeratesAdd | abkhazia/corpus/corpus_split_librivox.py:64-65 | one more (utterance, speaker) item of `iteritems()` extends the enumeration without repeating an utterance |
| LibrivoxSplit.CorpusSplitLibrivox.Create | abkhazia/corpus/corpus_split_librivox.py:64-67 | ValueError iff the corpus has no utterance (`zip(*...)` unpacks nothing); otherwise an object as the constructor states |
| LibrivoxSplit.TagPartition | abkhazia/corpus/corpus_split_librivox.py:94-111 | IndexError iff some id has fewer than five `_` fields; otherwise the four lists equal their tag-filter specifications |
| LibrivoxSplit.IdsTaggedMembership | abkhazia/corpus/corpus_split_librivox.py:95-103 | an id is in the `tr` (or `te`) list iff it is an input id whose fifth field is exactly that tag |
| LibrivoxSplit.SpeakersTaggedMembership | abkhazia/corpus/corpus_split_librivox.py:107-111 | a speaker is in the `L` (or `N`) list iff one of their utterances has that fourth field, whatever its train/test tag |
| LibrivoxSplit.TrainTestDisjoint | abkhazia/corpus/corpus_split_librivox.py:99-103 | no id is both in train and in test |
| LibrivoxSplit.IdsTaggedSubsequence | abkhazia/corpus/corpus_split_librivox.py:94-103 | each id list is a subsequence of the input ids, in input order |
| LibrivoxSplit.IdsTaggedDistinct | abkhazia/corpus/corpus_split_librivox.py:94-103 | distinct input ids give id lists without duplicates |
| LibrivoxSplit.Dedup | abkhazia/corpus/corpus_split_librivox.py:132 | the deduplicated list has no duplicates and the same elements as its input |
| LibrivoxSplit.EnumeratedSpeakers | abkhazia/corpus/corpus_split_librivox.py:64-67 | the speakers of an enumeration of utt2spk are the values of utt2spk |
| LibrivoxSplit.CorpusSplitLibrivox.SplitLibrivox | abkhazia/corpus/corpus_split_librivox.py:72-118 | IndexError before anything else that is modelled (the unused `utt2duration` call at line 82 runs first) on a badly tagged id; otherwise the written family and new-speaker lists are duplicate-free with exactly the `L` and `N` speakers; the result is (train subcorpus, test subcorpus) with the configured pruning, or the first exception |
| GlobalPhone.StripAccolades | abkhazia/corpora/globalphone/abstract_globalphone.py:25-30 | IndexError iff the expression is empty; success iff it starts with `{` and ends with `}`, otherwise RuntimeError; on success the input is the result wrapped in accolades |
| GlobalPhone.StripAccoladesWrap | abkhazia/corpora/globalphone/abstract_globalphone.py:25-30 | stripping `{s}` gives back `s` |
| GlobalPhone.ParsePhone | abkhazia/corpora/globalphone/abstract_globalphone.py:167-181 | IndexError iff the token is empty; a token is dropped iff it is `WB}`; a token `{p` with brace-free `p` other than `WB` keeps `p`, and a brace-free token other than `WB` is kept as it is; the token is accepted iff it has one of these three forms, and every other non-empty token raises AssertionError; a kept phone is brace-free and not `WB` |
| GlobalPhone.KeptPhonesClean | abkhazia/corpora/globalphone/abstract_globalphone.py:178-181 | no kept phone has an accolade or is `WB` |
| GlobalPhone.ParseTranscript | abkhazia/corpora/globalphone/abstract_globalphone.py:165-181 | the inner loop returns the kept phones of the specification, or its first failure |
| GlobalPhone.ParseLine | abkhazia/corpora/globalphone/abstract_globalphone.py:155-182 | one dictionary line parses to the entry of the specification |
| GlobalPhone.LexiconEntryClean | abkhazia/corpora/globalphone/abstract_globalphone.py:158-182 | a parsed word and its pronunciation hold no accolade |
| GlobalPhone.BracedWordIsRuntimeError | abkhazia/corpora/globalphone/abstract_globalphone.py:158-161 | a line whose first field strips to a word still holding `{` or `}` raises RuntimeError |
| GlobalPhone.LexiconEntryOfWord | abkhazia/corpora/globalphone/abstract_globalphone.py:155-182 | a line `{w} {w}` for a plain word w parses to (w, w) |
| GlobalPhone.PlainPhoneKept | abkhazia/corpora/globalphone/abstract_globalphone.py:174-181 | a plain phone token other than `WB` is kept unchanged |
| GlobalPhone.MakeLexicon | abkhazia/corpora/globalphone/abstract_globalphone.py:148-187 | as written: fails as the first bad line does; otherwise outputs the one shared list (word, pronunciation, word, ...) zipped with itself |
| GlobalPhone.AliasedLexiconIsDiagonal | abkhazia/corpora/globalphone/abstract_globalphone.py:150-187 | the aliased output has two pairs per line, (w, w) and (t, t); a real entry (w, t) with w different from t never appears |
| GlobalPhone.InterleavedAt | abkhazia/corpora/globalphone/abstract_globalphone.py:162-182 | in the shared list, position 2k holds word k and position 2k+1 holds pronunciation k |
| GlobalPhone.MakeLexiconSeparate | abkhazia/corpora/globalphone/abstract_globalphone.py:148-187 | with separate lists the output is the list of line entries, or the first failure |
| GlobalPhone.LexiconEntriesSpec | abkhazia/corpora/globalphone/abstract_globalphone.py:151-182 | one entry per line, the i-th being the parse of line i, all brace-free |
| GlobalPhone.EveryOther | abkhazia/corpora/globalphone/abstract_globalphone.py:136-143 | `lines[start::2]`: its length, and element i is line start+2i |
| GlobalPhone.TranscriptionPairsSpec | abkhazia/corpora/globalphone/abstract_globalphone.py:129-146 | the pair count is the shorter of the id and text counts; pair k takes its id from line 2k+1 (speaker, `_`, and the line without whitespace, `:` or `;`) and its text from line 2k+2 without line breaks |
| GlobalPhone.SpeakerIdOfFile | abkhazia/corpora/globalphone/abstract_globalphone.py:132 | the speaker id is a prefix of the file's base name |
| GlobalPhone.SpeakerIdOfTrl | abkhazia/corpora/globalphone/abstract_globalphone.py:132 | the speaker id of `<stem>.trl` is `stem` |
| GlobalPhone.SegmentEntries | abkhazia/corpora/globalphone/abstract_globalphone.py:117-121 | one line per wav, (base name with `.wav` removed, base name) |
| GlobalPhone.SpeakerEntries | abkhazia/corpora/globalphone/abstract_globalphone.py:123-127 | one line per wav, (base name with `.wav` removed, first five characters of the base name) |
| GlobalPhone.WavNames | abkhazia/corpora/globalphone/abstract_globalphone.py:119-120 | the base name of `<dir>/<stem>.wav` is `<stem>.wav` and its utterance id is `stem` |
| GlobalPhone.WavIds | abkhazia/corpora/globalphone/abstract_globalphone.py:119-127 | for `<dir>/<stem>.wav` the utterance is `stem`, the segment line `(stem, stem.wav)` and the speaker `stem[:5]` |
| GlobalPhone.KeptShns | abkhazia/corpora/globalphone/abstract_globalphone.py:107-110 | a file is kept iff its stem is not excluded; the kept files keep their order; a kept path occurs as often as in the listing |
| GlobalPhone.ListAudioFiles | abkhazia/corpora/globalphone/abstract_globalphone.py:107-115 | the wav names match the kept files in number and position, each with `.adc.shn` replaced by `.wav` |
| GlobalPhone.AudioFileRename | abkhazia/corpora/globalphone/abstract_globalphone.py:107-113 | `<dir>/<stem>.adc.shn` is compared by `stem` and renamed `stem.wav` |
| Cid.Speaker | abkhazia/corpus/prepare/cid_preparator.py:90 | the speaker is at most two characters and a prefix of the base name |
| Cid.Update | abkhazia/corpus/prepare/cid_preparator.py:94-102 | only the first matching prefix acts; an `intervals [` line sets a `spk_` utterance, clears both times and keeps the text; `xmin`, `xmax` and `text` lines change only their own variable; other lines change nothing; only IndexError or ValueError can arise |
| Cid.UpdateIntervals | abkhazia/corpus/prepare/cid_preparator.py:94-96 | an `intervals [` line always has a piece after `[`; the utterance is `spk_` plus that piece less its last two characters |
| Cid.UpdateTime | abkhazia/corpus/prepare/cid_preparator.py:97-100 | an `xmin` (`xmax`) line with a parsable time sets tstart (tstop) to it |
| Cid.Step | abkhazia/corpus/prepare/cid_preparator.py:93-106 | the step fails iff updating the state with the stripped line fails, with the same exception; it yields a record iff the updated state is ready (`utt and tstart and tstop`); the record carries that state's utterance, text and times with the wav `spk-anonym`, and the state is then reset; without a record the updated state is kept, and it is not ready |
| Cid.YieldTranscription | abkhazia/corpus/prepare/cid_preparator.py:87-106 | the loop yields exactly the records of the state-machine specification and stops with its exception |
| Cid.RunStops | abkhazia/corpus/prepare/cid_preparator.py:93-106 | after an exception no further line is read |
| Cid.RunRecords | abkhazia/corpus/prepare/cid_preparator.py:90-106 | every record has an utterance `spk_...`, the wav `spk-anonym`, and a non-zero start and stop |
| Cid.StepKeepsSpeaker | abkhazia/corpus/prepare/cid_preparator.py:94-106 | one line keeps the current utterance, if any, of the form `spk_...`, and a record it yields has that form, the wav `spk-anonym` and non-zero times |
| Cid.ZeroStartNeverEmits | abkhazia/corpus/prepare/cid_preparator.py:104-106 | while tstart is falsy (0.0), no line other than `intervals [` or `xmin` yields a record |
| Cid.IntervalYieldsEarlierText | abkhazia/corpus/prepare/cid_preparator.py:94-106 | in the layout `intervals [`, `xmin`, `xmax`, the record comes right after `xmax`, with the interval's id and times and the text current before the interval |
| Cid.MakeSegment | abkhazia/corpus/prepare/cid_preparator.py:112-122 | the dictionary is the segment map of all records of the transcription files, or the first file's exception |
| Cid.InsertRecords | abkhazia/corpus/prepare/cid_preparator.py:120-121 | the inner loop extends the segment map by the records in order |
| Cid.SegmentMapSpec | abkhazia/corpus/prepare/cid_preparator.py:120-121 | an utterance has a segment iff some record names it; the segment is (wav, tstart, tstop) of the last such record |
| Cid.AllRecordsStops | abkhazia/corpus/prepare/cid_preparator.py:119-121 | an exception in one file is the exception of the whole |
| Cid.AllRecordsWavOfSpeaker | abkhazia/corpus/prepare/cid_preparator.py:116-121 | every record read has wav `<first two characters of its id>-anonym` |
| Cid.TranscriptionNameLength | abkhazia/corpus/prepare/cid_preparator.py:116-118 | a file selected as a transcription has a two-character speaker |
| Cid.MakeSpeaker | abkhazia/corpus/prepare/cid_preparator.py:124-125 | fails iff `make_segment` does, with its exception; the keys are those of the segments, and each maps to its first two characters |
| Cid.SpeakerMatchesWav | abkhazia/corpus/prepare/cid_preparator.py:124-125 | the wav of every segment is `<its make_speaker value>-anonym` |

## Left out

- Strings.TokensSpec: states that the tokens are non-empty, hold no
  whitespace and concatenate to the input without its whitespace, but not
  that they are maximal runs. The function's body defines the exact
  `split()` result.
- GlobalPhone.StripAccolades: the error message at
  abstract_globalphone.py:28-29 formats the unicode expression into a
  byte-string template. Under Python 2's default ASCII codec, a malformed
  expression with a non-ASCII character therefore raises
  UnicodeEncodeError, where the model gives RuntimeError. This assumes
  the default codec is not changed outside the files shown.
- GlobalPhone.LexiconEntry / GlobalPhone.ParseLine: a braced word that
  still holds an accolade and has a non-ASCII character raises
  UnicodeEncodeError at abstract_globalphone.py:160-161, for the same
  reason. The model gives RuntimeError.
- GlobalPhone.MakeLexicon / GlobalPhone.MakeLexiconSeparate: writing an
  entry with `'{} {}\n'.format(word, trs)` at abstract_globalphone.py:187
  raises UnicodeEncodeError when the word or its pronunciation is not
  ASCII, after the earlier lines are written. The model returns the
  entries as a success. The output file is left out of the model, and so
  is this failure when writing it.
- **File I/O.** Reading and writing files (`open_utf8`, `write_text`'s
  directory creation and output, the preparators' output files) is left
  out. Contents are sequences of lines, and written lists are returned
  values.
- **Directory listings.** `list_directory` and
  `list_files_with_extension` are given as sequences of paths. Their
  order and extension matching are not modelled.
- **`Corpus.validate`, save and load.** Their bodies are in
  `CorpusValidation`, `CorpusSaver` and `CorpusLoader`, which are not
  part of this model. `validate` is a parameter.
- **`CorpusSplit.split` and `split_by_speakers`.** Their bodies are not
  part of this model, and only the dispatch is modelled.
- **`utt2duration`.** It does float arithmetic and probes wav durations.
  Its unused call in `splitLibrivox` (corpus_split_librivox.py:82) is
  left out too, so any exception that call could raise is not modelled.
- **Logging and randomness.** The logging calls, the `print` of
  unknown-tag ids in `splitLibrivox` and `random.seed` have no effect on
  the modelled results.
- **Object sharing in `subcorpus`.** A subcorpus shares the lexicon,
  phones, silences and variants objects with its source. The model
  copies values. This is indistinguishable here because `prune` rebinds
  those fields rather than mutating them.
- **`is_valid` with `njobs`.** `is_valid` accepts `njobs` but calls `validate()` without it (corpus.py:142-145), so the validation it runs uses the default number of jobs. The model has no `njobs` parameter, and the validator is the abstract `validate` parameter.
- **`float()` details.** Floating-point values, NaN and the exact
  `float()` syntax are left out. The CID reader takes the parser and the
  truth test as parameters. `Corpus` timestamps are `real`.
- **Unicode line breaks.** Line breaks beyond `\r` and `\n` are not
  special in the source either. Unicode whitespace is modelled for
  `split()` and `strip()` as Python 2.7 defines it; the regular-expression
  `\s` is ASCII.
- **`os.path.splitext`.** It is modelled for base names only (the last
  dot, unless only dots precede it).
- **`AbstractGlobalPhonePreparator.__del__`.** Its temporary-file
  deletion is left out.
- **The broken CID stubs.** `CIDPreparator.make_lexicon` calls an
  undefined name, and `make_transcription` has an empty body.
- **`CIDPreparator.list_audio_files`.** It is a plain directory listing.
- **Other preparators and commands.** `aesrc_preparator.py` is not
  valid Python. `globalphone_japanese_preparator.py` holds only data
  tables. The `abkhazia_language` and `abkhazia_features` commands are
  argument parsing and external recipe launching.

## Findings

| source | as written | input that shows it | evidently intended | confidence | as-written member | corrected member |
|---|---|---|---|---|---|---|
| abkhazia/corpus/corpus.py:186 | `prune` calls `wav2utt`, which applies `float()` to every segment's start and stop | a corpus with the segment `('s01', None, None)`, the form documented for a wav holding one utterance (corpus.py:61-63): `float(None)` raises TypeError, so `prune` and `subcorpus(ids, prune=True)` fail | `prune` restricts the wavs to those the segments reference, whatever their timestamps | not executed | Corpus.Corpus.Prune (with Corpus.WholeWavSegmentsBlockPrune) | Corpus.Pruned (with Corpus.PrunedIdempotent, Corpus.PrunedShrinks) |
| abkhazia/corpora/globalphone/abstract_globalphone.py:150 | `words = transcripts = []` binds both names to one list, so the output zips that list with itself | the dictionary line `{ab} {{a WB} {b WB}}` writes `ab ab` and `a b a b` instead of `ab a b` | one lexicon entry (word, pronunciation) per dictionary line | not executed | GlobalPhone.MakeLexicon (with GlobalPhone.AliasedLexiconIsDiagonal) | GlobalPhone.MakeLexiconSeparate (with GlobalPhone.LexiconEntriesSpec) |
