/** The canonical corpus record: six tables keyed by strings, two lists, the
    views derived from them, and the operations that restrict and prune
    them (abkhazia/corpus/corpus.py). */
module Corpus {
  import opened Base
  import opened Strings

  /** Where an utterance lies: its wav and, when the wav holds several
      utterances, its start and stop time in seconds (both `None` when the
      wav holds this one utterance only). */
  datatype Segment = Segment(wav: string, start: Option<real>, stop: Option<real>)

  /** An entry of the wav index, once the timestamps went through `float()`. */
  datatype TimedUtt = TimedUtt(utt: string, start: real, stop: real)

  /** The value held by a corpus object: its eight attributes. */
  datatype Tables = Tables(
    wavs: map<string, string>,       // wav id -> path
    lexicon: map<string, string>,    // word -> space-separated phones
    segments: map<string, Segment>,  // utterance id -> segment
    text: map<string, string>,       // utterance id -> transcription
    phones: map<string, string>,     // phone -> IPA form
    utt2spk: map<string, string>,    // utterance id -> speaker id
    silences: seq<string>,
    variants: seq<string>)

  const EmptyTables := Tables(map[], map[], map[], map[], map[], map[], [], [])

  // ------------------------------------------------------------- map algebra

  /** The entries of `m` whose key is in `keep`. */
  function Restrict<V>(m: map<string, V>, keep: set<string>): (r: map<string, V>)
    ensures r.Keys == m.Keys * keep
    ensures forall k :: k in r ==> r[k] == m[k]
  {
    map k | k in m && k in keep :: m[k]
  }

  /** `small` is a sub-dictionary of `big`. */
  predicate SubMap<V(==)>(small: map<string, V>, big: map<string, V>) {
    small.Keys <= big.Keys && forall k :: k in small ==> small[k] == big[k]
  }

  lemma RestrictTwice<V>(m: map<string, V>, keep: set<string>)
    ensures Restrict(Restrict(m, keep), keep) == Restrict(m, keep)
  {
  }

  lemma RestrictAdd<V>(m: map<string, V>, keep: set<string>, k: string)
    requires k in m
    ensures Restrict(m, keep + {k}) == Restrict(m, keep)[k := m[k]]
  {
  }

  /** The elements of a list, as a set. */
  function IdSet(ids: seq<string>): set<string> {
    set u | u in ids
  }

  /** The sum of the lengths of the lists a map holds. */
  ghost function TotalLength<T>(m: map<string, seq<T>>): nat
    decreases m.Keys
  {
    if m == map[] then 0
    else
      var k :| k in m;
      |m[k]| + TotalLength(m - {k})
  }

  lemma {:induction false} TotalLengthRemove<T>(m: map<string, seq<T>>, k: string)
    requires k in m
    ensures TotalLength(m) == |m[k]| + TotalLength(m - {k})
    decreases m.Keys
  {
    var j :| j in m && TotalLength(m) == |m[j]| + TotalLength(m - {j});
    if j != k {
      TotalLengthRemove(m - {j}, k);
      TotalLengthRemove(m - {k}, j);
      assert (m - {j}) - {k} == (m - {k}) - {j};
    }
  }

  lemma TotalLengthUpdate<T>(m: map<string, seq<T>>, k: string, v: seq<T>)
    requires k in m
    ensures TotalLength(m[k := v]) == TotalLength(m) - |m[k]| + |v|
  {
    TotalLengthRemove(m, k);
    TotalLengthRemove(m[k := v], k);
    assert m[k := v] - {k} == m - {k};
  }

  lemma {:induction false} TotalLengthOfEmptyLists<T>(m: map<string, seq<T>>)
    requires forall k :: k in m ==> m[k] == []
    ensures TotalLength(m) == 0
    decreases m.Keys
  {
    if m != map[] {
      var k :| k in m;
      TotalLengthRemove(m, k);
      TotalLengthOfEmptyLists(m - {k});
    }
  }

  /** `r` lists, under each speaker, the utterances of `done` that
      `utt2spk` gives to that speaker, each once. */
  ghost predicate GroupsBySpeaker(r: map<string, seq<string>>, utt2spk: map<string, string>, done: set<string>) {
    && (forall s :: s in r ==> NoDuplicates(r[s]))
    && (forall s, u :: s in r ==> (u in r[s] <==> u in done && SpokenBy(utt2spk, u, s)))
  }

  /** `utt2spk` gives utterance `u` to speaker `s`. */
  predicate SpokenBy(utt2spk: map<string, string>, u: string, s: string) {
    u in utt2spk && utt2spk[u] == s
  }

  lemma GroupsBySpeakerAdd(r: map<string, seq<string>>, utt2spk: map<string, string>, done: set<string>, u: string)
    requires GroupsBySpeaker(r, utt2spk, done)
    requires u in utt2spk && u !in done && utt2spk[u] in r
    ensures GroupsBySpeaker(r[utt2spk[u] := r[utt2spk[u]] + [u]], utt2spk, done + {u})
  {
    var s := utt2spk[u];
    NoDuplicatesAppend(r[s], u);
  }

  /** The state of the `spk2utt` loop once the utterances `done` are
      placed: one list per speaker, grouping exactly those utterances. */
  ghost predicate SpeakerIndexUpTo(r: map<string, seq<string>>, utt2spk: map<string, string>, done: set<string>) {
    && r.Keys == SpeakersOf(utt2spk)
    && GroupsBySpeaker(r, utt2spk, done)
    && TotalLength(r) == |done|
  }

  /** Before the second loop: every speaker has an empty list. */
  lemma SpeakerIndexEmpty(utt2spk: map<string, string>)
    ensures SpeakerIndexUpTo(map s | s in SpeakersOf(utt2spk) :: [], utt2spk, {})
  {
    var r: map<string, seq<string>> := map s | s in SpeakersOf(utt2spk) :: [];
    TotalLengthOfEmptyLists(r);
  }

  /** Appending an utterance to its speaker's list places one more. */
  lemma SpeakerIndexAdd(r: map<string, seq<string>>, utt2spk: map<string, string>, todo: set<string>, u: string)
    requires todo <= utt2spk.Keys && u in todo
    requires SpeakerIndexUpTo(r, utt2spk, utt2spk.Keys - todo)
    ensures utt2spk[u] in r
    ensures SpeakerIndexUpTo(r[utt2spk[u] := r[utt2spk[u]] + [u]], utt2spk, utt2spk.Keys - (todo - {u}))
  {
    var done := utt2spk.Keys - todo;
    assert done + {u} == utt2spk.Keys - (todo - {u});
    var s := utt2spk[u];
    assert s in SpeakersOf(utt2spk);
    GroupsBySpeakerAdd(r, utt2spk, done, u);
    TotalLengthUpdate(r, s, r[s] + [u]);
    var r' := r[s := r[s] + [u]];
    assert r'.Keys == r.Keys;
  }

  /** The speakers `utt2spk` names. */
  function SpeakersOf(utt2spk: map<string, string>): set<string> {
    set u | u in utt2spk :: utt2spk[u]
  }

  lemma SpeakersAreValues(utt2spk: map<string, string>)
    ensures SpeakersOf(utt2spk) == utt2spk.Values
  {
    forall s | s in utt2spk.Values ensures s in SpeakersOf(utt2spk) {
      var u :| u in utt2spk && utt2spk[u] == s;
    }
  }

  // ----------------------------------------------------------- derived sets

  predicate IsTimed(s: Segment) { s.start.Some? && s.stop.Some? }

  predicate IsWholeWav(s: Segment) { s.start.None? && s.stop.None? }

  /** Some segment lacks a start or a stop time, so `float()` rejects it. */
  predicate HasUntimed(segments: map<string, Segment>) {
    exists u :: u in segments && !IsTimed(segments[u])
  }

  /** `e` is the wav-index entry of a segment of wav `w`. */
  predicate Indexes(segments: map<string, Segment>, w: string, e: TimedUtt) {
    e.utt in segments && segments[e.utt] == Segment(w, Some(e.start), Some(e.stop))
  }

  /** `r` lists, under each wav, the entries of the utterances of `done`
      whose segment lies in that wav, each once. */
  ghost predicate GroupsByWav(r: map<string, seq<TimedUtt>>, segments: map<string, Segment>, done: set<string>) {
    && (forall w :: w in r ==> NoDuplicates(r[w]))
    && (forall w, e :: w in r ==> (e in r[w] <==> e.utt in done && Indexes(segments, w, e)))
  }

  lemma GroupsByWavAdd(r: map<string, seq<TimedUtt>>, segments: map<string, Segment>, done: set<string>, u: string)
    requires GroupsByWav(r, segments, done)
    requires u in segments && u !in done && segments[u].wav in r && IsTimed(segments[u])
    ensures var seg := segments[u];
      GroupsByWav(r[seg.wav := r[seg.wav] + [TimedUtt(u, seg.start.value, seg.stop.value)]], segments, done + {u})
  {
    var seg := segments[u];
    var e := TimedUtt(u, seg.start.value, seg.stop.value);
    NoDuplicatesAppend(r[seg.wav], e);
  }

  /** The state of the `wav2utt` loop once the utterances `done` are
      placed: one list per referenced wav, indexing exactly the timed
      segments of `done`. */
  ghost predicate WavIndexUpTo(r: map<string, seq<TimedUtt>>, segments: map<string, Segment>, done: set<string>) {
    && r.Keys == ReferencedWavs(segments)
    && (forall u :: u in done ==> u in segments && IsTimed(segments[u]))
    && GroupsByWav(r, segments, done)
    && TotalLength(r) == |done|
  }

  lemma WavIndexEmpty(segments: map<string, Segment>)
    ensures WavIndexUpTo(map w | w in ReferencedWavs(segments) :: [], segments, {})
  {
    var r: map<string, seq<TimedUtt>> := map w | w in ReferencedWavs(segments) :: [];
    TotalLengthOfEmptyLists(r);
  }

  /** Appending the entry of a timed segment to its wav's list places one
      more utterance. */
  lemma WavIndexAdd(r: map<string, seq<TimedUtt>>, segments: map<string, Segment>, todo: set<string>, u: string)
    requires todo <= segments.Keys && u in todo && IsTimed(segments[u])
    requires WavIndexUpTo(r, segments, segments.Keys - todo)
    ensures segments[u].wav in r
    ensures var seg := segments[u];
      WavIndexUpTo(r[seg.wav := r[seg.wav] + [TimedUtt(u, seg.start.value, seg.stop.value)]], segments,
                   segments.Keys - (todo - {u}))
  {
    var done := segments.Keys - todo;
    assert done + {u} == segments.Keys - (todo - {u});
    var seg := segments[u];
    var e := TimedUtt(u, seg.start.value, seg.stop.value);
    assert seg.wav in ReferencedWavs(segments);
    GroupsByWavAdd(r, segments, done, u);
    TotalLengthUpdate(r, seg.wav, r[seg.wav] + [e]);
    assert r[seg.wav := r[seg.wav] + [e]].Keys == r.Keys;
  }

  /** The wav ids the segments refer to. */
  function ReferencedWavs(segments: map<string, Segment>): set<string> {
    set u | u in segments :: segments[u].wav
  }

  /** `Corpus.words(in_lexicon)`: the whitespace-separated tokens of all
      transcriptions, kept only when in the lexicon if `inLexicon` is set. */
  function Words(text: map<string, string>, lexicon: map<string, string>, inLexicon: bool): (r: set<string>)
    ensures forall w :: w in r ==> IsToken(w)
  {
    TokensAreTokens(text);
    set w | w in Vocabulary(text) && (!inLexicon || w in lexicon)
  }

  /** Every token of every transcription. */
  function Vocabulary(text: map<string, string>): set<string> {
    set u, w | u in text && w in Tokens(text[u]) :: w
  }

  lemma TokensAreTokens(text: map<string, string>)
    ensures forall u, w :: u in text && w in Tokens(text[u]) ==> IsToken(w)
  {
    forall u | u in text { TokensSpec(text[u]); }
  }

  /** A word belongs to the vocabulary exactly when some transcription has it
      as a token; restricting to the lexicon intersects with its words. */
  lemma WordsCharacterized(text: map<string, string>, lexicon: map<string, string>)
    ensures forall w :: w in Words(text, lexicon, false) <==> exists u :: u in text && w in Tokens(text[u])
    ensures Words(text, lexicon, true) == Words(text, lexicon, false) * lexicon.Keys
    ensures Words(text, lexicon, true) <= Words(text, lexicon, false)
  {
  }

  /** Without the lexicon filter the vocabulary depends on the text only. */
  lemma WordsIgnoreLexicon(text: map<string, string>, l1: map<string, string>, l2: map<string, string>)
    ensures Words(text, l1, false) == Words(text, l2, false)
  {
    WordsCharacterized(text, l1);
    WordsCharacterized(text, l2);
  }

  /** The phones the pronunciations of a lexicon use (`phones.split()`). */
  function LexiconPhones(lexicon: map<string, string>): set<string> {
    set w, p | w in lexicon && p in Tokens(lexicon[w]) :: p
  }

  // -------------------------------------------------------------- pruning

  /** The tables `prune` is meant to produce: wavs restricted to those the
      segments use, then the lexicon to the words of the text, then the
      phones to those of the pruned lexicon. */
  function Pruned(t: Tables): (r: Tables)
    ensures SubMap(r.wavs, t.wavs) && SubMap(r.lexicon, t.lexicon) && SubMap(r.phones, t.phones)
    ensures r.segments == t.segments && r.text == t.text && r.utt2spk == t.utt2spk
    ensures r.silences == t.silences && r.variants == t.variants
  {
    var lexicon := Restrict(t.lexicon, Words(t.text, t.lexicon, false));
    t.(wavs := Restrict(t.wavs, ReferencedWavs(t.segments)),
       lexicon := lexicon,
       phones := Restrict(t.phones, LexiconPhones(lexicon)))
  }

  /** Pruning a pruned corpus changes nothing. */
  lemma PrunedIdempotent(t: Tables)
    ensures Pruned(Pruned(t)) == Pruned(t)
  {
    var p := Pruned(t);
    RestrictTwice(t.wavs, ReferencedWavs(t.segments));
    var words := Words(t.text, t.lexicon, false);
    WordsIgnoreLexicon(t.text, t.lexicon, p.lexicon);
    RestrictTwice(t.lexicon, words);
    RestrictTwice(t.phones, LexiconPhones(p.lexicon));
  }

  /** Pruning only removes entries: every table of the result is a
      sub-dictionary of the original, the utterance tables and the two lists
      are untouched, and the wavs are exactly those still referenced. */
  lemma PrunedShrinks(t: Tables)
    ensures var p := Pruned(t);
      && SubMap(p.wavs, t.wavs) && SubMap(p.lexicon, t.lexicon) && SubMap(p.phones, t.phones)
      && p.segments == t.segments && p.text == t.text && p.utt2spk == t.utt2spk
      && p.silences == t.silences && p.variants == t.variants
      && p.wavs.Keys == t.wavs.Keys * ReferencedWavs(t.segments)
      && p.lexicon.Keys == t.lexicon.Keys * Words(t.text, t.lexicon, false)
      && p.phones.Keys == t.phones.Keys * LexiconPhones(p.lexicon)
  {
  }

  /** After pruning nothing is orphaned: every wav is used by a segment, every
      lexicon word occurs in some transcription, every phone in some
      pronunciation of the pruned lexicon. */
  lemma PrunedHasNoOrphans(t: Tables)
    ensures var p := Pruned(t);
      && (forall w :: w in p.wavs ==> exists u :: u in p.segments && p.segments[u].wav == w)
      && (forall w :: w in p.lexicon ==> exists u :: u in p.text && w in Tokens(p.text[u]))
      && (forall ph :: ph in p.phones ==> exists w :: w in p.lexicon && ph in Tokens(p.lexicon[w]))
  {
    var p := Pruned(t);
    forall w | w in p.wavs ensures exists u :: u in p.segments && p.segments[u].wav == w {
      assert w in ReferencedWavs(t.segments);
    }
    forall w | w in p.lexicon ensures exists u :: u in p.text && w in Tokens(p.text[u]) {
      WordsCharacterized(t.text, t.lexicon);
    }
    forall ph | ph in p.phones ensures exists w :: w in p.lexicon && ph in Tokens(p.lexicon[w]) {
      assert ph in LexiconPhones(p.lexicon);
    }
  }

  /** Pruning keeps every reference that resolved: a wav used by a segment,
      a word of the text that was in the lexicon, a phone of a kept
      pronunciation that was in the phone table. */
  lemma PrunedKeepsReferences(t: Tables)
    ensures var p := Pruned(t);
      && (forall u :: u in p.segments && t.segments[u].wav in t.wavs ==> p.segments[u].wav in p.wavs)
      && (forall u, w :: u in p.text && w in Tokens(p.text[u]) && w in t.lexicon ==> w in p.lexicon)
      && (forall w, ph :: w in p.lexicon && ph in Tokens(p.lexicon[w]) && ph in t.phones ==> ph in p.phones)
  {
    var p := Pruned(t);
    forall u | u in p.segments && t.segments[u].wav in t.wavs ensures p.segments[u].wav in p.wavs {
      assert t.segments[u].wav in ReferencedWavs(t.segments);
    }
    forall u, w | u in p.text && w in Tokens(p.text[u]) && w in t.lexicon ensures w in p.lexicon {
      assert w in Words(t.text, t.lexicon, false);
    }
    forall w, ph | w in p.lexicon && ph in Tokens(p.lexicon[w]) && ph in t.phones ensures ph in p.phones {
      assert ph in LexiconPhones(p.lexicon);
    }
  }

  /** A non-empty corpus whose wavs each hold one utterance, the form the
      class documentation gives (start and stop both `None`), always has a
      segment that `float()` rejects, so `prune` raises on it. */
  lemma WholeWavSegmentsBlockPrune(t: Tables)
    requires t.segments != map[]
    requires forall u :: u in t.segments ==> IsWholeWav(t.segments[u])
    ensures HasUntimed(t.segments)
  {
    var u :| u in t.segments;
    assert !IsTimed(t.segments[u]);
  }

  // ------------------------------------------------------------ subcorpus

  /** The utterance tables restricted to `ids`, the wav paths resolved. */
  function SubTables(t: Tables, ids: seq<string>, realpath: string -> string): Tables {
    t.(wavs := map k | k in t.wavs :: realpath(t.wavs[k]),
       segments := Restrict(t.segments, IdSet(ids)),
       text := Restrict(t.text, IdSet(ids)),
       utt2spk := Restrict(t.utt2spk, IdSet(ids)))
  }

  /** Every id has a segment, a transcription and a speaker. */
  predicate AllPresent(t: Tables, ids: seq<string>) {
    forall u :: u in ids ==> u in t.segments && u in t.text && u in t.utt2spk
  }

  /** What `subcorpus(ids, prune)` returns, or the exception it raises. */
  function SubcorpusResult(t: Tables, ids: seq<string>, prune: bool,
                           realpath: string -> string, validate: Tables -> Outcome): Result<Tables>
  {
    if !AllPresent(t, ids) then Failure(KeyError)
    else
      var sub := SubTables(t, ids, realpath);
      if prune && HasUntimed(sub.segments) then Failure(TypeError)
      else
        var result := if prune then Pruned(sub) else sub;
        match validate(result)
        case Fail(e) => Failure(e)
        case Pass => Success(result)
  }

  /** The three ways `subcorpus` ends, one fact each. */
  lemma SubcorpusResultCases(t: Tables, ids: seq<string>, prune: bool,
                             realpath: string -> string, validate: Tables -> Outcome)
    ensures !AllPresent(t, ids) ==> SubcorpusResult(t, ids, prune, realpath, validate) == Failure(KeyError)
    ensures AllPresent(t, ids) && prune && HasUntimed(SubTables(t, ids, realpath).segments) ==>
              SubcorpusResult(t, ids, prune, realpath, validate) == Failure(TypeError)
    ensures var sub := SubTables(t, ids, realpath);
            var result := if prune then Pruned(sub) else sub;
            AllPresent(t, ids) && !(prune && HasUntimed(sub.segments)) ==>
              SubcorpusResult(t, ids, prune, realpath, validate)
              == (if validate(result).Fail? then Failure(validate(result).error) else Success(result))
  {
  }

  /** A subcorpus holds exactly the requested utterances, each with the
      segment, transcription and speaker it had; its wavs have the same ids
      as (or, pruned, fewer than) the source's, and its lexicon, phones,
      silences and variants come from the source. A missing id is a
      KeyError. */
  lemma SubcorpusContents(t: Tables, ids: seq<string>, prune: bool,
                          realpath: string -> string, validate: Tables -> Outcome)
    ensures SubcorpusResult(t, ids, prune, realpath, validate) == Failure(KeyError)
            <== exists u :: u in ids && (u !in t.segments || u !in t.text || u !in t.utt2spk)
    ensures var r := SubcorpusResult(t, ids, prune, realpath, validate);
      r.Success? ==>
        && r.value.segments.Keys == IdSet(ids) && r.value.text.Keys == IdSet(ids)
        && r.value.utt2spk.Keys == IdSet(ids)
        && (forall u :: u in ids ==>
              r.value.segments[u] == t.segments[u] && r.value.text[u] == t.text[u]
              && r.value.utt2spk[u] == t.utt2spk[u])
        && r.value.wavs.Keys <= t.wavs.Keys
        && (forall k :: k in r.value.wavs ==> r.value.wavs[k] == realpath(t.wavs[k]))
        && (!prune ==> r.value.wavs.Keys == t.wavs.Keys && r.value.lexicon == t.lexicon
                       && r.value.phones == t.phones)
        && SubMap(r.value.lexicon, t.lexicon) && SubMap(r.value.phones, t.phones)
        && r.value.silences == t.silences && r.value.variants == t.variants
        && validate(r.value) == Pass
  {
    var r := SubcorpusResult(t, ids, prune, realpath, validate);
    if r.Success? {
      var sub := SubTables(t, ids, realpath);
      PrunedShrinks(sub);
      assert AllPresent(t, ids);
    }
  }

  // -------------------------------------------------------------- split

  /** A Python object passed as `by_speakers`, as far as `is False` tells
      them apart. */
  datatype Flag = PyFalse | PyTrue | PyNone | OtherObject

  datatype SplitMethod = SplitByUtterances | SplitBySpeakers

  /** `Corpus.split` uses `split` only for the very object `False`; every
      other value, `None` and `0` included, selects `split_by_speakers`. */
  function SplitDispatch(bySpeakers: Flag): (m: SplitMethod)
    ensures m == SplitByUtterances <==> bySpeakers == PyFalse
    ensures bySpeakers == PyNone ==> m == SplitBySpeakers
  {
    if bySpeakers == PyFalse then SplitByUtterances else SplitBySpeakers
  }

  // ------------------------------------------------------------- the class

  class Corpus {
    var wavs: map<string, string>
    var lexicon: map<string, string>
    var segments: map<string, Segment>
    var text: map<string, string>
    var phones: map<string, string>
    var utt2spk: map<string, string>
    var silences: seq<string>
    var variants: seq<string>

    /** The attributes of this corpus, as a value. */
    function Snapshot(): Tables
      reads this
    {
      Tables(wavs, lexicon, segments, text, phones, utt2spk, silences, variants)
    }

    /** An empty corpus. */
    constructor ()
      ensures Snapshot() == EmptyTables
    {
      wavs, lexicon, segments, text := map[], map[], map[], map[];
      phones, utt2spk := map[], map[];
      silences, variants := [], [];
    }

    /** Sets the eight tables at once, as `subcorpus` does attribute by
        attribute on a fresh corpus. */
    method Assign(t: Tables)
      modifies this
      ensures Snapshot() == t
    {
      wavs, lexicon, segments, text := t.wavs, t.lexicon, t.segments, t.text;
      phones, utt2spk, silences, variants := t.phones, t.utt2spk, t.silences, t.variants;
    }

    /** `is_valid`: the bare `except` turns every exception of the
        validator, whatever its class, into `False`. */
    method IsValid(validate: Tables -> Outcome) returns (b: bool)
      ensures b <==> validate(Snapshot()) == Pass
      ensures !b ==> exists e :: validate(Snapshot()) == Fail(e)
    {
      var outcome := validate(Snapshot());
      b := outcome.Pass?;
    }

    /** `utts`: the utterance ids, the keys of utt2spk. */
    function Utts(): (r: set<string>)
      reads this
      ensures forall u :: u in r <==> u in utt2spk
      ensures |r| == |utt2spk|
    {
      utt2spk.Keys
    }

    /** `spk2utt`: each speaker mapped to the list of its utterances. */
    method SpkToUtt() returns (r: map<string, seq<string>>)
      ensures r.Keys == utt2spk.Values
      ensures GroupsBySpeaker(r, utt2spk, utt2spk.Keys)
      ensures TotalLength(r) == |utt2spk|
    {
      r := GroupUtterances();
      SpeakersAreValues(utt2spk);
      assert |utt2spk| == |utt2spk.Keys|;
    }

    /** The two loops of `spk2utt`: an empty list for every speaker, then
        each utterance appended to the list of its speaker. */
    method GroupUtterances() returns (r: map<string, seq<string>>)
      ensures SpeakerIndexUpTo(r, utt2spk, utt2spk.Keys)
    {
      r := map s | s in SpeakersOf(utt2spk) :: [];
      SpeakerIndexEmpty(utt2spk);
      var todo := utt2spk.Keys;
      assert utt2spk.Keys - todo == {};
      while todo != {}
        invariant todo <= utt2spk.Keys
        invariant SpeakerIndexUpTo(r, utt2spk, utt2spk.Keys - todo)
        decreases todo
      {
        var u :| u in todo;
        var s := utt2spk[u];
        SpeakerIndexAdd(r, utt2spk, todo, u);
        r := r[s := r[s] + [u]];
        todo := todo - {u};
      }
      assert utt2spk.Keys - todo == utt2spk.Keys;
    }

    /** `spks`: the speaker ids, the values of utt2spk. */
    method Spks() returns (r: set<string>)
      ensures r == utt2spk.Values
    {
      var index := SpkToUtt();
      r := index.Keys;
    }

    /** `wav2utt`: each wav mapped to its (utterance, start, stop) entries;
        `float(None)` raises TypeError on a segment without timestamps. */
    method WavToUtt() returns (r: Result<map<string, seq<TimedUtt>>>)
      ensures r.Failure? <==> HasUntimed(segments)
      ensures r.Failure? ==> r.error == TypeError
      ensures r.Success? ==> r.value.Keys == ReferencedWavs(segments)
      ensures r.Success? ==> forall w :: w in r.value ==> NoDuplicates(r.value[w])
      ensures r.Success? ==> forall w, e :: w in r.value ==> (e in r.value[w] <==> Indexes(segments, w, e))
      ensures r.Success? ==> TotalLength(r.value) == |segments|
    {
      r := IndexWavs();
      if r.Success? {
        assert |segments| == |segments.Keys|;
      }
    }

    /** The two loops of `wav2utt`: an empty list for every referenced wav,
        then the entry of each segment appended to the list of its wav. */
    method IndexWavs() returns (r: Result<map<string, seq<TimedUtt>>>)
      ensures r.Failure? ==> r.error == TypeError && HasUntimed(segments)
      ensures r.Success? ==> WavIndexUpTo(r.value, segments, segments.Keys)
    {
      var index: map<string, seq<TimedUtt>> := map w | w in ReferencedWavs(segments) :: [];
      WavIndexEmpty(segments);
      var todo := segments.Keys;
      assert segments.Keys - todo == {};
      while todo != {}
        invariant todo <= segments.Keys
        invariant WavIndexUpTo(index, segments, segments.Keys - todo)
        decreases todo
      {
        var u :| u in todo;
        var seg := segments[u];
        if seg.start.None? || seg.stop.None? {
          assert u in segments && !IsTimed(segments[u]);
          return Failure(TypeError);
        }
        var e := TimedUtt(u, seg.start.value, seg.stop.value);
        WavIndexAdd(index, segments, todo, u);
        index := index[seg.wav := index[seg.wav] + [e]];
        todo := todo - {u};
      }
      assert segments.Keys - todo == segments.Keys;
      return Success(index);
    }

    /** `has_several_utts_per_wav`: some segment has a start or a stop. */
    method HasSeveralUttsPerWav() returns (b: bool)
      ensures b <==> exists u :: u in segments && !IsWholeWav(segments[u])
    {
      var todo := segments.Keys;
      while todo != {}
        invariant todo <= segments.Keys
        invariant forall u :: u in segments && u !in todo ==> IsWholeWav(segments[u])
        decreases todo
      {
        var u :| u in todo;
        if segments[u].start.Some? || segments[u].stop.Some? {
          return true;
        }
        todo := todo - {u};
      }
      return false;
    }

    /** `prune`. The first loop of the source rebinds a local name only and
        leaves segments, text and utt2spk as they are; the call to wav2utt
        raises TypeError, before any table changes, whenever a segment has
        no timestamps. */
    method Prune() returns (err: Option<Error>)
      modifies this
      ensures HasUntimed(old(segments)) ==> err == Some(TypeError) && Snapshot() == old(Snapshot())
      ensures !HasUntimed(old(segments)) ==> err == None && Snapshot() == Pruned(old(Snapshot()))
    {
      var utts := Utts();
      // The loop over (segments, text, utt2spk) only rebinds its loop
      // variable: the restricted dictionaries are computed and dropped.
      var d1, d2, d3 := Restrict(segments, utts), Restrict(text, utts), Restrict(utt2spk, utts);
      var index := WavToUtt();
      if index.Failure? {
        return Some(index.error);
      }
      wavs := Restrict(wavs, index.value.Keys);
      lexicon := Restrict(lexicon, Words(text, lexicon, false));
      phones := Restrict(phones, LexiconPhones(lexicon));
      return None;
    }

    /** The loop of `subcorpus` that copies the segment, transcription and
        speaker of each requested utterance; a missing one is a KeyError. */
    method SelectUtterances(ids: seq<string>)
      returns (r: Option<(map<string, Segment>, map<string, string>, map<string, string>)>)
      ensures r.None? <==> !AllPresent(Snapshot(), ids)
      ensures r.Some? ==> r.value.0 == Restrict(segments, IdSet(ids))
      ensures r.Some? ==> r.value.1 == Restrict(text, IdSet(ids))
      ensures r.Some? ==> r.value.2 == Restrict(utt2spk, IdSet(ids))
    {
      var segs: map<string, Segment>, txt: map<string, string>, spk: map<string, string> := map[], map[], map[];
      var i := 0;
      while i < |ids|
        invariant 0 <= i <= |ids|
        invariant IdSet(ids[..i]) <= segments.Keys && IdSet(ids[..i]) <= text.Keys && IdSet(ids[..i]) <= utt2spk.Keys
        invariant segs == Restrict(segments, IdSet(ids[..i]))
        invariant txt == Restrict(text, IdSet(ids[..i]))
        invariant spk == Restrict(utt2spk, IdSet(ids[..i]))
      {
        var u := ids[i];
        if u !in segments || u !in text || u !in utt2spk {
          assert !AllPresent(Snapshot(), ids);
          return None;
        }
        assert ids[..i + 1] == ids[..i] + [u];
        assert IdSet(ids[..i + 1]) == IdSet(ids[..i]) + {u};
        RestrictAdd(segments, IdSet(ids[..i]), u);
        RestrictAdd(text, IdSet(ids[..i]), u);
        RestrictAdd(utt2spk, IdSet(ids[..i]), u);
        segs, txt, spk := segs[u := segments[u]], txt[u := text[u]], spk[u := utt2spk[u]];
        i := i + 1;
      }
      assert ids[..i] == ids;
      assert AllPresent(Snapshot(), ids);
      return Some((segs, txt, spk));
    }

    /** `subcorpus(ids, prune)`: a new corpus made of the utterances `ids`,
        pruned if asked, then validated; this corpus is left unchanged. */
    method Subcorpus(ids: seq<string>, prune: bool, realpath: string -> string, validate: Tables -> Outcome)
      returns (r: Result<Corpus>)
      ensures var expected := SubcorpusResult(Snapshot(), ids, prune, realpath, validate);
        && (r.Failure? <==> expected.Failure?)
        && (r.Failure? ==> r.error == expected.error)
        && (r.Success? ==> fresh(r.value) && r.value.Snapshot() == expected.value)
    {
      ghost var t := Snapshot();
      SubcorpusResultCases(t, ids, prune, realpath, validate);
      var paths := map k | k in wavs :: realpath(wavs[k]);
      var selected := SelectUtterances(ids);
      if selected.None? {
        return Failure(KeyError);
      }
      var (segs, txt, spk) := selected.value;
      ghost var sub := SubTables(t, ids, realpath);
      var corpus := new Corpus();
      corpus.Assign(Tables(paths, lexicon, segs, txt, phones, spk, silences, variants));
      assert corpus.Snapshot() == sub;
      if prune {
        var err := corpus.Prune();
        if err.Some? {
          assert Snapshot() == t;
          return Failure(err.value);
        }
      }
      var outcome := validate(corpus.Snapshot());
      assert Snapshot() == t;
      if outcome.Fail? {
        return Failure(outcome.error);
      }
      return Success(corpus);
    }
  }
}
