/** The train/test split of a Librivox corpus driven by the tags written into
    its utterance ids (abkhazia/corpus/corpus_split_librivox.py). An id reads
    `<f0>_<f1>_<f2>_<kind>_<split>[_...]`: field 3 says whether the speaker is
    a family member (`L`) or a new speaker (`N`), field 4 whether the
    utterance belongs to the train (`tr`) or the test (`te`) set. */
module LibrivoxSplit {
  import opened Base
  import opened Strings
  import opened Corpus

  /** `utt.split('_')`. */
  function Fields(utt: string): (r: seq<string>)
    ensures |r| >= 1
  {
    Split(utt, "_")
  }

  /** The id has the five fields the loop indexes. */
  predicate WellTagged(utt: string) {
    |Fields(utt)| >= 5
  }

  predicate AllWellTagged(utts: seq<(string, string)>) {
    forall i :: 0 <= i < |utts| ==> WellTagged(utts[i].0)
  }

  /** The train/test tag (field 4) and the speaker kind (field 3). */
  function SplitTag(utt: string): string
    requires WellTagged(utt)
  {
    Fields(utt)[4]
  }

  function KindTag(utt: string): string
    requires WellTagged(utt)
  {
    Fields(utt)[3]
  }

  /** An (utterance, speaker) pair whose id carries the split tag `tag`. */
  predicate HasSplitTag(x: (string, string), tag: string) {
    WellTagged(x.0) && SplitTag(x.0) == tag
  }

  /** A pair whose id carries the speaker kind `kind`. */
  predicate HasKindTag(x: (string, string), kind: string) {
    WellTagged(x.0) && KindTag(x.0) == kind
  }

  function SplitTagIs(tag: string): ((string, string)) -> bool {
    x => HasSplitTag(x, tag)
  }

  function KindTagIs(kind: string): ((string, string)) -> bool {
    x => HasKindTag(x, kind)
  }

  function Utterance(x: (string, string)): string { x.0 }

  function Speaker(x: (string, string)): string { x.1 }

  /** The ids, in input order, whose split tag is `tag`. */
  function IdsTagged(utts: seq<(string, string)>, tag: string): seq<string> {
    FilterMap(utts, SplitTagIs(tag), Utterance)
  }

  /** The speakers, one entry per utterance and in input order, of the
      utterances whose kind tag is `kind`. */
  function SpeakersTagged(utts: seq<(string, string)>, kind: string): seq<string> {
    FilterMap(utts, KindTagIs(kind), Speaker)
  }

  /** The four lists the tag loop builds. */
  datatype Partition = Partition(train: seq<string>, test: seq<string>, family: seq<string>, newSpeakers: seq<string>)

  /** The loop of `splitLibrivox` over the (utterance, speaker) pairs. An id
      with fewer than five fields fails the indexing with IndexError, which
      nothing catches. An id tagged neither `tr` nor `te` joins neither list
      (the source only prints a warning for it), a kind tag other than `L`
      and `N` adds its speaker to neither list. */
  method TagPartition(utts: seq<(string, string)>) returns (r: Result<Partition>)
    ensures r.Failure? <==> !AllWellTagged(utts)
    ensures r.Failure? ==> r.error == IndexError
    ensures r.Success? ==> r.value == Partition(IdsTagged(utts, "tr"), IdsTagged(utts, "te"),
                                                SpeakersTagged(utts, "L"), SpeakersTagged(utts, "N"))
  {
    var train, test, family, newSpeakers := [], [], [], [];
    var i := 0;
    while i < |utts|
      invariant 0 <= i <= |utts|
      invariant AllWellTagged(utts[..i])
      invariant train == IdsTagged(utts[..i], "tr") && test == IdsTagged(utts[..i], "te")
      invariant family == SpeakersTagged(utts[..i], "L") && newSpeakers == SpeakersTagged(utts[..i], "N")
    {
      var (utt, spkr) := utts[i];
      var fields := Split(utt, "_");
      if |fields| < 5 {
        // utt_list[3], then utt_list[4]: either index is out of range
        return Failure(IndexError);
      }
      var typeSpkr, trainTest := fields[3], fields[4];
      FilterMapStep(utts, SplitTagIs("tr"), Utterance, i);
      FilterMapStep(utts, SplitTagIs("te"), Utterance, i);
      FilterMapStep(utts, KindTagIs("L"), Speaker, i);
      FilterMapStep(utts, KindTagIs("N"), Speaker, i);
      if trainTest == "tr" {
        train := train + [utt];
      } else if trainTest == "te" {
        test := test + [utt];
      }
      if typeSpkr == "L" {
        family := family + [spkr];
      } else if typeSpkr == "N" {
        newSpeakers := newSpeakers + [spkr];
      }
      i := i + 1;
    }
    assert utts[..i] == utts;
    return Success(Partition(train, test, family, newSpeakers));
  }

  /** An id is in the list of a split tag exactly when some input pair has
      it and it carries that tag. */
  lemma IdsTaggedMembership(utts: seq<(string, string)>, tag: string, u: string)
    ensures u in IdsTagged(utts, tag) <==>
            (exists i :: 0 <= i < |utts| && utts[i].0 == u) && WellTagged(u) && SplitTag(u) == tag
  {
    FilterMapMembership(utts, SplitTagIs(tag), Utterance, u);
    if exists i :: 0 <= i < |utts| && utts[i].0 == u {
      var i :| 0 <= i < |utts| && utts[i].0 == u;
      assert Utterance(utts[i]) == u;
    }
  }

  /** A speaker is in the list of a kind tag exactly when some utterance
      with that kind tag is theirs; the split tag plays no part. */
  lemma SpeakersTaggedMembership(utts: seq<(string, string)>, kind: string, s: string)
    ensures s in SpeakersTagged(utts, kind) <==>
            exists i :: 0 <= i < |utts| && utts[i].1 == s && WellTagged(utts[i].0) && KindTag(utts[i].0) == kind
  {
    FilterMapMembership(utts, KindTagIs(kind), Speaker, s);
    if exists i :: 0 <= i < |utts| && utts[i].1 == s && WellTagged(utts[i].0) && KindTag(utts[i].0) == kind {
      var i :| 0 <= i < |utts| && utts[i].1 == s && WellTagged(utts[i].0) && KindTag(utts[i].0) == kind;
      assert KindTagIs(kind)(utts[i]) && Speaker(utts[i]) == s;
    }
  }

  /** No utterance is in both the train and the test list. */
  lemma TrainTestDisjoint(utts: seq<(string, string)>)
    ensures forall u :: u in IdsTagged(utts, "tr") ==> u !in IdsTagged(utts, "te")
  {
    forall u | u in IdsTagged(utts, "tr") ensures u !in IdsTagged(utts, "te") {
      IdsTaggedMembership(utts, "tr", u);
      IdsTaggedMembership(utts, "te", u);
    }
  }

  /** Each list of ids keeps the input order: it is a subsequence of the
      input ids. */
  lemma IdsTaggedSubsequence(utts: seq<(string, string)>, tag: string)
    ensures IsSubsequence(IdsTagged(utts, tag), Firsts(utts))
  {
    FilterMapSubsequence(utts, SplitTagIs(tag), Utterance, Firsts(utts));
  }

  /** Distinct input ids give lists of ids without duplicates. */
  lemma IdsTaggedDistinct(utts: seq<(string, string)>, tag: string)
    requires NoDuplicates(Firsts(utts))
    ensures NoDuplicates(IdsTagged(utts, tag))
  {
    FilterMapDistinct(utts, SplitTagIs(tag), Utterance, Firsts(utts));
  }

  /** `list(set(alist))` in `write_text`: every element once, in some order
      (the order of a Python set is unspecified). */
  method Dedup(xs: seq<string>) returns (r: seq<string>)
    ensures NoDuplicates(r)
    ensures forall x :: x in r <==> x in xs
  {
    var todo := set x | x in xs;
    r := [];
    while todo != {}
      invariant NoDuplicates(r)
      invariant forall x :: x in r <==> x in xs && x !in todo
      invariant forall x :: x in todo ==> x in xs
      decreases todo
    {
      var x :| x in todo;
      NoDuplicatesAppend(r, x);
      r := r + [x];
      todo := todo - {x};
    }
  }

  /** `utts` lists every entry of `utt2spk` once, as (utterance, speaker). */
  ghost predicate Enumerates(utts: seq<(string, string)>, utt2spk: map<string, string>) {
    && |utts| == |utt2spk|
    && NoDuplicates(Firsts(utts))
    && (forall i :: 0 <= i < |utts| ==> SpokenBy(utt2spk, utts[i].0, utts[i].1))
    && (forall u :: u in utt2spk ==> u in Firsts(utts))
  }

  /** The state of the loop building `utts`: the entries of the keys
      `done`, each once. */
  ghost predicate EnumeratesUpTo(pairs: seq<(string, string)>, m: map<string, string>, done: set<string>) {
    && |pairs| == |done| && NoDuplicates(Firsts(pairs))
    && (forall i :: 0 <= i < |pairs| ==> SpokenBy(m, pairs[i].0, pairs[i].1))
    && (forall u :: u in done <==> u in Firsts(pairs))
  }

  lemma EnumeratesAdd(pairs: seq<(string, string)>, m: map<string, string>, todo: set<string>, u: string)
    requires todo <= m.Keys && u in todo
    requires EnumeratesUpTo(pairs, m, m.Keys - todo)
    ensures EnumeratesUpTo(pairs + [(u, m[u])], m, m.Keys - (todo - {u}))
  {
    var done := m.Keys - todo;
    assert done + {u} == m.Keys - (todo - {u});
    assert Firsts(pairs + [(u, m[u])]) == Firsts(pairs) + [u];
    NoDuplicatesAppend(Firsts(pairs), u);
  }

  /** The speakers named by the pairs. */
  function Seconds(utts: seq<(string, string)>): set<string> {
    set i | 0 <= i < |utts| :: utts[i].1
  }

  /** The speakers of an enumeration are the speakers of the map. */
  lemma EnumeratedSpeakers(utts: seq<(string, string)>, utt2spk: map<string, string>)
    requires Enumerates(utts, utt2spk)
    ensures Seconds(utts) == utt2spk.Values
  {
    forall s | s in utt2spk.Values ensures s in Seconds(utts) {
      var u :| u in utt2spk && utt2spk[u] == s;
      assert u in Firsts(utts);
      var i :| 0 <= i < |utts| && Firsts(utts)[i] == u;
      assert SpokenBy(utt2spk, utts[i].0, utts[i].1);
    }
    forall s | s in Seconds(utts) ensures s in utt2spk.Values {
      var i :| 0 <= i < |utts| && utts[i].1 == s;
      assert SpokenBy(utt2spk, utts[i].0, utts[i].1);
    }
  }

  /** What `splitLibrivox` returns once the tags are read: the train
      subcorpus, then the test subcorpus, with the configured pruning; the
      first failure wins. */
  function SplitResult(t: Tables, p: Partition, prune: bool,
                       realpath: string -> string, validate: Tables -> Outcome): Result<(Tables, Tables)>
  {
    var train :- SubcorpusResult(t, p.train, prune, realpath, validate);
    var test :- SubcorpusResult(t, p.test, prune, realpath, validate);
    Success((train, test))
  }

  class CorpusSplitLibrivox {
    var corpus: Corpus
    var prune: bool
    var utts: seq<(string, string)>
    var size: nat
    var speakers: set<string>

    /** The attributes `__init__` sets, computed from the corpus. The order
        of `utts` is the unspecified iteration order of `utt2spk`. On an
        empty corpus `__init__` raises before setting them; `Create` models
        that case. */
    constructor (corpus: Corpus, prune: bool)
      requires corpus.utt2spk != map[]
      ensures this.corpus == corpus && this.prune == prune
      ensures Enumerates(utts, corpus.utt2spk)
      ensures size == |corpus.utt2spk| && speakers == corpus.utt2spk.Values
    {
      var m := corpus.utt2spk;
      var pairs: seq<(string, string)> := [];
      var todo := m.Keys;
      assert m.Keys - todo == {};
      while todo != {}
        invariant todo <= m.Keys
        invariant EnumeratesUpTo(pairs, m, m.Keys - todo)
        decreases todo
      {
        var u :| u in todo;
        EnumeratesAdd(pairs, m, todo, u);
        pairs := pairs + [(u, m[u])];
        todo := todo - {u};
      }
      assert m.Keys - todo == m.Keys;
      assert |m| == |m.Keys|;
      EnumeratedSpeakers(pairs, m);
      this.corpus, this.prune := corpus, prune;
      utts, size, speakers := pairs, |pairs|, Seconds(pairs);
    }

    /** `__init__`: unpacking `zip(*utt2spk.iteritems())` into two names
        raises ValueError when the corpus has no utterance. */
    static method Create(corpus: Corpus, prune: bool) returns (r: Result<CorpusSplitLibrivox>)
      ensures r.Failure? <==> corpus.utt2spk == map[]
      ensures r.Failure? ==> r.error == ValueError
      ensures r.Success? ==> fresh(r.value) && r.value.corpus == corpus && r.value.prune == prune
      ensures r.Success? ==> Enumerates(r.value.utts, corpus.utt2spk)
      ensures r.Success? ==> r.value.size == |corpus.utt2spk| && r.value.speakers == corpus.utt2spk.Values
    {
      if corpus.utt2spk == map[] {
        return Failure(ValueError);
      }
      var s := new CorpusSplitLibrivox(corpus, prune);
      return Success(s);
    }

    /** `splitLibrivox(out_path)`: partition the utterances by their tags,
        write the deduplicated family and new-speaker lists (returned here
        in place of the two files), and return the train and test
        subcorpora. */
    method SplitLibrivox(realpath: string -> string, validate: Tables -> Outcome)
      returns (r: Result<(Corpus, Corpus)>, family: Option<seq<string>>, newSpeakers: Option<seq<string>>)
      ensures !AllWellTagged(utts) ==> r == Failure(IndexError) && family.None? && newSpeakers.None?
      ensures AllWellTagged(utts) ==>
        && family.Some? && NoDuplicates(family.value)
        && (forall s :: s in family.value <==> s in SpeakersTagged(utts, "L"))
        && newSpeakers.Some? && NoDuplicates(newSpeakers.value)
        && (forall s :: s in newSpeakers.value <==> s in SpeakersTagged(utts, "N"))
      ensures AllWellTagged(utts) ==>
        var p := Partition(IdsTagged(utts, "tr"), IdsTagged(utts, "te"),
                           SpeakersTagged(utts, "L"), SpeakersTagged(utts, "N"));
        var expected := SplitResult(corpus.Snapshot(), p, prune, realpath, validate);
        && (r.Failure? <==> expected.Failure?)
        && (r.Failure? ==> r.error == expected.error)
        && (r.Success? ==> fresh(r.value.0) && fresh(r.value.1)
                           && r.value.0.Snapshot() == expected.value.0
                           && r.value.1.Snapshot() == expected.value.1)
    {
      var parts := TagPartition(utts);
      if parts.Failure? {
        return Failure(parts.error), None, None;
      }
      var f := Dedup(parts.value.family);
      var n := Dedup(parts.value.newSpeakers);
      family, newSpeakers := Some(f), Some(n);
      var train := corpus.Subcorpus(parts.value.train, prune, realpath, validate);
      if train.Failure? {
        return Failure(train.error), family, newSpeakers;
      }
      var test := corpus.Subcorpus(parts.value.test, prune, realpath, validate);
      if test.Failure? {
        return Failure(test.error), family, newSpeakers;
      }
      r := Success((train.value, test.value));
    }
  }
}
