/** The reader of the CID TextGrid transcriptions
    (abkhazia/corpus/prepare/cid_preparator.py): a line-by-line state
    machine over four variables that emits one record per interval, the
    segments built from those records and the speakers derived from the
    segment ids. The timestamps are values of an abstract type `F`;
    `parse` stands for `float()` (None where it raises ValueError) and
    `nonZero` for the truth value of a float. */
module Cid {
  import opened Base
  import opened Strings

  /** The generator's local variables `utt`, `tstart`, `tstop`, `text`. */
  datatype State<F> = State(utt: Option<string>, tstart: Option<F>, tstop: Option<F>, text: Option<string>)

  function Initial<F>(): State<F> {
    State(None, None, None, None)
  }

  /** A yielded tuple (utt, wav, text, tstart, tstop). */
  datatype Record<F> = Record(utt: string, wav: string, text: Option<string>, tstart: F, tstop: F)

  /** The speaker of a transcription file: the first two characters of its
      base name. */
  function Speaker(trsFile: string): (r: string)
    ensures |r| <= 2 && r <= Basename(trsFile)
  {
    Prefix(Basename(trsFile), 2)
  }

  const IntervalsTag := "intervals ["
  const Assign := " = "

  /** `line.split(' = ')[1]`, or IndexError when the line has no ` = `. */
  function ValueOf(line: string): (r: Result<string>)
    ensures r.Failure? ==> r.error == IndexError
  {
    var pieces := Split(line, Assign);
    if |pieces| < 2 then Failure(IndexError) else Success(pieces[1])
  }

  /** `float(line.split(' = ')[1])`. */
  function TimeOf<F>(parse: string -> Option<F>, line: string): (r: Result<F>)
    ensures r.Failure? ==> r.error == IndexError || r.error == ValueError
  {
    var v :- ValueOf(line);
    match parse(v)
    case None => Failure(ValueError)
    case Some(f) => Success(f)
  }

  /** The if/elif chain on one stripped line: only the first matching
      prefix acts. An `intervals [` line names a new utterance and forgets
      the times, but keeps the text. */
  function Update<F>(spk: string, parse: string -> Option<F>, st: State<F>, line: string): (r: Result<State<F>>)
    ensures StartsWith(line, IntervalsTag) ==>
      r.Success? && r.value.text == st.text && r.value.tstart.None? && r.value.tstop.None?
      && r.value.utt.Some? && spk + "_" <= r.value.utt.value
    ensures !StartsWith(line, IntervalsTag) && StartsWith(line, "xmin") && r.Success? ==>
      r.value == st.(tstart := r.value.tstart) && r.value.tstart.Some?
    ensures !StartsWith(line, IntervalsTag) && !StartsWith(line, "xmin") && StartsWith(line, "xmax") && r.Success? ==>
      r.value == st.(tstop := r.value.tstop) && r.value.tstop.Some?
    ensures (!StartsWith(line, IntervalsTag) && !StartsWith(line, "xmin") && !StartsWith(line, "xmax")
             && StartsWith(line, "text") && r.Success?) ==>
      r.value == st.(text := r.value.text) && r.value.text.Some?
    ensures (!StartsWith(line, IntervalsTag) && !StartsWith(line, "xmin") && !StartsWith(line, "xmax")
             && !StartsWith(line, "text")) ==> r == Success(st)
    ensures r.Failure? ==> r.error == IndexError || r.error == ValueError
  {
    if StartsWith(line, IntervalsTag) then
      IntervalsLineSplits(line);
      var pieces := Split(line, "[");
      Success(st.(utt := Some(spk + "_" + DropLast(pieces[1], 2)), tstart := None, tstop := None))
    else if StartsWith(line, "xmin") then
      var t :- TimeOf(parse, line);
      Success(st.(tstart := Some(t)))
    else if StartsWith(line, "xmax") then
      var t :- TimeOf(parse, line);
      Success(st.(tstop := Some(t)))
    else if StartsWith(line, "text") then
      var v :- ValueOf(line);
      Success(st.(text := Some(v)))
    else Success(st)
  }

  /** An `intervals [` line always has a piece after its first `[`. */
  lemma IntervalsLineSplits(line: string)
    requires StartsWith(line, IntervalsTag)
    ensures |Split(line, "[")| >= 2
  {
    assert line[10..11] == IntervalsTag[10..11] == "[";
    SplitFound(line, "[", 10);
  }

  /** The utterance of an `intervals [` line: the speaker, `_`, and what
      follows the first `[` without its last two characters. */
  lemma UpdateIntervals<F>(spk: string, parse: string -> Option<F>, st: State<F>, line: string)
    requires StartsWith(line, IntervalsTag)
    ensures |Split(line, "[")| >= 2
    ensures Update(spk, parse, st, line)
         == Success(State(Some(spk + "_" + DropLast(Split(line, "[")[1], 2)), None, None, st.text))
  {
    IntervalsLineSplits(line);
  }

  /** `if utt and tstart and tstop`: all three are set and truthy. */
  predicate Ready<F>(st: State<F>, nonZero: F -> bool) {
    && st.utt.Some? && st.utt.value != []
    && st.tstart.Some? && nonZero(st.tstart.value)
    && st.tstop.Some? && nonZero(st.tstop.value)
  }

  /** One iteration of the loop: strip the line, update the state, and if
      it is ready, yield its record and reset all four variables. */
  function Step<F>(spk: string, parse: string -> Option<F>, nonZero: F -> bool, st: State<F>, raw: string)
    : (r: Result<(State<F>, Option<Record<F>>)>)
    ensures r.Success? && r.value.1.Some? ==>
      var rec := r.value.1.value;
      && r.value.0 == Initial()
      && rec.wav == spk + "-anonym" && nonZero(rec.tstart) && nonZero(rec.tstop)
    ensures r.Success? && r.value.1.None? ==> !Ready(r.value.0, nonZero)
    ensures var next := Update(spk, parse, st, Strip(raw));
      && (r.Success? <==> next.Success?)
      && (r.Failure? ==> r.error == next.error)
      && (r.Success? ==> (r.value.1.Some? <==> Ready(next.value, nonZero)))
      && (r.Success? && r.value.1.None? ==> r.value.0 == next.value)
      && (r.Success? && r.value.1.Some? ==>
            var rec := r.value.1.value;
            && rec.utt == next.value.utt.value && rec.text == next.value.text
            && rec.tstart == next.value.tstart.value && rec.tstop == next.value.tstop.value)
  {
    var next :- Update(spk, parse, st, Strip(raw));
    if Ready(next, nonZero) then
      Success((Initial(), Some(Record(next.utt.value, spk + "-anonym", next.text, next.tstart.value, next.tstop.value))))
    else Success((next, None))
  }

  /** What the generator has yielded after some lines, the state it is in,
      and the exception that stopped it, if any. */
  datatype Trace<F> = Trace(records: seq<Record<F>>, state: State<F>, error: Option<Error>)

  function Run<F>(spk: string, parse: string -> Option<F>, nonZero: F -> bool, lines: seq<string>): Trace<F>
    decreases |lines|
  {
    if lines == [] then Trace([], Initial(), None)
    else
      var t := Run(spk, parse, nonZero, lines[..|lines| - 1]);
      if t.error.Some? then t
      else
        match Step(spk, parse, nonZero, t.state, lines[|lines| - 1])
        case Failure(e) => t.(error := Some(e))
        case Success((st, rec)) => Trace(t.records + (if rec.Some? then [rec.value] else []), st, None)
  }

  /** `_yield_transcription(trs_file)`, run to its end or to its first
      exception: the records yielded, and the exception. */
  method YieldTranscription<F>(trsFile: string, lines: seq<string>, parse: string -> Option<F>, nonZero: F -> bool)
    returns (records: seq<Record<F>>, err: Option<Error>)
    ensures var t := Run(Speaker(trsFile), parse, nonZero, lines); records == t.records && err == t.error
  {
    var spk := Speaker(trsFile);
    var st: State<F> := Initial();
    records, err := [], None;
    var i := 0;
    while i < |lines|
      invariant 0 <= i <= |lines|
      invariant Run(spk, parse, nonZero, lines[..i]) == Trace(records, st, None)
    {
      RunStep(spk, parse, nonZero, lines, i);
      var line := Strip(lines[i]);
      var next := Update(spk, parse, st, line);
      if next.Failure? {
        RunStops(spk, parse, nonZero, lines, i + 1);
        return records, Some(next.error);
      }
      st := next.value;
      if Ready(st, nonZero) {
        records := records + [Record(st.utt.value, spk + "-anonym", st.text, st.tstart.value, st.tstop.value)];
        st := Initial();
      }
      i := i + 1;
    }
    assert lines[..i] == lines;
  }

  /** The trace after one more line, from the trace before it. */
  lemma RunStep<F>(spk: string, parse: string -> Option<F>, nonZero: F -> bool, lines: seq<string>, i: nat)
    requires i < |lines|
    ensures var t := Run(spk, parse, nonZero, lines[..i]);
      Run(spk, parse, nonZero, lines[..i + 1])
      == if t.error.Some? then t
         else match Step(spk, parse, nonZero, t.state, lines[i])
           case Failure(e) => t.(error := Some(e))
           case Success((st, rec)) => Trace(t.records + (if rec.Some? then [rec.value] else []), st, None)
  {
    assert lines[..i + 1][..i] == lines[..i];
  }

  /** Once the generator raised, later lines change nothing. */
  lemma {:induction false} RunStops<F>(spk: string, parse: string -> Option<F>, nonZero: F -> bool,
                                       lines: seq<string>, n: nat)
    requires n <= |lines| && Run(spk, parse, nonZero, lines[..n]).error.Some?
    ensures Run(spk, parse, nonZero, lines) == Run(spk, parse, nonZero, lines[..n])
    decreases |lines|
  {
    if n < |lines| {
      assert lines[..|lines| - 1][..n] == lines[..n];
      RunStops(spk, parse, nonZero, lines[..|lines| - 1], n);
    } else {
      assert lines[..n] == lines;
    }
  }

  /** The utterance in the state, when there is one, belongs to the
      speaker. */
  predicate OwnUtt<F>(spk: string, st: State<F>) {
    st.utt.Some? ==> spk + "_" <= st.utt.value
  }

  /** A yielded record belongs to the file's speaker and has two truthy
      timestamps. */
  predicate SpeakerRecord<F>(spk: string, nonZero: F -> bool, rec: Record<F>) {
    && spk + "_" <= rec.utt
    && rec.wav == spk + "-anonym"
    && nonZero(rec.tstart) && nonZero(rec.tstop)
  }

  /** Every record names an utterance `spk_...` in wav `spk-anonym`, with
      non-zero start and stop: an interval starting at 0.0 is never
      yielded. */
  lemma {:induction false} RunRecords<F>(spk: string, parse: string -> Option<F>, nonZero: F -> bool, lines: seq<string>)
    ensures OwnUtt(spk, Run(spk, parse, nonZero, lines).state)
    ensures forall rec :: rec in Run(spk, parse, nonZero, lines).records ==> SpeakerRecord(spk, nonZero, rec)
    decreases |lines|
  {
    if lines != [] {
      var n := |lines| - 1;
      var t := Run(spk, parse, nonZero, lines[..n]);
      RunRecords(spk, parse, nonZero, lines[..n]);
      RunStep(spk, parse, nonZero, lines, n);
      assert lines[..n + 1] == lines;
      if t.error.None? {
        StepKeepsSpeaker(spk, parse, nonZero, t.state, lines[n]);
      }
    }
  }

  /** One line keeps the utterance in the state the speaker's, and a record
      it yields belongs to the speaker. */
  lemma StepKeepsSpeaker<F>(spk: string, parse: string -> Option<F>, nonZero: F -> bool, st: State<F>, raw: string)
    requires OwnUtt(spk, st)
    ensures var r := Step(spk, parse, nonZero, st, raw);
      r.Success? ==> OwnUtt(spk, r.value.0) && (r.value.1.Some? ==> SpeakerRecord(spk, nonZero, r.value.1.value))
  {
    var next := Update(spk, parse, st, Strip(raw));
    if next.Success? {
      assert OwnUtt(spk, next.value);
    }
  }

  /** A falsy start time blocks the record: a line other than `intervals [`
      or `xmin`, read while `tstart` is 0.0, yields nothing. */
  lemma ZeroStartNeverEmits<F>(spk: string, parse: string -> Option<F>, nonZero: F -> bool,
                               st: State<F>, raw: string)
    requires st.tstart.Some? && !nonZero(st.tstart.value)
    requires !StartsWith(Strip(raw), IntervalsTag) && !StartsWith(Strip(raw), "xmin")
    ensures Step(spk, parse, nonZero, st, raw).Success? ==> Step(spk, parse, nonZero, st, raw).value.1.None?
  {
    var next := Update(spk, parse, st, Strip(raw));
    if next.Success? {
      assert next.value.tstart == st.tstart;
    }
  }

  /** In the usual layout of an interval (`intervals [`, `xmin`, `xmax`,
      then `text`), the record is yielded after the `xmax` line, before the
      interval's own `text` line: it carries the text that was current
      before the interval began. */
  lemma IntervalYieldsEarlierText<F>(spk: string, parse: string -> Option<F>, nonZero: F -> bool,
                                     st: State<F>, l1: string, l2: string, l3: string)
    requires StartsWith(Strip(l1), IntervalsTag)
    requires StartsWith(Strip(l2), "xmin") && TimeOf(parse, Strip(l2)).Success?
    requires nonZero(TimeOf(parse, Strip(l2)).value)
    requires StartsWith(Strip(l3), "xmax") && TimeOf(parse, Strip(l3)).Success?
    requires nonZero(TimeOf(parse, Strip(l3)).value)
    ensures var s1 := Step(spk, parse, nonZero, st, l1);
      && s1.Success? && s1.value.1.None?
      && var s2 := Step(spk, parse, nonZero, s1.value.0, l2);
      && s2.Success? && s2.value.1.None?
      && var s3 := Step(spk, parse, nonZero, s2.value.0, l3);
      && s3.Success? && s3.value.1.Some? && |Split(Strip(l1), "[")| >= 2
      && s3.value.1.value == Record(spk + "_" + DropLast(Split(Strip(l1), "[")[1], 2), spk + "-anonym", st.text,
                                    TimeOf(parse, Strip(l2)).value, TimeOf(parse, Strip(l3)).value)
  {
    var a, b, c := Strip(l1), Strip(l2), Strip(l3);
    UpdateIntervals(spk, parse, st, a);
    var u := spk + "_" + DropLast(Split(a, "[")[1], 2);
    var st1 := State(Some(u), None, None, st.text);
    assert Step(spk, parse, nonZero, st, l1) == Success((st1, None));
    UpdateTime(spk, parse, st1, b);
    var st2 := st1.(tstart := Some(TimeOf(parse, b).value));
    assert Step(spk, parse, nonZero, st1, l2) == Success((st2, None));
    UpdateTime(spk, parse, st2, c);
    var st3 := st2.(tstop := Some(TimeOf(parse, c).value));
    assert Ready(st3, nonZero);
  }

  /** An `xmin` line sets `tstart` to its time, an `xmax` line `tstop`. */
  lemma UpdateTime<F>(spk: string, parse: string -> Option<F>, st: State<F>, line: string)
    requires StartsWith(line, "xmin") || StartsWith(line, "xmax")
    requires TimeOf(parse, line).Success?
    ensures StartsWith(line, "xmin") ==> Update(spk, parse, st, line) == Success(st.(tstart := Some(TimeOf(parse, line).value)))
    ensures StartsWith(line, "xmax") ==> Update(spk, parse, st, line) == Success(st.(tstop := Some(TimeOf(parse, line).value)))
  {
    assert line[0] == 'x' && IntervalsTag[0] == 'i';
    if StartsWith(line, "xmax") {
      assert line[2] == 'a';
    }
  }

  // -------------------------------------------------------------- segments

  /** `'transcription' in os.path.basename(t)`. */
  predicate IsTranscriptionFile(path: string) {
    Contains(Basename(path), "transcription")
  }

  /** The records of all transcription files, in listing order, or the
      exception of the first file that raises. Each file is a path with
      its lines. */
  function AllRecords<F>(files: seq<(string, seq<string>)>, parse: string -> Option<F>, nonZero: F -> bool)
    : Result<seq<Record<F>>>
    decreases |files|
  {
    if files == [] then Success([])
    else
      var before :- AllRecords(files[..|files| - 1], parse, nonZero);
      var (path, lines) := files[|files| - 1];
      if !IsTranscriptionFile(path) then Success(before)
      else
        var t := Run(Speaker(path), parse, nonZero, lines);
        if t.error.Some? then Failure(t.error.value) else Success(before + t.records)
  }

  /** The segments of the records: each utterance mapped to the wav and
      times of its last record. */
  function SegmentMap<F>(records: seq<Record<F>>): map<string, (string, F, F)>
    decreases |records|
  {
    if records == [] then map[]
    else
      var rec := records[|records| - 1];
      SegmentMap(records[..|records| - 1])[rec.utt := (rec.wav, rec.tstart, rec.tstop)]
  }

  lemma SegmentMapAppend<F>(records: seq<Record<F>>, rec: Record<F>)
    ensures SegmentMap(records + [rec]) == SegmentMap(records)[rec.utt := (rec.wav, rec.tstart, rec.tstop)]
  {
    assert (records + [rec])[..|records|] == records;
  }

  /** An utterance has a segment exactly when some record names it, and
      the segment is that of the last such record. */
  lemma {:induction false} SegmentMapSpec<F>(records: seq<Record<F>>, u: string)
    ensures u in SegmentMap(records) <==> exists i :: 0 <= i < |records| && records[i].utt == u
    ensures u in SegmentMap(records) ==>
      exists i :: 0 <= i < |records| && records[i].utt == u
        && SegmentMap(records)[u] == (records[i].wav, records[i].tstart, records[i].tstop)
        && forall j :: i < j < |records| ==> records[j].utt != u
    decreases |records|
  {
    if records != [] {
      var init := records[..|records| - 1];
      var rec := records[|records| - 1];
      SegmentMapSpec(init, u);
      if u == rec.utt {
        assert records[|records| - 1].utt == u;
      } else {
        if exists i :: 0 <= i < |init| && init[i].utt == u {
          var i :| 0 <= i < |init| && init[i].utt == u
            && SegmentMap(init)[u] == (init[i].wav, init[i].tstart, init[i].tstop)
            && forall j :: i < j < |init| ==> init[j].utt != u;
          assert records[i] == init[i];
          assert forall j :: i < j < |records| ==> records[j].utt != u by {
            forall j | i < j < |records| ensures records[j].utt != u {
              if j < |init| { assert records[j] == init[j]; }
            }
          }
        }
        if exists i :: 0 <= i < |records| && records[i].utt == u {
          var i :| 0 <= i < |records| && records[i].utt == u;
          assert i < |init| && init[i] == records[i];
        }
      }
    }
  }

  /** Every value of a segment map is taken from a record that names its
      key. */
  lemma SegmentFromRecord<F>(records: seq<Record<F>>, u: string)
    requires u in SegmentMap(records)
    ensures exists rec :: rec in records && rec.utt == u && SegmentMap(records)[u] == (rec.wav, rec.tstart, rec.tstop)
  {
    SegmentMapSpec(records, u);
    var i :| 0 <= i < |records| && records[i].utt == u
      && SegmentMap(records)[u] == (records[i].wav, records[i].tstart, records[i].tstop);
    assert records[i] in records;
  }

  /** `make_segment`: the records of every transcription file go into one
      dictionary, a later record of an utterance replacing an earlier one;
      an exception of any file propagates. */
  method MakeSegment<F>(files: seq<(string, seq<string>)>, parse: string -> Option<F>, nonZero: F -> bool)
    returns (r: Result<map<string, (string, F, F)>>)
    ensures r.Failure? <==> AllRecords(files, parse, nonZero).Failure?
    ensures r.Failure? ==> r.error == AllRecords(files, parse, nonZero).error
    ensures r.Success? ==> r.value == SegmentMap(AllRecords(files, parse, nonZero).value)
  {
    var segments: map<string, (string, F, F)> := map[];
    ghost var seen: seq<Record<F>> := [];
    var i := 0;
    while i < |files|
      invariant 0 <= i <= |files|
      invariant AllRecords(files[..i], parse, nonZero) == Success(seen)
      invariant segments == SegmentMap(seen)
    {
      AllRecordsStep(files, parse, nonZero, i);
      var (path, lines) := files[i];
      if IsTranscriptionFile(path) {
        var records, err := YieldTranscription(path, lines, parse, nonZero);
        segments := InsertRecords(segments, seen, records);
        if err.Some? {
          AllRecordsStops(files, parse, nonZero, i + 1);
          return Failure(err.value);
        }
        seen := seen + records;
      }
      i := i + 1;
    }
    assert files[..i] == files;
    return Success(segments);
  }

  /** The inner loop of `make_segment`: `segments[utt] = (wav, tstart, tstop)`
      for each record in turn. */
  method InsertRecords<F>(segments: map<string, (string, F, F)>, ghost seen: seq<Record<F>>, records: seq<Record<F>>)
    returns (r: map<string, (string, F, F)>)
    requires segments == SegmentMap(seen)
    ensures r == SegmentMap(seen + records)
  {
    r := segments;
    var j := 0;
    assert seen + records[..0] == seen;
    while j < |records|
      invariant 0 <= j <= |records|
      invariant r == SegmentMap(seen + records[..j])
    {
      var rec := records[j];
      assert seen + records[..j + 1] == (seen + records[..j]) + [rec];
      SegmentMapAppend(seen + records[..j], rec);
      r := r[rec.utt := (rec.wav, rec.tstart, rec.tstop)];
      j := j + 1;
    }
    assert records[..j] == records;
  }

  /** The records of one more file, from those before it. */
  lemma AllRecordsStep<F>(files: seq<(string, seq<string>)>, parse: string -> Option<F>, nonZero: F -> bool, i: nat)
    requires i < |files| && AllRecords(files[..i], parse, nonZero).Success?
    ensures var before := AllRecords(files[..i], parse, nonZero).value;
      var t := Run(Speaker(files[i].0), parse, nonZero, files[i].1);
      AllRecords(files[..i + 1], parse, nonZero)
      == if !IsTranscriptionFile(files[i].0) then Success(before)
         else if t.error.Some? then Failure(t.error.value)
         else Success(before + t.records)
  {
    assert files[..i + 1][..i] == files[..i];
  }

  /** A failure among the first files is the failure of the whole. */
  lemma {:induction false} AllRecordsStops<F>(files: seq<(string, seq<string>)>, parse: string -> Option<F>,
                                              nonZero: F -> bool, n: nat)
    requires n <= |files| && AllRecords(files[..n], parse, nonZero).Failure?
    ensures AllRecords(files, parse, nonZero) == AllRecords(files[..n], parse, nonZero)
    decreases |files|
  {
    if n < |files| {
      assert files[..|files| - 1][..n] == files[..n];
      AllRecordsStops(files[..|files| - 1], parse, nonZero, n);
    } else {
      assert files[..n] == files;
    }
  }

  /** A record whose wav is `spk-anonym` for the two-letter speaker that
      starts its utterance id. */
  predicate WavOfSpeaker<F>(rec: Record<F>) {
    |rec.utt| >= 2 && rec.wav == rec.utt[..2] + "-anonym"
  }

  /** The name of a transcription file has at least two characters, so
      every record read from one has the wav of the speaker its id starts
      with. */
  lemma {:induction false} AllRecordsWavOfSpeaker<F>(files: seq<(string, seq<string>)>,
                                                     parse: string -> Option<F>, nonZero: F -> bool)
    requires AllRecords(files, parse, nonZero).Success?
    ensures forall rec :: rec in AllRecords(files, parse, nonZero).value ==> WavOfSpeaker(rec)
    decreases |files|
  {
    if files != [] {
      AllRecordsWavOfSpeaker(files[..|files| - 1], parse, nonZero);
      var (path, lines) := files[|files| - 1];
      if IsTranscriptionFile(path) {
        var spk := Speaker(path);
        TranscriptionNameLength(path);
        RunRecords(spk, parse, nonZero, lines);
        forall rec | rec in Run(spk, parse, nonZero, lines).records ensures WavOfSpeaker(rec) {
          assert SpeakerRecord(spk, nonZero, rec);
          assert rec.utt[..2] == (spk + "_")[..2] == spk;
        }
      }
    }
  }

  lemma TranscriptionNameLength(path: string)
    requires IsTranscriptionFile(path)
    ensures |Speaker(path)| == 2
  {
    var i: nat :| i <= |Basename(path)| && OccursAt(Basename(path), "transcription", i);
  }

  /** `make_speaker`: every segment id mapped to its first two characters. */
  method MakeSpeaker<F>(files: seq<(string, seq<string>)>, parse: string -> Option<F>, nonZero: F -> bool)
    returns (r: Result<map<string, string>>)
    ensures r.Failure? <==> AllRecords(files, parse, nonZero).Failure?
    ensures r.Failure? ==> r.error == AllRecords(files, parse, nonZero).error
    ensures r.Success? ==> r.value.Keys == SegmentMap(AllRecords(files, parse, nonZero).value).Keys
    ensures r.Success? ==> forall k :: k in r.value ==> r.value[k] == Prefix(k, 2)
  {
    var segments := MakeSegment(files, parse, nonZero);
    if segments.Failure? {
      return Failure(segments.error);
    }
    return Success(map k | k in segments.value :: Prefix(k, 2));
  }

  /** Speakers and segments agree: the wav of every segment is
      `<speaker>-anonym` for the speaker `make_speaker` gives its
      utterance. */
  lemma SpeakerMatchesWav<F>(files: seq<(string, seq<string>)>, parse: string -> Option<F>, nonZero: F -> bool, u: string)
    requires AllRecords(files, parse, nonZero).Success?
    requires u in SegmentMap(AllRecords(files, parse, nonZero).value)
    ensures SegmentMap(AllRecords(files, parse, nonZero).value)[u].0 == Prefix(u, 2) + "-anonym"
  {
    var records := AllRecords(files, parse, nonZero).value;
    AllRecordsWavOfSpeaker(files, parse, nonZero);
    SegmentFromRecord(records, u);
  }
}
