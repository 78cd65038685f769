/** The pause-to-send speech hooks of frontend/src/hooks/useSpeech.js.

    `Endpointer` is the state `useSpeech` keeps across the recogniser's
    events: the interim-text buffer, the single silence timer (an armed flag;
    its expiry is the event `OnSilenceTimeout`) and the `listening` flag.
    The recogniser itself is an event source: its `start`, `result` and `end`
    events are methods, and the requests the hook sends back to it (start,
    stop) are results of those methods.

    `Tts` is the `speaking` flag of `useTTS` and the calls it makes on the
    browser's speech synthesiser. */
module Speech {
  import opened Wrappers
  import opened Text

  /** One entry of the recogniser's result list: its best transcript and
      whether the engine marked it final. */
  datatype Fragment = Fragment(transcript: string, isFinal: bool)

  /** The results a `result` event asks the hook to look at: those from
      `resultIndex` on. */
  function Pending(results: seq<Fragment>, resultIndex: nat): (p: seq<Fragment>)
    ensures resultIndex <= |results| ==> p == results[resultIndex..]
    ensures resultIndex > |results| ==> p == []
  {
    if resultIndex <= |results| then results[resultIndex..] else []
  }

  /** What one fragment contributes to the utterances handed to
      `onFinalText`: its trimmed transcript when it is final and that trim is
      non-empty. */
  function FinalOf(f: Fragment): (r: seq<string>)
    ensures |r| <= 1
    ensures r != [] ==> f.isFinal && r[0] != [] && IsTrimmed(r[0])
  {
    var t := Trim(f.transcript);
    if f.isFinal && t != [] then [t] else []
  }

  /** What one fragment contributes to the interim text. */
  function InterimOf(f: Fragment): string {
    if f.isFinal then "" else f.transcript
  }

  /** The utterances handed to `onFinalText` while walking `rs` in order. */
  function Finals(rs: seq<Fragment>): (r: seq<string>)
    ensures |r| <= |rs|
  {
    if rs == [] then [] else Finals(rs[..|rs| - 1]) + FinalOf(rs[|rs| - 1])
  }

  /** Every utterance the hook hands on is non-empty and trimmed. */
  lemma {:induction false} FinalsWellFormed(rs: seq<Fragment>)
    ensures WellFormedUtterances(Finals(rs))
  {
    if rs != [] {
      FinalsWellFormed(rs[..|rs| - 1]);
    }
  }

  /** The interim text of one event: the non-final transcripts of `rs`
      concatenated in order, untrimmed. */
  function Interim(rs: seq<Fragment>): string {
    if rs == [] then "" else Interim(rs[..|rs| - 1]) + InterimOf(rs[|rs| - 1])
  }

  /** One more result contributes after those before it. */
  lemma FinalsSnoc(rs: seq<Fragment>, x: Fragment)
    ensures Finals(rs + [x]) == Finals(rs) + FinalOf(x)
  {
    assert (rs + [x])[..|rs|] == rs;
  }

  lemma InterimSnoc(rs: seq<Fragment>, x: Fragment)
    ensures Interim(rs + [x]) == Interim(rs) + InterimOf(x)
  {
    assert (rs + [x])[..|rs|] == rs;
  }

  /** One step of the walk over `rs`: its first `i + 1` results contribute
      what the first `i` do, then what result `i` does. */
  lemma WalkStep(rs: seq<Fragment>, i: nat)
    requires i < |rs|
    ensures Finals(rs[..i + 1]) == Finals(rs[..i]) + FinalOf(rs[i])
    ensures Interim(rs[..i + 1]) == Interim(rs[..i]) + InterimOf(rs[i])
  {
    assert rs[..i + 1] == rs[..i] + [rs[i]];
    FinalsSnoc(rs[..i], rs[i]);
    InterimSnoc(rs[..i], rs[i]);
  }

  /** Walking two runs of results one after the other emits the first run's
      utterances, then the second's: results are processed strictly in index
      order. */
  lemma {:induction false} FinalsAppend(a: seq<Fragment>, b: seq<Fragment>)
    ensures Finals(a + b) == Finals(a) + Finals(b)
    decreases |b|
  {
    if b == [] {
      assert a + b == a;
    } else {
      var b' := b[..|b| - 1];
      var x := b[|b| - 1];
      assert b == b' + [x];
      assert a + b == (a + b') + [x];
      FinalsSnoc(a + b', x);
      FinalsSnoc(b', x);
      FinalsAppend(a, b');
    }
  }

  /** Likewise the interim text of two runs is the first run's followed by the
      second's. */
  lemma {:induction false} InterimAppend(a: seq<Fragment>, b: seq<Fragment>)
    ensures Interim(a + b) == Interim(a) + Interim(b)
    decreases |b|
  {
    if b == [] {
      assert a + b == a;
    } else {
      var b' := b[..|b| - 1];
      var x := b[|b| - 1];
      assert b == b' + [x];
      assert a + b == (a + b') + [x];
      InterimSnoc(a + b', x);
      InterimSnoc(b', x);
      InterimAppend(a, b');
      assert Interim(a) + Interim(b') + InterimOf(x) == Interim(a) + (Interim(b') + InterimOf(x));
    }
  }

  /** An event whose results are all final leaves no interim text. */
  lemma {:induction false} AllFinalNoInterim(rs: seq<Fragment>)
    requires forall k :: 0 <= k < |rs| ==> rs[k].isFinal
    ensures Interim(rs) == ""
  {
    if rs != [] {
      AllFinalNoInterim(rs[..|rs| - 1]);
    }
  }

  /** An event with no final result emits nothing. */
  lemma {:induction false} NoFinalNoUtterance(rs: seq<Fragment>)
    requires forall k :: 0 <= k < |rs| ==> !rs[k].isFinal
    ensures Finals(rs) == []
  {
    if rs != [] {
      NoFinalNoUtterance(rs[..|rs| - 1]);
    }
  }

  /** Every utterance the hook hands on is non-empty and trimmed. */
  ghost predicate WellFormedUtterances(us: seq<string>) {
    forall k :: 0 <= k < |us| ==> us[k] != [] && IsTrimmed(us[k])
  }

  /** Handing on more well-formed utterances keeps the record well formed. */
  lemma EmitAllWellFormed(us: seq<string>, vs: seq<string>)
    requires WellFormedUtterances(us) && WellFormedUtterances(vs)
    ensures WellFormedUtterances(us + vs)
  {
  }

  /** The loop of `rec.onresult` over the pending results, in index order:
      a final result's trimmed transcript is handed on when non-empty, a
      non-final one's transcript is appended to the interim text. (The loop
      also clears the interim buffer at each final result; the buffer is
      overwritten with the interim text right after the loop, before anything
      else can read it, so that write is not modelled.) */
  method WalkResults(rs: seq<Fragment>) returns (finals: seq<string>, iText: string)
    ensures finals == Finals(rs)
    ensures iText == Interim(rs)
  {
    finals, iText := [], "";
    var i := 0;
    while i < |rs|
      invariant 0 <= i <= |rs|
      invariant finals == Finals(rs[..i])
      invariant iText == Interim(rs[..i])
    {
      var r := rs[i];
      WalkStep(rs, i);
      if r.isFinal {
        var finalText := Trim(r.transcript);
        if finalText != [] {
          assert FinalOf(r) == [finalText];
          finals := finals + [finalText];
        } else {
          assert FinalOf(r) == [];
          assert finals + FinalOf(r) == finals;
        }
        assert InterimOf(r) == "";
        assert iText + InterimOf(r) == iText;
      } else {
        assert FinalOf(r) == [];
        assert finals + FinalOf(r) == finals;
        assert InterimOf(r) == r.transcript;
        iText := iText + r.transcript;
      }
      i := i + 1;
    }
    assert rs[..i] == rs;
  }

  /** The recogniser-facing state of `useSpeech`. */
  class Endpointer {
    /** A recogniser constructor exists in this browser. */
    const supported: bool
    /** `listening` */
    var listening: bool
    /** `interimRef.current`, which the `interim` state always mirrors once an
        event has been handled. */
    var interim: string
    /** `timerRef.current` holds a silence timer that has neither fired nor
        been cleared. */
    var timerArmed: bool
    /** Every utterance handed to `onFinalText` so far, oldest first. */
    ghost var Emitted: seq<string>

    ghost predicate Valid()
      reads this
    {
      WellFormedUtterances(Emitted)
    }

    constructor (supported: bool)
      ensures Valid()
      ensures this.supported == supported
      ensures !listening && interim == "" && !timerArmed && Emitted == []
    {
      this.supported := supported;
      listening := false;
      interim := "";
      timerArmed := false;
      Emitted := [];
    }

    /** `resetSilenceTimer`: clear the outstanding timer, if any, and arm a
        new one, so exactly one is armed afterwards. */
    method ResetSilenceTimer()
      modifies this`timerArmed
      ensures timerArmed
    {
      if timerArmed {
        timerArmed := false;
      }
      timerArmed := true;
    }

    /** `rec.onstart` */
    method OnStart()
      requires Valid()
      modifies this
      ensures Valid()
      ensures listening && timerArmed
      ensures interim == old(interim) && Emitted == old(Emitted)
    {
      listening := true;
      ResetSilenceTimer();
    }

    /** `rec.onresult`: re-arm the silence timer, hand on every final
        fragment's trimmed text (when non-empty) in result order, and replace
        the interim buffer with the concatenated non-final transcripts. */
    method OnResult(results: seq<Fragment>, resultIndex: nat) returns (finals: seq<string>)
      requires Valid()
      modifies this
      ensures Valid()
      ensures finals == Finals(Pending(results, resultIndex))
      ensures interim == Interim(Pending(results, resultIndex))
      ensures timerArmed && listening == old(listening)
      ensures Emitted == old(Emitted) + finals
    {
      ResetSilenceTimer();
      var iText;
      finals, iText := WalkResults(Pending(results, resultIndex));
      FinalsWellFormed(Pending(results, resultIndex));
      EmitAllWellFormed(Emitted, finals);
      Emitted := Emitted + finals;
      interim := iText;
    }

    /** The silence timer's callback: hand on the trimmed buffer when it is
        non-empty and ask the recogniser to stop. The buffer itself is left
        as it is. A timer that was cleared never fires. */
    method OnSilenceTimeout() returns (flushed: Option<string>, stopRequested: bool)
      requires Valid()
      modifies this
      ensures Valid()
      ensures !timerArmed
      ensures interim == old(interim) && listening == old(listening)
      ensures old(timerArmed) ==> stopRequested
      ensures old(timerArmed) ==> flushed == (if Trim(old(interim)) != [] then Some(Trim(old(interim))) else None)
      ensures !old(timerArmed) ==> !stopRequested && flushed == None
      ensures Emitted == old(Emitted) + (if flushed.Some? then [flushed.value] else [])
    {
      flushed, stopRequested := None, false;
      if timerArmed {
        timerArmed := false;
        var flush := Trim(interim);
        if flush != [] {
          flushed := Some(flush);
          Emitted := Emitted + [flush];
        }
        stopRequested := true;
      }
    }

    /** `rec.onend`: not listening, empty buffer, no timer. */
    method OnEnd()
      requires Valid()
      modifies this
      ensures Valid()
      ensures !listening && interim == "" && !timerArmed
      ensures Emitted == old(Emitted)
    {
      listening := false;
      interim := "";
      if timerArmed {
        timerArmed := false;
      }
    }

    /** `start()` / `stop()`: the request goes to the recogniser when one
        exists; an exception it throws is reported through `onError` and does
        not reach the caller. Nothing in the hook's own state changes until
        the recogniser answers with an event. */
    method Request(engineThrows: bool) returns (errorReported: bool)
      ensures errorReported <==> supported && engineThrows
    {
      errorReported := false;
      if supported {
        if engineThrows {
          errorReported := true;
        }
      }
    }
  }

  /** A call `useTTS` makes on the browser's speech synthesiser. */
  datatype SynthCall = CancelAll | Enqueue(text: string)

  /** The `speaking` flag of `useTTS`. */
  class Tts {
    /** `'speechSynthesis' in window` */
    const available: bool
    var speaking: bool

    constructor (available: bool)
      ensures this.available == available && !speaking
    {
      this.available := available;
      speaking := false;
    }

    /** `speak(text)`: without a synthesiser nothing happens; otherwise any
        current utterance is cancelled before the new one is queued. The flag
        changes only when the synthesiser reports the start. */
    method Speak(text: string) returns (calls: seq<SynthCall>)
      ensures !available ==> calls == []
      ensures available ==> |calls| == 2 && calls[0] == CancelAll && calls[1] == Enqueue(text)
    {
      calls := [];
      if available {
        calls := calls + [CancelAll];
        calls := calls + [Enqueue(text)];
      }
    }

    /** The utterance's `start` event. */
    method OnUtteranceStart()
      modifies this
      ensures speaking
    {
      speaking := true;
    }

    /** The utterance's `end` event: not speaking, and `onEnd` is called. */
    method OnUtteranceEnd() returns (notifyEnd: bool)
      modifies this
      ensures !speaking && notifyEnd
    {
      speaking := false;
      notifyEnd := true;
    }

    /** `cancel()`: the synthesiser's queue is cancelled when there is one
        (without one the call throws and the exception is swallowed); either
        way not speaking, and `onEnd` is not called. */
    method Cancel() returns (calls: seq<SynthCall>, notifyEnd: bool)
      modifies this
      ensures !speaking && !notifyEnd
      ensures available ==> calls == [CancelAll]
      ensures !available ==> calls == []
    {
      calls := if available then [CancelAll] else [];
      speaking := false;
      notifyEnd := false;
    }
  }
}
