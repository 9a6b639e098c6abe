/** `AccessibilityAnnouncer` in package `com.example.accessibilityservice`:
    speaks in `QUEUE_FLUSH` mode and reports the engine's utterance progress
    to three callbacks supplied by its creator. */
module Announcer {
  import opened Wrappers
  import Tts

  /** The queue mode `speakInternal` passes to the engine. */
  const Mode: Tts.QueueMode := Tts.QueueFlush

  /** A call of one of the `started`, `finished` and `error` callbacks. */
  datatype ProgressEvent = Started | Finished | Errored

  class AccessibilityAnnouncer {
    var textToSpeech: Option<Tts.Engine>
    var isTtsInitialized: bool
    var pendingAnnouncements: seq<string>
    /** Every text handed to the engine's `speak`, in order. */
    ghost var spoken: seq<string>
    /** The callbacks invoked by the utterance progress listener, in order. */
    var progress: seq<ProgressEvent>

    ghost function State(): Tts.AnnouncerState
      reads this
    {
      Tts.AnnouncerState(isTtsInitialized, textToSpeech, pendingAnnouncements, spoken)
    }

    /** `init`: requests an engine (whose `onInit` arrives later) and
        installs the progress listener. */
    constructor()
      ensures State() == Tts.Created && progress == []
    {
      textToSpeech := Some(Tts.Engine([]));
      isTtsInitialized := false;
      pendingAnnouncements := [];
      spoken := [];
      progress := [];
    }

    /** `onInit`. */
    method OnInit(status: int)
      modifies this
      ensures State() == Tts.OnInit(old(State()), Mode, status)
      ensures progress == old(progress)
    {
      if status == Tts.SUCCESS {
        isTtsInitialized := true;
        ghost var start := State();
        for i := 0 to |pendingAnnouncements|
          invariant pendingAnnouncements == old(pendingAnnouncements)
          invariant State() == Tts.SpeakAll(start, Mode, pendingAnnouncements[..i])
          invariant progress == old(progress)
        {
          assert pendingAnnouncements[..i + 1][..i] == pendingAnnouncements[..i];
          SpeakInternal(pendingAnnouncements[i]);
        }
        assert pendingAnnouncements[..|pendingAnnouncements|] == pendingAnnouncements;
        pendingAnnouncements := [];
      } else {
        isTtsInitialized := false;
        textToSpeech := None;
      }
    }

    /** `announce`. */
    method Announce(text: Option<string>)
      modifies this
      ensures State() == Tts.Announce(old(State()), Mode, text)
      ensures progress == old(progress)
    {
      if text.None? || Tts.IsBlank(text.value) {
        return;
      }
      if isTtsInitialized && textToSpeech.Some? {
        SpeakInternal(text.value);
      } else {
        pendingAnnouncements := pendingAnnouncements + [text.value];
      }
    }

    /** `speakInternal`: a no-op once the engine is gone. */
    method SpeakInternal(text: string)
      modifies this
      ensures State() == Tts.Speak(old(State()), Mode, text)
      ensures progress == old(progress)
    {
      if textToSpeech.Some? {
        textToSpeech := Some(Tts.Engine([text]));
        spoken := spoken + [text];
      }
    }

    /** `shutdown`. */
    method Shutdown()
      modifies this
      ensures State() == Tts.Shutdown(old(State()))
      ensures progress == old(progress)
    {
      isTtsInitialized := false;
      textToSpeech := None;
      pendingAnnouncements := [];
    }

    /** The listener's `onStart`: calls `started`. */
    method OnStart(utteranceId: Option<string>)
      modifies this
      ensures progress == old(progress) + [Started] && State() == old(State())
    {
      progress := progress + [Started];
    }

    /** The listener's `onDone`: calls `finished`. */
    method OnDone(utteranceId: Option<string>)
      modifies this
      ensures progress == old(progress) + [Finished] && State() == old(State())
    {
      progress := progress + [Finished];
    }

    /** The listener's `onError`: calls `error`. */
    method OnError(utteranceId: Option<string>)
      modifies this
      ensures progress == old(progress) + [Errored] && State() == old(State())
    {
      progress := progress + [Errored];
    }
  }

  /** In flush mode every pending text is handed to the engine, but each
      one cancels the one before: after a successful `onInit` the engine
      holds only the last text queued before initialisation. */
  lemma PendingFlushKeepsOnlyLast(st: Tts.AnnouncerState)
    requires st.engine.Some? && st.pending != []
    ensures var r := Tts.OnInit(st, Mode, Tts.SUCCESS);
      && r.spoken == st.spoken + st.pending
      && r.engine == Some(Tts.Engine([st.pending[|st.pending| - 1]]))
  {
    Tts.OnInitSuccessFlushesPending(st, Mode);
  }
}
