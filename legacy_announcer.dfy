/** The earlier `AccessibilityAnnouncer`, in the default package: speaks in
    `QUEUE_ADD` mode and installs no progress listener. */
module LegacyAnnouncer {
  import opened Wrappers
  import Tts

  /** The queue mode `speakInternal` passes to the engine. */
  const Mode: Tts.QueueMode := Tts.QueueAdd

  class AccessibilityAnnouncer {
    var textToSpeech: Option<Tts.Engine>
    var isTtsInitialized: bool
    var pendingAnnouncements: seq<string>
    /** Every text handed to the engine's `speak`, in order. */
    ghost var spoken: seq<string>

    ghost function State(): Tts.AnnouncerState
      reads this
    {
      Tts.AnnouncerState(isTtsInitialized, textToSpeech, pendingAnnouncements, spoken)
    }

    /** `init`: requests an engine, whose `onInit` arrives later. */
    constructor()
      ensures State() == Tts.Created
    {
      textToSpeech := Some(Tts.Engine([]));
      isTtsInitialized := false;
      pendingAnnouncements := [];
      spoken := [];
    }

    /** `onInit`. */
    method OnInit(status: int)
      modifies this
      ensures State() == Tts.OnInit(old(State()), Mode, status)
    {
      if status == Tts.SUCCESS {
        isTtsInitialized := true;
        ghost var start := State();
        for i := 0 to |pendingAnnouncements|
          invariant pendingAnnouncements == old(pendingAnnouncements)
          invariant State() == Tts.SpeakAll(start, Mode, pendingAnnouncements[..i])
        {
          assert pendingAnnouncements[..i + 1][..i] == pendingAnnouncements[..i];
          SpeakInternal(pendingAnnouncements[i]);
        }
        assert pendingAnnouncements[..|pendingAnnouncements|] == pendingAnnouncements;
        pendingAnnouncements := [];
      } else {
        isTtsInitialized := false;
        textToSpeech := None;
      }
    }

    /** `announce`. */
    method Announce(text: Option<string>)
      modifies this
      ensures State() == Tts.Announce(old(State()), Mode, text)
    {
      if text.None? || Tts.IsBlank(text.value) {
        return;
      }
      if isTtsInitialized && textToSpeech.Some? {
        SpeakInternal(text.value);
      } else {
        pendingAnnouncements := pendingAnnouncements + [text.value];
      }
    }

    /** `speakInternal`: a no-op once the engine is gone. */
    method SpeakInternal(text: string)
      modifies this
      ensures State() == Tts.Speak(old(State()), Mode, text)
    {
      if textToSpeech.Some? {
        textToSpeech := Some(Tts.Engine(textToSpeech.value.utterances + [text]));
        spoken := spoken + [text];
      }
    }

    /** `shutdown`. */
    method Shutdown()
      modifies this
      ensures State() == Tts.Shutdown(old(State()))
    {
      isTtsInitialized := false;
      textToSpeech := None;
      pendingAnnouncements := [];
    }
  }

  /** In add mode the engine keeps everything: after a successful `onInit`
      it holds what it held before followed by every pending text in the
      order they were announced. */
  lemma PendingQueueKeepsAll(st: Tts.AnnouncerState)
    requires st.engine.Some?
    ensures var r := Tts.OnInit(st, Mode, Tts.SUCCESS);
      && r.spoken == st.spoken + st.pending
      && r.engine == Some(Tts.Engine(st.engine.value.utterances + st.pending))
  {
    Tts.OnInitSuccessFlushesPending(st, Mode);
  }
}
