/** The state machine shared by both `AccessibilityAnnouncer` revisions: an
    init flag, an optional text-to-speech engine, and the announcements
    waiting for the engine. The revisions differ only in how the engine
    queues a new utterance. */
module Tts {
  import opened Wrappers

  /** `TextToSpeech.QUEUE_FLUSH` drops what the engine holds;
      `TextToSpeech.QUEUE_ADD` appends. */
  datatype QueueMode = QueueFlush | QueueAdd

  /** `TextToSpeech.SUCCESS`, the status `onInit` reports on success. */
  const SUCCESS: int := 0

  /** A live `TextToSpeech` engine, seen as the utterances it still holds. */
  datatype Engine = Engine(utterances: seq<string>)

  /** `initialized` is `isTtsInitialized`, `engine` is `textToSpeech` (None
      for null), `pending` is `pendingAnnouncements`; `spoken` records every
      text handed to the engine's `speak`, in order. */
  datatype AnnouncerState = AnnouncerState(initialized: bool, engine: Option<Engine>, pending: seq<string>, spoken: seq<string>)

  /** Just constructed: an engine was requested, initialisation not yet reported. */
  const Created: AnnouncerState := AnnouncerState(false, Some(Engine([])), [], [])

  /** Kotlin's `Char.isWhitespace` (Java whitespace or a space separator). */
  predicate IsWhitespace(c: char)
  {
    var n := c as int;
    n == 0x20 || 0x09 <= n <= 0x0D || 0x1C <= n <= 0x1F || n == 0xA0 || n == 0x1680
    || 0x2000 <= n <= 0x200A || n == 0x2028 || n == 0x2029 || n == 0x202F || n == 0x205F || n == 0x3000
  }

  /** `isNullOrBlank` on a non-null string: empty or all whitespace. */
  predicate IsBlank(s: string)
  {
    forall i :: 0 <= i < |s| ==> IsWhitespace(s[i])
  }

  /** `speakInternal`: `textToSpeech?.speak(text, mode, ...)`. */
  function Speak(st: AnnouncerState, mode: QueueMode, text: string): (r: AnnouncerState)
    ensures r.initialized == st.initialized && r.pending == st.pending && r.engine.Some? == st.engine.Some?
    ensures st.engine.Some? <==> r.spoken == st.spoken + [text]
    ensures st.engine.None? ==> r == st
    ensures r.engine.Some? ==> |r.engine.value.utterances| > 0 && r.engine.value.utterances[|r.engine.value.utterances| - 1] == text
  {
    match st.engine
    case None => st
    case Some(e) =>
      var held := if mode == QueueFlush then [text] else e.utterances + [text];
      st.(engine := Some(Engine(held)), spoken := st.spoken + [text])
  }

  /** `forEach { speakInternal(it) }` over `texts`. */
  function SpeakAll(st: AnnouncerState, mode: QueueMode, texts: seq<string>): AnnouncerState
    decreases |texts|
  {
    if texts == [] then st
    else Speak(SpeakAll(st, mode, texts[..|texts| - 1]), mode, texts[|texts| - 1])
  }

  /** `announce`. */
  function Announce(st: AnnouncerState, mode: QueueMode, text: Option<string>): (r: AnnouncerState)
    ensures r.initialized == st.initialized && r.engine.Some? == st.engine.Some?
    ensures r != st ==> text.Some? && !IsBlank(text.value)
    ensures r.pending == st.pending || r.pending == st.pending + [text.value]
    ensures r.spoken == st.spoken || r.spoken == st.spoken + [text.value]
  {
    if text.None? || IsBlank(text.value) then st
    else if st.initialized && st.engine.Some? then Speak(st, mode, text.value)
    else st.(pending := st.pending + [text.value])
  }

  /** `onInit`. */
  function OnInit(st: AnnouncerState, mode: QueueMode, status: int): (r: AnnouncerState)
    ensures r.initialized <==> status == SUCCESS
    ensures status == SUCCESS ==> r.pending == [] && r.engine.Some? == st.engine.Some?
    ensures status != SUCCESS ==> r.engine.None? && r.pending == st.pending && r.spoken == st.spoken
  {
    if status == SUCCESS then
      SpeakAllEffect(st.(initialized := true), mode, st.pending);
      SpeakAll(st.(initialized := true), mode, st.pending).(pending := [])
    else st.(initialized := false, engine := None)
  }

  /** `shutdown`: `stop()` and `shutdown()` on the engine, then drop it. */
  function Shutdown(st: AnnouncerState): (r: AnnouncerState)
    ensures !r.initialized && r.engine.None? && r.pending == [] && r.spoken == st.spoken
  {
    st.(initialized := false, engine := None, pending := [])
  }

  /** The pending list never holds a blank text. */
  predicate NoBlankPending(st: AnnouncerState)
  {
    forall i :: 0 <= i < |st.pending| ==> !IsBlank(st.pending[i])
  }

  /** The engine after speaking `texts` in `mode`. */
  function EngineAfter(e: Engine, mode: QueueMode, texts: seq<string>): Engine
  {
    if mode == QueueAdd then Engine(e.utterances + texts)
    else if texts == [] then e
    else Engine([texts[|texts| - 1]])
  }

  /** Speaking a list hands every text to a live engine in order; without an
      engine nothing happens. Neither the flag nor the pending list changes. */
  lemma {:induction false} SpeakAllEffect(st: AnnouncerState, mode: QueueMode, texts: seq<string>)
    ensures var r := SpeakAll(st, mode, texts);
      && r.initialized == st.initialized && r.pending == st.pending
      && (st.engine.None? ==> r == st)
      && (st.engine.Some? ==> r.spoken == st.spoken + texts && r.engine == Some(EngineAfter(st.engine.value, mode, texts)))
    decreases |texts|
  {
    if texts == [] {
      if st.engine.Some? {
        assert st.engine.value.utterances + texts == st.engine.value.utterances;
      }
    } else {
      var init := texts[..|texts| - 1];
      SpeakAllEffect(st, mode, init);
      if st.engine.Some? {
        assert init + [texts[|texts| - 1]] == texts;
        if mode == QueueAdd {
          assert st.engine.value.utterances + init + [texts[|texts| - 1]] == st.engine.value.utterances + texts;
        }
      }
    }
  }

  /** `onInit` success: initialised, every pending text spoken in insertion
      order, pending list empty. With the engine already gone (a shutdown
      before the callback), the pending texts are dropped unspoken. */
  lemma OnInitSuccessFlushesPending(st: AnnouncerState, mode: QueueMode)
    ensures var r := OnInit(st, mode, SUCCESS);
      && r.initialized && r.pending == []
      && r.engine == (if st.engine.Some? then Some(EngineAfter(st.engine.value, mode, st.pending)) else None)
      && r.spoken == (if st.engine.Some? then st.spoken + st.pending else st.spoken)
  {
    SpeakAllEffect(st.(initialized := true), mode, st.pending);
  }

  /** `onInit` failure: the flag and the engine are cleared, pending texts kept. */
  lemma OnInitFailureKeepsPending(st: AnnouncerState, mode: QueueMode, status: int)
    requires status != SUCCESS
    ensures var r := OnInit(st, mode, status);
      !r.initialized && r.engine.None? && r.pending == st.pending && r.spoken == st.spoken
  {
  }

  /** Null or blank text has no effect. */
  lemma AnnounceBlankHasNoEffect(st: AnnouncerState, mode: QueueMode, text: Option<string>)
    requires text.None? || IsBlank(text.value)
    ensures Announce(st, mode, text) == st
  {
  }

  /** With an initialised live engine the text is spoken at once and the
      pending list stays as it was; otherwise it joins the end of the list. */
  lemma AnnounceSpeaksOrQueues(st: AnnouncerState, mode: QueueMode, text: string)
    requires !IsBlank(text)
    ensures var r := Announce(st, mode, Some(text));
      if st.initialized && st.engine.Some? then
        r.pending == st.pending && r.spoken == st.spoken + [text] && r.engine.Some?
      else
        r == st.(pending := st.pending + [text])
  {
  }

  /** After `shutdown` the announcer is uninitialised, engineless and has no
      pending texts; a later announcement only queues. */
  lemma ShutdownThenAnnounceQueues(st: AnnouncerState, mode: QueueMode, text: string)
    requires !IsBlank(text)
    ensures var s := Shutdown(st);
      && !s.initialized && s.engine.None? && s.pending == []
      && Announce(s, mode, Some(text)) == s.(pending := [text])
  {
  }

  /** `QUEUE_FLUSH` leaves only the new utterance; `QUEUE_ADD` appends it. */
  lemma QueueModes(st: AnnouncerState, text: string)
    requires st.engine.Some?
    ensures Speak(st, QueueFlush, text).engine == Some(Engine([text]))
    ensures Speak(st, QueueAdd, text).engine == Some(Engine(st.engine.value.utterances + [text]))
  {
  }

  /** Every operation keeps blank texts out of the pending list. */
  lemma NoBlankPendingPreserved(st: AnnouncerState, mode: QueueMode, text: Option<string>, status: int)
    requires NoBlankPending(st)
    ensures NoBlankPending(Announce(st, mode, text))
    ensures NoBlankPending(OnInit(st, mode, status))
    ensures NoBlankPending(Shutdown(st))
  {
    if text.Some? && !IsBlank(text.value) && !(st.initialized && st.engine.Some?) {
      var p := st.pending + [text.value];
      assert forall i :: 0 <= i < |p| ==> p[i] == if i < |st.pending| then st.pending[i] else text.value;
    }
  }
}
