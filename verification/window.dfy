/** The state of one FaustLive window that the DSP lifecycle reads and
    writes (FLWindow's fEffect, fCurrent_DSP, interfaces, fClientOpen and
    fLastMigration), its construction, and starting, stopping and closing
    its audio. */
module Window {
  import opened Optional
  import opened Trace
  import opened DspCreation

  /** How a window is initialised: with another DSP, or as a default
      window showing the blue or the white "drop your DSP" image. */
  datatype InitType = NoInit | InitBlue | InitWhite

  /** print_initWindow is called for every kind except NoInit; it picks
      the image matching the kind. */
  function DefaultImageOf(t: InitType): (img: Option<Image>)
    ensures img.Some? <==> t != NoInit
    ensures img == Some(BlueImage) <==> t == InitBlue
  {
    match t
    case NoInit => None
    case InitBlue => Some(BlueImage)
    case InitWhite => Some(WhiteImage)
  }

  datatype Window = Window(
    effect: Effect,              // effect currently running in the window
    current: Option<Instance>,   // its running instance; None for NULL
    ui: Option<Instance>,        // instance the interfaces are built against; None when deleted
    clientOpen: bool,            // whether the audio client was started
    lastMigration: int)          // time of the last remote fault, in milliseconds

  /** The running instance belongs to the window's effect, and interfaces,
      when built, are built against the running instance. */
  predicate Consistent(w: Window) {
    && (w.current.Some? ==> w.current.value.locality == w.effect.locality)
    && (w.ui.Some? ==> w.ui == w.current)
  }

  /** A window with everything built and its audio client started. */
  predicate Running(w: Window) {
    Consistent(w) && w.current.Some? && w.ui == w.current && w.clientOpen
  }

  /** A window as the constructor leaves it, before init_Window. */
  predicate Fresh(w: Window) {
    w.current.None? && w.ui.None? && !w.clientOpen
  }

  /** The constructor: no instance yet, the audio client not started, and
      the fault clock set to the construction time `now`. */
  function NewWindow(effect: Effect, now: int): (w: Window)
    ensures Fresh(w) && Consistent(w) && !Running(w)
    ensures w.effect == effect && w.lastMigration == now
  {
    Window(effect, None, None, false, now)
  }

  /** The steps of start_Audio: the saved parameters are recalled, then
      the audio client is started and connected. */
  const StartAudioSteps: seq<Event> := [RecallWindow, AudioStarted]

  /** start_Audio: afterwards the client is open; nothing else changes. */
  function StartAudio(w: Window): (r: (Window, seq<Event>))
    ensures r.0.clientOpen
    ensures r.0 == w.(clientOpen := r.0.clientOpen)
    ensures r.1 == StartAudioSteps
  {
    (w.(clientOpen := true), StartAudioSteps)
  }

  /** stop_Audio: the client stopped. */
  function StopAudio(w: Window): (r: (Window, seq<Event>))
    ensures !r.0.clientOpen
    ensures r.0 == w.(clientOpen := r.0.clientOpen)
    ensures AudioStopped in r.1
  {
    (w.(clientOpen := false), [AudioStopped])
  }

  /** close_Window: the window is hidden, its audio stopped only when the
      client was started, its interfaces deleted and its instance freed with
      the deleter of its effect's locality. */
  function CloseWindow(w: Window): (steps: seq<Event>)
    ensures AudioStopped in steps <==> w.clientOpen
    ensures Deletions(steps) == (if w.current.Some? then [w.current.value] else [])
    ensures Consistent(w) ==> DeletersMatch(steps)
    ensures DeleteInterfaces in steps
  {
    var front := [Hide] + (if w.clientOpen then [AudioStopped] else []) + [DeleteInterfaces];
    assert forall i :: 0 <= i < |front| ==> !front[i].DeleteInstance?;
    match w.current
    case Some(inst) =>
      OneDeletion(front, inst, w.effect.locality, []);
      assert front + [DeleteInstance(inst, w.effect.locality)] + [] == front + [DeleteInstance(inst, w.effect.locality)];
      front + [DeleteInstance(inst, w.effect.locality)]
    case None =>
      NoDeletions(front);
      front
  }

  /** Starting then stopping leaves the window as it was, except that the
      client is closed. */
  lemma StartStopAudio(w: Window)
    ensures StopAudio(StartAudio(w).0).0 == w.(clientOpen := false)
    ensures AudioStopped in CloseWindow(StartAudio(w).0)
    ensures AudioStopped !in CloseWindow(StopAudio(w).0)
  {
  }
}
