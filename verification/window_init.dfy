/** FLWindow::init_Window: start the audio client, create the effect's
    instance, build the interfaces against it, hand it to the audio
    manager and start the audio. Each step can fail; the first failure
    ends the initialisation with `false` and a message in the error buffer. */
module WindowInit {
  import opened Optional
  import opened RemoteErrors
  import opened Trace
  import opened DspCreation
  import opened Window

  const NoInstanceMsg: string := "Impossible to create a DSP instance"
  const NoInterfaceMsg: string := "Interface could not be allocated"

  /** What the collaborators answer: the audio client's initialisation
      (and the message it leaves on failure), instance creation,
      buildInterfaces, and AudioManager::setDSP (with its message). */
  datatype InitOracle = InitOracle(
    audioOk: bool, audioError: string,
    create: CreationOracle,
    buildOk: bool,
    setDspOk: bool, setDspError: string)

  datatype InitResult = InitResult(ok: bool, window: Window, error: string, steps: seq<Event>)

  /** Initialisation succeeds exactly when every collaborator does. */
  predicate AllSucceed(w: Window, o: InitOracle) {
    o.audioOk && CreateInstance(w.effect, o.create, "").instance.Some? && o.buildOk && o.setDspOk
  }

  /** print_initWindow's step, when there is an image to print. */
  function Shown(image: Option<Image>): (t: seq<Event>)
    ensures forall i :: 0 <= i < |t| ==> t[i].DefaultImage?
    ensures |t| == 1 <==> image.Some?
    ensures |t| <= 1
  {
    match image
    case Some(img) => [DefaultImage(img)]
    case None => []
  }

  /** The steps init_Window takes once the audio client is started and
      the creation is over: given the created instance (if any), what
      buildInterfaces and setDSP answered, and the default image to show. */
  function InitTail(created: Option<Instance>, buildOk: bool, image: Option<Image>, setDspOk: bool): (t: seq<Event>)
    ensures forall i :: 0 <= i < |t| ==> !t[i].DeleteInstance? && !t[i].InitAudio? && !IsCreationStep(t[i])
    ensures (exists i :: 0 <= i < |t| && t[i].DefaultImage?) <==> created.Some? && buildOk && image.Some?
    ensures DeleteInterfaces in t <==> created.Some? && buildOk && !setDspOk
    ensures AudioStarted in t <==> created.Some? && buildOk && setDspOk
  {
    match created
    case None => []
    case Some(inst) =>
      if !buildOk then [BuildInterfaces(inst, false)]
      else
        var shown := Shown(image);
        var built := [BuildInterfaces(inst, true)] + shown;
        assert image.Some? ==> built[1].DefaultImage?;
        if !setDspOk then
          var t := built + [SetDsp(false), DeleteInterfaces];
          assert image.Some? ==> t[1].DefaultImage?;
          t
        else
          // setDSP recalls the window itself before start_Audio recalls it again
          var t := built + [SetDsp(true), RecallWindow] + StartAudioSteps + [Show, RunInterface];
          assert image.Some? ==> t[1].DefaultImage?;
          assert t[|built| + 3] == AudioStarted;
          t
  }

  /** The steps init_Window takes, given what the audio client, the
      creation (`created` and its steps `cs`), buildInterfaces and setDSP
      answered, and the default image to show. */
  function InitSteps(audioOk: bool, cs: seq<Event>, created: Option<Instance>, buildOk: bool,
                     image: Option<Image>, setDspOk: bool): (t: seq<Event>)
    requires forall i :: 0 <= i < |cs| ==> IsCreationStep(cs[i])
    ensures forall i :: 0 <= i < |t| ==> !t[i].DeleteInstance?
    ensures !audioOk ==> t == [InitAudio(false)]
    ensures (exists i :: 0 <= i < |t| && t[i].DefaultImage?) <==>
              audioOk && created.Some? && buildOk && image.Some?
    ensures DeleteInterfaces in t <==> audioOk && created.Some? && buildOk && !setDspOk
    ensures AudioStarted in t <==> audioOk && created.Some? && buildOk && setDspOk
  {
    if !audioOk then [InitAudio(false)]
    else
      var tail := InitTail(created, buildOk, image, setDspOk);
      AfterPrefix(cs, tail);
      [InitAudio(true)] + cs + tail
  }

  /** What the first steps of a started initialisation add: no deletion, no
      image, no teardown, no audio start. */
  lemma AfterPrefix(cs: seq<Event>, tail: seq<Event>)
    requires forall i :: 0 <= i < |cs| ==> IsCreationStep(cs[i])
    requires forall i :: 0 <= i < |tail| ==> !tail[i].DeleteInstance?
    ensures var t := [InitAudio(true)] + cs + tail;
      && (forall i :: 0 <= i < |t| ==> !t[i].DeleteInstance?)
      && ((exists i :: 0 <= i < |t| && t[i].DefaultImage?) <==> (exists i :: 0 <= i < |tail| && tail[i].DefaultImage?))
      && (DeleteInterfaces in t <==> DeleteInterfaces in tail)
      && (AudioStarted in t <==> AudioStarted in tail)
  {
    var pre := [InitAudio(true)] + cs;
    var t := pre + tail;
    assert forall i :: 0 <= i < |pre| ==> pre[i] == InitAudio(true) || IsCreationStep(pre[i]);
    assert forall i :: 0 <= i < |tail| ==> t[|pre| + i] == tail[i];
    assert forall i :: |pre| <= i < |t| ==> t[i] == tail[i - |pre|];
  }

  function InitWindow(w: Window, kind: InitType, o: InitOracle, error: string): (r: InitResult)
    requires Fresh(w)
    ensures r.ok <==> AllSucceed(w, o)
    ensures r.ok ==> Running(r.window) && r.window.current == CreateInstance(w.effect, o.create, error).instance
    ensures r.window.effect == w.effect && r.window.lastMigration == w.lastMigration
    // once the audio client is started, the window keeps what the creation
    // returned, whatever fails later
    ensures o.audioOk ==> r.window.current == CreateInstance(w.effect, o.create, error).instance
    ensures Consistent(r.window)
    // the audio client comes first: when it fails, nothing is created
    ensures !o.audioOk ==> r.window == w && r.error == o.audioError && r.steps == [InitAudio(false)]
    ensures o.audioOk && r.window.current.None? ==>
              !r.ok && (w.effect.locality == Local ==> r.error == NoInstanceMsg)
    // a remote effect without an instance leaves the message of the code
    // the remote node reported last
    ensures o.audioOk && r.window.current.None? && w.effect.locality == Remote ==>
              r.error == ErrorFromCode(ReportedCode(o.create))
    ensures o.audioOk && r.window.current.Some? && !o.buildOk ==>
              !r.ok && r.error == NoInterfaceMsg && r.window.ui.None?
    ensures o.audioOk && r.window.current.Some? && o.buildOk && !o.setDspOk ==>
              !r.ok && r.error == o.setDspError && r.window.ui.None? && DeleteInterfaces in r.steps
    // a failed initialisation leaves the audio client unstarted
    ensures !r.ok ==> !r.window.clientOpen && AudioStarted !in r.steps
    // an initialisation never deletes an instance, not even when it fails
    // after creating one
    ensures Deletions(r.steps) == []
  {
    var c := CreateInstance(w.effect, o.create, error);
    var steps := InitSteps(o.audioOk, c.steps, c.instance, o.buildOk, DefaultImageOf(kind), o.setDspOk);
    NoDeletions(steps);
    if !o.audioOk then
      InitResult(false, w, o.audioError, steps)
    else
      var created := w.(current := c.instance);
      match c.instance
      case None =>
        var msg := if w.effect.locality == Local then NoInstanceMsg else c.error;
        InitResult(false, created, msg, steps)
      case Some(inst) =>
        if !o.buildOk then
          InitResult(false, created.(ui := None), NoInterfaceMsg, steps)
        else if !o.setDspOk then
          InitResult(false, created.(ui := None), o.setDspError, steps)
        else
          InitResult(true, StartAudio(created.(ui := Some(inst))).0, c.error, steps)
  }

  /** In a successful initialisation, the interfaces are built before
      the instance is handed to the audio manager ... */
  lemma BuildBeforeSetDspInTail(inst: Instance, image: Option<Image>)
    ensures Before(InitTail(Some(inst), true, image, true), BuildInterfaces(inst, true), SetDsp(true))
  {
    var shown := Shown(image);
    var bi := BuildInterfaces(inst, true);
    assert SetDsp(true) !in shown;
    assert InitTail(Some(inst), true, image, true) == [] + [bi] + shown + [SetDsp(true)] + ([RecallWindow] + StartAudioSteps + [Show, RunInterface]);
    BeforeSplit([], bi, shown, SetDsp(true), [RecallWindow] + StartAudioSteps + [Show, RunInterface]);
  }

  /** ... which comes before the audio is started. */
  lemma SetDspBeforeStartInTail(inst: Instance, image: Option<Image>)
    ensures Before(InitTail(Some(inst), true, image, true), SetDsp(true), AudioStarted)
  {
    var shown := Shown(image);
    var bi := BuildInterfaces(inst, true);
    assert SetDsp(true) !in shown && AudioStarted !in shown;
    assert InitTail(Some(inst), true, image, true) == [bi] + shown + [SetDsp(true)] + [RecallWindow, RecallWindow] + [AudioStarted] + [Show, RunInterface];
    BeforeSplit([bi] + shown, SetDsp(true), [RecallWindow, RecallWindow], AudioStarted, [Show, RunInterface]);
  }

  /** The steps of an initialisation are those of the audio client, the
      creation, then the rest. */
  lemma InitStepsOf(w: Window, kind: InitType, o: InitOracle, error: string)
    requires Fresh(w) && o.audioOk
    ensures InitWindow(w, kind, o, error).steps ==
            [InitAudio(true)] + CreationSteps(w.effect, o.create)
            + InitTail(CreateInstance(w.effect, o.create, error).instance, o.buildOk, DefaultImageOf(kind), o.setDspOk)
  {
  }

  /** A step other than the audio client's and the creation's is not
      among the first steps. */
  lemma PrefixLacks(cs: seq<Event>, x: Event)
    requires forall i :: 0 <= i < |cs| ==> IsCreationStep(cs[i])
    requires !x.InitAudio? && !IsCreationStep(x)
    ensures x !in [InitAudio(true)] + cs
  {
    var pre := [InitAudio(true)] + cs;
    assert forall i :: 0 <= i < |pre| ==> pre[i].InitAudio? || IsCreationStep(pre[i]);
  }

  /** The order of two steps after the creation is their order in the
      whole initialisation. */
  lemma TailOrderIsInitOrder(w: Window, kind: InitType, o: InitOracle, error: string, x: Event, y: Event)
    requires Fresh(w) && o.audioOk
    requires !x.InitAudio? && !IsCreationStep(x) && !y.InitAudio? && !IsCreationStep(y)
    requires Before(InitTail(CreateInstance(w.effect, o.create, error).instance, o.buildOk,
                             DefaultImageOf(kind), o.setDspOk), x, y)
    ensures Before(InitWindow(w, kind, o, error).steps, x, y)
  {
    var cs := CreationSteps(w.effect, o.create);
    InitStepsOf(w, kind, o, error);
    PrefixLacks(cs, x);
    PrefixLacks(cs, y);
    BeforeAfterPrefix([InitAudio(true)] + cs,
      InitTail(CreateInstance(w.effect, o.create, error).instance, o.buildOk, DefaultImageOf(kind), o.setDspOk), x, y);
  }

  /** The audio client's step comes before any later step. */
  lemma AudioFirst(cs: seq<Event>, tail: seq<Event>, y: Event)
    requires forall i :: 0 <= i < |cs| ==> IsCreationStep(cs[i])
    requires !y.InitAudio? && !IsCreationStep(y) && y in tail
    ensures Before([InitAudio(true)] + cs + tail, InitAudio(true), y)
  {
    var pre := [InitAudio(true)] + cs;
    PrefixLacks(cs, y);
    assert pre[0] == InitAudio(true);
    BeforeAcross(pre, tail, InitAudio(true), y);
  }

  /** The audio client is initialised before the interfaces are built. */
  lemma AudioBeforeBuild(w: Window, kind: InitType, o: InitOracle, error: string)
    requires Fresh(w) && AllSucceed(w, o)
    ensures Before(InitWindow(w, kind, o, error).steps, InitAudio(true),
                   BuildInterfaces(CreateInstance(w.effect, o.create, error).instance.value, true))
  {
    var inst := CreateInstance(w.effect, o.create, error).instance.value;
    InitStepsOf(w, kind, o, error);
    BuildBeforeSetDspInTail(inst, DefaultImageOf(kind));
    AudioFirst(CreationSteps(w.effect, o.create), InitTail(Some(inst), true, DefaultImageOf(kind), true),
               BuildInterfaces(inst, true));
  }

  /** The order of a successful initialisation: audio client, instance,
      interfaces, setDSP, start_Audio. */
  lemma InitOrder(w: Window, kind: InitType, o: InitOracle, error: string)
    requires Fresh(w) && AllSucceed(w, o)
    ensures var r := InitWindow(w, kind, o, error);
      var inst := r.window.current.value;
      && Before(r.steps, InitAudio(true), BuildInterfaces(inst, true))
      && Before(r.steps, BuildInterfaces(inst, true), SetDsp(true))
      && Before(r.steps, SetDsp(true), AudioStarted)
  {
    var inst := CreateInstance(w.effect, o.create, error).instance.value;
    AudioBeforeBuild(w, kind, o, error);
    BuildBeforeSetDspInTail(inst, DefaultImageOf(kind));
    TailOrderIsInitOrder(w, kind, o, error, BuildInterfaces(inst, true), SetDsp(true));
    SetDspBeforeStartInTail(inst, DefaultImageOf(kind));
    TailOrderIsInitOrder(w, kind, o, error, SetDsp(true), AudioStarted);
  }

  /** The default image is shown exactly for the default kinds, once the
      instance and its interfaces exist. */
  lemma InitDefaultImage(w: Window, kind: InitType, o: InitOracle, error: string)
    requires Fresh(w) && AllSucceed(w, o)
    ensures var r := InitWindow(w, kind, o, error);
      kind != NoInit <==> exists i :: 0 <= i < |r.steps| && r.steps[i].DefaultImage?
  {
    var c := CreateInstance(w.effect, o.create, error);
    assert InitWindow(w, kind, o, error).steps ==
           InitSteps(o.audioOk, c.steps, c.instance, o.buildOk, DefaultImageOf(kind), o.setDspOk);
  }
}
