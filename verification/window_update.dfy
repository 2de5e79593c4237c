/** FLWindow::update_Window, the hot-swap of the DSP running in a window.
    A candidate instance is created for the new effect; the audio manager
    prepares a crossfade to it; the interfaces are torn down and rebuilt
    against it; the crossfade runs to its end; then the instance and effect
    pointers are swapped, and the one instance no longer wanted is deleted.
    Each collaborator may fail, and every failure leaves the window running
    what it ran before. */
module WindowUpdate {
  import opened Optional
  import opened RemoteErrors
  import opened Trace
  import opened DspCreation
  import opened Window

  const NoLocalInstanceMsg: string := "Impossible to allocate DSP"
  const NewInterfaceMsg: string := "Impossible to allocate new interface"

  /** What the collaborators answer: instance creation, init_FadeAudio
      (with the message it leaves on failure), buildInterfaces against the
      candidate, and buildInterfaces against the old instance when the
      first build failed. */
  datatype UpdateOracle = UpdateOracle(
    create: CreationOracle,
    fadeOk: bool, fadeError: string,
    buildNewOk: bool,
    rebuildOldOk: bool)

  datatype UpdateResult = UpdateResult(ok: bool, window: Window, error: string, steps: seq<Event>)

  /** The swap is committed exactly when a candidate exists, the crossfade
      could be prepared, and the interfaces could be built against it. */
  predicate Commits(candidate: Option<Instance>, o: UpdateOracle) {
    candidate.Some? && o.fadeOk && o.buildNewOk
  }

  /** The creation calls answer with an instance other than `running`, as
      a fresh allocation does while `running` is alive. */
  predicate FreshFor(o: UpdateOracle, running: Instance) {
    running.id !in OracleIds(o.create)
  }

  /** Steps other than saving, hiding and creating. */
  predicate AfterCreation(ev: Event) {
    !IsCreationStep(ev) && ev != SaveWindow && ev != Hide
  }

  /** The steps of a committed swap to candidate `c`, up to the launch of
      the rebuilt interface. */
  function CommitSwap(c: Instance): (t: seq<Event>)
    ensures forall i :: 0 <= i < |t| ==> !t[i].DeleteInstance?
  {
    [InitFade(true), DeleteInterfaces, BuildInterfaces(c, true), RecallWindow,
     StartFade, Show, WaitEndFade, Commit, RunInterface]
  }

  /** The steps update_Window takes once the candidate `candidate` was
      created (or not), given the running instance `prev` of an effect of
      locality `oldLoc` and the new effect's locality `newLoc`. The delete
      at the end goes through the effect the local variable `newEffect`
      points to after the swap: the old effect when the swap happened, the
      new one otherwise. */
  function SwapTail(candidate: Option<Instance>, newLoc: Locality,
                    prev: Instance, oldLoc: Locality, o: UpdateOracle): (t: seq<Event>)
    ensures CreateRemote !in t
    // exactly one instance is deleted whenever a candidate was created: the
    // old one on commit, the candidate otherwise
    ensures Deletions(t) == match candidate
                            case None => []
                            case Some(c) => if Commits(candidate, o) then [prev] else [c]
    ensures (candidate.Some? ==> candidate.value.locality == newLoc) && prev.locality == oldLoc
            ==> DeletersMatch(t)
  {
    match candidate
    case None =>
      NoDeletions([Show]);
      [Show]
    case Some(c) =>
      if !o.fadeOk then
        OneDeletion([InitFade(false)], c, newLoc, [Show]);
        OneDeleterMatches([InitFade(false)], c, [Show]);
        [InitFade(false)] + [DeleteInstance(c, newLoc)] + [Show]
      else if o.buildNewOk then
        var swap := CommitSwap(c);
        // after the swap `newEffect` holds the old effect
        OneDeletion(swap, prev, oldLoc, [Show]);
        OneDeleterMatches(swap, prev, [Show]);
        swap + [DeleteInstance(prev, oldLoc)] + [Show]
      else
        var rollback := [InitFade(true), DeleteInterfaces, BuildInterfaces(c, false),
                         BuildInterfaces(prev, o.rebuildOldOk), RecallWindow, RunInterface];
        OneDeletion(rollback, c, newLoc, [Show]);
        OneDeleterMatches(rollback, c, [Show]);
        rollback + [DeleteInstance(c, newLoc)] + [Show]
  }

  /** The steps update_Window takes: the window is saved and hidden, the
      candidate is created with steps `cs`, then the swap is attempted. */
  function UpdateSteps(cs: seq<Event>, candidate: Option<Instance>, newLoc: Locality,
                       prev: Instance, oldLoc: Locality, o: UpdateOracle): (t: seq<Event>)
    requires forall i :: 0 <= i < |cs| ==> IsCreationStep(cs[i])
    ensures Deletions(t) == match candidate
                            case None => []
                            case Some(c) => if Commits(candidate, o) then [prev] else [c]
    ensures (candidate.Some? ==> candidate.value.locality == newLoc) && prev.locality == oldLoc
            ==> DeletersMatch(t)
  {
    var pre := [SaveWindow, Hide] + cs;
    var tail := SwapTail(candidate, newLoc, prev, oldLoc, o);
    assert forall i :: 0 <= i < |pre| ==> pre[i] == SaveWindow || pre[i] == Hide || IsCreationStep(pre[i]);
    assert forall i :: 0 <= i < |pre| ==> !pre[i].DeleteInstance?;
    NoDeletions(pre);
    DeletionsAppend(pre, tail);
    DeletersMatchAppend(pre, tail);
    pre + tail
  }

  /** A step taken after the creation is not among the first ones, and it
      is taken in the update exactly when it is taken in the swap. */
  lemma OutsidePrefix(cs: seq<Event>, tail: seq<Event>, x: Event)
    requires forall i :: 0 <= i < |cs| ==> IsCreationStep(cs[i])
    requires AfterCreation(x)
    ensures x !in [SaveWindow, Hide] + cs
    ensures x in ([SaveWindow, Hide] + cs) + tail <==> x in tail
  {
    var pre := [SaveWindow, Hide] + cs;
    assert forall i :: 0 <= i < |pre| ==> !AfterCreation(pre[i]);
  }

  function UpdateWindow(w: Window, newEffect: Effect, o: UpdateOracle, error: string): (r: UpdateResult)
    requires w.current.Some? && FreshFor(o, w.current.value)
    // commit: the candidate runs, with the new effect, and only the prev
    // instance was deleted
    ensures r.ok <==> Commits(CreateInstance(newEffect, o.create, error).instance, o)
    ensures r.ok ==> r.window == w.(current := CreateInstance(newEffect, o.create, error).instance,
                                    effect := newEffect,
                                    ui := CreateInstance(newEffect, o.create, error).instance)
    ensures r.ok ==> Deletions(r.steps) == [w.current.value]
    // rollback: the instance and effect that ran before still run, and
    // the candidate, if any, was the one deleted
    ensures !r.ok ==> r.window == w.(ui := r.window.ui)
    ensures var candidate := CreateInstance(newEffect, o.create, error).instance;
      !r.ok && candidate.Some? ==> Deletions(r.steps) == [candidate.value]
    ensures CreateInstance(newEffect, o.create, error).instance.None? ==> Deletions(r.steps) == [] && r.window == w
    // which failure leaves which message
    ensures CreateInstance(newEffect, o.create, error).instance.None? && newEffect.locality == Local ==>
              r.error == NoLocalInstanceMsg
    ensures CreateInstance(newEffect, o.create, error).instance.None? && newEffect.locality == Remote ==>
              r.error == ErrorFromCode(ReportedCode(o.create))
    ensures CreateInstance(newEffect, o.create, error).instance.Some? && !o.fadeOk ==>
              r.error == o.fadeError && r.window == w
    ensures CreateInstance(newEffect, o.create, error).instance.Some? && o.fadeOk && !o.buildNewOk ==>
              && r.error == NewInterfaceMsg
              && r.window.ui == (if o.rebuildOldOk then w.current else None)
              && BuildInterfaces(w.current.value, o.rebuildOldOk) in r.steps
    // every deletion matches its instance's locality, and the window stays
    // consistent
    ensures Consistent(w) ==> Consistent(r.window) && DeletersMatch(r.steps)
    // the instance left running is never the one deleted
    ensures r.window.current.Some? && r.window.current.value !in Deletions(r.steps)
  {
    var c := CreateInstance(newEffect, o.create, error);
    var prev := w.current.value;
    var steps := UpdateSteps(c.steps, c.instance, newEffect.locality, prev, w.effect.locality, o);
    match c.instance
    case None =>
      var msg := if newEffect.locality == Local then NoLocalInstanceMsg else c.error;
      UpdateResult(false, w, msg, steps)
    case Some(cand) =>
      assert cand.id in OracleIds(o.create) && cand != prev;
      if !o.fadeOk then
        UpdateResult(false, w, o.fadeError, steps)
      else if o.buildNewOk then
        UpdateResult(true, w.(current := Some(cand), effect := newEffect, ui := Some(cand)), c.error, steps)
      else
        var ui := if o.rebuildOldOk then w.current else None;
        assert BuildInterfaces(prev, o.rebuildOldOk) in steps;
        UpdateResult(false, w.(ui := ui), NewInterfaceMsg, steps)
  }

  /** The pointers are swapped exactly on commit, and the old interfaces
      are deleted exactly when the crossfade could be prepared for a
      candidate: a failed preparation leaves them in place. */
  lemma SwapSteps(cs: seq<Event>, candidate: Option<Instance>, newLoc: Locality,
                  prev: Instance, oldLoc: Locality, o: UpdateOracle)
    requires forall i :: 0 <= i < |cs| ==> IsCreationStep(cs[i])
    ensures var t := UpdateSteps(cs, candidate, newLoc, prev, oldLoc, o);
      && (Commit in t <==> Commits(candidate, o))
      && (DeleteInterfaces in t <==> candidate.Some? && o.fadeOk)
  {
    SwapTailCommits(candidate, newLoc, prev, oldLoc, o);
    SwapTailTearsDown(candidate, newLoc, prev, oldLoc, o);
    UpdateStepsSplit(cs, candidate, newLoc, prev, oldLoc, o);
    var tail := SwapTail(candidate, newLoc, prev, oldLoc, o);
    OutsidePrefix(cs, tail, Commit);
    OutsidePrefix(cs, tail, DeleteInterfaces);
  }

  lemma SwapTailCommits(candidate: Option<Instance>, newLoc: Locality,
                        prev: Instance, oldLoc: Locality, o: UpdateOracle)
    ensures Commit in SwapTail(candidate, newLoc, prev, oldLoc, o) <==> Commits(candidate, o)
  {
  }

  lemma SwapTailTearsDown(candidate: Option<Instance>, newLoc: Locality,
                          prev: Instance, oldLoc: Locality, o: UpdateOracle)
    ensures DeleteInterfaces in SwapTail(candidate, newLoc, prev, oldLoc, o) <==> candidate.Some? && o.fadeOk
  {
  }

  /** Prepending the save, the hide and the creation keeps the order of
      two later steps. */
  lemma LiftBefore(cs: seq<Event>, tail: seq<Event>, x: Event, y: Event)
    requires forall i :: 0 <= i < |cs| ==> IsCreationStep(cs[i])
    requires AfterCreation(x) && AfterCreation(y) && Before(tail, x, y)
    ensures Before([SaveWindow, Hide] + cs + tail, x, y)
  {
    OutsidePrefix(cs, tail, x);
    OutsidePrefix(cs, tail, y);
    BeforeAfterPrefix([SaveWindow, Hide] + cs, tail, x, y);
  }

  lemma UpdateStepsSplit(cs: seq<Event>, candidate: Option<Instance>, newLoc: Locality,
                         prev: Instance, oldLoc: Locality, o: UpdateOracle)
    requires forall i :: 0 <= i < |cs| ==> IsCreationStep(cs[i])
    ensures UpdateSteps(cs, candidate, newLoc, prev, oldLoc, o)
            == [SaveWindow, Hide] + cs + SwapTail(candidate, newLoc, prev, oldLoc, o)
  {
  }

  /** The order of two steps of the swap is their order in the update. */
  lemma SwapOrderIsUpdateOrder(cs: seq<Event>, candidate: Option<Instance>, newLoc: Locality,
                               prev: Instance, oldLoc: Locality, o: UpdateOracle, x: Event, y: Event)
    requires forall i :: 0 <= i < |cs| ==> IsCreationStep(cs[i])
    requires AfterCreation(x) && AfterCreation(y)
    requires Before(SwapTail(candidate, newLoc, prev, oldLoc, o), x, y)
    ensures Before(UpdateSteps(cs, candidate, newLoc, prev, oldLoc, o), x, y)
  {
    UpdateStepsSplit(cs, candidate, newLoc, prev, oldLoc, o);
    LiftBefore(cs, SwapTail(candidate, newLoc, prev, oldLoc, o), x, y);
  }

  /** The crossfade is prepared before the old interfaces are deleted. */
  lemma FadeBeforeTeardown(cs: seq<Event>, candidate: Option<Instance>, newLoc: Locality,
                           prev: Instance, oldLoc: Locality, o: UpdateOracle)
    requires forall i :: 0 <= i < |cs| ==> IsCreationStep(cs[i])
    requires candidate.Some? && o.fadeOk
    ensures Before(UpdateSteps(cs, candidate, newLoc, prev, oldLoc, o), InitFade(true), DeleteInterfaces)
  {
    var tail := SwapTail(candidate, newLoc, prev, oldLoc, o);
    BeforeAt(tail, InitFade(true), DeleteInterfaces, 0, 1);
    SwapOrderIsUpdateOrder(cs, candidate, newLoc, prev, oldLoc, o, InitFade(true), DeleteInterfaces);
  }

  lemma SwapTailOnCommit(candidate: Option<Instance>, newLoc: Locality,
                         prev: Instance, oldLoc: Locality, o: UpdateOracle)
    requires Commits(candidate, o)
    ensures SwapTail(candidate, newLoc, prev, oldLoc, o)
            == CommitSwap(candidate.value) + [DeleteInstance(prev, oldLoc)] + [Show]
  {
  }

  // Each ordering fact is proved on the committed swap (X), on the swap
  // tail (XInTail), then lifted to the whole update (XInUpdate): one fact
  // per lemma keeps each proof small for the solver.

  lemma StartBeforeWait(c: Instance, d: Event)
    ensures Before(CommitSwap(c) + [d] + [Show], StartFade, WaitEndFade)
  {
    var prep := [InitFade(true), DeleteInterfaces, BuildInterfaces(c, true), RecallWindow];
    assert CommitSwap(c) + [d] + [Show] == prep + [StartFade] + [Show] + [WaitEndFade] + [Commit, RunInterface, d, Show];
    BeforeSplit(prep, StartFade, [Show], WaitEndFade, [Commit, RunInterface, d, Show]);
  }

  lemma WaitBeforeCommit(c: Instance, d: Event)
    ensures Before(CommitSwap(c) + [d] + [Show], WaitEndFade, Commit)
  {
    var prep := [InitFade(true), DeleteInterfaces, BuildInterfaces(c, true), RecallWindow, StartFade, Show];
    assert CommitSwap(c) + [d] + [Show] == prep + [WaitEndFade] + [] + [Commit] + [RunInterface, d, Show];
    BeforeSplit(prep, WaitEndFade, [], Commit, [RunInterface, d, Show]);
  }

  lemma CommitBeforeDelete(c: Instance, d: Event)
    requires !d.Commit? && d.DeleteInstance?
    ensures Before(CommitSwap(c) + [d] + [Show], Commit, d)
  {
    var prep := [InitFade(true), DeleteInterfaces, BuildInterfaces(c, true), RecallWindow, StartFade, Show, WaitEndFade];
    assert CommitSwap(c) + [d] + [Show] == prep + [Commit] + [RunInterface] + [d] + [Show];
    BeforeSplit(prep, Commit, [RunInterface], d, [Show]);
  }

  /** On commit the swap starts the crossfade, waits for it, swaps the
      pointers, then deletes the old instance. */
  lemma StartBeforeWaitInTail(candidate: Option<Instance>, newLoc: Locality,
                              prev: Instance, oldLoc: Locality, o: UpdateOracle)
    requires Commits(candidate, o)
    ensures Before(SwapTail(candidate, newLoc, prev, oldLoc, o), StartFade, WaitEndFade)
  {
    SwapTailOnCommit(candidate, newLoc, prev, oldLoc, o);
    StartBeforeWait(candidate.value, DeleteInstance(prev, oldLoc));
  }

  lemma WaitBeforeCommitInTail(candidate: Option<Instance>, newLoc: Locality,
                               prev: Instance, oldLoc: Locality, o: UpdateOracle)
    requires Commits(candidate, o)
    ensures Before(SwapTail(candidate, newLoc, prev, oldLoc, o), WaitEndFade, Commit)
  {
    SwapTailOnCommit(candidate, newLoc, prev, oldLoc, o);
    WaitBeforeCommit(candidate.value, DeleteInstance(prev, oldLoc));
  }

  lemma CommitBeforeDeleteInTail(candidate: Option<Instance>, newLoc: Locality,
                                 prev: Instance, oldLoc: Locality, o: UpdateOracle)
    requires Commits(candidate, o)
    ensures Before(SwapTail(candidate, newLoc, prev, oldLoc, o), Commit, DeleteInstance(prev, oldLoc))
  {
    SwapTailOnCommit(candidate, newLoc, prev, oldLoc, o);
    CommitBeforeDelete(candidate.value, DeleteInstance(prev, oldLoc));
  }

  lemma StartBeforeWaitInUpdate(cs: seq<Event>, candidate: Option<Instance>, newLoc: Locality,
                                prev: Instance, oldLoc: Locality, o: UpdateOracle)
    requires forall i :: 0 <= i < |cs| ==> IsCreationStep(cs[i])
    requires Commits(candidate, o)
    ensures Before(UpdateSteps(cs, candidate, newLoc, prev, oldLoc, o), StartFade, WaitEndFade)
  {
    StartBeforeWaitInTail(candidate, newLoc, prev, oldLoc, o);
    SwapOrderIsUpdateOrder(cs, candidate, newLoc, prev, oldLoc, o, StartFade, WaitEndFade);
  }

  lemma WaitBeforeCommitInUpdate(cs: seq<Event>, candidate: Option<Instance>, newLoc: Locality,
                                 prev: Instance, oldLoc: Locality, o: UpdateOracle)
    requires forall i :: 0 <= i < |cs| ==> IsCreationStep(cs[i])
    requires Commits(candidate, o)
    ensures Before(UpdateSteps(cs, candidate, newLoc, prev, oldLoc, o), WaitEndFade, Commit)
  {
    WaitBeforeCommitInTail(candidate, newLoc, prev, oldLoc, o);
    SwapOrderIsUpdateOrder(cs, candidate, newLoc, prev, oldLoc, o, WaitEndFade, Commit);
  }

  lemma CommitBeforeDeleteInUpdate(cs: seq<Event>, candidate: Option<Instance>, newLoc: Locality,
                                   prev: Instance, oldLoc: Locality, o: UpdateOracle)
    requires forall i :: 0 <= i < |cs| ==> IsCreationStep(cs[i])
    requires Commits(candidate, o)
    ensures Before(UpdateSteps(cs, candidate, newLoc, prev, oldLoc, o), Commit, DeleteInstance(prev, oldLoc))
  {
    CommitBeforeDeleteInTail(candidate, newLoc, prev, oldLoc, o);
    SwapOrderIsUpdateOrder(cs, candidate, newLoc, prev, oldLoc, o, Commit, DeleteInstance(prev, oldLoc));
  }

  /** On commit the crossfade is started, then waited for, then the
      pointers are swapped, then the old instance is deleted. */
  lemma CommitOrder(cs: seq<Event>, candidate: Option<Instance>, newLoc: Locality,
                    prev: Instance, oldLoc: Locality, o: UpdateOracle)
    requires forall i :: 0 <= i < |cs| ==> IsCreationStep(cs[i])
    requires Commits(candidate, o)
    ensures var t := UpdateSteps(cs, candidate, newLoc, prev, oldLoc, o);
      && Before(t, StartFade, WaitEndFade)
      && Before(t, WaitEndFade, Commit)
      && Before(t, Commit, DeleteInstance(prev, oldLoc))
  {
    StartBeforeWaitInUpdate(cs, candidate, newLoc, prev, oldLoc, o);
    WaitBeforeCommitInUpdate(cs, candidate, newLoc, prev, oldLoc, o);
    CommitBeforeDeleteInUpdate(cs, candidate, newLoc, prev, oldLoc, o);
  }

  /** The creation steps come right after saving and hiding the window,
      and no creation step is taken after them. */
  lemma CreationFirst(cs: seq<Event>, candidate: Option<Instance>, newLoc: Locality,
                      prev: Instance, oldLoc: Locality, o: UpdateOracle)
    requires forall i :: 0 <= i < |cs| ==> IsCreationStep(cs[i])
    ensures var t := UpdateSteps(cs, candidate, newLoc, prev, oldLoc, o);
      && |t| >= |cs| + 2
      && t[..|cs| + 2] == [SaveWindow, Hide] + cs
      && forall i :: |cs| + 2 <= i < |t| ==> !IsCreationStep(t[i])
  {
    var pre := [SaveWindow, Hide] + cs;
    var tail := SwapTail(candidate, newLoc, prev, oldLoc, o);
    SwapTailCreatesNothing(candidate, newLoc, prev, oldLoc, o);
    var t := pre + tail;
    assert t[..|pre|] == pre;
    assert t[|pre|..] == tail;
  }

  /** The swap makes no creation call. */
  lemma SwapTailCreatesNothing(candidate: Option<Instance>, newLoc: Locality,
                               prev: Instance, oldLoc: Locality, o: UpdateOracle)
    ensures var t := SwapTail(candidate, newLoc, prev, oldLoc, o);
            forall i :: 0 <= i < |t| ==> !IsCreationStep(t[i])
  {
  }

  /** The swap itself never asks for another instance. */
  lemma RemoteCallsOnlyWhileCreating(cs: seq<Event>, candidate: Option<Instance>, newLoc: Locality,
                                     prev: Instance, oldLoc: Locality, o: UpdateOracle)
    requires forall i :: 0 <= i < |cs| ==> IsCreationStep(cs[i])
    ensures Count(UpdateSteps(cs, candidate, newLoc, prev, oldLoc, o), CreateRemote) == Count(cs, CreateRemote)
  {
    var tail := SwapTail(candidate, newLoc, prev, oldLoc, o);
    assert CreateRemote !in multiset(tail);
    CountAppend([SaveWindow, Hide] + cs, tail, CreateRemote);
    CountAppend([SaveWindow, Hide], cs, CreateRemote);
  }

  /** The steps of an update are those of its creation followed by the
      swap. */
  lemma UpdateStepsOf(w: Window, newEffect: Effect, o: UpdateOracle, error: string)
    requires w.current.Some? && FreshFor(o, w.current.value)
    ensures UpdateWindow(w, newEffect, o, error).steps ==
            UpdateSteps(CreationSteps(newEffect, o.create), CreateInstance(newEffect, o.create, error).instance,
                        newEffect.locality, w.current.value, w.effect.locality, o)
  {
  }

  /** The remote node is asked for an instance at most twice per update,
      the second time exactly when it had lost the factory and the
      recompilation succeeded; a local effect never asks it. */
  lemma UpdateRemoteAttempts(w: Window, newEffect: Effect, o: UpdateOracle, error: string)
    requires w.current.Some? && FreshFor(o, w.current.value)
    ensures var r := UpdateWindow(w, newEffect, o, error);
      Count(r.steps, CreateRemote) ==
        if newEffect.locality == Local then 0 else if Retries(newEffect, o.create) then 2 else 1
  {
    var cs := CreationSteps(newEffect, o.create);
    var candidate := CreateInstance(newEffect, o.create, error).instance;
    UpdateStepsOf(w, newEffect, o, error);
    RemoteCallsOnlyWhileCreating(cs, candidate, newEffect.locality, w.current.value, w.effect.locality, o);
    if newEffect.locality == Remote {
      RemoteRetryAtMostOnce(newEffect, o.create);
    } else {
      assert multiset(cs)[CreateRemote] == 0;
    }
  }

  /** The ordering guarantees of update_Window, for every outcome of the
      collaborators: init_FadeAudio before the old interfaces go; a failed
      init_FadeAudio keeps them; start_Fade before wait_EndFade; the swap
      only after wait_EndFade, and the old instance deleted after the swap. */
  lemma UpdateOrdering(w: Window, newEffect: Effect, o: UpdateOracle, error: string)
    requires w.current.Some? && FreshFor(o, w.current.value)
    ensures var r := UpdateWindow(w, newEffect, o, error);
      var candidate := CreateInstance(newEffect, o.create, error).instance;
      && (Commit in r.steps <==> r.ok)
      && (DeleteInterfaces in r.steps <==> candidate.Some? && o.fadeOk)
      && (DeleteInterfaces in r.steps ==> Before(r.steps, InitFade(true), DeleteInterfaces))
      && (r.ok ==> && Before(r.steps, StartFade, WaitEndFade)
                   && Before(r.steps, WaitEndFade, Commit)
                   && Before(r.steps, Commit, DeleteInstance(w.current.value, w.effect.locality)))
  {
    var c := CreateInstance(newEffect, o.create, error);
    var prev := w.current.value;
    SwapSteps(c.steps, c.instance, newEffect.locality, prev, w.effect.locality, o);
    if c.instance.Some? && o.fadeOk {
      FadeBeforeTeardown(c.steps, c.instance, newEffect.locality, prev, w.effect.locality, o);
      if o.buildNewOk {
        CommitOrder(c.steps, c.instance, newEffect.locality, prev, w.effect.locality, o);
      }
    }
  }

  /** Along the series `updates`, each update's creation calls answer with
      an instance other than the one running when it starts. */
  predicate FreshAlong(w: Window, updates: seq<(Effect, UpdateOracle)>, error: string)
    requires w.current.Some?
    decreases |updates|
  {
    |updates| == 0
    || (&& FreshFor(updates[0].1, w.current.value)
        && var r := UpdateWindow(w, updates[0].0, updates[0].1, error);
           r.window.current.Some? && FreshAlong(r.window, updates[1..], error))
  }

  /** A window after a series of hot-swaps, each to the effect and with the
      collaborator outcomes of one element of `updates`. */
  function UpdateAll(w: Window, updates: seq<(Effect, UpdateOracle)>, error: string): (w': Window)
    requires w.current.Some? && FreshAlong(w, updates, error)
    ensures w'.current.Some?
    ensures w'.clientOpen == w.clientOpen && w'.lastMigration == w.lastMigration
    decreases |updates|
  {
    if |updates| == 0 then w
    else UpdateAll(UpdateWindow(w, updates[0].0, updates[0].1, error).window, updates[1..], error)
  }

  /** A series of updates is its first update followed by the rest. */
  lemma UpdateAllStep(w: Window, updates: seq<(Effect, UpdateOracle)>, error: string)
    requires w.current.Some? && FreshAlong(w, updates, error) && |updates| > 0
    ensures var w1 := UpdateWindow(w, updates[0].0, updates[0].1, error).window;
      && w1.current.Some? && FreshAlong(w1, updates[1..], error)
      && UpdateAll(w, updates, error) == UpdateAll(w1, updates[1..], error)
  {
  }

  /** One update keeps a running window running when the interfaces can
      be rebuilt against the old instance, and leaves it with the old effect
      or the new one. */
  lemma UpdateKeepsRunning(w: Window, newEffect: Effect, o: UpdateOracle, error: string)
    requires Running(w) && FreshFor(o, w.current.value) && o.rebuildOldOk
    ensures Running(UpdateWindow(w, newEffect, o, error).window)
    ensures UpdateWindow(w, newEffect, o, error).window.effect in {w.effect, newEffect}
  {
  }

  /** Whatever the swaps do, a running window keeps running as long as the
      interfaces can always be rebuilt against the old instance, and what
      it runs is its first effect or one it was asked to swap to. */
  lemma {:induction false} UpdatesKeepRunning(w: Window, updates: seq<(Effect, UpdateOracle)>, error: string)
    requires Running(w) && FreshAlong(w, updates, error)
    requires forall i :: 0 <= i < |updates| ==> updates[i].1.rebuildOldOk
    ensures Running(UpdateAll(w, updates, error))
    ensures var e := UpdateAll(w, updates, error).effect;
            e == w.effect || exists i :: 0 <= i < |updates| && updates[i].0 == e
    decreases |updates|
  {
    if |updates| > 0 {
      var w1 := UpdateWindow(w, updates[0].0, updates[0].1, error).window;
      UpdateAllStep(w, updates, error);
      UpdateKeepsRunning(w, updates[0].0, updates[0].1, error);
      UpdatesKeepRunning(w1, updates[1..], error);
      EffectOfSeries(w.effect, w1.effect, UpdateAll(w, updates, error).effect, updates);
    }
  }

  /** An effect reached from `e1`, itself `e0` or the first update's, by
      the rest of a series is `e0` or the effect of one of the updates. */
  lemma EffectOfSeries(e0: Effect, e1: Effect, e: Effect, updates: seq<(Effect, UpdateOracle)>)
    requires |updates| > 0
    requires e1 == e0 || e1 == updates[0].0
    requires e == e1 || exists i :: 0 <= i < |updates[1..]| && updates[1..][i].0 == e
    ensures e == e0 || exists i :: 0 <= i < |updates| && updates[i].0 == e
  {
    if e != e1 {
      var i :| 0 <= i < |updates[1..]| && updates[1..][i].0 == e;
      assert updates[i + 1].0 == e;
    } else if e != e0 {
      assert updates[0].0 == e;
    }
  }
}
