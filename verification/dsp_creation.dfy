/** Creating the DSP instance of an effect, shared by window
    initialisation and the hot-swap: a local effect asks its compiled
    factory for an instance; a remote effect asks the remote node, and when
    the node answers that it lost the factory, the effect is reset,
    recompiled and uploaded again, and the instance is asked for once more. */
module DspCreation {
  import opened Optional
  import opened RemoteErrors
  import opened Trace

  /** An effect as the window sees it: its name and where it runs. */
  datatype Effect = Effect(name: string, locality: Locality)

  /** One answer of createRemoteDSPInstance: the instance (None for a NULL
      pointer) and the error code written to its out-parameter. */
  datatype RemoteReply = RemoteReply(instance: Option<nat>, code: ErrorCode)

  /** What the foreign creation calls answer, decided outside the model. */
  datatype CreationOracle = CreationOracle(
    local: Option<nat>,      // createDSPInstance
    first: RemoteReply,      // first createRemoteDSPInstance
    reinitOk: bool,          // FLEffect::reinit after FLEffect::reset
    second: RemoteReply)     // the retry, asked only after a successful reinit

  /** The created instance (if any), the error buffer afterwards, and the
      steps taken. */
  datatype Creation = Creation(instance: Option<Instance>, error: string, steps: seq<Event>)

  /** The remote node lost its factory and the recompilation worked: the
      one case in which the instance is asked for a second time. */
  predicate Retries(e: Effect, o: CreationOracle) {
    e.locality == Remote && o.first.instance.None? && o.first.code == FactoryNotFound && o.reinitOk
  }

  predicate IsCreationStep(ev: Event) {
    ev.CreateLocal? || ev.CreateRemote? || ev.ResetFactory? || ev.Reinit?
  }

  /** The instance ids the creation calls may answer with. */
  function OracleIds(o: CreationOracle): set<nat> {
    (if o.local.Some? then {o.local.value} else {})
    + (if o.first.instance.Some? then {o.first.instance.value} else {})
    + (if o.second.instance.Some? then {o.second.instance.value} else {})
  }

  /** The code whose message a failed remote creation leaves in the error
      buffer: the retry's when there was one, the first answer's otherwise. */
  function ReportedCode(o: CreationOracle): ErrorCode {
    if o.first.code == FactoryNotFound && o.reinitOk then o.second.code else o.first.code
  }

  /** The calls a creation makes, which depend only on the effect's
      locality and on the remote node's first answer and the reinit. */
  function CreationSteps(e: Effect, o: CreationOracle): (t: seq<Event>)
    ensures forall i :: 0 <= i < |t| ==> IsCreationStep(t[i])
    ensures Deletions(t) == []
    ensures e.locality == Local ==> t == [CreateLocal]
  {
    var t :=
      if e.locality == Local then [CreateLocal]
      else if o.first.instance.Some? then [CreateRemote]
      else if o.first.code != FactoryNotFound then [CreateRemote]
      else if o.reinitOk then [CreateRemote, ResetFactory, Reinit(true), CreateRemote]
      else [CreateRemote, ResetFactory, Reinit(false)];
    NoDeletions(t);
    t
  }

  function CreateInstance(e: Effect, o: CreationOracle, error: string): (c: Creation)
    ensures c.steps == CreationSteps(e, o)
    // the instance belongs to the effect it was created for
    ensures c.instance.Some? ==> c.instance.value.locality == e.locality
    // and is one of the instances the creation calls answered with
    ensures c.instance.Some? ==> c.instance.value.id in OracleIds(o)
    // namely the answer of the call that decided
    ensures e.locality == Local ==>
              c.instance == (if o.local.Some? then Some(Instance(o.local.value, Local)) else None)
    ensures e.locality == Remote && o.first.instance.Some? ==>
              c.instance == Some(Instance(o.first.instance.value, Remote))
    ensures Retries(e, o) ==>
              c.instance == (if o.second.instance.Some? then Some(Instance(o.second.instance.value, Remote)) else None)
    // local effects: the factory's answer, the error buffer untouched
    ensures e.locality == Local ==> c.error == error && (c.instance.Some? <==> o.local.Some?)
    // remote effects: a first success is kept as is; the retry decides
    // otherwise, and a failure is reported through the message of its code
    ensures e.locality == Remote && o.first.instance.Some? ==> c.error == error && c.instance.Some?
    ensures Retries(e, o) ==> c.error == ErrorFromCode(o.second.code)
                              && (c.instance.Some? <==> o.second.instance.Some?)
    ensures e.locality == Remote && o.first.instance.None? && !Retries(e, o) ==>
              c.instance.None? && c.error == ErrorFromCode(o.first.code)
    ensures e.locality == Remote && c.instance.None? ==> c.error == ErrorFromCode(ReportedCode(o))
  {
    var steps := CreationSteps(e, o);
    match e.locality
    case Local =>
      var inst := match o.local case Some(id) => Some(Instance(id, Local)) case None => None;
      Creation(inst, error, steps)
    case Remote =>
      match o.first.instance
      case Some(id) => Creation(Some(Instance(id, Remote)), error, steps)
      case None =>
        if o.first.code == FactoryNotFound then
          if o.reinitOk then
            var inst := match o.second.instance case Some(id) => Some(Instance(id, Remote)) case None => None;
            Creation(inst, ErrorFromCode(o.second.code), steps)
          else
            Creation(None, ErrorFromCode(o.first.code), steps)
        else
          Creation(None, ErrorFromCode(o.first.code), steps)
  }

  /** A remote creation never calls the local factory. */
  lemma RemoteNeverLocal(e: Effect, o: CreationOracle)
    requires e.locality == Remote
    ensures CreateLocal !in CreationSteps(e, o)
  {
  }

  /** A remote creation asks the remote node at most twice, the second
      time exactly when the node had lost the factory and the reinit
      succeeded. */
  lemma RemoteRetryAtMostOnce(e: Effect, o: CreationOracle)
    requires e.locality == Remote
    ensures Count(CreationSteps(e, o), CreateRemote) == (if Retries(e, o) then 2 else 1)
  {
  }

  /** The factory is reset exactly when the node reported it lost. */
  lemma ResetOnlyWhenLost(e: Effect, o: CreationOracle)
    requires e.locality == Remote
    ensures ResetFactory in CreationSteps(e, o) <==> o.first.instance.None? && o.first.code == FactoryNotFound
  {
  }
}
