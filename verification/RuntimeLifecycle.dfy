/**
 Starting and stopping the runtime in src/runtime.mjs: two idempotency windows over
 one revision, with a runtime that may also die on its own.
 */
module RuntimeLifecycle {
  import opened Wrappers

  const WINDOW := 128
  const MAX_KEY := 256

  type RuntimeId = nat

  datatype Lifecycle = Lifecycle(revision: nat, running: bool, runtimeId: RuntimeId)

  /** `runtime-state.json`: missing, not what it should be, or the state of one runtime. */
  datatype StateFile = Absent | Damaged | Present(revision: nat, runtimeId: RuntimeId)

  /** What runs under the PID of the runtime started last: nothing, that runtime, or another process that got the PID. */
  datatype Process = Gone | Own | Other

  datatype Refusal = Incompatible | NotReady | StateInvalid

  datatype Answer =
    | Started(revision: nat, runtimeId: RuntimeId)
    | Reused(revision: nat, runtimeId: RuntimeId)
    | Stopped(revision: nat, runtimeId: RuntimeId)
    | NotRunning(revision: nat)
    | StartFailed
    | Refused(refusal: Refusal)
    | RevisionConflict(actual: nat)

  datatype Recorded = Recorded(key: string, expected: int, answer: Answer)

  datatype Reply = ContractInvalid | KeyConflict | Replayed(original: Answer) | Fresh(answer: Answer) | Threw

  /** One effective start or stop: the request that caused it and the revision it led to. */
  datatype Effect = Effect(start: bool, key: string, expected: int, revision: nat, runtimeId: RuntimeId)

  predicate ValidContract(key: string, expected: int) {
    0 < |key| <= MAX_KEY && expected >= 0
  }

  /** `outcomes.slice(-128)`. */
  function Latest(outcomes: seq<Recorded>): seq<Recorded> {
    if |outcomes| <= WINDOW then outcomes else outcomes[|outcomes| - WINDOW..]
  }

  function Find(outcomes: seq<Recorded>, key: string): (found: Option<Recorded>)
    ensures found.Some? ==> found.value in outcomes && found.value.key == key
    ensures found.None? ==> forall o :: o in outcomes ==> o.key != key
    decreases |outcomes|
  {
    if outcomes == [] then None
    else if outcomes[0].key == key then Some(outcomes[0])
    else Find(outcomes[1..], key)
  }

  /** Each effect has a revision of its own, and a stop ends the runtime of the start just before it. */
  ghost predicate Numbered(effects: seq<Effect>) {
    && (forall i :: 0 <= i < |effects| ==> effects[i].expected == i && effects[i].revision == i + 1)
    && (forall i :: 0 <= i < |effects| && !effects[i].start ==>
          i > 0 && effects[i - 1].start && effects[i - 1].runtimeId == effects[i].runtimeId)
  }

  /** The outcomes kept are the last ones recorded, under different keys. */
  ghost predicate Windowed(outcomes: seq<Recorded>, recorded: seq<Recorded>) {
    outcomes == Latest(recorded) && DistinctKeys(outcomes)
  }

  ghost predicate DistinctKeys(outcomes: seq<Recorded>) {
    forall i, j :: 0 <= i < j < |outcomes| ==> outcomes[i].key != outcomes[j].key
  }

  lemma WindowMoves(outcomes: seq<Recorded>, recorded: seq<Recorded>, entry: Recorded)
    requires Windowed(outcomes, recorded) && Find(outcomes, entry.key).None?
    ensures Windowed(Latest(outcomes + [entry]), recorded + [entry])
  {
    hide Latest, DistinctKeys;
    LatestMoves(recorded, entry);
    DistinctWith(outcomes, entry);
  }

  lemma LatestMoves(recorded: seq<Recorded>, entry: Recorded)
    ensures Latest(Latest(recorded) + [entry]) == Latest(recorded + [entry])
  {
    var longer := recorded + [entry];
    if |recorded| > WINDOW {
      var from := |recorded| - WINDOW;
      assert recorded[from..] + [entry] == longer[from..];
      assert longer[from..][1..] == longer[from + 1..];
    }
  }

  lemma DistinctWith(outcomes: seq<Recorded>, entry: Recorded)
    requires DistinctKeys(outcomes) && Find(outcomes, entry.key).None?
    ensures DistinctKeys(Latest(outcomes + [entry]))
  {
    assert DistinctKeys(outcomes + [entry]);
  }

  /** Until 128 later outcomes are recorded, an outcome is found under its key. */
  lemma StaysInWindow(outcomes: seq<Recorded>, recorded: seq<Recorded>, i: nat)
    requires Windowed(outcomes, recorded) && |recorded| - WINDOW <= i < |recorded|
    ensures Find(outcomes, recorded[i].key) == Some(recorded[i])
  {
    var at := i - (|recorded| - |outcomes|);
    assert outcomes[at] == recorded[i];
    FirstIsFound(outcomes, at, recorded[i]);
  }

  lemma {:induction false} FirstIsFound(outcomes: seq<Recorded>, at: nat, entry: Recorded)
    requires at < |outcomes| && outcomes[at] == entry && forall i :: 0 <= i < at ==> outcomes[i].key != entry.key
    ensures Find(outcomes, entry.key) == Some(entry)
    decreases at
  {
    if at > 0 { FirstIsFound(outcomes[1..], at - 1, entry); }
  }

  /** No two effects share a revision, and no repeated request has a second effect, in the window or after it. */
  lemma EffectsAreOnce(effects: seq<Effect>, i: nat, j: nat)
    requires Numbered(effects) && i < |effects| && j < |effects|
    ensures effects[i].expected == effects[j].expected || effects[i].revision == effects[j].revision ==> i == j
  {
    assert effects[i].expected == i && effects[j].expected == j;
  }

  lemma NumberedMore(effects: seq<Effect>, e: Effect)
    requires Numbered(effects) && e.expected == |effects| && e.revision == |effects| + 1
    requires e.start || Last(effects, e.runtimeId, |effects|)
    ensures Numbered(effects + [e])
  {
  }

  /** The last effect is the start of this runtime with this revision. */
  ghost predicate Last(effects: seq<Effect>, id: RuntimeId, revision: nat) {
    effects != [] && effects[|effects| - 1].start && effects[|effects| - 1].runtimeId == id && revision == |effects|
  }

  class Runtime {
    var lifecycle: Option<Lifecycle>
    var file: StateFile
    var process: Process
    var launches: seq<Recorded>
    var stops: seq<Recorded>
    ghost var effects: seq<Effect>
    /** Every outcome recorded so far, kept or not. */
    ghost var launched: seq<Recorded>
    ghost var stopped: seq<Recorded>

    function Revision(): nat
      reads `lifecycle
    {
      if lifecycle.Some? then lifecycle.value.revision else 0
    }

    ghost predicate Valid()
      reads this
    {
      && Revision() == |effects| && Numbered(effects)
      && (file.Present? ==> lifecycle.Some? && Last(effects, file.runtimeId, file.revision))
      && (process.Own? ==> !file.Absent?)
      && Windowed(launches, launched) && Windowed(stops, stopped)
    }

    constructor ()
      ensures Valid() && effects == [] && Revision() == 0 && launched == [] && stopped == []
    {
      lifecycle, file, process, launches, stops := None, Absent, Gone, [], [];
      effects, launched, stopped := [], [], [];
    }

    /** The runtime ends by itself; its state file may stay behind. */
    method Die(cleansUp: bool)
      requires Valid()
      modifies `process, `file
      ensures Valid()
    {
      if process.Own? {
        process := Gone;
        if cleansUp { file := Absent; }
      }
    }

    /** The PID of a runtime that is gone is given to another process, or that process ends. */
    method ReusePid(taken: bool)
      requires Valid()
      modifies `process
      ensures Valid() && process.Own? == old(process).Own?
    {
      if !process.Own? { process := if taken then Other else Gone; }
    }

    /** Something else spoils the state file. */
    method Damage()
      requires Valid()
      modifies `file
      ensures Valid()
    {
      file := Damaged;
    }

    lemma FileIsCurrent()
      requires Valid()
      ensures file.Present? ==> file.revision == Revision()
    {
    }

    method RecordLaunch(key: string, expected: int, answer: Answer)
      requires Valid() && Find(launches, key).None?
      modifies `launches, `launched
      ensures Valid() && launched == old(launched) + [Recorded(key, expected, answer)]
    {
      WindowMoves(launches, launched, Recorded(key, expected, answer));
      launches := Latest(launches + [Recorded(key, expected, answer)]);
      launched := launched + [Recorded(key, expected, answer)];
    }

    method RecordStop(key: string, expected: int, answer: Answer)
      requires Valid() && Find(stops, key).None?
      modifies `stops, `stopped
      ensures Valid() && stopped == old(stopped) + [Recorded(key, expected, answer)]
    {
      WindowMoves(stops, stopped, Recorded(key, expected, answer));
      stops := Latest(stops + [Recorded(key, expected, answer)]);
      stopped := stopped + [Recorded(key, expected, answer)];
    }

    /**
     `launchRuntime`. `spawned` is the runtime that came up, if one did; `bound`,
     `compatible` and `ready` are what the checks of a live one say; `finishes` is
     whether the steps after the start succeed. A start happens exactly for a new key
     at the current revision with nothing running under the recorded PID, and never
     while the runtime started before it runs. Another process under that PID cannot
     answer the probe, so then the launch is refused.
     */
    method Launch(key: string, wanted: Option<int>, spawned: Option<RuntimeId>,
        bound: bool, compatible: bool, ready: bool, finishes: bool)
      returns (reply: Reply)
      requires Valid()
      modifies this
      ensures Valid() && stops == old(stops) && stopped == old(stopped) && old(effects) <= effects
      ensures var expected := wanted.GetOr(old(Revision()));
        var known := Find(old(launches), key);
        && (!ValidContract(key, expected) ==> reply == ContractInvalid)
        && (ValidContract(key, expected) && known.Some? ==>
              reply == if known.value.expected == expected then Replayed(known.value.answer) else KeyConflict)
        && (ValidContract(key, expected) && known.None? && expected != old(Revision()) ==>
              reply == Fresh(RevisionConflict(old(Revision()))))
        && (effects != old(effects) <==>
              && ValidContract(key, expected) && known.None? && expected == old(Revision()) && bound
              && (old(file).Absent? || (old(file).Present? && old(process).Gone?)) && spawned.Some?)
        && (effects != old(effects) ==>
              && effects == old(effects) + [Effect(true, key, expected, expected + 1, spawned.value)]
              && !old(process).Own? && process.Own?
              && file == Present(expected + 1, spawned.value)
              && lifecycle == Some(Lifecycle(expected + 1, true, spawned.value))
              && (finishes ==> reply == Fresh(Started(expected + 1, spawned.value))))
        && (ValidContract(key, expected) && known.None? && expected == old(Revision()) && bound && effects == old(effects) ==>
              && (old(file).Damaged? ==> reply == Fresh(Refused(StateInvalid)))
              && (old(file).Present? && !old(process).Gone? ==>
                    if !compatible then reply == Fresh(Refused(Incompatible))
                    else if !(ready && old(process).Own?) then reply == Fresh(Refused(NotReady))
                    else finishes ==> reply == Fresh(Reused(expected, old(file).runtimeId)))
              && (old(file).Absent? || (old(file).Present? && old(process).Gone?) ==> reply == Fresh(StartFailed)))
      ensures effects == old(effects) ==>
        && process == old(process) && file == (if reply == Fresh(StartFailed) then Absent else old(file))
        && (lifecycle == old(lifecycle) || (reply.Fresh? && reply.answer.Reused? && old(file).Present?
              && lifecycle == Some(Lifecycle(old(file).revision, true, old(file).runtimeId))))
      ensures Revision() == old(Revision()) + (|effects| - |old(effects)|)
      ensures launched == old(launched) +
        if reply.Fresh? then [Recorded(key, wanted.GetOr(old(Revision())), reply.answer)] else []
      ensures !reply.Fresh? ==> launches == old(launches)
    {
      hide Windowed, Numbered, Latest, Last, Find;
      FileIsCurrent();
      var actual := if file.Present? && !process.Gone? then file.revision else Revision();
      var expected := wanted.GetOr(actual);
      if !ValidContract(key, expected) { return ContractInvalid; }
      var known := Find(launches, key);
      if known.Some? {
        return if known.value.expected != expected then KeyConflict else Replayed(known.value.answer);
      }
      var answer;
      if expected != actual {
        answer := RevisionConflict(actual);
      } else if !bound {
        return Threw;
      } else if file.Damaged? {
        answer := Refused(StateInvalid);
      } else if file.Present? && !process.Gone? {
        if !compatible {
          answer := Refused(Incompatible);
        } else if !(ready && process.Own?) {
          answer := Refused(NotReady);
        } else if !finishes {
          return Threw;
        } else {
          lifecycle := Some(Lifecycle(file.revision, true, file.runtimeId));
          answer := Reused(file.revision, file.runtimeId);
        }
      } else {
        file := Absent;
        if spawned.None? {
          answer := StartFailed;
        } else {
          Start(key, expected, spawned.value);
          if !finishes { return Threw; }
          answer := Started(actual + 1, spawned.value);
        }
      }
      RecordLaunch(key, expected, answer);
      return Fresh(answer);
    }

    /** The runtime writes its state file with the revision it was given; then the lifecycle file follows. */
    method Start(key: string, expected: int, id: RuntimeId)
      requires Valid() && expected == Revision() && file.Absent?
      modifies `lifecycle, `file, `process, `effects
      ensures Valid() && effects == old(effects) + [Effect(true, key, expected, old(Revision()) + 1, id)]
      ensures process.Own? && file == Present(old(Revision()) + 1, id)
      ensures lifecycle == Some(Lifecycle(old(Revision()) + 1, true, id))
    {
      ghost var e := Effect(true, key, expected, Revision() + 1, id);
      NumberedMore(effects, e);
      file, process := Present(Revision() + 1, id), Own;
      lifecycle := Some(Lifecycle(Revision() + 1, true, id));
      effects := effects + [e];
    }

    /**
     `stopRuntime`. A stop happens exactly for a new key at the current revision with
     the runtime of the state file running and answering, and it ends that runtime;
     another process that got its PID is not ended, because it cannot answer.
     */
    method Stop(key: string, wanted: Option<int>, ready: bool, finishes: bool) returns (reply: Reply)
      requires Valid()
      modifies this
      ensures Valid() && launches == old(launches) && launched == old(launched) && old(effects) <= effects
      ensures var expected := wanted.GetOr(old(Revision()));
        var known := Find(old(stops), key);
        && (!ValidContract(key, expected) ==> reply == ContractInvalid)
        && (ValidContract(key, expected) && known.Some? ==>
              reply == if known.value.expected == expected then Replayed(known.value.answer) else KeyConflict)
        && (ValidContract(key, expected) && known.None? && expected != old(Revision()) ==>
              reply == Fresh(RevisionConflict(old(Revision()))))
        && (effects != old(effects) <==>
              && ValidContract(key, expected) && known.None? && expected == old(Revision())
              && old(file).Present? && old(process).Own? && ready)
        && (old(process).Other? ==> process == old(process))
        && (ValidContract(key, expected) && known.None? && expected == old(Revision()) && effects == old(effects) ==>
              reply == Fresh(
                if old(file).Damaged? then Refused(StateInvalid)
                else if !old(file).Present? || old(process).Gone? then NotRunning(expected)
                else Refused(NotReady)))
        && (effects != old(effects) ==>
              && effects == old(effects) + [Effect(false, key, expected, expected + 1, old(file).runtimeId)]
              && process == Gone && file == Absent
              && lifecycle == Some(Lifecycle(expected + 1, false, old(file).runtimeId))
              && (finishes ==> reply == Fresh(Stopped(expected + 1, old(file).runtimeId))))
      ensures effects == old(effects) ==>
        && process == old(process) && lifecycle == old(lifecycle)
        && file == if reply.Fresh? && reply.answer.NotRunning? then Absent else old(file)
      ensures Revision() == old(Revision()) + (|effects| - |old(effects)|)
      ensures stopped == old(stopped) +
        if reply.Fresh? then [Recorded(key, wanted.GetOr(old(Revision())), reply.answer)] else []
      ensures !reply.Fresh? ==> stops == old(stops)
    {
      hide Windowed, Numbered, Latest;
      var actual := if file.Present? then file.revision else Revision();
      var expected := wanted.GetOr(actual);
      if !ValidContract(key, expected) { return ContractInvalid; }
      var known := Find(stops, key);
      if known.Some? {
        return if known.value.expected != expected then KeyConflict else Replayed(known.value.answer);
      }
      var answer;
      if expected != actual {
        answer := RevisionConflict(actual);
      } else if file.Damaged? {
        answer := Refused(StateInvalid);
      } else if !file.Present? || process.Gone? {
        file := Absent;
        answer := NotRunning(actual);
      } else if !(ready && process.Own?) {
        answer := Refused(NotReady);
      } else {
        var id := file.runtimeId;
        End(key, expected);
        if !finishes { return Threw; }
        answer := Stopped(actual + 1, id);
      }
      RecordStop(key, expected, answer);
      return Fresh(answer);
    }

    method End(key: string, expected: int)
      requires Valid() && expected == Revision() && file.Present?
      modifies `lifecycle, `file, `process, `effects
      ensures Valid() && effects == old(effects) + [Effect(false, key, expected, old(Revision()) + 1, old(file).runtimeId)]
      ensures process == Gone && file == Absent
      ensures lifecycle == Some(Lifecycle(old(Revision()) + 1, false, old(file).runtimeId))
    {
      ghost var e := Effect(false, key, expected, Revision() + 1, file.runtimeId);
      NumberedMore(effects, e);
      lifecycle := Some(Lifecycle(Revision() + 1, false, file.runtimeId));
      file, process := Absent, Gone;
      effects := effects + [e];
    }
  }

  /**
   Any run of launches, stops, deaths, reused PIDs and damage: the revision counts the
   effects, each stop ends the runtime of the start just before it, and an outcome is
   found under its key, so a repeated request is replayed, until 128 later outcomes of
   its kind are recorded.
   */
  method Live(runtime: Runtime, steps: nat)
    requires runtime.Valid()
    modifies runtime
    ensures runtime.Valid() && old(runtime.effects) <= runtime.effects
    ensures old(runtime.Revision()) <= runtime.Revision() == |runtime.effects|
    ensures forall i, j :: 0 <= i < j < |runtime.effects| ==>
      runtime.effects[i].revision < runtime.effects[j].revision && runtime.effects[i].expected != runtime.effects[j].expected
    ensures forall i :: 0 <= i < |runtime.effects| && !runtime.effects[i].start ==>
      i > 0 && runtime.effects[i - 1].start && runtime.effects[i - 1].runtimeId == runtime.effects[i].runtimeId
    ensures old(runtime.launched) <= runtime.launched && old(runtime.stopped) <= runtime.stopped
    ensures forall i :: 0 <= i < |runtime.launched| && |runtime.launched| - 128 <= i ==>
      Find(runtime.launches, runtime.launched[i].key) == Some(runtime.launched[i])
    ensures forall i :: 0 <= i < |runtime.stopped| && |runtime.stopped| - 128 <= i ==>
      Find(runtime.stops, runtime.stopped[i].key) == Some(runtime.stopped[i])
  {
    var done := 0;
    while done < steps
      invariant runtime.Valid() && old(runtime.effects) <= runtime.effects
      invariant old(runtime.launched) <= runtime.launched && old(runtime.stopped) <= runtime.stopped
    {
      var choice: nat := *;
      var key: string := *;
      var wanted: Option<int>, spawned: Option<RuntimeId> := *, *;
      var a, b, c, d: bool := *, *, *, *;
      if choice == 0 {
        var reply := runtime.Launch(key, wanted, spawned, a, b, c, d);
      } else if choice == 1 {
        var reply := runtime.Stop(key, wanted, a, b);
      } else if choice == 2 {
        runtime.Die(a);
      } else if choice == 3 {
        runtime.ReusePid(a);
      } else {
        runtime.Damage();
      }
      done := done + 1;
    }
    forall i, j | 0 <= i < j < |runtime.effects| ensures runtime.effects[i].expected != runtime.effects[j].expected {
      EffectsAreOnce(runtime.effects, i, j);
    }
    forall i | 0 <= i < |runtime.launched| && |runtime.launched| - WINDOW <= i
      ensures Find(runtime.launches, runtime.launched[i].key) == Some(runtime.launched[i])
    {
      StaysInWindow(runtime.launches, runtime.launched, i);
    }
    forall i | 0 <= i < |runtime.stopped| && |runtime.stopped| - WINDOW <= i
      ensures Find(runtime.stops, runtime.stopped[i].key) == Some(runtime.stopped[i])
    {
      StaysInWindow(runtime.stops, runtime.stopped, i);
    }
  }
}
