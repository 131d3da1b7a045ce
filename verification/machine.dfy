/**
 The removal as a small-step state machine: one state per step of the
 protocol, an exception moving straight to the cleanup states, the cleanup
 states run on every path. It states the control flow of
 `RemoveOperation.Run` independently, one collaborator call at a time; the builders of
 the calls' arguments and of the DELETE's result (`DeleteRequestFor`,
 `EditCall`, `DeletionResult`) are shared with it. `MachineAgreesWithRun`
 proves the two equal on every combination of collaborator outcomes.
 */
module RemovalMachine {
  import opened Collaborators
  import opened RemoveOperation

  /** The call the operation is about to make, or `Exited` once it has returned. */
  datatype Pc = AtLock | AtFetch | AtBuildDelete | AtExecute | AtEdit | AtUpload | AtRelease | AtUnlock | Exited

  /** How many steps remain at most before the operation returns. */
  function Remaining(pc: Pc): nat {
    match pc
    case AtLock => 8
    case AtFetch => 7
    case AtBuildDelete => 6
    case AtExecute => 5
    case AtEdit => 4
    case AtUpload => 3
    case AtRelease => 2
    case AtUnlock => 1
    case Exited => 0
  }

  /**
   The method's local variables (`token`, whether `delete` is set, the fetched
   pair, the edited document, `result`) together with the calls made and the
   errors logged so far.
   */
  datatype State = State(
    pc: Pc, token: Option<string>, deleteCreated: bool, fetched: Fetched, edited: Metadata,
    result: OpResult, calls: seq<Call>, log: seq<LogEntry>)

  /** The state on entry: nothing called yet, `token` and `delete` null. */
  function Initial(): State {
    State(AtLock, None, false, Fetched(false, Metadata("")), Metadata(""), Failed(Exception("")), [], [])
  }

  /** An exception in the `try` block: it becomes the result, is logged, and control goes to the cleanup. */
  function Throwing(op: Removal, s: State, e: Exception): State {
    s.(pc := AtRelease, result := Failed(e), log := s.log + [RemoveError(op.remotePath, e)])
  }

  /** One step: make the call the state is at, and move on according to its outcome. */
  function Step(op: Removal, env: Environment, s: State): (s': State)
    requires s.pc != Exited
    ensures Remaining(s'.pc) < Remaining(s.pc)
    ensures |s.calls| <= |s'.calls| <= |s.calls| + 1 && s'.calls[..|s.calls|] == s.calls
    ensures s.pc !in {AtRelease, AtUnlock} ==> |s'.calls| == |s.calls| + 1
  {
    var p := op.parentFolder;
    match s.pc
    case AtLock =>
      var s1 := s.(calls := s.calls + [LockFolder(p)]);
      (match env.lockFolder
       case Throw(e) => Throwing(op, s1, e)
       case Ok(token) => s1.(pc := AtFetch, token := token))
    case AtFetch =>
      var s1 := s.(calls := s.calls + [RetrieveMetadata(p)]);
      (match env.retrieveMetadata
       case Throw(e) => Throwing(op, s1, e)
       case Ok(fetched) => s1.(pc := AtBuildDelete, fetched := fetched))
    case AtBuildDelete =>
      var s1 := s.(calls := s.calls + [NewDelete(op.remotePath)]);
      (match env.newDelete
       case Throw(e) => Throwing(op, s1, e)
       case Ok(_) => s1.(pc := AtExecute, deleteCreated := true))
    case AtExecute =>
      var s1 := s.(calls := s.calls + [ExecuteDelete(DeleteRequestFor(op, s.token))]);
      (match env.executeDelete
       case Throw(e) => Throwing(op, s1, e)
       case Ok(response) => s1.(pc := AtEdit, result := DeletionResult(response)))
    case AtEdit =>
      var s1 := s.(calls := s.calls + [EditCall(op, s.fetched.metadata)]);
      (match env.removeFromMetadata
       case Throw(e) => Throwing(op, s1, e)
       case Ok(edited) => s1.(pc := AtUpload, edited := edited))
    case AtUpload =>
      var s1 := s.(calls := s.calls + [UploadMetadata(p, s.edited, s.token, s.fetched.metadataExists)]);
      (match env.uploadMetadata
       case Throw(e) => Throwing(op, s1, e)
       case Ok(_) => s1.(pc := AtRelease))
    case AtRelease =>
      s.(pc := AtUnlock, calls := s.calls + if s.deleteCreated then [ReleaseConnection] else [])
    case AtUnlock =>
      if s.token.Some? then
        s.(pc := Exited, calls := s.calls + [UnlockFolder(p, s.token.value)],
           log := s.log + if env.unlockSucceeded then [] else [UnlockFailed(p.localId)])
      else s.(pc := Exited)
  }

  /** Run the machine until the operation returns. */
  function Drive(op: Removal, env: Environment, s: State): (s': State)
    ensures s'.pc == Exited
    ensures |s.calls| <= |s'.calls| && s'.calls[..|s.calls|] == s.calls
    decreases Remaining(s.pc)
  {
    if s.pc == Exited then s else Drive(op, env, Step(op, env, s))
  }

  /** Run the machine until it reaches the cleanup. */
  function Settle(op: Removal, env: Environment, s: State): (s': State)
    ensures Remaining(s'.pc) <= Remaining(AtRelease)
    decreases Remaining(s.pc)
  {
    if Remaining(s.pc) <= Remaining(AtRelease) then s else Settle(op, env, Step(op, env, s))
  }

  /** Settling first does not change where the machine ends up. */
  lemma {:induction false} DriveThroughSettle(op: Removal, env: Environment, s: State)
    ensures Drive(op, env, Settle(op, env, s)) == Drive(op, env, s)
    decreases Remaining(s.pc)
  {
    if Remaining(AtRelease) < Remaining(s.pc) {
      DriveThroughSettle(op, env, Step(op, env, s));
    }
  }

  /** The state at the cleanup, read as the end of the `try`/`catch`. */
  function AsTryExit(s: State): TryExit {
    TryExit(s.result, s.calls, s.log, s.token, s.deleteCreated)
  }

  /**
   From the initial state the machine reaches the cleanup exactly where the
   `try`/`catch` ends, when the lock, the fetch or the DELETE's construction throws.
   */
  lemma SettleAgreesEarly(op: Removal, env: Environment)
    requires Returned(env) <= 2
    ensures Settle(op, env, Initial()).pc == AtRelease
    ensures AsTryExit(Settle(op, env, Initial())) == TryBlock(op, env)
  {
    var s0 := Initial();
    var s1 := Step(op, env, s0);
    if env.lockFolder.Ok? {
      var s2 := Step(op, env, s1);
      if env.retrieveMetadata.Ok? {
        var s3 := Step(op, env, s2);
        assert Settle(op, env, s2) == s3;
      }
      assert Settle(op, env, s1) == Settle(op, env, s2);
    }
    assert Settle(op, env, s0) == Settle(op, env, s1);
  }

  /** Once the DELETE is built, the machine stands ready to execute it, holding the token and the fetched pair. */
  lemma BuiltDelete(op: Removal, env: Environment)
    requires Returned(env) >= 3
    ensures var s := Step(op, env, Step(op, env, Step(op, env, Initial())));
      && Settle(op, env, Initial()) == Settle(op, env, s)
      && s == State(AtExecute, TokenOf(env), true, env.retrieveMetadata.value, Metadata(""), Failed(Exception("")),
                    [LockFolder(op.parentFolder), RetrieveMetadata(op.parentFolder), NewDelete(op.remotePath)], [])
  {
    var s0 := Initial();
    var s1 := Step(op, env, s0);
    var s2 := Step(op, env, s1);
    assert Settle(op, env, s0) == Settle(op, env, s1);
    assert Settle(op, env, s1) == Settle(op, env, s2);
  }

  /** When executing the DELETE or editing the metadata throws, the machine reaches the cleanup where the `try`/`catch` ends. */
  lemma SettleAgreesMiddle(op: Removal, env: Environment)
    requires Returned(env) == 3 || Returned(env) == 4
    ensures Settle(op, env, Initial()).pc == AtRelease
    ensures AsTryExit(Settle(op, env, Initial())) == TryBlock(op, env)
  {
    BuiltDelete(op, env);
    var s3 := Step(op, env, Step(op, env, Step(op, env, Initial())));
    var s4 := Step(op, env, s3);
    if env.executeDelete.Ok? {
      var s5 := Step(op, env, s4);
      assert Settle(op, env, s4) == s5;
    }
    assert Settle(op, env, s3) == Settle(op, env, s4);
  }

  /** When the upload throws, the machine reaches the cleanup where the `try`/`catch` ends. */
  lemma SettleAgreesUploadFailure(op: Removal, env: Environment)
    requires Returned(env) == 5
    ensures Settle(op, env, Initial()).pc == AtRelease
    ensures AsTryExit(Settle(op, env, Initial())) == TryBlock(op, env)
  {
    BuiltDelete(op, env);
    var s3 := Step(op, env, Step(op, env, Step(op, env, Initial())));
    var s4 := Step(op, env, s3);
    var s5 := Step(op, env, s4);
    var s6 := Step(op, env, s5);
    assert Settle(op, env, s5) == s6;
    assert Settle(op, env, s4) == Settle(op, env, s5);
    assert Settle(op, env, s3) == Settle(op, env, s4);
  }

  /** When nothing throws, the machine reaches the cleanup where the `try` block ends. */
  lemma SettleAgreesNoFailure(op: Removal, env: Environment)
    requires Returned(env) == 6
    ensures Settle(op, env, Initial()).pc == AtRelease
    ensures AsTryExit(Settle(op, env, Initial())) == TryBlock(op, env)
  {
    BuiltDelete(op, env);
    var s3 := Step(op, env, Step(op, env, Step(op, env, Initial())));
    var s4 := Step(op, env, s3);
    var s5 := Step(op, env, s4);
    var s6 := Step(op, env, s5);
    assert Settle(op, env, s5) == s6;
    assert Settle(op, env, s4) == Settle(op, env, s5);
    assert Settle(op, env, s3) == Settle(op, env, s4);
  }

  /** From the cleanup, the machine does what the `finally` clause does. */
  lemma CleanupAgreesWithFinally(op: Removal, env: Environment, s: State)
    requires s.pc == AtRelease
    ensures var d := Drive(op, env, s);
      Execution(d.result, d.calls, d.log) == Finally(op, env, AsTryExit(s))
  {
    var s1 := Step(op, env, s);
    var s2 := Step(op, env, s1);
    assert Drive(op, env, s1) == s2;
  }

  /** The state machine and the `try`/`catch`/`finally` reading of the method agree on every input. */
  lemma MachineAgreesWithRun(op: Removal, env: Environment)
    ensures var d := Drive(op, env, Initial());
      Execution(d.result, d.calls, d.log) == Run(op, env)
  {
    if Returned(env) <= 2 {
      SettleAgreesEarly(op, env);
    } else if Returned(env) <= 4 {
      SettleAgreesMiddle(op, env);
    } else if Returned(env) == 5 {
      SettleAgreesUploadFailure(op, env);
    } else {
      SettleAgreesNoFailure(op, env);
    }
    DriveThroughSettle(op, env, Initial());
    CleanupAgreesWithFinally(op, env, Settle(op, env, Initial()));
  }

  /** The operation run one collaborator call at a time, in a loop over the machine's steps. */
  method Execute(op: Removal, env: Environment) returns (result: OpResult, calls: seq<Call>, log: seq<LogEntry>)
    ensures Execution(result, calls, log) == Run(op, env)
  {
    var s := Initial();
    while s.pc != Exited
      invariant Drive(op, env, s) == Drive(op, env, Initial())
      decreases Remaining(s.pc)
    {
      s := Step(op, env, s);
    }
    MachineAgreesWithRun(op, env);
    result, calls, log := s.result, s.calls, s.log;
  }
}
