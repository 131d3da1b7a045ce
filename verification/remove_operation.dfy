/**
 The removal of one entry (a file or a folder) from an end-to-end-encrypted
 parent folder: lock the parent, fetch its metadata, DELETE the entry with the
 lock token attached, compute the result, drop the entry from the metadata,
 upload the metadata; then, whatever happened, release the DELETE's
 connection if the request was built and unlock the parent if a token was
 obtained.

 The Java method is a `try`/`catch`/`finally`; here `TryBlock` is the `try`
 together with its `catch` (any exception ends the block and becomes the
 result), `Finally` is the cleanup, and `Run` is the two in sequence.
 */
module RemoveOperation {
  import opened Collaborators
  import opened Traces

  /**
   The state at the end of the `try`/`catch`: the value of `result`, the
   calls made so far, the errors logged, the value of `token` (null until the
   lock returns) and whether `delete` was assigned.
   */
  datatype TryExit = TryExit(result: OpResult, calls: seq<Call>, log: seq<LogEntry>, token: Option<string>, deleteCreated: bool)

  /** The token the lock call handed back, or null when it threw or returned null. */
  function TokenOf(env: Environment): Option<string> {
    if env.lockFolder.Ok? then env.lockFolder.value else None
  }

  /** The DELETE request, once built: the entry's path with the token as its only query parameter. */
  function DeleteRequestFor(op: Removal, token: Option<string>): (r: DeleteRequest)
    ensures r.path == op.remotePath
    ensures |r.query| == 1 && r.query[0].name == E2eToken && r.query[0].value == token
  {
    DeleteRequest(op.remotePath, [QueryParam(E2eToken, token)])
  }

  /** The metadata edit: the folder variant exactly when the entry is a folder, always by its name. */
  function EditCall(op: Removal, metadata: Metadata): (c: Call)
    ensures c.Kind() == RemoveFolderKind <==> op.isFolder
    ensures c.Kind() == RemoveFileKind <==> !op.isFolder
    ensures c.name == op.fileName && c.metadata == metadata
  {
    if op.isFolder then RemoveFolderFromMetadata(op.fileName, metadata)
    else RemoveFileFromMetadata(op.fileName, metadata)
  }

  /**
   The result the DELETE yields: a success exactly when the method reports
   success or the entry was not found, carrying the status either way.
   */
  function DeletionResult(response: Response): (r: OpResult)
    ensures r.Completed? && r.status == response.status
    ensures r.IsSuccess() <==> response.succeeded || response.status == NotFound
  {
    Completed(response.succeeded || response.status == NotFound, response.status)
  }

  /** The `catch` clause: the exception becomes the result and is logged. */
  function Catch(op: Removal, calls: seq<Call>, log: seq<LogEntry>, e: Exception, token: Option<string>, deleteCreated: bool): (x: TryExit)
    ensures x.result == Failed(e) && x.calls == calls && x.log == log + [RemoveError(op.remotePath, e)]
  {
    TryExit(Failed(e), calls, log + [RemoveError(op.remotePath, e)], token, deleteCreated)
  }

  /**
   How many of the `try` block's six collaborator calls (lock, fetch, build
   the DELETE, execute it, edit, upload) returned before the first one threw.
   */
  function Returned(env: Environment): (n: nat)
    ensures n <= 6
  {
    if env.lockFolder.Throw? then 0
    else if env.retrieveMetadata.Throw? then 1
    else if env.newDelete.Throw? then 2
    else if env.executeDelete.Throw? then 3
    else if env.removeFromMetadata.Throw? then 4
    else if env.uploadMetadata.Throw? then 5
    else 6
  }

  /** The exception of the first collaborator call in the `try` block that throws. */
  function Thrown(env: Environment): Exception
    requires Returned(env) < 6
  {
    if env.lockFolder.Throw? then env.lockFolder.error
    else if env.retrieveMetadata.Throw? then env.retrieveMetadata.error
    else if env.newDelete.Throw? then env.newDelete.error
    else if env.executeDelete.Throw? then env.executeDelete.error
    else if env.removeFromMetadata.Throw? then env.removeFromMetadata.error
    else env.uploadMetadata.error
  }

  /** The `try` block together with its `catch`. */
  function TryBlock(op: Removal, env: Environment): (x: TryExit)
    // the token is the lock's return value, and the DELETE exists once built
    ensures x.token == TokenOf(env)
    ensures x.deleteCreated <==> Returned(env) >= 3
    // a result other than an exception is the DELETE's verdict, reached only when nothing threw
    ensures x.result.Completed? <==> Returned(env) == 6
    ensures x.result.Completed? ==> x.result == DeletionResult(env.executeDelete.value) && x.log == []
    // otherwise the result is the exception of the first call that threw, logged once
    ensures x.result.Failed? ==> x.result.cause == Thrown(env) && x.log == [RemoveError(op.remotePath, Thrown(env))]
  {
    var p := op.parentFolder;
    match env.lockFolder
    case Throw(e) => Catch(op, [LockFolder(p)], [], e, None, false)
    case Ok(token) =>
      var lock, fetch := LockFolder(p), RetrieveMetadata(p);
      match env.retrieveMetadata
      case Throw(e) => Catch(op, [lock, fetch], [], e, token, false)
      case Ok(fetched) =>
        var build := NewDelete(op.remotePath);
        match env.newDelete
        case Throw(e) => Catch(op, [lock, fetch, build], [], e, token, false)
        case Ok(_) =>
          var execute := ExecuteDelete(DeleteRequestFor(op, token));
          match env.executeDelete
          case Throw(e) => Catch(op, [lock, fetch, build, execute], [], e, token, true)
          case Ok(response) =>
            var result := DeletionResult(response);
            var edit := EditCall(op, fetched.metadata);
            match env.removeFromMetadata
            case Throw(e) => Catch(op, [lock, fetch, build, execute, edit], [], e, token, true)
            case Ok(edited) =>
              var upload := UploadMetadata(p, edited, token, fetched.metadataExists);
              match env.uploadMetadata
              case Throw(e) => Catch(op, [lock, fetch, build, execute, edit, upload], [], e, token, true)
              case Ok(_) => TryExit(result, [lock, fetch, build, execute, edit, upload], [], token, true)
  }

  /**
   The calls of the `try` block go as far as the first one that throws, and
   the k-th of them is the k-th step of the protocol, the edit being the
   variant `isFolder` selects.
   */
  lemma TryBlockShape(op: Removal, env: Environment)
    ensures var x := TryBlock(op, env);
      && |x.calls| == (if Returned(env) == 6 then 6 else Returned(env) + 1)
      && Stepwise(x.calls)
      && (Rank(RemoveFileKind) < |x.calls| ==> (x.calls[Rank(RemoveFileKind)].Kind() == RemoveFolderKind <==> op.isFolder))
  {
    TryBlockLength(op, env);
    TryBlockStepwise(op, env);
  }

  /** The k-th call of the `try` block is the k-th step of the protocol. */
  lemma TryBlockStepwise(op: Removal, env: Environment)
    ensures Stepwise(TryBlock(op, env).calls)
  {
  }

  /** The `try` block makes one call per collaborator that returned, plus the one that threw, if any. */
  lemma TryBlockLength(op: Removal, env: Environment)
    ensures |TryBlock(op, env).calls| == (if Returned(env) == 6 then 6 else Returned(env) + 1)
  {
  }

  /** Once the fetch has returned, the DELETE is built for the entry's path. */
  lemma TryBlockBuildArguments(op: Removal, env: Environment)
    requires Returned(env) >= 2
    ensures var x := TryBlock(op, env);
      Rank(NewDeleteKind) < |x.calls| && x.calls[Rank(NewDeleteKind)] == NewDelete(op.remotePath)
  {
  }

  /** Once built, the DELETE is executed carrying the lock's token. */
  lemma TryBlockExecuteArguments(op: Removal, env: Environment)
    requires Returned(env) >= 3
    ensures var x := TryBlock(op, env);
      Rank(ExecuteKind) < |x.calls| && x.calls[Rank(ExecuteKind)] == ExecuteDelete(DeleteRequestFor(op, env.lockFolder.value))
  {
  }

  /** Once the DELETE has run, the edit receives the entry's name and the fetched document. */
  lemma TryBlockEditArguments(op: Removal, env: Environment)
    requires Returned(env) >= 4
    ensures var x := TryBlock(op, env);
      && Rank(RemoveFileKind) < |x.calls|
      && x.calls[Rank(RemoveFileKind)] == EditCall(op, env.retrieveMetadata.value.metadata)
  {
  }

  /** Once the edit has returned, the upload receives the edited document, the lock's token and the fetched existence flag. */
  lemma TryBlockUploadArguments(op: Removal, env: Environment)
    requires Returned(env) >= 5
    ensures var x := TryBlock(op, env);
      && Rank(UploadKind) < |x.calls|
      && x.calls[Rank(UploadKind)] ==
           UploadMetadata(op.parentFolder, env.removeFromMetadata.value, env.lockFolder.value,
                          env.retrieveMetadata.value.metadataExists)
  {
  }

  /**
   The calls the `finally` clause makes: release the connection if the DELETE
   was built, then unlock with the token if there is one.
   */
  function Cleanup(op: Removal, x: TryExit): (t: seq<Call>)
    ensures Count(t, ReleaseKind) == (if x.deleteCreated then 1 else 0)
    ensures Count(t, UnlockKind) == (if x.token.Some? then 1 else 0)
    ensures x.token.Some? ==> 0 < |t| && t[|t| - 1] == UnlockFolder(op.parentFolder, x.token.value)
  {
    var released := if x.deleteCreated then [ReleaseConnection] else [];
    var unlocked :=
      if x.token.Some? then
        var u := UnlockFolder(op.parentFolder, x.token.value);
        CountSingle(u, ReleaseKind);
        CountSingle(u, UnlockKind);
        [u]
      else [];
    CountSingle(ReleaseConnection, ReleaseKind);
    CountSingle(ReleaseConnection, UnlockKind);
    CountAppend(released, unlocked, ReleaseKind);
    CountAppend(released, unlocked, UnlockKind);
    released + unlocked
  }

  /**
   The `finally` clause: the cleanup calls follow the `try`'s calls, and a
   failed unlock adds one log line but leaves the result alone.
   */
  function Finally(op: Removal, env: Environment, x: TryExit): (r: Execution)
    ensures r.result == x.result
    ensures |x.calls| <= |r.calls| && r.calls[..|x.calls|] == x.calls
    ensures |r.log| == |x.log| + (if x.token.Some? && !env.unlockSucceeded then 1 else 0)
    ensures r.log[..|x.log|] == x.log
  {
    var logged := if x.token.Some? && !env.unlockSucceeded then [UnlockFailed(op.parentFolder.localId)] else [];
    Execution(x.result, x.calls + Cleanup(op, x), x.log + logged)
  }

  /** The whole operation: the `try`/`catch`, then the `finally`. */
  function Run(op: Removal, env: Environment): Execution {
    Finally(op, env, TryBlock(op, env))
  }

  /** The cleanup keeps the protocol order, and every call it makes comes after the `try` block's. */
  lemma CleanupOrdered(op: Removal, x: TryExit)
    ensures var t := Cleanup(op, x);
      Ordered(t) && forall i :: 0 <= i < |t| ==> Rank(ReleaseKind) <= Rank(t[i].Kind())
  {
  }

  /** A run makes its calls in the protocol order, each kind at most once. */
  lemma RunOrdered(op: Removal, env: Environment)
    ensures Ordered(Run(op, env).calls)
  {
    var x := TryBlock(op, env);
    TryBlockShape(op, env);
    CleanupOrdered(op, x);
    OrderedConcat(x.calls, Cleanup(op, x), Rank(ReleaseKind));
  }

  /** The cleanup makes none of the calls of the `try` block. */
  lemma CleanupMakesNoTryCall(op: Removal, x: TryExit, k: Kind)
    requires Rank(k) < Rank(ReleaseKind)
    ensures Count(Cleanup(op, x), k) == 0
  {
    assert !Occurs(Cleanup(op, x), k);
  }

  /** The calls of a run are those of the `try` block followed by those of the cleanup. */
  lemma RunIsTryThenCleanup(op: Removal, env: Environment)
    ensures Run(op, env).calls == TryBlock(op, env).calls + Cleanup(op, TryBlock(op, env))
  {
  }
}
