/**
 What the removal promises on every combination of collaborator outcomes:
 which calls it makes and how often, what it passes from one call to the
 next, what the cleanup guarantees, and how the returned result is chosen.
 */
module RemovalProperties {
  import opened Collaborators
  import opened Traces
  import opened RemoveOperation

  /**
   Whether the operation makes a call of kind `k`, read off the collaborator
   outcomes alone: each step of the `try` block is reached when every earlier
   step returned, the edit variant follows `isFolder`, the connection is
   released when the DELETE was built, and the folder is unlocked when the
   lock handed back a token.
   */
  predicate Makes(op: Removal, env: Environment, k: Kind) {
    match k
    case LockKind => true
    case FetchKind => Returned(env) >= 1
    case NewDeleteKind => Returned(env) >= 2
    case ExecuteKind => Returned(env) >= 3
    case RemoveFolderKind => Returned(env) >= 4 && op.isFolder
    case RemoveFileKind => Returned(env) >= 4 && !op.isFolder
    case UploadKind => Returned(env) >= 5
    case ReleaseKind => Returned(env) >= 3
    case UnlockKind => TokenOf(env).Some?
  }

  /** The `try` block makes each of its own kinds of call once when `Makes` says so, and no cleanup call. */
  lemma TryCallsMadeOnce(op: Removal, env: Environment, k: Kind)
    ensures Count(TryBlock(op, env).calls, k) == if Makes(op, env, k) && Rank(k) < Rank(ReleaseKind) then 1 else 0
  {
    var x := TryBlock(op, env);
    TryBlockShape(op, env);
    StepwiseCount(x.calls, k);
    if Rank(k) < |x.calls| {
      var c := x.calls[Rank(k)];
      assert Rank(c.Kind()) == Rank(k);
      match k
      case LockKind | FetchKind | NewDeleteKind | ExecuteKind | UploadKind => assert c.Kind() == k;
      case _ =>
    }
  }

  /** The calls of the `finally` clause's output, counted by kind, are the `try` block's plus the cleanup's. */
  lemma FinallyCount(op: Removal, env: Environment, x: TryExit, k: Kind)
    ensures Count(Finally(op, env, x).calls, k) == Count(x.calls, k) + Count(Cleanup(op, x), k)
  {
    CountAppend(x.calls, Cleanup(op, x), k);
  }

  /** Each call of the `try` block is made exactly once when `Makes` says so, and never otherwise. */
  lemma TryKindsMadeOnce(op: Removal, env: Environment, k: Kind)
    requires Rank(k) < Rank(ReleaseKind)
    ensures Count(Run(op, env).calls, k) == if Makes(op, env, k) then 1 else 0
  {
    var x := TryBlock(op, env);
    FinallyCount(op, env, x, k);
    TryCallsMadeOnce(op, env, k);
    CleanupMakesNoTryCall(op, x, k);
  }

  /** The connection is released exactly once when the DELETE was built, and never otherwise. */
  lemma ReleaseMadeOnce(op: Removal, env: Environment)
    ensures Count(Run(op, env).calls, ReleaseKind) == if Makes(op, env, ReleaseKind) then 1 else 0
  {
    var x := TryBlock(op, env);
    FinallyCount(op, env, x, ReleaseKind);
    TryCallsMadeOnce(op, env, ReleaseKind);
  }

  /** The folder is unlocked exactly once when the lock handed back a token, and never otherwise. */
  lemma UnlockMadeOnce(op: Removal, env: Environment)
    ensures Count(Run(op, env).calls, UnlockKind) == if Makes(op, env, UnlockKind) then 1 else 0
  {
    var x := TryBlock(op, env);
    FinallyCount(op, env, x, UnlockKind);
    TryCallsMadeOnce(op, env, UnlockKind);
    assert Count(Cleanup(op, x), UnlockKind) == if TokenOf(env).Some? then 1 else 0;
  }

  /** Every kind of call is made exactly once when `Makes` says so, and never otherwise. */
  lemma CallsMadeOnce(op: Removal, env: Environment, k: Kind)
    ensures Count(Run(op, env).calls, k) == if Makes(op, env, k) then 1 else 0
  {
    match k
    case ReleaseKind => ReleaseMadeOnce(op, env);
    case UnlockKind => UnlockMadeOnce(op, env);
    case _ => TryKindsMadeOnce(op, env, k);
  }

  /** If the lock throws, nothing else is called and the result is that exception. */
  lemma LockFailureStopsEverything(op: Removal, env: Environment)
    requires env.lockFolder.Throw?
    ensures Run(op, env).calls == [LockFolder(op.parentFolder)]
    ensures Run(op, env).result == Failed(env.lockFolder.error)
    ensures Run(op, env).log == [RemoveError(op.remotePath, env.lockFolder.error)]
  {
  }

  /**
   When the lock hands back a token, the folder is unlocked exactly once, with
   that token, as the very last call and after the connection is released;
   without a token it is never unlocked.
   */
  lemma UnlockExactlyOnce(op: Removal, env: Environment)
    ensures var r := Run(op, env);
      && Count(r.calls, UnlockKind) == (if TokenOf(env).Some? then 1 else 0)
      && (TokenOf(env).Some? ==> r.calls[|r.calls| - 1] == UnlockFolder(op.parentFolder, TokenOf(env).value))
      && forall i, j ::
           (0 <= i < |r.calls| && 0 <= j < |r.calls| &&
            r.calls[i].Kind() == ReleaseKind && r.calls[j].Kind() == UnlockKind) ==> i < j
  {
    CallsMadeOnce(op, env, UnlockKind);
    RunOrdered(op, env);
    var r := Run(op, env);
    forall i, j | 0 <= i < |r.calls| && 0 <= j < |r.calls| &&
        r.calls[i].Kind() == ReleaseKind && r.calls[j].Kind() == UnlockKind
      ensures i < j
    {
      OrderedPrecedes(r.calls, ReleaseKind, UnlockKind, i, j);
    }
  }

  /** The `try` block never looks at the unlock's outcome. */
  lemma TryBlockIgnoresUnlock(op: Removal, env: Environment, unlocked: bool)
    ensures TryBlock(op, env.(unlockSucceeded := unlocked)) == TryBlock(op, env)
  {
    var env' := env.(unlockSucceeded := unlocked);
    assert env' == Environment(env.lockFolder, env.retrieveMetadata, env.newDelete, env.executeDelete,
                               env.removeFromMetadata, env.uploadMetadata, unlocked);
  }

  /**
   The unlock's success flag only decides whether a failure line is logged:
   the result and the calls do not depend on it.
   */
  lemma UnlockOutcomeOnlyLogged(op: Removal, env: Environment, unlocked: bool)
    ensures Run(op, env.(unlockSucceeded := unlocked)).result == Run(op, env).result
    ensures Run(op, env.(unlockSucceeded := unlocked)).calls == Run(op, env).calls
    ensures UnlockFailed(op.parentFolder.localId) in Run(op, env).log <==> TokenOf(env).Some? && !env.unlockSucceeded
  {
    TryBlockIgnoresUnlock(op, env, unlocked);
    var x := TryBlock(op, env);
    assert forall e :: e in x.log ==> e.RemoveError?;
  }

  /**
   If the metadata fetch throws, no DELETE is built or executed, no connection
   is released, the result is that exception, and the lock is still undone.
   */
  lemma FetchFailureSkipsDelete(op: Removal, env: Environment)
    requires env.lockFolder.Ok? && env.retrieveMetadata.Throw?
    ensures var r := Run(op, env);
      && Count(r.calls, NewDeleteKind) == 0 && Count(r.calls, ExecuteKind) == 0
      && Count(r.calls, ReleaseKind) == 0
      && Count(r.calls, UnlockKind) == (if env.lockFolder.value.Some? then 1 else 0)
      && r.result == Failed(env.retrieveMetadata.error)
  {
    CallsMadeOnce(op, env, NewDeleteKind);
    CallsMadeOnce(op, env, ExecuteKind);
    CallsMadeOnce(op, env, ReleaseKind);
    CallsMadeOnce(op, env, UnlockKind);
  }

  /**
   The connection is released exactly when the DELETE was built, whether or
   not executing it, or anything after it, throws.
   */
  lemma ReleaseIffDeleteBuilt(op: Removal, env: Environment)
    ensures Count(Run(op, env).calls, ReleaseKind) ==
      if env.lockFolder.Ok? && env.retrieveMetadata.Ok? && env.newDelete.Ok? then 1 else 0
  {
    CallsMadeOnce(op, env, ReleaseKind);
  }

  /** Once the metadata is fetched, the DELETE is built for the entry's path, as the third call. */
  lemma DeleteTargetsEntry(op: Removal, env: Environment)
    requires Returned(env) >= 2
    ensures Rank(NewDeleteKind) < |Run(op, env).calls|
    ensures Run(op, env).calls[Rank(NewDeleteKind)] == NewDelete(op.remotePath)
  {
    TryBlockBuildArguments(op, env);
    RunIsTryThenCleanup(op, env);
  }

  /**
   Once built, the DELETE is executed for the entry's path with the lock's
   token as its only query parameter, named `e2e-token`.
   */
  lemma DeleteCarriesToken(op: Removal, env: Environment)
    requires Returned(env) >= 3
    ensures Rank(ExecuteKind) < |Run(op, env).calls|
    ensures Run(op, env).calls[Rank(ExecuteKind)] ==
      ExecuteDelete(DeleteRequest(op.remotePath, [QueryParam(E2eToken, env.lockFolder.value)]))
  {
    TryBlockExecuteArguments(op, env);
    RunIsTryThenCleanup(op, env);
  }

  /**
   When nothing throws, the result is a success exactly when the DELETE
   succeeded or found nothing, and the edit and the upload run either way.
   */
  lemma NotFoundCountsAsSuccess(op: Removal, env: Environment)
    requires Returned(env) == 6
    ensures var r := Run(op, env);
      && r.result.Completed? && r.result.status == env.executeDelete.value.status
      && (r.result.IsSuccess() <==> env.executeDelete.value.succeeded || env.executeDelete.value.status == NotFound)
      && Count(r.calls, RemoveFolderKind) + Count(r.calls, RemoveFileKind) == 1
      && Count(r.calls, UploadKind) == 1
  {
    CallsMadeOnce(op, env, RemoveFolderKind);
    CallsMadeOnce(op, env, RemoveFileKind);
    CallsMadeOnce(op, env, UploadKind);
  }

  /**
   Once executing the DELETE has returned, exactly one metadata edit is
   made: the folder variant when the entry is a folder, the file variant
   otherwise.
   */
  lemma EditVariantFollowsIsFolder(op: Removal, env: Environment)
    ensures Count(Run(op, env).calls, RemoveFolderKind) == (if Returned(env) >= 4 && op.isFolder then 1 else 0)
    ensures Count(Run(op, env).calls, RemoveFileKind) == (if Returned(env) >= 4 && !op.isFolder then 1 else 0)
  {
    CallsMadeOnce(op, env, RemoveFolderKind);
    CallsMadeOnce(op, env, RemoveFileKind);
  }

  /** The edit receives the entry's name and the document the fetch returned. */
  lemma EditThreadsValues(op: Removal, env: Environment)
    requires Returned(env) >= 4
    ensures Rank(RemoveFileKind) < |Run(op, env).calls|
    ensures Run(op, env).calls[Rank(RemoveFileKind)] == EditCall(op, env.retrieveMetadata.value.metadata)
  {
    TryBlockEditArguments(op, env);
    RunIsTryThenCleanup(op, env);
  }

  /**
   The upload receives the edited document, the lock's token and the
   existence flag the fetch reported, all unchanged.
   */
  lemma UploadThreadsValues(op: Removal, env: Environment)
    requires Returned(env) >= 5
    ensures Rank(UploadKind) < |Run(op, env).calls|
    ensures Run(op, env).calls[Rank(UploadKind)] ==
      UploadMetadata(op.parentFolder, env.removeFromMetadata.value, env.lockFolder.value,
                     env.retrieveMetadata.value.metadataExists)
  {
    TryBlockUploadArguments(op, env);
    RunIsTryThenCleanup(op, env);
  }

  /**
   Whichever call of the `try` block throws first, building or executing the
   DELETE included, its exception is the result and is logged before any
   cleanup line.
   */
  lemma CaughtExceptionIsResult(op: Removal, env: Environment)
    requires Returned(env) < 6
    ensures Run(op, env).result == Failed(Thrown(env))
    ensures 0 < |Run(op, env).log| && Run(op, env).log[0] == RemoveError(op.remotePath, Thrown(env))
  {
  }

  /** An exception from the edit or the upload replaces the DELETE's verdict as the result. */
  lemma LateFailureReplacesResult(op: Removal, env: Environment)
    requires Returned(env) == 4 || Returned(env) == 5
    ensures Run(op, env).result == Failed(if Returned(env) == 4 then env.removeFromMetadata.error else env.uploadMetadata.error)
    ensures !Run(op, env).result.IsSuccess()
  {
  }

  /**
   When no call throws, a DELETE that fails with any status other than 404
   makes the operation fail with that status, yet the metadata is still edited and uploaded and
   the folder is still unlocked.
   */
  lemma ServerErrorStillUpdatesMetadata(op: Removal, env: Environment)
    requires Returned(env) == 6
    requires !env.executeDelete.value.succeeded && env.executeDelete.value.status != NotFound
    ensures var r := Run(op, env);
      && r.result == Completed(false, env.executeDelete.value.status)
      && Count(r.calls, RemoveFolderKind) + Count(r.calls, RemoveFileKind) == 1
      && Count(r.calls, UploadKind) == 1
      && Count(r.calls, UnlockKind) == (if env.lockFolder.value.Some? then 1 else 0)
  {
    NotFoundCountsAsSuccess(op, env);
    CallsMadeOnce(op, env, UnlockKind);
  }

  /**
   Removing an entry that is already gone reports success whenever nothing
   throws, so repeating a removal is harmless; the upload then creates or
   updates the metadata as the fetch's existence flag says.
   */
  lemma RemovingAbsentEntrySucceeds(op: Removal, env: Environment)
    requires Returned(env) == 6 && env.executeDelete.value.status == NotFound
    ensures Run(op, env).result.IsSuccess()
    ensures Rank(UploadKind) < |Run(op, env).calls|
    ensures Run(op, env).calls[Rank(UploadKind)] ==
      UploadMetadata(op.parentFolder, env.removeFromMetadata.value, env.lockFolder.value,
                     env.retrieveMetadata.value.metadataExists)
  {
    NotFoundCountsAsSuccess(op, env);
    UploadThreadsValues(op, env);
  }
}
