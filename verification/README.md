# Removing an entry from an end-to-end-encrypted folder

This project models `RemoveRemoteEncryptedFileOperation.run`. That is the
Nextcloud Android client's operation for deleting a file or a folder that
lives inside an end-to-end-encrypted parent folder. The operation does the
following, in order:

1. Locks the parent folder on the server.
2. Fetches the folder's decrypted metadata document, together with a flag
   saying whether that document already exists remotely.
3. Builds a WebDAV DELETE for the entry, with the lock token as the
   `e2e-token` query parameter.
4. Executes the DELETE. The operation's result is success when the DELETE
   succeeded or when the server answered 404 (the entry is already gone).
5. Removes the entry from the metadata, using the folder or the file
   variant of the edit.
6. Uploads the metadata with the same token and the existence flag.

An `Exception` anywhere in the `try` block is caught, becomes the result,
and is logged. The `finally` clause then runs:

- It releases the DELETE's connection if the request was built.
- It unlocks the folder if a token was obtained, and logs an unlock that did
  not succeed.

The collaborators are not modelled. Each of them is one `Outcome`, fixed in
advance in an `Environment`: it returns a value (`Ok`) or throws (`Throw`).
`RemoveOperation.Run` is a pure function from the operation's parameters and
such an environment to an `Execution`, which holds three things:

- the returned result;
- every collaborator call made, with its arguments, in order;
- the error lines logged.

Modules:

- `Collaborators` (`collaborators.dfy`): the values exchanged, the call
  records and their protocol rank.
- `Traces` (`traces.dfy`): counting and ordering calls in a trace.
- `RemoveOperation` (`remove_operation.dfy`): the `try`/`catch` (`TryBlock`),
  the `finally` (`Cleanup`, `Finally`) and `Run`.
- `RemovalProperties` (`properties.dfy`): what a run promises on every
  combination of outcomes.
- `RemovalMachine` (`machine.dfy`): a small-step state machine for the same
  method, and an imperative `Execute` loop that drives it. Both are proved
  equal to `Run` on every input. The machine states the control flow
  independently, one collaborator call (or one cleanup branch) at a time. It
  shares with `RemoveOperation` the builders of the calls' arguments and of the DELETE's result
  (`DeleteRequestFor`, `EditCall`, `DeletionResult`). Those values therefore
  agree with `Run` because the code is shared, not because of the proof.

The `catch` at lines 109-111 assigns `result` for any exception in the `try`
block, including one from the metadata edit or the upload. So an exception
from the edit or the upload replaces the DELETE's verdict
(`RemovalProperties.LateFailureReplacesResult`).

## Model

| member | source | states |
|---|---|---|
| RemoveOperation.TryBlock | app/src/main/java/com/owncloud/android/operations/RemoveRemoteEncryptedFileOperation.java:73-111 | `token` is the lock's return value; `delete` is set exactly when the lock, the fetch and building the request all returned; the result is the DELETE's verdict, with nothing logged, exactly when no call threw; otherwise the result is the exception of the first call that threw, and exactly that exception is logged once |
| RemoveOperation.TryBlockShape | app/src/main/java/com/owncloud/android/operations/RemoveRemoteEncryptedFileOperation.java:73-105 | the `try` block makes its calls up to and including the first that throws, the k-th call being the k-th step of the protocol, with the edit variant that `isFolder` selects |
| RemoveOperation.DeleteRequestFor | app/src/main/java/com/owncloud/android/operations/RemoveRemoteEncryptedFileOperation.java:83-84 | the DELETE targets the entry's path and carries the token as its only query parameter, named `e2e-token` |
| RemoveOperation.EditCall | app/src/main/java/com/owncloud/android/operations/RemoveRemoteEncryptedFileOperation.java:91-95 | the folder variant of the edit is called exactly when the entry is a folder, with the entry's name and the fetched document |
| RemoveOperation.DeletionResult | app/src/main/java/com/owncloud/android/operations/RemoveRemoteEncryptedFileOperation.java:88 | the result carries the DELETE's status and is a success exactly when the method succeeded or the status is 404 |
| RemoveOperation.Cleanup | app/src/main/java/com/owncloud/android/operations/RemoveRemoteEncryptedFileOperation.java:113-127 | the connection is released once if the request was built, and never otherwise; the folder is unlocked once, as the last call, with the token, if there is a token, and never otherwise |
| RemoveOperation.Finally | app/src/main/java/com/owncloud/android/operations/RemoveRemoteEncryptedFileOperation.java:113-130 | the `finally` clause leaves the result alone, only appends calls, and logs one line exactly when a token was held and the unlock did not succeed |
| RemoveOperation.RunOrdered | app/src/main/java/com/owncloud/android/operations/RemoveRemoteEncryptedFileOperation.java:68-131 | a run makes its calls in protocol order (lock, fetch, build, execute, edit, upload, release, unlock) and makes each at most once |
| RemovalProperties.CallsMadeOnce | app/src/main/java/com/owncloud/android/operations/RemoveRemoteEncryptedFileOperation.java:73-127 | each kind of call is made exactly once when the outcomes reach it (`Makes`), and never otherwise |
| RemovalProperties.LockFailureStopsEverything | app/src/main/java/com/owncloud/android/operations/RemoveRemoteEncryptedFileOperation.java:71-75 | if the lock throws, it is the only call made (no fetch, DELETE, upload, release or unlock), and the result is that exception, logged once |
| RemovalProperties.UnlockExactlyOnce | app/src/main/java/com/owncloud/android/operations/RemoveRemoteEncryptedFileOperation.java:113-127 | with a token, the folder is unlocked exactly once, as the last call, with that token, and after any release; without a token it is never unlocked |
| RemovalProperties.UnlockOutcomeOnlyLogged | app/src/main/java/com/owncloud/android/operations/RemoveRemoteEncryptedFileOperation.java:119-126 | the unlock's success flag changes neither the result nor the calls; an unlock failure is logged exactly when a token was held and the unlock failed |
| RemovalProperties.FetchFailureSkipsDelete | app/src/main/java/com/owncloud/android/operations/RemoveRemoteEncryptedFileOperation.java:78-85 | if the fetch throws, no DELETE is built or executed and no connection is released; the result is the fetch's exception; the folder is still unlocked when a token was held |
| RemovalProperties.ReleaseIffDeleteBuilt | app/src/main/java/com/owncloud/android/operations/RemoveRemoteEncryptedFileOperation.java:114-116 | the connection is released exactly when the lock, the fetch and the building of the DELETE all returned, whatever happens afterwards |
| RemovalProperties.DeleteTargetsEntry | app/src/main/java/com/owncloud/android/operations/RemoveRemoteEncryptedFileOperation.java:83 | once the metadata is fetched, the third call builds the DELETE for the entry's path |
| RemovalProperties.DeleteCarriesToken | app/src/main/java/com/owncloud/android/operations/RemoveRemoteEncryptedFileOperation.java:84-85 | the executed DELETE carries exactly the token the lock returned, under `e2e-token` |
| RemovalProperties.NotFoundCountsAsSuccess | app/src/main/java/com/owncloud/android/operations/RemoveRemoteEncryptedFileOperation.java:88-108 | when nothing throws, the result carries the DELETE's status and is a success exactly when the method succeeded or the status is 404; one edit and one upload are made |
| RemovalProperties.EditVariantFollowsIsFolder | app/src/main/java/com/owncloud/android/operations/RemoveRemoteEncryptedFileOperation.java:91-95 | once executing the DELETE has returned, exactly one edit is made: the folder variant for a folder, the file variant otherwise |
| RemovalProperties.EditThreadsValues | app/src/main/java/com/owncloud/android/operations/RemoveRemoteEncryptedFileOperation.java:78-95 | the edit receives the entry's name and the document that the fetch returned |
| RemovalProperties.UploadThreadsValues | app/src/main/java/com/owncloud/android/operations/RemoveRemoteEncryptedFileOperation.java:98-105 | the upload receives the parent folder, the edited document, the lock's token and the fetched existence flag, all unchanged |
| RemovalProperties.CaughtExceptionIsResult | app/src/main/java/com/owncloud/android/operations/RemoveRemoteEncryptedFileOperation.java:109-111 | whichever call of the `try` block throws first, building or executing the DELETE included, the result is exactly its exception, and it is the first line logged |
| RemovalProperties.LateFailureReplacesResult | app/src/main/java/com/owncloud/android/operations/RemoveRemoteEncryptedFileOperation.java:109-111 | an exception from the edit or the upload replaces the DELETE's verdict: the result is that exception and is not a success |
| RemovalProperties.ServerErrorStillUpdatesMetadata | app/src/main/java/com/owncloud/android/operations/RemoveRemoteEncryptedFileOperation.java:88-108 | when no call throws, a DELETE that fails with a status other than 404 gives a failed result with that status, yet the metadata is still edited and uploaded and the folder is still unlocked |
| RemovalProperties.RemovingAbsentEntrySucceeds | app/src/main/java/com/owncloud/android/operations/RemoveRemoteEncryptedFileOperation.java:88-102 | when nothing throws, removing an entry that is already gone (404) is a success, and the upload carries the fetched existence flag (create or update) |
| RemovalMachine.Step | app/src/main/java/com/owncloud/android/operations/RemoveRemoteEncryptedFileOperation.java:73-127 | each step makes the method's next collaborator call or one cleanup branch, makes at most one call, only appends to the trace, and moves strictly towards the return |
| RemovalMachine.MachineAgreesWithRun | app/src/main/java/com/owncloud/android/operations/RemoveRemoteEncryptedFileOperation.java:68-131 | the small-step machine and the `try`/`catch`/`finally` reading of the method give the same result, calls and log on every input |
| RemovalMachine.Execute | app/src/main/java/com/owncloud/android/operations/RemoveRemoteEncryptedFileOperation.java:68-131 | running the method one collaborator call at a time in a loop returns exactly what `Run` does |

## Left out

- HTTP and WebDAV are not modelled. This covers the client, the DAV URI,
  and the read and connection timeouts (lines 35-36 and 85). Executing the
  DELETE is one outcome: a status and a `succeeded` flag, or an exception.
- Draining the response body (line 87) is folded into that same outcome,
  because an exception there is caught like one from the execution itself.
- The metadata's content is not modelled. It is an opaque document. In Java,
  `removeFolderFromMetadata` and `removeFileFromMetadata` change the
  `metadata` object in place and return nothing. Line 99 then uploads that
  same object. The `removeFromMetadata` outcome's value stands for that
  object's state after the edit. When the edit throws, the object's state is
  not observed, because nothing is uploaded afterwards.
- `EncryptionUtils`, `EncryptionUtilsV2` and `FileDataStorageManager` are not
  part of this model. The lock, fetch, edit, upload and unlock calls are
  recorded with the arguments that come from the operation. The user, the
  context, the client and the storage manager are left out of those records.
- Only the success flag of the unlock's result is modelled.
- An `Error` (a `Throwable` that is not an `Exception`) thrown in the `try`
  block is not modelled. It escapes the `catch (Exception e)` at line 109, so
  `result` is never assigned. The `finally` clause still releases and unlocks,
  and the `Error` then propagates out of `run`. A `Throw` outcome stands only
  for what that `catch` takes.
- An exception escaping `releaseConnection` or `unlockFolder` inside the
  `finally` clause is not modelled. Java would propagate it out of `run`. An
  exception from `releaseConnection` at line 115 would also skip the unlock
  at lines 119-127. So the promise that a held lock is always undone
  (`UnlockExactlyOnce`, and `CallsMadeOnce` for the unlock) holds for the Java
  only when `releaseConnection` returns normally.
- Two throws in the `try` block happen outside the collaborator calls. They
  are `new EncryptionUtilsV2()` at line 77 and `new FileDataStorageManager(…)`
  at line 105, which is evaluated before the upload is entered. The model can
  express them only as the fetch or the upload throwing. The trace then
  records a `RetrieveMetadata` or `UploadMetadata` call that Java never
  enters. The result, the log and the cleanup are the same either way.
- Log lines are modelled for the error paths only: the caught exception
  (line 111) and the failed unlock (line 125). The info line at 89 is left out.
- Server-side lock exclusivity between concurrent operations is not
  modelled, because it lives on the server.
- The value `e2e-token` of `E2E_TOKEN` comes from the library's
  `RemoteOperation`, which is not part of this model.
- The constructor (lines 50-62) only stores its parameters. It is the
  `Removal` datatype.
