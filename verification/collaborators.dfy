/**
 The values the removal of an end-to-end-encrypted entry exchanges with its
 collaborators: the lock service, the metadata repository, the WebDAV client
 and the metadata editor. None of their code is modelled; each call is
 reduced to an `Outcome` fixed in advance (it returns a value or throws), and
 every call the operation makes is recorded as a `Call` with its arguments.
 */
module Collaborators {

  /** A Java reference that may be null: `None` stands for `null`. */
  datatype Option<+T> = None | Some(value: T)

  /** A Java `Exception` thrown by a collaborator, which the operation's `catch` takes; only its identity matters here. */
  datatype Exception = Exception(message: string)

  /** The outcome of one collaborator call: it returns a value or it throws an `Exception`. */
  datatype Outcome<+T> = Ok(value: T) | Throw(error: Exception)

  /** The parent folder of the entry being removed. */
  datatype Folder = Folder(localId: int, remotePath: string)

  /** The decrypted metadata document of the parent folder, passed around opaquely. */
  datatype Metadata = Metadata(document: string)

  /** What the metadata fetch returns: whether a document already existed remotely, and the document. */
  datatype Fetched = Fetched(metadataExists: bool, metadata: Metadata)

  /** What the executed DELETE reports: its HTTP status and whether the method counts it as succeeded. */
  datatype Response = Response(status: int, succeeded: bool)

  /** The parameters fixed when the operation is constructed. */
  datatype Removal = Removal(remotePath: string, fileName: string, parentFolder: Folder, isFolder: bool)

  /**
   The outcome of each collaborator call the operation may make, in call order.
   `lockFolder` may hand back a null token; `executeDelete` covers running the
   DELETE and draining its response body; `removeFromMetadata` is the edited
   document (the folder or the file variant, whichever is called);
   `unlockSucceeded` is the success flag of the unlock result.
   */
  datatype Environment = Environment(
    lockFolder: Outcome<Option<string>>,
    retrieveMetadata: Outcome<Fetched>,
    newDelete: Outcome<()>,
    executeDelete: Outcome<Response>,
    removeFromMetadata: Outcome<Metadata>,
    uploadMetadata: Outcome<()>,
    unlockSucceeded: bool)

  /** Name of the query parameter that carries the lock token on the DELETE. */
  const E2eToken: string := "e2e-token"

  /** HTTP 404 Not Found: deleting an entry that is already gone counts as success. */
  const NotFound: int := 404

  datatype QueryParam = QueryParam(name: string, value: Option<string>)

  /** The DELETE request as executed: its target path and its query string. */
  datatype DeleteRequest = DeleteRequest(path: string, query: seq<QueryParam>)

  /** The kind of a collaborator call, independent of its arguments. */
  datatype Kind =
    | LockKind | FetchKind | NewDeleteKind | ExecuteKind
    | RemoveFolderKind | RemoveFileKind | UploadKind | ReleaseKind | UnlockKind

  /** One collaborator call, with the arguments the operation passes to it. */
  datatype Call =
    | LockFolder(folder: Folder)
    | RetrieveMetadata(folder: Folder)
    | NewDelete(path: string)
    | ExecuteDelete(request: DeleteRequest)
    | RemoveFolderFromMetadata(name: string, metadata: Metadata)
    | RemoveFileFromMetadata(name: string, metadata: Metadata)
    | UploadMetadata(folder: Folder, metadata: Metadata, token: Option<string>, metadataExists: bool)
    | ReleaseConnection
    | UnlockFolder(folder: Folder, lockToken: string)
  {
    function Kind(): Kind {
      match this
      case LockFolder(_) => LockKind
      case RetrieveMetadata(_) => FetchKind
      case NewDelete(_) => NewDeleteKind
      case ExecuteDelete(_) => ExecuteKind
      case RemoveFolderFromMetadata(_, _) => RemoveFolderKind
      case RemoveFileFromMetadata(_, _) => RemoveFileKind
      case UploadMetadata(_, _, _, _) => UploadKind
      case ReleaseConnection => ReleaseKind
      case UnlockFolder(_, _) => UnlockKind
    }
  }

  /**
   The position of a kind in the protocol: lock, fetch, build the DELETE,
   execute it, edit the metadata (one of two variants), upload, release the
   connection, unlock.
   */
  function Rank(k: Kind): nat {
    match k
    case LockKind => 0
    case FetchKind => 1
    case NewDeleteKind => 2
    case ExecuteKind => 3
    case RemoveFolderKind => 4
    case RemoveFileKind => 4
    case UploadKind => 5
    case ReleaseKind => 6
    case UnlockKind => 7
  }

  /**
   The operation's result: the DELETE's verdict with its status code, or a
   failure carrying the exception that was caught.
   */
  datatype OpResult = Completed(success: bool, status: int) | Failed(cause: Exception) {
    predicate IsSuccess() {
      Completed? && success
    }
  }

  /** The error lines the operation logs. */
  datatype LogEntry = RemoveError(path: string, cause: Exception) | UnlockFailed(folderLocalId: int)

  /** Everything observable about one run: the returned result, the calls made, the errors logged. */
  datatype Execution = Execution(result: OpResult, calls: seq<Call>, log: seq<LogEntry>)
}
