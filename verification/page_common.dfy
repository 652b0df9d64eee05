/** What the encrypt, decrypt and shredder pages share: the file-like
    object a picked path becomes, the path it is handed to the backend
    under, the status indicator, and how a backend reply or rejection turns
    into the message shown. */
module PageCommon {
  import opened Wrappers
  import opened Text

  /** JavaScript truthiness of an optional string. */
  predicate Truthy(o: Option<string>) {
    o.Some? && o.value != ""
  }

  /** A selected file: its display name, the `path` Electron attaches, and
      the browser's `webkitRelativePath`. */
  datatype FileRef = FileRef(name: string, path: Option<string>, relativePath: Option<string>)

  /** `getElectronFilePath`: `path || webkitRelativePath`. */
  function GetElectronFilePath(f: FileRef): (r: Option<string>)
    ensures Truthy(f.path) ==> r == f.path
    ensures !Truthy(f.path) ==> r == f.relativePath
  {
    if Truthy(f.path) then f.path else f.relativePath
  }

  /** `getElectronFilePath(file) || file.name`: the path sent to the backend. */
  function BackendPath(f: FileRef): (r: string)
    ensures Truthy(GetElectronFilePath(f)) ==> r == GetElectronFilePath(f).value
    ensures !Truthy(GetElectronFilePath(f)) ==> r == f.name
  {
    var p := GetElectronFilePath(f);
    if Truthy(p) then p.value else f.name
  }

  /** The file-like object made from a picked path: named after the last
      `/`- or `\`-separated segment (or `fallback`), carrying the path. */
  function PickedFile(path: string, fallback: string): (r: FileRef)
    ensures r.path == Some(path) && r.relativePath.None?
    ensures r.name == Basename(path, fallback)
  {
    FileRef(Basename(path, fallback), Some(path), None)
  }

  /** A picked file goes to the backend under exactly the picked path, and
      its displayed name is never empty when the fallback is not. */
  lemma PickedFileRoundTrip(path: string, fallback: string)
    requires path != ""
    ensures BackendPath(PickedFile(path, fallback)) == path
    ensures fallback != "" ==> PickedFile(path, fallback).name != ""
  {
  }

  datatype ProcessStatus = StatusIdle | StatusSuccess | StatusError

  /** A backend reply; each operation fills the fields it has. */
  datatype BackendReply = BackendReply(
    success: bool,
    outputPath: Option<string>,
    iv: Option<string>,
    salt: Option<string>,
    authTag: Option<string>,
    error: Option<string>)

  /** What happened to a backend call: the API is missing, it replied, or it
      rejected (`Some(message)` when the rejection is an `Error`). */
  datatype CallOutcome = NoApi | Replied(reply: BackendReply) | Rejected(errorMessage: Option<string>)

  /** An encrypt or decrypt call succeeded: `success` and a truthy output
      path. */
  predicate ProducedOutput(o: CallOutcome) {
    o.Replied? && o.reply.success && Truthy(o.reply.outputPath)
  }

  /** The message shown after a failed call: the backend's truthy error,
      the `Error`'s own message, or the page's default. */
  function FailureMessage(o: CallOutcome, default: string): (r: string)
    ensures o.Replied? && Truthy(o.reply.error) ==> r == o.reply.error.value
    ensures o.Replied? && !Truthy(o.reply.error) ==> r == default
    ensures o.Rejected? ==> r == o.errorMessage.GetOr(default)
  {
    match o
    case Replied(reply) => if Truthy(reply.error) then reply.error.value else default
    case Rejected(m) => m.GetOr(default)
    case NoApi => default
  }
}
