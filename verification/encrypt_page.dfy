/** The encrypt page: file and folder selection, the four-step input
    validation, and the outcome rules of an encryption attempt. */
module EncryptPage {
  import opened Wrappers
  import opened Text
  import opened Types
  import opened PageCommon
  import AppContext

  datatype EncryptState = EncryptState(
    selectedFiles: seq<FileRef>,
    outputFolder: Option<string>,
    password: string,
    confirmPassword: string,
    algorithm: EncryptionAlgorithm,
    isProcessing: bool,
    status: ProcessStatus,
    message: string,
    shredOriginal: bool)

  /** The page as it first renders; the first listed algorithm is a
      parameter, since the list of algorithms is not part of this model. */
  function InitialState(firstAlgorithm: EncryptionAlgorithm): (r: EncryptState)
    ensures r.selectedFiles == [] && r.outputFolder.None? && !r.isProcessing && !r.shredOriginal
  {
    EncryptState([], None, "", "", firstAlgorithm, false, StatusIdle, "", false)
  }

  const DefaultFileName := "unknown_file"

  /** `handleFileSelect`: a picked path replaces the selection with one file
      named after its last segment; a cancelled pick changes nothing. */
  function HandleFileSelect(st: EncryptState, picked: Option<string>): (r: EncryptState)
    ensures Truthy(picked) ==> r.selectedFiles == [PickedFile(picked.value, DefaultFileName)] && r.status == StatusIdle
    ensures Truthy(picked) ==> r.selectedFiles[0].name == Basename(picked.value, DefaultFileName)
    ensures !Truthy(picked) ==> r == st
    ensures r.password == st.password && r.outputFolder == st.outputFolder && r.isProcessing == st.isProcessing
  {
    if Truthy(picked) then st.(selectedFiles := [PickedFile(picked.value, DefaultFileName)], status := StatusIdle)
    else st
  }

  /** `handleOutputFolderSelect`. */
  function HandleOutputFolderSelect(st: EncryptState, picked: Option<string>): (r: EncryptState)
    ensures Truthy(picked) ==> r.outputFolder == picked && r.status == StatusIdle
    ensures !Truthy(picked) ==> r == st
    ensures r.selectedFiles == st.selectedFiles && r.password == st.password
  {
    if Truthy(picked) then st.(outputFolder := picked, status := StatusIdle) else st
  }

  /** The message key of the first failing check, in the order file,
      folder, password, match. */
  function FirstFailure(st: EncryptState): (r: Option<string>)
    ensures r.None? <==> |st.selectedFiles| > 0 && Truthy(st.outputFolder) && st.password != "" && st.password == st.confirmPassword
    ensures r.Some? ==> r.value in ["selectFile", "selectOutputFolder", "enterPassword", "passwordsDoNotMatch"]
  {
    if |st.selectedFiles| == 0 then Some("selectFile")
    else if !Truthy(st.outputFolder) then Some("selectOutputFolder")
    else if st.password == "" then Some("enterPassword")
    else if st.password != st.confirmPassword then Some("passwordsDoNotMatch")
    else None
  }

  datatype Validation = Validation(ok: bool, state: EncryptState)

  /** `validateInputs`: passes iff a file is selected, a folder is set and
      the password is non-empty and confirmed; otherwise reports the first
      failing check. */
  function ValidateInputs(st: EncryptState, loc: AppContext.Locale): (r: Validation)
    ensures r.ok <==> |st.selectedFiles| > 0 && Truthy(st.outputFolder) && st.password != "" && st.password == st.confirmPassword
    ensures r.ok ==> r.state == st
    ensures !r.ok ==> r.state == st.(status := StatusError, message := AppContext.T(loc, FirstFailure(st).value))
  {
    match FirstFailure(st)
    case None => Validation(true, st)
    case Some(key) => Validation(false, st.(status := StatusError, message := AppContext.T(loc, key)))
  }

  /** With several invalid inputs the reported check is the earliest one. */
  lemma FirstFailureOrder(st: EncryptState)
    ensures |st.selectedFiles| == 0 ==> FirstFailure(st) == Some("selectFile")
    ensures |st.selectedFiles| > 0 && !Truthy(st.outputFolder) ==> FirstFailure(st) == Some("selectOutputFolder")
    ensures |st.selectedFiles| > 0 && Truthy(st.outputFolder) && st.password == "" ==>
              FirstFailure(st) == Some("enterPassword")
    ensures FirstFailure(st) == Some("passwordsDoNotMatch") <==>
              |st.selectedFiles| > 0 && Truthy(st.outputFolder) && st.password != "" && st.password != st.confirmPassword
  {
  }

  /** The arguments of `encryptFile`. */
  datatype EncryptCall = EncryptCall(inputPath: string, outputDir: string, password: string,
                                     algorithm: EncryptionAlgorithm, shredOriginal: bool)

  function Request(st: EncryptState): (r: EncryptCall)
    requires |st.selectedFiles| > 0 && st.outputFolder.Some?
    ensures r.inputPath == BackendPath(st.selectedFiles[0]) && r.outputDir == st.outputFolder.value
    ensures r.password == st.password && r.algorithm == st.algorithm && r.shredOriginal == st.shredOriginal
  {
    EncryptCall(BackendPath(st.selectedFiles[0]), st.outputFolder.value, st.password, st.algorithm, st.shredOriginal)
  }

  /** The state while the call is in flight. */
  function InFlight(st: EncryptState, loc: AppContext.Locale): (r: EncryptState)
    ensures r.isProcessing && r.status == StatusIdle && r.message == AppContext.T(loc, "encryptionInProgress")
    ensures r.selectedFiles == st.selectedFiles && r.password == st.password
  {
    st.(isProcessing := true, status := StatusIdle, message := AppContext.T(loc, "encryptionInProgress"))
  }

  /** The outcome of `handleEncrypt`: the settled state, the entries to log
      and the call made, if any. */
  datatype EncryptStep = EncryptStep(state: EncryptState, drafts: seq<LogDraft>, call: Option<EncryptCall>)

  /** Whether `handleEncrypt` gets past its guard and finds the API. */
  predicate ReachesCall(st: EncryptState, o: CallOutcome) {
    FirstFailure(st).None? && !st.isProcessing && !o.NoApi?
  }

  predicate LogsShred(drafts: seq<LogDraft>) {
    exists i :: 0 <= i < |drafts| && drafts[i].operation == Shred
  }

  /** The entries of a successful encryption: the encrypt entry, then a shred
      entry when the original was to be shredded. */
  function SuccessDrafts(file: FileRef, path: string, st: EncryptState, outputPath: string, reply: BackendReply): (r: seq<LogDraft>)
    ensures |r| >= 1 && r[0].operation == Encrypt && r[0].status == Success && r[0].targetFile == Some(path)
    ensures LogsShred(r) <==> st.shredOriginal
  {
    var main := LogDraft(Encrypt,
      "Encrypted \"" + file.name + "\" to \"" + outputPath + "\" using " + AlgorithmTag(st.algorithm)
        + ". IV: " + AppContext.Shown(reply.iv) + ", Salt: " + AppContext.Shown(reply.salt)
        + ", AuthTag: " + AppContext.Shown(reply.authTag),
      Success, Some(path), None, Some(st.algorithm), None, None);
    if st.shredOriginal then
      var r := [main, LogDraft(Shred, "Original file " + path + " shredded successfully by backend.", Success,
                               Some(path), None, None, None, None)];
      assert r[1].operation == Shred;
      r
    else [main]
  }

  /** `handleEncrypt`, from the click to the settled state. */
  function HandleEncrypt(st: EncryptState, loc: AppContext.Locale, o: CallOutcome): (r: EncryptStep)
    // an invalid form only reports its first failing check
    ensures FirstFailure(st).Some? ==> r.state == ValidateInputs(st, loc).state && r.drafts == [] && r.call.None?
    // a valid form while already processing is left alone
    ensures FirstFailure(st).None? && st.isProcessing ==> r == EncryptStep(st, [], None)
    ensures FirstFailure(st).None? && !st.isProcessing && o.NoApi? ==>
              r.state == st.(status := StatusError, message := AppContext.T(loc, "electronApiUnavailable"))
              && |r.drafts| == 1 && r.drafts[0].operation == ErrorGeneric && r.drafts[0].status == Failure
    ensures r.call.Some? <==> ReachesCall(st, o)
    ensures ReachesCall(st, o) ==> r.call == Some(Request(st)) && !r.state.isProcessing
    ensures ReachesCall(st, o) ==> (r.state.status == StatusSuccess <==> ProducedOutput(o))
    ensures ReachesCall(st, o) && !ProducedOutput(o) ==>
              r.state.status == StatusError
              && r.state.message == FailureMessage(o, AppContext.T(loc, "encryptionFailed"))
              && r.drafts == [LogDraft(Encrypt, "Failed to encrypt \"" + st.selectedFiles[0].name + "\". Error: " + r.state.message,
                                       Failure, Some(BackendPath(st.selectedFiles[0])), None, Some(st.algorithm), None, None)]
    ensures ReachesCall(st, o) && ProducedOutput(o) ==>
              r.state.message == AppContext.T(loc, "encryptionSuccess") + " Output: " + o.reply.outputPath.value
              && |r.drafts| >= 1 && r.drafts[0].operation == Encrypt && r.drafts[0].status == Success
              && r.drafts[0].targetFile == Some(BackendPath(st.selectedFiles[0]))
    // the shred entry follows only a successful encryption with the shred option set
    ensures LogsShred(r.drafts) <==>
              ReachesCall(st, o) && ProducedOutput(o) && st.shredOriginal
    ensures r.state.selectedFiles == st.selectedFiles && r.state.password == st.password
  {
    var v := ValidateInputs(st, loc);
    if !v.ok then EncryptStep(v.state, [], None)
    else if st.isProcessing then EncryptStep(st, [], None)
    else if o.NoApi? then
      EncryptStep(st.(status := StatusError, message := AppContext.T(loc, "electronApiUnavailable")),
        [Draft(ErrorGeneric, "Attempted encryption, but Electron API (encryptFile) was not found.", Failure)], None)
    else
      var file := st.selectedFiles[0];
      var path := BackendPath(file);
      var flight := InFlight(st, loc);
      if ProducedOutput(o) then
        EncryptStep(flight.(isProcessing := false, status := StatusSuccess,
                            message := AppContext.T(loc, "encryptionSuccess") + " Output: " + o.reply.outputPath.value),
                    SuccessDrafts(file, path, st, o.reply.outputPath.value, o.reply), Some(Request(st)))
      else
        var message := FailureMessage(o, AppContext.T(loc, "encryptionFailed"));
        EncryptStep(flight.(isProcessing := false, status := StatusError, message := message),
          [LogDraft(Encrypt, "Failed to encrypt \"" + file.name + "\". Error: " + message, Failure,
                    Some(path), None, Some(st.algorithm), None, None)],
          Some(Request(st)))
  }

  /** Whatever the backend does, a second click while the first attempt is
      in flight is ignored, and the attempt ends with processing off. */
  lemma AttemptSettles(st: EncryptState, loc: AppContext.Locale, o: CallOutcome, again: CallOutcome)
    requires ReachesCall(st, o)
    ensures InFlight(st, loc).isProcessing
    ensures HandleEncrypt(InFlight(st, loc), loc, again) == EncryptStep(InFlight(st, loc), [], None)
    ensures !HandleEncrypt(st, loc, o).state.isProcessing
  {
    assert FirstFailure(InFlight(st, loc)) == FirstFailure(st);
  }
}
