/** The decrypt page: selection, the three-step validation (there is no
    confirmation field) and the outcome rules of a decryption attempt. */
module DecryptPage {
  import opened Wrappers
  import opened Text
  import opened Types
  import opened PageCommon
  import AppContext

  datatype DecryptState = DecryptState(
    selectedFile: Option<FileRef>,
    outputFolder: Option<string>,
    password: string,
    algorithm: EncryptionAlgorithm,
    isProcessing: bool,
    status: ProcessStatus,
    message: string,
    shredEncrypted: bool)

  /** The page as it mounts: nothing selected, the first listed algorithm,
      idle, and the encrypted file kept. */
  function InitialState(firstAlgorithm: EncryptionAlgorithm): (r: DecryptState)
    ensures r.selectedFile.None? && r.outputFolder.None? && r.password == ""
    ensures r.algorithm == firstAlgorithm && !r.isProcessing && r.status == StatusIdle && !r.shredEncrypted
  {
    DecryptState(None, None, "", firstAlgorithm, false, StatusIdle, "", false)
  }

  const DefaultFileName := "unknown_file.knxenc"

  /** `handleFileSelect`: a picked path becomes the selected file, named
      after its last segment or `unknown_file.knxenc`. */
  function HandleFileSelect(st: DecryptState, picked: Option<string>): (r: DecryptState)
    ensures Truthy(picked) ==> r.selectedFile == Some(PickedFile(picked.value, DefaultFileName)) && r.status == StatusIdle
    ensures Truthy(picked) ==> r.selectedFile.value.name == Basename(picked.value, DefaultFileName)
    ensures !Truthy(picked) ==> r == st
  {
    if Truthy(picked) then st.(selectedFile := Some(PickedFile(picked.value, DefaultFileName)), status := StatusIdle)
    else st
  }

  /** `handleOutputFolderSelect`: a picked folder becomes the output folder
      and clears the status; a cancelled pick changes nothing. */
  function HandleOutputFolderSelect(st: DecryptState, picked: Option<string>): (r: DecryptState)
    ensures Truthy(picked) ==> r.outputFolder == picked && r.status == StatusIdle
    ensures !Truthy(picked) ==> r == st
    ensures r.selectedFile == st.selectedFile && r.password == st.password
  {
    if Truthy(picked) then st.(outputFolder := picked, status := StatusIdle) else st
  }

  /** Picking the file and picking the folder are independent: either order
      gives the same page. */
  lemma SelectionsCommute(st: DecryptState, file: Option<string>, folder: Option<string>)
    ensures HandleOutputFolderSelect(HandleFileSelect(st, file), folder)
            == HandleFileSelect(HandleOutputFolderSelect(st, folder), file)
  {
  }

  /** A freshly mounted page asks for the encrypted file first; once a file
      and a folder are picked, only the password is missing. */
  lemma FreshPageAsksForFile(a: EncryptionAlgorithm, file: string, folder: string)
    requires file != "" && folder != ""
    ensures FirstFailure(InitialState(a)) == Some("selectEncryptedFile")
    ensures FirstFailure(HandleOutputFolderSelect(HandleFileSelect(InitialState(a), Some(file)), Some(folder)))
            == Some("enterPassword")
  {
  }

  /** The message key of the first failing check, in the order file,
      folder, password. */
  function FirstFailure(st: DecryptState): (r: Option<string>)
    ensures r.None? <==> st.selectedFile.Some? && Truthy(st.outputFolder) && st.password != ""
    ensures r.Some? ==> r.value in ["selectEncryptedFile", "selectOutputFolder", "enterPassword"]
  {
    if st.selectedFile.None? then Some("selectEncryptedFile")
    else if !Truthy(st.outputFolder) then Some("selectOutputFolder")
    else if st.password == "" then Some("enterPassword")
    else None
  }

  datatype Validation = Validation(ok: bool, state: DecryptState)

  /** `validateInputs`: passes iff a file is selected, a folder is set and
      the password is non-empty. */
  function ValidateInputs(st: DecryptState, loc: AppContext.Locale): (r: Validation)
    ensures r.ok <==> st.selectedFile.Some? && Truthy(st.outputFolder) && st.password != ""
    ensures r.ok ==> r.state == st
    ensures !r.ok ==> r.state == st.(status := StatusError, message := AppContext.T(loc, FirstFailure(st).value))
  {
    match FirstFailure(st)
    case None => Validation(true, st)
    case Some(key) => Validation(false, st.(status := StatusError, message := AppContext.T(loc, key)))
  }

  /** The checks are reported in the order file, folder, password. */
  lemma FirstFailureOrder(st: DecryptState)
    ensures st.selectedFile.None? ==> FirstFailure(st) == Some("selectEncryptedFile")
    ensures st.selectedFile.Some? && !Truthy(st.outputFolder) ==> FirstFailure(st) == Some("selectOutputFolder")
    ensures FirstFailure(st) == Some("enterPassword") <==>
              st.selectedFile.Some? && Truthy(st.outputFolder) && st.password == ""
  {
  }

  /** The arguments of `decryptFile`. */
  datatype DecryptCall = DecryptCall(inputPath: string, outputDir: string, password: string,
                                     algorithm: EncryptionAlgorithm, iv: Option<string>, salt: Option<string>,
                                     authTag: Option<string>, shredEncrypted: bool)

  /** The call never passes an IV, salt or authentication tag. */
  function Request(st: DecryptState): (r: DecryptCall)
    requires st.selectedFile.Some? && st.outputFolder.Some?
    ensures r.iv.None? && r.salt.None? && r.authTag.None?
    ensures r.inputPath == BackendPath(st.selectedFile.value) && r.outputDir == st.outputFolder.value
    ensures r.password == st.password && r.algorithm == st.algorithm && r.shredEncrypted == st.shredEncrypted
  {
    DecryptCall(BackendPath(st.selectedFile.value), st.outputFolder.value, st.password, st.algorithm,
                None, None, None, st.shredEncrypted)
  }

  function InFlight(st: DecryptState, loc: AppContext.Locale): (r: DecryptState)
    ensures r.isProcessing && r.status == StatusIdle && r.message == AppContext.T(loc, "decryptionInProgress")
    ensures r.selectedFile == st.selectedFile && r.password == st.password
  {
    st.(isProcessing := true, status := StatusIdle, message := AppContext.T(loc, "decryptionInProgress"))
  }

  datatype DecryptStep = DecryptStep(state: DecryptState, drafts: seq<LogDraft>, call: Option<DecryptCall>)

  predicate ReachesCall(st: DecryptState, o: CallOutcome) {
    FirstFailure(st).None? && !st.isProcessing && !o.NoApi?
  }

  /** `handleDecrypt`, from the click to the settled state. */
  function HandleDecrypt(st: DecryptState, loc: AppContext.Locale, o: CallOutcome): (r: DecryptStep)
    ensures FirstFailure(st).Some? ==> r.state == ValidateInputs(st, loc).state && r.drafts == [] && r.call.None?
    ensures FirstFailure(st).None? && st.isProcessing ==> r == DecryptStep(st, [], None)
    ensures FirstFailure(st).None? && !st.isProcessing && o.NoApi? ==>
              r.state == st.(status := StatusError, message := AppContext.T(loc, "electronApiUnavailable"))
              && |r.drafts| == 1 && r.drafts[0].operation == ErrorGeneric && r.drafts[0].status == Failure
    ensures r.call.Some? <==> ReachesCall(st, o)
    ensures ReachesCall(st, o) ==> r.call == Some(Request(st)) && !r.state.isProcessing
    ensures ReachesCall(st, o) ==> (r.state.status == StatusSuccess <==> ProducedOutput(o))
    ensures ReachesCall(st, o) ==>
              |r.drafts| == 1 && r.drafts[0].operation == Decrypt
              && r.drafts[0].targetFile == Some(BackendPath(st.selectedFile.value))
              && r.drafts[0].algorithmUsed == Some(st.algorithm)
              && (r.drafts[0].status == Success <==> ProducedOutput(o))
    ensures ReachesCall(st, o) && ProducedOutput(o) ==>
              r.state.message == AppContext.T(loc, "decryptionSuccess") + " Output: " + o.reply.outputPath.value
    ensures ReachesCall(st, o) && !ProducedOutput(o) ==>
              r.state.status == StatusError && r.state.message == FailureMessage(o, AppContext.T(loc, "decryptionFailed"))
    ensures r.state.selectedFile == st.selectedFile && r.state.password == st.password
  {
    var v := ValidateInputs(st, loc);
    if !v.ok then DecryptStep(v.state, [], None)
    else if st.isProcessing then DecryptStep(st, [], None)
    else if o.NoApi? then
      DecryptStep(st.(status := StatusError, message := AppContext.T(loc, "electronApiUnavailable")),
        [Draft(ErrorGeneric, "Attempted decryption, but Electron API (decryptFile) was not found.", Failure)], None)
    else
      var file := st.selectedFile.value;
      var path := BackendPath(file);
      var flight := InFlight(st, loc);
      if ProducedOutput(o) then
        var out := o.reply.outputPath.value;
        DecryptStep(flight.(isProcessing := false, status := StatusSuccess,
                            message := AppContext.T(loc, "decryptionSuccess") + " Output: " + out),
          [LogDraft(Decrypt, "Decrypted \"" + file.name + "\" to \"" + out + "\" using " + AlgorithmTag(st.algorithm) + ".",
                    Success, Some(path), None, Some(st.algorithm), None, None)],
          Some(Request(st)))
      else
        var message := FailureMessage(o, AppContext.T(loc, "decryptionFailed"));
        DecryptStep(flight.(isProcessing := false, status := StatusError, message := message),
          [LogDraft(Decrypt, "Failed to decrypt \"" + file.name + "\". Error: " + message, Failure,
                    Some(path), None, Some(st.algorithm), None, None)],
          Some(Request(st)))
  }

  /** A second click while an attempt is in flight is ignored, and every
      attempt that reaches the backend ends with processing off. */
  lemma AttemptSettles(st: DecryptState, loc: AppContext.Locale, o: CallOutcome, again: CallOutcome)
    requires ReachesCall(st, o)
    ensures HandleDecrypt(InFlight(st, loc), loc, again) == DecryptStep(InFlight(st, loc), [], None)
    ensures !HandleDecrypt(st, loc, o).state.isProcessing
  {
    assert FirstFailure(InFlight(st, loc)) == FirstFailure(st);
  }
}
