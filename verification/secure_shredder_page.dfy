/** The secure-shredder page: selection with confirmation reset, the
    three-part guard shared by the handler and the button, and the outcome
    rules of a shred attempt. */
module SecureShredderPage {
  import opened Wrappers
  import opened Text
  import opened Types
  import opened PageCommon
  import AppContext

  datatype ShredState = ShredState(
    selectedFile: Option<FileRef>,
    passes: int,
    isProcessing: bool,
    status: ProcessStatus,
    message: string,
    confirmed: bool)

  const DefaultPasses := 3

  function InitialState(): (r: ShredState)
    ensures r.passes == DefaultPasses && r.selectedFile.None? && !r.confirmed && !r.isProcessing
  {
    ShredState(None, DefaultPasses, false, StatusIdle, "", false)
  }

  /** `handleFileSelect`: a picked path becomes the selection and the
      confirmation box is cleared. */
  function HandleFileSelect(st: ShredState, picked: Option<string>): (r: ShredState)
    ensures Truthy(picked) ==> r.selectedFile == Some(PickedFile(picked.value, "unknown_file"))
    ensures Truthy(picked) ==> !r.confirmed && r.status == StatusIdle
    ensures !Truthy(picked) ==> r == st
    ensures r.passes == st.passes
  {
    if Truthy(picked)
    then st.(selectedFile := Some(PickedFile(picked.value, "unknown_file")), status := StatusIdle, confirmed := false)
    else st
  }

  /** The early return of `handleShredFile`. */
  predicate GuardBlocks(st: ShredState) {
    st.selectedFile.None? || st.isProcessing || !st.confirmed
  }

  /** The shred button's `disabled` attribute. */
  function ButtonDisabled(st: ShredState): bool {
    !st.selectedFile.Some? || st.isProcessing || !st.confirmed
  }

  /** The button is disabled exactly when the handler would return early. */
  lemma ButtonMatchesGuard(st: ShredState)
    ensures ButtonDisabled(st) <==> GuardBlocks(st)
  {
  }

  /** The arguments of `shredFile`. */
  datatype ShredCall = ShredCall(path: string, passes: int)

  datatype ShredStep = ShredStep(state: ShredState, drafts: seq<LogDraft>, alert: Option<string>, call: Option<ShredCall>)

  predicate ReachesCall(st: ShredState, o: CallOutcome) {
    !GuardBlocks(st) && !o.NoApi?
  }

  /** `handleShredFile`, from the click to the settled state. */
  function HandleShredFile(st: ShredState, loc: AppContext.Locale, o: CallOutcome): (r: ShredStep)
    ensures GuardBlocks(st) ==> r.state == st && r.drafts == [] && r.call.None?
    ensures r.alert.Some? <==> st.selectedFile.Some? && !st.confirmed
    ensures r.alert.Some? ==> r.alert.value == AppContext.T(loc, "shredConfirmProceed")
    ensures !GuardBlocks(st) && o.NoApi? ==>
              r.state == st.(status := StatusError, message := AppContext.T(loc, "electronApiUnavailable"))
              && |r.drafts| == 1 && r.drafts[0].operation == ErrorGeneric
    ensures r.call.Some? <==> ReachesCall(st, o)
    ensures ReachesCall(st, o) ==>
              r.call == Some(ShredCall(BackendPath(st.selectedFile.value), st.passes)) && !r.state.isProcessing
    ensures ReachesCall(st, o) ==> (r.state.status == StatusSuccess <==> o.Replied? && o.reply.success)
    // on success the selection and the confirmation are cleared
    ensures ReachesCall(st, o) && o.Replied? && o.reply.success ==>
              r.state.selectedFile.None? && !r.state.confirmed && r.state.message == AppContext.T(loc, "shredSuccess")
    // on failure both are kept
    ensures ReachesCall(st, o) && !(o.Replied? && o.reply.success) ==>
              r.state.selectedFile == st.selectedFile && r.state.confirmed == st.confirmed
              && r.state.message == FailureMessage(o, AppContext.T(loc, "shredFailed"))
    ensures ReachesCall(st, o) ==>
              |r.drafts| == 1 && r.drafts[0].operation == Shred
              && (r.drafts[0].status == Success <==> o.Replied? && o.reply.success)
    ensures r.state.passes == st.passes
  {
    if GuardBlocks(st) then
      ShredStep(st, [], if st.selectedFile.Some? && !st.confirmed then Some(AppContext.T(loc, "shredConfirmProceed")) else None, None)
    else if o.NoApi? then
      ShredStep(st.(status := StatusError, message := AppContext.T(loc, "electronApiUnavailable")),
        [Draft(ErrorGeneric, "Attempted shredding, but Electron API (shredFile) was not found.", Failure)], None, None)
    else
      var file := st.selectedFile.value;
      var path := BackendPath(file);
      var call := ShredCall(path, st.passes);
      if o.Replied? && o.reply.success then
        ShredStep(st.(isProcessing := false, status := StatusSuccess, message := AppContext.T(loc, "shredSuccess"),
                      selectedFile := None, confirmed := false),
          [LogDraft(Shred, "Securely shredded file \"" + file.name + "\" with " + IntToString(st.passes) + " passes.",
                    Success, Some(path), None, None, None, None)],
          None, Some(call))
      else
        var message := FailureMessage(o, AppContext.T(loc, "shredFailed"));
        ShredStep(st.(isProcessing := false, status := StatusError, message := message),
          [LogDraft(Shred, "Failed to shred file \"" + file.name + "\". Error: " + message, Failure,
                    Some(path), None, None, None, None)],
          None, Some(call))
  }

  /** Selecting a file always asks for a fresh confirmation before the next
      shred can run: the handler then only alerts. */
  lemma NewSelectionNeedsConfirmation(st: ShredState, picked: string, loc: AppContext.Locale, o: CallOutcome)
    requires picked != ""
    ensures var s := HandleFileSelect(st, Some(picked));
            && GuardBlocks(s)
            && HandleShredFile(s, loc, o).call.None?
            && HandleShredFile(s, loc, o).alert == Some(AppContext.T(loc, "shredConfirmProceed"))
  {
  }

  /** A successful shred leaves nothing selected, so a repeated click does
      nothing and raises no alert. */
  lemma SuccessThenClickIsInert(st: ShredState, loc: AppContext.Locale, o: CallOutcome, again: CallOutcome)
    requires ReachesCall(st, o) && o.Replied? && o.reply.success
    ensures var s := HandleShredFile(st, loc, o).state;
            HandleShredFile(s, loc, again) == ShredStep(s, [], None, None)
  {
  }
}
