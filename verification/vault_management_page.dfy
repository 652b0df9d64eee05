/** The vault-management page: creating a vault from the modal, confirmed
    deletion, viewing a vault's contents, the placeholder for adding a file,
    and the case-insensitive search over names and paths. */
module VaultManagementPage {
  import opened Wrappers
  import opened Text
  import opened Types
  import opened PageCommon
  import Seqs
  import AppContext

  datatype VaultPageState = VaultPageState(
    createOpen: bool,
    newName: string,
    newPath: string,
    searchTerm: string,
    viewOpen: bool,
    selected: Option<VaultItem>,
    files: seq<VaultFile>,
    loading: bool)

  // ---------------------------------------------------------------- search

  /** The name or the path contains the term, ignoring case. */
  predicate VaultMatches(term: string, v: VaultItem) {
    Contains(Lower(v.name), Lower(term)) || Contains(Lower(v.path), Lower(term))
  }

  /** `filteredVaults`. */
  function FilteredVaults(vaults: seq<VaultItem>, term: string): (r: seq<VaultItem>)
    ensures forall i :: 0 <= i < |r| ==> r[i] in vaults && VaultMatches(term, r[i])
    ensures forall i :: 0 <= i < |vaults| && VaultMatches(term, vaults[i]) ==> vaults[i] in r
  {
    Seqs.Filter(vaults, (v: VaultItem) => VaultMatches(term, v))
  }

  /** A vault is listed iff it is one of the vaults and matches the term. */
  lemma ListedIffMatches(vaults: seq<VaultItem>, term: string, v: VaultItem)
    ensures v in FilteredVaults(vaults, term) <==> v in vaults && VaultMatches(term, v)
  {
    var r := FilteredVaults(vaults, term);
    if v in r {
      var i :| 0 <= i < |r| && r[i] == v;
    }
    if v in vaults {
      var i :| 0 <= i < |vaults| && vaults[i] == v;
    }
  }

  /** An empty search lists every vault, in order. */
  lemma EmptySearchListsAll(vaults: seq<VaultItem>)
    ensures FilteredVaults(vaults, "") == vaults
  {
    assert Lower("") == "";
    forall i | 0 <= i < |vaults|
      ensures VaultMatches("", vaults[i])
    {
      ContainsEmpty(Lower(vaults[i].name));
    }
    Seqs.FilterKeepsAll(vaults, (v: VaultItem) => VaultMatches("", v));
  }

  // -------------------------------------------------------------- creating

  /** The outcome of a page handler: the page state, the vault list, the
      entries to log and the alerts raised, in order. */
  datatype PageStep = PageStep(state: VaultPageState, vaults: seq<VaultItem>, drafts: seq<LogDraft>, alerts: seq<string>)

  /** The create form is incomplete: the name or the path is blank. */
  predicate FormBlank(st: VaultPageState) {
    Trim(st.newName) == "" || Trim(st.newPath) == ""
  }

  /** `handleCreateVault`: a blank name or path only alerts; otherwise the
      untrimmed values go to `addVault`, and a created vault clears the form
      and closes the modal. */
  function HandleCreateVault(st: VaultPageState, vaults: seq<VaultItem>, loc: AppContext.Locale,
                             outcome: AppContext.CreateOutcome, freshId: string, now: int): (r: PageStep)
    ensures FormBlank(st) ==>
              r == PageStep(st, vaults, [], [AppContext.T(loc, "vaultNameAndPathRequired")])
    ensures !FormBlank(st) ==>
              (var change := AppContext.AddVault(vaults, st.newName, st.newPath, outcome, freshId, now);
               r.alerts == [] && r.vaults == change.vaults && r.drafts == change.drafts)
    ensures !FormBlank(st) && r.vaults != vaults ==>
              r.state == st.(newName := "", newPath := "", createOpen := false)
    ensures !FormBlank(st) && r.vaults == vaults ==> r.state == st
  {
    if FormBlank(st) then PageStep(st, vaults, [], [AppContext.T(loc, "vaultNameAndPathRequired")])
    else
      var change := AppContext.AddVault(vaults, st.newName, st.newPath, outcome, freshId, now);
      if change.created.Some? then
        assert |change.vaults| == |vaults| + 1;
        PageStep(st.(newName := "", newPath := "", createOpen := false), change.vaults, change.drafts, [])
      else PageStep(st, change.vaults, change.drafts, [])
  }

  /** A complete form without a backend always creates the placeholder
      vault, which is then listed by an empty search. */
  lemma CompleteFormCreates(st: VaultPageState, vaults: seq<VaultItem>, loc: AppContext.Locale, freshId: string, now: int)
    requires !FormBlank(st)
    ensures var r := HandleCreateVault(st, vaults, loc, AppContext.NoCreateApi, freshId, now);
            && r.vaults == vaults + [VaultItem(freshId, st.newName, st.newPath, now, 0, 0)]
            && !r.state.createOpen && r.state.newName == "" && r.state.newPath == ""
            && VaultItem(freshId, st.newName, st.newPath, now, 0, 0) in FilteredVaults(r.vaults, "")
  {
    var r := HandleCreateVault(st, vaults, loc, AppContext.NoCreateApi, freshId, now);
    EmptySearchListsAll(r.vaults);
    assert r.vaults[|vaults|] == VaultItem(freshId, st.newName, st.newPath, now, 0, 0);
  }

  /** `handleSelectVaultLocation`: a picked folder becomes the new path. */
  function HandleSelectVaultLocation(st: VaultPageState, picked: Option<string>): (r: VaultPageState)
    ensures Truthy(picked) ==> r == st.(newPath := picked.value)
    ensures !Truthy(picked) ==> r == st
  {
    if Truthy(picked) then st.(newPath := picked.value) else st
  }

  // -------------------------------------------------------------- deleting

  /** `handleDeleteVault`: the vault is deleted only when the user confirms. */
  function HandleDeleteVault(vaults: seq<VaultItem>, id: string, confirmed: bool,
                             outcome: AppContext.DeleteOutcome): (r: AppContext.VaultChange)
    ensures !confirmed ==> r.vaults == vaults && r.drafts == []
    ensures confirmed ==> r == AppContext.DeleteVault(vaults, id, outcome)
  {
    if confirmed then AppContext.DeleteVault(vaults, id, outcome)
    else AppContext.VaultChange(vaults, None, [])
  }

  /** A declined confirmation keeps every vault, whatever the backend would
      have done; a confirmed one without a backend drops exactly that id. */
  lemma DeleteNeedsConfirmation(vaults: seq<VaultItem>, id: string, outcome: AppContext.DeleteOutcome, v: VaultItem)
    ensures HandleDeleteVault(vaults, id, false, outcome).vaults == vaults
    ensures v in HandleDeleteVault(vaults, id, true, AppContext.NoDeleteApi).vaults <==> v in vaults && v.id != id
  {
    var r := HandleDeleteVault(vaults, id, true, AppContext.NoDeleteApi).vaults;
    AppContext.DeleteRemovesExactlyThatId(vaults, id);
    if v in vaults && v.id != id {
      var i :| 0 <= i < |vaults| && vaults[i] == v;
    }
    if v in r {
      var i :| 0 <= i < |r| && r[i] == v;
    }
  }

  // --------------------------------------------------------------- viewing

  /** The outcome of viewing a vault: the page state, the entries to log and
      the alerts raised, in order. */
  datatype ViewStep = ViewStep(state: VaultPageState, drafts: seq<LogDraft>, alerts: seq<string>)

  /** `handleViewVaultContents`, from the click to the settled view: the
      modal is open on that vault and no longer loading; the files are the
      backend's list or empty, and exactly one entry is logged. */
  function HandleViewVaultContents(st: VaultPageState, vault: VaultItem, loc: AppContext.Locale,
                                   outcome: AppContext.ListOutcome): (r: ViewStep)
    ensures r.state.viewOpen && r.state.selected == Some(vault) && !r.state.loading
    ensures r.state.newName == st.newName && r.state.newPath == st.newPath
    ensures outcome.ListReturned? && outcome.success ==>
              r.state.files == outcome.files && r.alerts == []
              && r.drafts == [LogDraft(VaultListContents,
                   "Listed contents for vault \"" + vault.name + "\". Found " + NatToString(|outcome.files|) + " items.",
                   Success, None, Some(vault.name), None, None, None)]
    ensures !(outcome.ListReturned? && outcome.success) ==>
              r.state.files == []
              && r.alerts == (if outcome.NoListApi? then [AppContext.NoListAlert] else [])
                             + [AppContext.Translate(loc, "couldNotLoadVaultContents", [vault.name])]
              && r.drafts == [LogDraft(VaultListContents, "Failed to list contents for vault \"" + vault.name + "\".",
                   Failure, None, Some(vault.name), None, None, None)]
  {
    var shown := st.(selected := Some(vault), viewOpen := true, loading := true, files := []);
    var listed := AppContext.ListVaultContents(outcome);
    var first := if listed.1.Some? then [listed.1.value] else [];
    match listed.0
    case Some(files) =>
      ViewStep(shown.(files := files, loading := false),
        [LogDraft(VaultListContents,
           "Listed contents for vault \"" + vault.name + "\". Found " + NatToString(|files|) + " items.",
           Success, None, Some(vault.name), None, None, None)],
        first)
    case None =>
      ViewStep(shown.(files := [], loading := false),
        [LogDraft(VaultListContents, "Failed to list contents for vault \"" + vault.name + "\".",
           Failure, None, Some(vault.name), None, None, None)],
        first + [AppContext.Translate(loc, "couldNotLoadVaultContents", [vault.name])])
  }

  /** An empty vault still counts as a successful listing: an empty array is
      truthy, so it is logged as a success with zero items. */
  lemma EmptyVaultListsAsSuccess(st: VaultPageState, vault: VaultItem, loc: AppContext.Locale)
    ensures var r := HandleViewVaultContents(st, vault, loc, AppContext.ListReturned(true, []));
            && r.state.files == [] && r.alerts == [] && r.drafts[0].status == Success
            && r.drafts[0].details == "Listed contents for vault \"" + vault.name + "\". Found 0 items."
  {
  }

  /** The view shows what the context's `listVaultContents` returns: its
      files, or none when it returns nothing, and the entry is a success
      exactly when there is a list. */
  lemma ViewShowsListing(st: VaultPageState, vault: VaultItem, loc: AppContext.Locale, outcome: AppContext.ListOutcome)
    ensures var r := HandleViewVaultContents(st, vault, loc, outcome);
            var listed := AppContext.ListVaultContents(outcome);
            && r.state.files == listed.0.GetOr([])
            && (r.drafts[0].status == Success <==> listed.0.Some?)
            && (listed.1.Some? ==> r.alerts[0] == listed.1.value)
  {
  }

  /** Viewing the same vault again with the same outcome leaves the page as
      it is and logs the same entry. */
  lemma ViewAgainIsSame(st: VaultPageState, vault: VaultItem, loc: AppContext.Locale, outcome: AppContext.ListOutcome)
    ensures var r := HandleViewVaultContents(st, vault, loc, outcome);
            HandleViewVaultContents(r.state, vault, loc, outcome) == r
  {
  }

  /** The page's `translate` expands `$` patterns in the vault name; for a
      name without `$` the failure alert is the same. */
  lemma ViewAlertAsWrittenAgrees(vault: VaultItem, loc: AppContext.Locale)
    requires AppContext.NoChar(vault.name, '$')
    ensures AppContext.Translate(loc, "couldNotLoadVaultContents", [vault.name])
            == AppContext.TranslateAsWritten(loc, "couldNotLoadVaultContents", [vault.name])
  {
    AppContext.TranslateAgreesWithoutDollar(loc, "couldNotLoadVaultContents", [vault.name]);
  }

  // ---------------------------------------------------------- adding files

  /** The placeholder shown once a source and a password have been given. */
  function AddFilePlaceholder(source: string, vault: VaultItem): (r: string)
    ensures IsPrefix("TODO (Backend): ", r)
  {
    "TODO (Backend): " + ("Implement window.electronAPI.addFileToVault.\nAdding \"" + source + "\" to vault \""
      + vault.name + "\" at path \"" + vault.path + "\". Requires encryption with password.")
  }

  /** `handleAddFileToVault`: the only effect is an alert. Without both
      backend functions it reports them unavailable; a cancelled pick or an
      empty password ends it silently; otherwise it shows the placeholder. */
  function HandleAddFileToVault(vault: VaultItem, loc: AppContext.Locale, apiPresent: bool,
                                picked: Option<string>, password: Option<string>): (r: Option<string>)
    ensures !apiPresent ==> r == Some(AppContext.T(loc, "electronApiUnavailable"))
    ensures apiPresent ==> (r.Some? <==> Truthy(picked) && Truthy(password))
    ensures apiPresent && r.Some? ==> IsPrefix("TODO (Backend): ", r.value)
  {
    if !apiPresent then Some(AppContext.T(loc, "electronApiUnavailable"))
    else if !Truthy(picked) then None
    else if !Truthy(password) then None
    else
      Some(AddFilePlaceholder(picked.value, vault))
  }

  /** Only whether a password was given matters, not what it is, and the
      placeholder names the picked source and the vault. */
  lemma AddFileIgnoresPassword(vault: VaultItem, loc: AppContext.Locale, picked: Option<string>, p1: string, p2: string)
    requires p1 != "" && p2 != "" && Truthy(picked)
    ensures HandleAddFileToVault(vault, loc, true, picked, Some(p1)) == HandleAddFileToVault(vault, loc, true, picked, Some(p2))
    ensures var r := HandleAddFileToVault(vault, loc, true, picked, Some(p1));
            r.Some? && Contains(r.value, picked.value) && Contains(r.value, vault.name)
  {
    var src := picked.value;
    var a := "TODO (Backend): " + "Implement window.electronAPI.addFileToVault.\nAdding \"";
    var b := "\" to vault \"";
    var c := "\" at path \"" + vault.path + "\". Requires encryption with password.";
    assert AddFilePlaceholder(src, vault) == a + src + (b + vault.name + c);
    assert AddFilePlaceholder(src, vault) == (a + src + b) + vault.name + c;
    ContainsInfix(a, src, b + vault.name + c);
    ContainsInfix(a + src + b, vault.name, c);
  }
}
