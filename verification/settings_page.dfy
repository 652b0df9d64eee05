/** The settings page: the six application settings, how a stored or
    imported record is merged over the defaults, what save and export
    write, and what an import changes. A JSON record is modelled with one
    optional field per key; `None` is a missing key. */
module SettingsPage {
  import opened Wrappers
  import opened Types
  import AppContext

  /** The application settings the page owns. */
  datatype Settings = Settings(
    appLockEnabled: bool,
    autoLockMinutes: int,
    defaultAlgorithm: EncryptionAlgorithm,
    defaultShredPasses: int,
    deleteOriginalAfterEncrypt: bool,
    deleteEncryptedAfterDecrypt: bool)

  const DefaultAutoLock := 0
  const DefaultPasses := 3
  const DefaultAlgorithm := AES256_GCM

  /** The page's initial state, before anything is loaded. */
  function DefaultSettings(): (r: Settings)
    ensures !r.appLockEnabled && r.autoLockMinutes == 0 && r.defaultAlgorithm == AES256_GCM
    ensures r.defaultShredPasses == 3 && !r.deleteOriginalAfterEncrypt && !r.deleteEncryptedAfterDecrypt
  {
    Settings(false, DefaultAutoLock, DefaultAlgorithm, DefaultPasses, false, false)
  }

  /** A settings record as written to storage or to an export file. */
  datatype SettingsRecord = SettingsRecord(
    theme: Option<Theme>,
    language: Option<Language>,
    appLockEnabled: Option<bool>,
    autoLockMinutes: Option<int>,
    defaultAlgorithm: Option<EncryptionAlgorithm>,
    defaultShredPasses: Option<int>,
    deleteOriginalAfterEncrypt: Option<bool>,
    deleteEncryptedAfterDecrypt: Option<bool>)

  /** `value || false` for a boolean field. */
  function FlagOr(o: Option<bool>): (r: bool)
    ensures r <==> o == Some(true)
  {
    o.Some? && o.value
  }

  /** `value || default` for a numeric field: a missing value and 0 are
      both falsy. */
  function NumberOr(o: Option<int>, default: int): (r: int)
    ensures o.Some? && o.value != 0 ==> r == o.value
    ensures o.None? || o.value == 0 ==> r == default
  {
    if o.Some? && o.value != 0 then o.value else default
  }

  /** The six `||` merges shared by loading and importing. */
  function Merge(rec: SettingsRecord): (r: Settings)
    ensures r.appLockEnabled <==> rec.appLockEnabled == Some(true)
    ensures r.autoLockMinutes == NumberOr(rec.autoLockMinutes, DefaultAutoLock)
    ensures r.defaultAlgorithm == rec.defaultAlgorithm.GetOr(DefaultAlgorithm)
    ensures r.defaultShredPasses == NumberOr(rec.defaultShredPasses, DefaultPasses)
    ensures r.deleteOriginalAfterEncrypt <==> rec.deleteOriginalAfterEncrypt == Some(true)
    ensures r.deleteEncryptedAfterDecrypt <==> rec.deleteEncryptedAfterDecrypt == Some(true)
  {
    Settings(FlagOr(rec.appLockEnabled), NumberOr(rec.autoLockMinutes, DefaultAutoLock),
             rec.defaultAlgorithm.GetOr(DefaultAlgorithm), NumberOr(rec.defaultShredPasses, DefaultPasses),
             FlagOr(rec.deleteOriginalAfterEncrypt), FlagOr(rec.deleteEncryptedAfterDecrypt))
  }

  /** A record with every field missing merges to the defaults. */
  lemma EmptyRecordGivesDefaults()
    ensures Merge(SettingsRecord(None, None, None, None, None, None, None, None)) == DefaultSettings()
  {
  }

  /** What storage held: nothing (or an empty string), a parsed record, or
      text that does not parse. */
  datatype Stored = NothingStored | StoredRecord(rec: SettingsRecord) | StoredGarbage

  /** Loading on mount: a stored record is merged over the defaults;
      otherwise the page keeps what it has. Unparseable text makes the
      loading effect throw before any setting is changed. */
  function Load(current: Settings, stored: Stored): (r: Settings)
    ensures stored.StoredRecord? ==> r == Merge(stored.rec)
    ensures !stored.StoredRecord? ==> r == current
  {
    match stored
    case StoredRecord(rec) => Merge(rec)
    case _ => current
  }

  /** The whole view the page reads and writes: the context's theme and
      language and the page's own settings. */
  datatype SettingsView = SettingsView(theme: Theme, language: Language, settings: Settings)

  /** The six stored fields, and optionally theme and language. */
  function Record(s: Settings, theme: Option<Theme>, language: Option<Language>): SettingsRecord {
    SettingsRecord(theme, language, Some(s.appLockEnabled), Some(s.autoLockMinutes), Some(s.defaultAlgorithm),
                   Some(s.defaultShredPasses), Some(s.deleteOriginalAfterEncrypt), Some(s.deleteEncryptedAfterDecrypt))
  }

  datatype SaveResult = SaveResult(written: SettingsRecord, draft: LogDraft, alert: string)

  /** `saveSettings`: writes the six settings and neither theme nor
      language, logs a successful settings change and confirms. */
  function Save(s: Settings, loc: AppContext.Locale): (r: SaveResult)
    ensures r.written.theme.None? && r.written.language.None?
    ensures r.written.appLockEnabled == Some(s.appLockEnabled) && r.written.autoLockMinutes == Some(s.autoLockMinutes)
    ensures r.written.defaultAlgorithm == Some(s.defaultAlgorithm) && r.written.defaultShredPasses == Some(s.defaultShredPasses)
    ensures r.written.deleteOriginalAfterEncrypt == Some(s.deleteOriginalAfterEncrypt)
    ensures r.written.deleteEncryptedAfterDecrypt == Some(s.deleteEncryptedAfterDecrypt)
    ensures r.draft == Draft(SettingsChange, "Application settings updated.", Success)
    ensures r.alert == AppContext.T(loc, "settings") + " " + AppContext.T(loc, "saved") + "!"
  {
    SaveResult(Record(s, None, None), Draft(SettingsChange, "Application settings updated.", Success),
               AppContext.T(loc, "settings") + " " + AppContext.T(loc, "saved") + "!")
  }

  /** The one value that does not survive a write and a read: a pass count
      of 0 is falsy and reads back as 3. */
  function AfterRoundTrip(s: Settings): (r: Settings)
    ensures r == s <==> s.defaultShredPasses != 0
  {
    if s.defaultShredPasses == 0 then s.(defaultShredPasses := DefaultPasses) else s
  }

  /** Saving and loading again restores the settings, except a pass count of
      0, which comes back as 3. */
  lemma SaveThenLoad(s: Settings, current: Settings, loc: AppContext.Locale)
    ensures Load(current, StoredRecord(Save(s, loc).written)) == AfterRoundTrip(s)
  {
  }

  datatype ExportResult = ExportResult(written: SettingsRecord, draft: LogDraft)

  /** `handleExportSettings`: the six settings plus theme and language;
      logged as information. */
  function Export(v: SettingsView): (r: ExportResult)
    ensures r.written.theme == Some(v.theme) && r.written.language == Some(v.language)
    ensures Merge(r.written) == AfterRoundTrip(v.settings)
    ensures r.draft == Draft(SettingsChange, "Settings exported.", Info)
  {
    ExportResult(Record(v.settings, Some(v.theme), Some(v.language)), Draft(SettingsChange, "Settings exported.", Info))
  }

  /** An export writes what a save writes, plus theme and language. */
  lemma ExportIsSavePlusAppearance(v: SettingsView, loc: AppContext.Locale)
    ensures Export(v).written.(theme := None, language := None) == Save(v.settings, loc).written
  {
  }

  /** The chosen import file: none, text that does not parse, or a record. */
  datatype ImportInput = NoFile | Unparseable | Imported(rec: SettingsRecord)

  datatype ImportResult = ImportResult(view: SettingsView, drafts: seq<LogDraft>, alert: Option<string>)

  /** `handleImportSettings`: theme and language change only when the file
      has them; the six settings are always overwritten by the merge. A file
      that does not parse only raises an alert. */
  function Import(v: SettingsView, loc: AppContext.Locale, input: ImportInput): (r: ImportResult)
    ensures input.NoFile? ==> r == ImportResult(v, [], None)
    ensures input.Unparseable? ==>
              r.view == v && r.drafts == []
              && r.alert == Some(AppContext.T(loc, "error") + ": " + AppContext.T(loc, "settingsImportFailed"))
    ensures input.Imported? ==>
              r.view.theme == input.rec.theme.GetOr(v.theme)
              && r.view.language == input.rec.language.GetOr(v.language)
              && r.view.settings == Merge(input.rec)
              && r.drafts == [Draft(SettingsChange, "Settings imported.", Info)]
              && r.alert == Some(AppContext.T(loc, "settings") + " " + AppContext.T(loc, "imported") + " "
                                 + AppContext.T(loc, "successfully") + "!")
  {
    match input
    case NoFile => ImportResult(v, [], None)
    case Unparseable =>
      ImportResult(v, [], Some(AppContext.T(loc, "error") + ": " + AppContext.T(loc, "settingsImportFailed")))
    case Imported(rec) =>
      ImportResult(SettingsView(rec.theme.GetOr(v.theme), rec.language.GetOr(v.language), Merge(rec)),
        [Draft(SettingsChange, "Settings imported.", Info)],
        Some(AppContext.T(loc, "settings") + " " + AppContext.T(loc, "imported") + " "
             + AppContext.T(loc, "successfully") + "!"))
  }

  /** Exporting and importing the file restores all eight fields, whatever
      the view was before the import, except that a pass count of 0 comes
      back as 3; so the round trip is exact iff the pass count is not 0. */
  lemma ExportThenImport(v: SettingsView, before: SettingsView, loc: AppContext.Locale)
    ensures var r := Import(before, loc, Imported(Export(v).written)).view;
            r == v.(settings := AfterRoundTrip(v.settings))
    ensures Import(before, loc, Imported(Export(v).written)).view == v <==> v.settings.defaultShredPasses != 0
  {
  }

  /** A saved record carries no theme or language, so importing it keeps
      the current ones. */
  lemma ImportingSavedKeepsAppearance(s: Settings, before: SettingsView, loc: AppContext.Locale)
    ensures var r := Import(before, loc, Imported(Save(s, loc).written)).view;
            r.theme == before.theme && r.language == before.language && r.settings == AfterRoundTrip(s)
  {
  }
}
