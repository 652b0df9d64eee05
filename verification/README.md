# Knoux UltraEncrypt Pro — a Dafny model of the desktop shell's logic

Knoux UltraEncrypt Pro is a React/Electron desktop shell for local file
encryption. The renderer is made of pages (encrypt, decrypt, secure shredder,
key generator, vault management, activity log, settings, login), shared
components (file dropzone, styled button, header) and one application
context. The context holds the session, the theme and language, the
translations, the activity log and the vault list. Every cryptographic,
shredding and vault operation goes through an IPC bridge to a backend that
the repository declares but does not implement.

This project models that logic as pure Dafny functions over immutable
datatypes:

- Each page handler is a function from the page state and the outcome of the
  backend call to the new state. It also returns the activity-log drafts it
  hands to `addLogEntry`, any alerts it raises, and the arguments it passes
  to the backend. A backend call is replaced by its outcome: no API, a reply,
  or a rejection with an optional message.
- User answers are inputs: pickers, `confirm`, `prompt`, the chosen import file.
- Identifiers, timestamps and random draws are parameters: `uuid`, `Date.now`,
  `Math.random`.
- Messages are real strings built over a `Locale`, which is a translation
  table plus the current language. The table itself lives in `constants.ts`,
  which is not part of this model, so it is a parameter. The pages use
  `AppContext.Translate`, which inserts every argument verbatim. The
  context's `translate` as written, which lets `replace` expand `$` patterns
  in an argument, is `AppContext.TranslateAsWritten`, modelled beside it (see
  Findings); the two agree on arguments without `$`.
- JavaScript semantics the code relies on are written out. These include
  truthiness of `''` and `0`, the `||` defaults, `String.prototype.trim`'s
  whitespace set, `split`/`join`, and `replace` with a string replacement.
- The activity-log view sorts a copy of the log. It is modelled as a stable
  insertion sort with its permutation and ordering properties.

In electron/main.ts only the pickers and the version query are implemented.
The encryption, decryption, shredding and vault handlers there are stubs that
log a TODO and reply with failure (electron/main.ts:134-203). The renderer's
handlers only pass arguments to the bridge and interpret its replies, so the
model takes every reply as an input rather than following the stubs.

## Model

| member | source | states |
|---|---|---|
| Types.AlgorithmTagsRoundTrip | types.ts:11-17 | The wire tag of every algorithm parses back to that algorithm; a tag parses iff it is one of the declared tags |
| Types.ParseAlgorithm | types.ts:11-17 | A parsed algorithm has the tag that was read |
| Types.OperationTagInjective | types.ts:68 | Distinct log operations have distinct wire names |
| Seqs.Filter | pages/VaultManagementPage.tsx:95-98 | The result keeps exactly the elements that satisfy the predicate, each at most as often as in the input |
| Text.ContainsIff | pages/ActivityLogPage.tsx:29-35 | `includes` holds iff the needle occurs at some index |
| Text.ContainsEmpty | pages/VaultManagementPage.tsx:95-98 | Every string includes the empty string, so an empty search term matches everything |
| Text.IndexOf | contexts/AppContext.tsx:122 | The index found is the first occurrence; no occurrence means none is found |
| Text.SplitPiecesFree | pages/EncryptPage.tsx:36 | No piece produced by `split` contains a separator |
| Text.SplitFirstPiece | components/shared/FileDropzone.tsx:83 | The first piece of `split` is a prefix of the input, followed by a separator unless it is the whole input |
| Text.SplitLastPiece | pages/EncryptPage.tsx:36 | The last piece of `split` is a suffix of the input preceded by a separator, or the whole input when there is one piece |
| Text.JoinSplit | components/shared/FileDropzone.tsx:74-76 | Joining the pieces of a split with the same separator gives back the input |
| Text.SplitJoin | components/shared/FileDropzone.tsx:74-76 | Splitting a join of separator-free pieces gives back the pieces |
| Text.JoinAppend | components/shared/FileDropzone.tsx:74-76 | Joining a concatenation is joining each part with a separator between them |
| Text.LastSegment | pages/EncryptPage.tsx:36 | The last path segment contains no separator and ends the path |
| Text.LastSegmentUnique | pages/EncryptPage.tsx:36 | Any separator-free suffix preceded by a separator (or equal to the path) is the last segment |
| Text.Basename | pages/EncryptPage.tsx:36 | An empty last segment falls back to the default name; otherwise it is the last segment |
| Text.BasenameOfFilePath | pages/EncryptPage.tsx:36 | A directory plus a non-empty separator-free file name has that file name as basename |
| Text.TrimEmptyIff | contexts/AppContext.tsx:150 | A string trims to empty iff all of its characters are JavaScript whitespace |
| Text.Trim | pages/VaultManagementPage.tsx:26 | The trimmed string is a contiguous piece of the input with only whitespace around it, and it neither starts nor ends with whitespace |
| Text.NatToStringRoundTrip | pages/VaultManagementPage.tsx:63 | The decimal rendering of a count consists of digits and reads back as the count |
| Text.StrLessTrichotomy | pages/ActivityLogPage.tsx:41-47 | For two strings, exactly one of less, equal or greater holds |
| Text.StrLessTransitive | pages/ActivityLogPage.tsx:41-47 | String `<` is transitive, so the configured sort is consistent |
| PageCommon.GetElectronFilePath | pages/EncryptPage.tsx:13-16 | A non-empty `path` wins; otherwise `relativePath` is used |
| PageCommon.BackendPath | pages/EncryptPage.tsx:96 | The backend receives the Electron path when it is truthy, and the file name otherwise |
| PageCommon.PickedFile | pages/EncryptPage.tsx:36-38 | A picked path becomes a file whose name is its basename and whose path is the picked path |
| PageCommon.PickedFileRoundTrip | pages/EncryptPage.tsx:36-38 | A picked file sends the backend exactly the picked path, and has a non-empty name |
| PageCommon.FailureMessage | pages/EncryptPage.tsx:121-125 | A failure shows the reply's error, or the rejection's message, or the translated default |
| AppContext.AddLogEntry | contexts/AppContext.tsx:132-139 | The new entry is first, the older entries follow in order, and at most 200 are kept |
| AppContext.AddAllNewestFirst | contexts/AppContext.tsx:138 | After any sequence of additions, the log holds the most recent ones newest first, up to 200 |
| AppContext.AddAllKeepsOlder | contexts/AppContext.tsx:132-139 | While below capacity, adding entries only stacks them on top and the earlier log stays as the tail, unchanged |
| AppContext.ClearEntryStaysOldest | contexts/AppContext.tsx:132-144 | After a clear, the clearing entry remains the oldest entry while fewer than 200 entries follow it |
| AppContext.ClearActivityLog | contexts/AppContext.tsx:141-144 | Clearing leaves exactly one entry, an informational "Activity log cleared." |
| AppContext.Lookup | contexts/AppContext.tsx:119 | A non-empty table text for the current language is returned; a missing or empty one falls back to the key |
| AppContext.ReplaceFirstSpec | contexts/AppContext.tsx:122 | One step replaces only the first occurrence of the placeholder, with the text before and after kept |
| AppContext.Substitute | contexts/AppContext.tsx:120-124 | A template holding none of the placeholders of the remaining arguments comes back unchanged |
| AppContext.SubstituteAsWritten | contexts/AppContext.tsx:120-124 | As written, too, a template holding none of the remaining placeholders comes back unchanged |
| AppContext.PlaceholderShape | contexts/AppContext.tsx:122 | `{i}` is a brace, the decimal digits of i and a closing brace, with no further `{` |
| AppContext.PlaceholderInterior | contexts/AppContext.tsx:122 | An occurrence of a placeholder has a brace at its start and none inside |
| AppContext.PlaceholderAtSamePlace | contexts/AppContext.tsx:122 | Two placeholders that occur at the same index have the same number |
| AppContext.SpliceKeeps | contexts/AppContext.tsx:122 | Replacing one placeholder occurrence by any text keeps every occurrence of a different placeholder |
| AppContext.ReplaceKeepsOthers | contexts/AppContext.tsx:122 | A verbatim step for `{k}` keeps every other placeholder present |
| AppContext.SubstituteKeepsUnmatched | contexts/AppContext.tsx:120-124 | A placeholder that no remaining step targets survives the whole substitution |
| AppContext.SubstituteAsWrittenKeepsUnmatched | contexts/AppContext.tsx:120-124 | As written, too, a placeholder no remaining step targets survives |
| AppContext.TranslateKeepsUnmatched | contexts/AppContext.tsx:118-126 | A `{j}` with no argument at index j is shown as it is, in both translations, whatever the arguments |
| AppContext.BracesConcat | contexts/AppContext.tsx:122 | If every brace of two strings opens `{i}`, so does every brace of their concatenation |
| AppContext.BracesOfPlaceholder | contexts/AppContext.tsx:122 | The only brace of `{i}` opens `{i}` |
| AppContext.ExpandBraces | contexts/AppContext.tsx:122 | Without `{` in the argument or around the match, every brace of the expansion opens a copy of the matched placeholder |
| AppContext.MissesOtherPlaceholders | contexts/AppContext.tsx:122 | Where every brace opens `{i}`, no other placeholder occurs |
| AppContext.FirstCopyAt | contexts/AppContext.tsx:122 | After a brace-free prefix, the first `{i}` is the one directly after it |
| AppContext.SubstituteSkips | contexts/AppContext.tsx:120-124 | Steps whose placeholder is absent are skipped |
| AppContext.SubstituteAsWrittenSkips | contexts/AppContext.tsx:120-124 | As written, too, steps whose placeholder is absent are skipped |
| AppContext.SinglePlaceholderTemplate | contexts/AppContext.tsx:120-124 | In a template `t0{i}t1` with no other brace, every brace opens `{i}` and no earlier placeholder occurs |
| AppContext.TranslateFillsPlaceholder | contexts/AppContext.tsx:118-126 | In a template `t0{i}t1` with no other brace and a brace-free `args[i]`, the translation is `t0 + args[i] + t1` |
| AppContext.TranslateAsWrittenFillsPlaceholder | contexts/AppContext.tsx:118-126 | As written, the same template shows `t0`, the `$`-expansion of `args[i]`, then `t1` |
| AppContext.ReplaceAsWrittenKeepsOthers | contexts/AppContext.tsx:122 | The as-written step for `{k}` keeps every other placeholder present |
| AppContext.Translate | contexts/AppContext.tsx:118-126 | Without arguments a translation is the lookup; a missing or empty entry shows the key |
| AppContext.SubstituteWithoutPlaceholders | contexts/AppContext.tsx:120-124 | A text without `{` is unchanged by substitution, whatever the arguments |
| AppContext.TranslateAsWritten | contexts/AppContext.tsx:118-126 | The code's translation agrees with the lookup when there are no arguments, and shows the key for a missing or empty entry |
| AppContext.TranslateAgreesWithoutDollar | contexts/AppContext.tsx:122 | When no argument contains `$`, the code's translation equals the verbatim one |
| AppContext.ReplaceExampleAsWritten | contexts/AppContext.tsx:122 | Replacing `{0}` in "Hi {0}" by "a$&b" yields "Hi a{0}b" |
| AppContext.ReplaceExampleVerbatim | contexts/AppContext.tsx:122 | The verbatim replacement of the same input yields "Hi a$&b" |
| AppContext.DollarInArgumentIsExpanded | contexts/AppContext.tsx:118-126 | For a welcome text "Hi {0}" and user name "a$&b", the code's translation differs from the intended one |
| AppContext.Charset | contexts/AppContext.tsx:288-293 | The fallback charset is never empty, and with every class off it is the lower-case letters |
| AppContext.CharsetMembership | contexts/AppContext.tsx:288-293 | A character is in the charset iff its class is enabled, or it is a lower-case letter and no class is |
| AppContext.GeneratePasswordFallback | contexts/AppContext.tsx:295-299 | The fallback password has the requested length and each character is the charset at the drawn index |
| AppContext.GeneratePassword | contexts/AppContext.tsx:283-300 | The backend's password is used when present; otherwise the fallback's length and charset hold |
| AppContext.Login | contexts/AppContext.tsx:147-166 | Login succeeds iff both trimmed fields are non-empty; the session then holds the trimmed name; a failure keeps the session; the attempt is logged |
| AppContext.LoginRefusedIffBlank | contexts/AppContext.tsx:150 | A login is refused iff the name or the password is all whitespace |
| AppContext.Logout | contexts/AppContext.tsx:168-173 | Logout clears the session and logs the user who left |
| AppContext.LoginThenLogout | contexts/AppContext.tsx:147-173 | Logging out after a successful login ends the session and logs the trimmed name |
| AppContext.AddVault | contexts/AppContext.tsx:175-207 | A vault is appended iff there is no backend or the backend reports success with a vault; one create entry is logged with the matching status |
| AppContext.FindVault | contexts/AppContext.tsx:210 | The vault found is the first with that id; none is found iff no vault has it |
| AppContext.DeleteVault | contexts/AppContext.tsx:209-235 | An unknown id changes nothing and logs nothing; otherwise the list loses that id on success and stays on failure, with one delete entry |
| AppContext.DeleteRemovesExactlyThatId | contexts/AppContext.tsx:230-234 | Deleting without a backend keeps every vault with another id, in order, and no vault with that id |
| AppContext.AddThenDeleteRestores | contexts/AppContext.tsx:193-234 | Creating a placeholder vault with a fresh id and deleting it restores the list |
| AppContext.ListVaultContents | contexts/AppContext.tsx:237-254 | Files are returned iff the backend reports success; a missing backend raises the one unavailability alert |
| EncryptPage.InitialState | pages/EncryptPage.tsx:20-31 | The page starts with no files, no folder, not processing and no shredding |
| EncryptPage.HandleFileSelect | pages/EncryptPage.tsx:33-42 | A picked path becomes the only selected file, named by its basename; a cancel changes nothing |
| EncryptPage.HandleOutputFolderSelect | pages/EncryptPage.tsx:44-50 | A picked folder becomes the output folder; a cancel changes nothing |
| EncryptPage.FirstFailure | pages/EncryptPage.tsx:52-74 | No failure is reported iff every check passes; a failure is one of the four message keys |
| EncryptPage.ValidateInputs | pages/EncryptPage.tsx:52-74 | Validation passes iff a file and a folder are set and the password is non-empty and confirmed; a failure shows its message |
| EncryptPage.FirstFailureOrder | pages/EncryptPage.tsx:52-74 | Checks are reported in the order file, folder, password, confirmation |
| EncryptPage.Request | pages/EncryptPage.tsx:99-105 | The backend receives the first file's path, the folder, the password, the algorithm and the shred flag |
| EncryptPage.InFlight | pages/EncryptPage.tsx:91-93 | While a request is in flight the page is processing and shows the progress message |
| EncryptPage.SuccessDrafts | pages/EncryptPage.tsx:107-119 | A success logs an encryption entry first, and a shred entry iff shredding was asked for |
| EncryptPage.HandleEncrypt | pages/EncryptPage.tsx:76-138 | Invalid input, a second click or a missing API never reach the backend; a reached call settles with success iff an output was produced, one matching entry, and processing off |
| EncryptPage.AttemptSettles | pages/EncryptPage.tsx:91-137 | A click during a request does nothing, and every request ends with processing off |
| DecryptPage.HandleFileSelect | pages/DecryptPage.tsx:33-42 | A picked path becomes the selection named by its basename or `unknown_file.knxenc`; a cancel changes nothing |
| DecryptPage.InitialState | pages/DecryptPage.tsx:21-29 | The page starts with nothing selected, an empty password, the first algorithm, idle and not shredding |
| DecryptPage.HandleOutputFolderSelect | pages/DecryptPage.tsx:43-49 | A picked folder becomes the output folder and clears the status; a cancel changes nothing |
| DecryptPage.SelectionsCommute | pages/DecryptPage.tsx:33-49 | Picking the file and picking the folder in either order give the same page |
| DecryptPage.FreshPageAsksForFile | pages/DecryptPage.tsx:21-69 | A fresh page asks for the encrypted file; with a file and a folder only the password is missing |
| DecryptPage.FirstFailure | pages/DecryptPage.tsx:52-69 | No failure is reported iff every check passes; a failure is one of the three message keys |
| DecryptPage.ValidateInputs | pages/DecryptPage.tsx:52-69 | Validation passes iff a file and a folder are set and the password is non-empty |
| DecryptPage.FirstFailureOrder | pages/DecryptPage.tsx:52-69 | Checks are reported in the order file, folder, password |
| DecryptPage.Request | pages/DecryptPage.tsx:93-102 | The call never passes an IV, salt or tag, and carries the selection, folder, password, algorithm and flag |
| DecryptPage.InFlight | pages/DecryptPage.tsx:86-88 | While a request is in flight the page is processing and shows the progress message |
| DecryptPage.HandleDecrypt | pages/DecryptPage.tsx:71-132 | Invalid input, a second click or a missing API never reach the backend; a reached call settles with success iff an output was produced, one matching entry, and processing off |
| DecryptPage.AttemptSettles | pages/DecryptPage.tsx:71-132 | A click during a request does nothing, and every request ends with processing off |
| SecureShredderPage.InitialState | pages/SecureShredderPage.tsx:17-22 | The page starts with 3 passes, nothing selected and nothing confirmed |
| SecureShredderPage.HandleFileSelect | pages/SecureShredderPage.tsx:25-35 | A new selection clears the confirmation; the pass count is kept |
| SecureShredderPage.ButtonMatchesGuard | pages/SecureShredderPage.tsx:175 | The shred button is disabled exactly when the handler would return early |
| SecureShredderPage.HandleShredFile | pages/SecureShredderPage.tsx:37-98 | An unconfirmed selection only alerts; a reached call passes the path and passes; success clears the selection and confirmation, failure keeps both |
| SecureShredderPage.NewSelectionNeedsConfirmation | pages/SecureShredderPage.tsx:25-43 | After a new selection, the next shred click only asks for confirmation |
| SecureShredderPage.SuccessThenClickIsInert | pages/SecureShredderPage.tsx:70-80 | After a successful shred, another click does nothing and raises no alert |
| KeyGeneratorPage.VarietyExtremes | pages/KeyGeneratorPage.tsx:84-88 | Variety is 4 iff every class is enabled and present, and 0 iff none is |
| KeyGeneratorPage.EveryCharHasOneClass | pages/KeyGeneratorPage.tsx:85-88 | Every character is in some class; a symbol is exactly a character in none of the other three |
| KeyGeneratorPage.Variety | pages/KeyGeneratorPage.tsx:84-88 | At most four classes count towards the variety |
| KeyGeneratorPage.Score | pages/KeyGeneratorPage.tsx:90-101 | The score is the length band plus at most two bonuses, and just the band with fewer than three classes |
| KeyGeneratorPage.ScoreMonotoneInLength | pages/KeyGeneratorPage.tsx:90-101 | A longer key never scores lower at equal variety |
| KeyGeneratorPage.ScoreMonotoneInVariety | pages/KeyGeneratorPage.tsx:98-101 | More variety never scores lower at equal length |
| KeyGeneratorPage.ScoreExtremes | pages/KeyGeneratorPage.tsx:93-101 | The score is 4 iff the key has 16+ characters and 3+ classes, and 0 iff it has fewer than 8 and fewer than 3 |
| KeyGeneratorPage.Tier | pages/KeyGeneratorPage.tsx:103-107 | Each local score gets a tier carrying that score |
| KeyGeneratorPage.TierInjective | pages/KeyGeneratorPage.tsx:103-107 | Different scores have different labels and colours |
| KeyGeneratorPage.CalculateLocalKeyStrength | pages/KeyGeneratorPage.tsx:79-108 | An empty key has no strength; any other key gets the tier of its length and variety score |
| KeyGeneratorPage.FullVarietyLongKeyIsVeryStrong | pages/KeyGeneratorPage.tsx:93-101 | A key of 16+ characters using all four enabled classes is very strong |
| KeyGeneratorPage.AILabel | pages/KeyGeneratorPage.tsx:64-76 | A score outside 0..4 keeps the starting weak label and orange colour |
| KeyGeneratorPage.AILabelMatchesTier | pages/KeyGeneratorPage.tsx:64-107 | On 0..4 the service's switch and the local table give the same label and colour |
| KeyGeneratorPage.MapAIScoreToLocal | pages/KeyGeneratorPage.tsx:64-77 | The service's score is kept; 0..4 get the local tier, other numbers the weak label; the feedback is the non-empty warning, else the joined suggestions, else empty |
| KeyGeneratorPage.AIAndLocalAgree | pages/KeyGeneratorPage.tsx:64-108 | When the AI gives the local score, both paths show the same strength |
| KeyGeneratorPage.ActiveSegments | pages/KeyGeneratorPage.tsx:10-11 | The active count is the score clamped to 1..5 |
| KeyGeneratorPage.ScoreColor | pages/KeyGeneratorPage.tsx:13-19 | A score indexing the colour list gets its colour; any other shows the text `undefined` |
| KeyGeneratorPage.SegmentsLit | pages/KeyGeneratorPage.tsx:26-36 | A segment has the score's colour iff its index is below the active count; a score of 0..4 leaves the fifth unlit, a higher one lights all five as `undefined` |
| KeyGeneratorPage.InitialState | pages/KeyGeneratorPage.tsx:48-54 | The generator starts with length 24, at least one class enabled, no key and no strength |
| KeyGeneratorPage.UpdateKeyStrength | pages/KeyGeneratorPage.tsx:110-140 | An empty key clears the strength; an AI result wins and its non-empty feedback becomes the suggestion; otherwise the local strength is used and the previous suggestion stays; "unavailable" iff there is no AI API, "fallback" iff the call threw or returned nothing usable |
| KeyGeneratorPage.RescoreForgetsPrevious | pages/KeyGeneratorPage.tsx:110-140 | Re-scoring with the same outcome overwrites whatever an earlier scoring wrote, whatever the options became in between |
| KeyGeneratorPage.RescoreIsFixpoint | pages/KeyGeneratorPage.tsx:164-166 | Re-running the strength effect on an already scored key with the same outcome changes nothing |
| KeyGeneratorPage.AIPathShowsLocalStrength | pages/KeyGeneratorPage.tsx:110-140 | A service verdict equal to the local score shows the strength the local fallback would show |
| KeyGeneratorPage.HandleGenerateKey | pages/KeyGeneratorPage.tsx:143-157 | With no class enabled only an alert is raised; otherwise the key is the generated password, its strength follows, one entry is logged, and the strength effect that follows is already satisfied |
| KeyGeneratorPage.Mount | pages/KeyGeneratorPage.tsx:159-166 | On mount a key is generated with the default options without an alert, one entry is logged, a fallback key has 24 characters, and the strength effect is satisfied |
| KeyGeneratorPage.HandleOptionChange | pages/KeyGeneratorPage.tsx:180-182 | An edit changes exactly the field it names |
| KeyGeneratorPage.OptionEditOverrides | pages/KeyGeneratorPage.tsx:180-182 | A second edit of the same field overrides the first |
| KeyGeneratorPage.OptionEditsCommute | pages/KeyGeneratorPage.tsx:180-182 | Edits of different fields commute |
| KeyGeneratorPage.ChangeOption | pages/KeyGeneratorPage.tsx:164-182 | An option edit keeps the key, applies the edit and re-scores the key with the edited options |
| KeyGeneratorPage.ChangeOptionOverrides | pages/KeyGeneratorPage.tsx:164-182 | On the page, a second edit of the same field overrides the first, strength included |
| KeyGeneratorPage.ChangeOptionsCommute | pages/KeyGeneratorPage.tsx:164-182 | On the page, edits of different fields commute, strength included |
| ActivityLogPage.ByStatus | pages/ActivityLogPage.tsx:25-27 | A status filter keeps only entries with that status; "all" keeps the log |
| ActivityLogPage.BySearch | pages/ActivityLogPage.tsx:29-35 | A non-empty search keeps only matching entries; an empty one keeps the log |
| ActivityLogPage.CompareAntisymmetric | pages/ActivityLogPage.tsx:37-49 | The comparator is antisymmetric for every order |
| ActivityLogPage.ValueLessAsymmetric | pages/ActivityLogPage.tsx:42-47 | No two sort values are each below the other |
| ActivityLogPage.Compare | pages/ActivityLogPage.tsx:37-49 | Newest first orders by descending timestamp; a configured order returns -1, 0 or 1, negative iff the first value is below the second (ascending) or above it (descending) |
| ActivityLogPage.SortLog | pages/ActivityLogPage.tsx:37-52 | The sorted log is a permutation of its input and is ordered by the chosen comparator |
| ActivityLogPage.FilteredAndSortedLog | pages/ActivityLogPage.tsx:22-54 | The view is the filtered entries, reordered and sorted |
| ActivityLogPage.DisplayedIffPasses | pages/ActivityLogPage.tsx:22-54 | An entry is shown iff it is in the log and passes the status filter and the search |
| ActivityLogPage.DefaultIsNewestFirst | pages/ActivityLogPage.tsx:50-52 | Without a sort configuration the view is newest first |
| ActivityLogPage.ConfiguredOrder | pages/ActivityLogPage.tsx:37-49 | With a configuration, adjacent entries are ordered by that column in that direction |
| ActivityLogPage.RequestSort | pages/ActivityLogPage.tsx:56-62 | Sorting by a column is descending iff it was already ascending on that column |
| ActivityLogPage.RequestSortToggles | pages/ActivityLogPage.tsx:56-62 | Requesting the same column twice alternates the direction |
| SettingsPage.DefaultSettings | pages/SettingsPage.tsx:39-44 | The defaults: no lock, 0 minutes, AES-256-GCM, 3 passes, no deletions |
| SettingsPage.NumberOr | pages/SettingsPage.tsx:53-56 | A stored number is kept unless it is missing or 0 |
| SettingsPage.Merge | pages/SettingsPage.tsx:52-57 | Each setting is the record's truthy value or its default |
| SettingsPage.EmptyRecordGivesDefaults | pages/SettingsPage.tsx:49-58 | An empty record merges to the defaults |
| SettingsPage.Load | pages/SettingsPage.tsx:47-58 | A stored record replaces the settings; nothing stored keeps them |
| SettingsPage.Save | pages/SettingsPage.tsx:62-75 | Saving writes the six settings without theme or language, logs success and confirms |
| SettingsPage.AfterRoundTrip | pages/SettingsPage.tsx:55 | The only value a write and read can change is a pass count of 0 |
| SettingsPage.SaveThenLoad | pages/SettingsPage.tsx:49-67 | Loading what was saved restores the settings, except that 0 passes comes back as 3 |
| SettingsPage.Export | pages/SettingsPage.tsx:77-92 | An export holds theme, language and the settings, which merge back up to the pass-count exception |
| SettingsPage.ExportIsSavePlusAppearance | pages/SettingsPage.tsx:77-81 | An export writes what a save writes, plus theme and language |
| SettingsPage.Import | pages/SettingsPage.tsx:94-119 | No file changes nothing; a bad file only alerts; a record sets theme and language if present and merges the settings |
| SettingsPage.ExportThenImport | pages/SettingsPage.tsx:77-108 | Importing an export restores the whole view iff the pass count is not 0 |
| SettingsPage.ImportingSavedKeepsAppearance | pages/SettingsPage.tsx:101-102 | Importing a saved record keeps the current theme and language |
| VaultManagementPage.FilteredVaults | pages/VaultManagementPage.tsx:95-98 | The listed vaults are those whose name or path contains the term, ignoring case |
| VaultManagementPage.ListedIffMatches | pages/VaultManagementPage.tsx:95-98 | A vault is listed iff it is one of the vaults and matches |
| VaultManagementPage.EmptySearchListsAll | pages/VaultManagementPage.tsx:95-98 | An empty search lists every vault in order |
| VaultManagementPage.HandleCreateVault | pages/VaultManagementPage.tsx:25-37 | A blank name or path only alerts; otherwise the untrimmed values are added, and a creation closes and clears the form |
| VaultManagementPage.CompleteFormCreates | pages/VaultManagementPage.tsx:25-37 | A complete form without a backend adds the placeholder vault, which an empty search lists |
| VaultManagementPage.HandleSelectVaultLocation | pages/VaultManagementPage.tsx:39-44 | A picked folder becomes the path; a cancel changes nothing |
| VaultManagementPage.HandleDeleteVault | pages/VaultManagementPage.tsx:46-50 | A vault is deleted only after confirmation |
| VaultManagementPage.DeleteNeedsConfirmation | pages/VaultManagementPage.tsx:46-50 | A declined confirmation keeps every vault; a confirmed one without backend removes exactly that id |
| VaultManagementPage.HandleViewVaultContents | pages/VaultManagementPage.tsx:52-78 | The modal opens on the vault; the files are the backend's list or empty; exactly one entry is logged |
| VaultManagementPage.ViewShowsListing | pages/VaultManagementPage.tsx:52-78 | The view shows the context's listing or nothing, logs success iff there is a listing, and alerts first with the context's alert |
| VaultManagementPage.ViewAgainIsSame | pages/VaultManagementPage.tsx:52-78 | Viewing the same vault again with the same outcome leaves the page and the logged entry the same |
| VaultManagementPage.ViewAlertAsWrittenAgrees | pages/VaultManagementPage.tsx:69 | For a vault name without `$` the failure alert equals the as-written translation |
| VaultManagementPage.EmptyVaultListsAsSuccess | pages/VaultManagementPage.tsx:59-66 | An empty vault is listed as a success with 0 items |
| VaultManagementPage.HandleAddFileToVault | pages/VaultManagementPage.tsx:80-92 | Without the API it reports unavailability; a cancel or empty password is silent; otherwise the placeholder is shown |
| VaultManagementPage.AddFileIgnoresPassword | pages/VaultManagementPage.tsx:80-92 | Only whether a password is given matters, and the placeholder names the picked source and the vault |
| LoginPage.InitialState | pages/LoginPage.tsx:12-16 | The form starts with no error, not loading, password hidden |
| LoginPage.RedirectTarget | pages/LoginPage.tsx:19 | The return path is the remembered one when truthy, otherwise "/" |
| LoginPage.View | pages/LoginPage.tsx:34-36 | An authenticated user is redirected to the return path |
| LoginPage.HandleSubmit | pages/LoginPage.tsx:22-32 | A submit loads, calls login and settles not loading, with the error iff login failed |
| LoginPage.ErrorIffRefused | pages/LoginPage.tsx:22-32 | The error shows iff the name or the password is blank |
| AppRoutes.ProtectedPage | App.tsx:66-121 | Exactly the eight protected paths name a page, never the login page |
| AppRoutes.PathOf | App.tsx:66-121 | Every protected page's path resolves back to it |
| AppRoutes.Protected | App.tsx:24-32 | A protected page shows when authenticated and otherwise redirects to login remembering the path |
| AppRoutes.Resolve | App.tsx:59-122 | Login is shown only to guests and redirects others to "/"; protected paths go through the guard; the rest go to "/" |
| AppRoutes.ResolveIntended | App.tsx:60-65 | The corrected login route sends an authenticated user to the remembered path |
| AppRoutes.EveryPathLands | App.tsx:59-122 | Every path settles within two redirects, on login for guests and on a protected page for users |
| AppRoutes.Land | App.tsx:59-122 | A guest only ever lands on the login page and a user never does; one redirect settles a guest's route or one with nothing remembered, two settle every route |
| AppRoutes.ProtectedRemembersPath | App.tsx:28-30 | A guest on a protected page is sent to login with that page's path |
| AppRoutes.RememberedPathIsLost | App.tsx:61 | A user sent to login from /vaults lands on the encrypt page after logging in, not on /vaults |
| AppRoutes.IntendedReturnsToPage | App.tsx:60-65 | With the corrected route a guest redirected from a page returns to it after login |
| AppRoutes.Layout | App.tsx:53-57 | Header, sidebar and footer are shown iff the user is authenticated |
| AppRoutes.LoginShownWithoutChrome | App.tsx:53-65 | The login page is never shown with header, sidebar or footer |
| StyledButton.Disabled | components/shared/StyledButton.tsx:97 | The button is disabled iff it is disabled or loading |
| StyledButton.OnClickCalls | components/shared/StyledButton.tsx:82-87 | A click calls the handler once iff there is one and the button is neither loading nor disabled |
| StyledButton.ClickGuardMatchesDisabled | components/shared/StyledButton.tsx:82-97 | A disabled button never calls its handler, an enabled one always does |
| StyledButton.CallsAfter | components/shared/StyledButton.tsx:82-87 | Clicking n times calls an enabled handler n times and a disabled one never |
| StyledButton.LabelledButtonClickedOnce | components/shared/__tests__/StyledButton.test.tsx:7-20 | A labelled enabled button clicked once calls its handler once |
| StyledButton.MarginsSwapForArabic | components/shared/StyledButton.tsx:89-90 | Icon margins swap sides between English and Arabic |
| StyledButton.Contents | components/shared/StyledButton.tsx:100-107 | A spinner shows iff loading and then comes first; the left icon shows iff not loading; the right icon and label iff given |
| StyledButton.SpinnerReplacesLeftIcon | components/shared/StyledButton.tsx:100-107 | While loading the spinner takes the left icon's place and the right icon stays |
| Header.ToggleTheme | components/layout/Header.tsx:11-13 | Toggling the theme always changes it, between light and dark |
| Header.ToggleLanguage | components/layout/Header.tsx:15-17 | Toggling the language always changes it, between English and Arabic |
| Header.TogglesAreInvolutions | components/layout/Header.tsx:11-17 | Toggling twice restores the theme and the language |
| Header.RTLIffArabic | components/layout/Header.tsx:19 | The layout is right to left iff the language is Arabic, and a toggle flips it |
| Header.Badge | components/layout/Header.tsx:54 | The badge reads "AR" iff the language is English |
| Header.BadgeNamesTarget | components/layout/Header.tsx:54 | The badge names the language the toggle switches to |
| Header.Welcome | components/layout/Header.tsx:33-36 | A welcome shows iff a user is logged in, with their name in the welcome text |
| Header.WelcomeFollowsSession | components/layout/Header.tsx:33-36 | After logout there is no welcome; after a successful login the trimmed name is welcomed |
| Header.WelcomeShowsName | components/layout/Header.tsx:33-36 | For a welcome text `t0{0}t1` with no other brace the line is `t0`, the username, `t1` |
| Header.WelcomeAsWrittenAgrees | components/layout/Header.tsx:33-36 | For a username without `$` the line equals the as-written translation |
| FileDropzone.Options | components/shared/FileDropzone.tsx:100-109 | Folder mode has no file limit and allows many; file mode uses the limit or 1; the size limit defaults; clicking is handled separately |
| FileDropzone.DefaultOptions | components/shared/FileDropzone.tsx:22-25 | Omitted props give one file of at most 5 GiB, not multiple; folder mode lifts the file limit |
| FileDropzone.PathsToFiles | components/shared/FileDropzone.tsx:40-49 | Each picked path becomes one file, in order |
| FileDropzone.PathsRoundTrip | components/shared/FileDropzone.tsx:40-49 | Every file made from a picked path gives the backend that path |
| FileDropzone.AcceptStringFlat | components/shared/FileDropzone.tsx:74-76 | The input's accept string is all the MIME types and extensions joined by commas |
| FileDropzone.AcceptString | components/shared/FileDropzone.tsx:74-76 | The accept string is every entry's extensions, or its MIME type when it has none, in one comma-separated list |
| FileDropzone.AcceptTokensRecovered | components/shared/FileDropzone.tsx:74-77 | Splitting the accept string at commas recovers every type and extension |
| FileDropzone.ChoosePicker | components/shared/FileDropzone.tsx:31-65 | The directory picker iff folder mode has a callback and the picker; otherwise the multi-file picker iff multiple and it exists; otherwise the single picker iff it exists; otherwise the browser input |
| FileDropzone.ContextPickersSkipBrowser | contexts/AppContext.tsx:256-281 | With the context's three pickers the browser input is never used |
| FileDropzone.BrowserInputConfig | components/shared/FileDropzone.tsx:66-78 | The browser input is multiple and directory as the mode says and carries the joined accept list |
| FileDropzone.FolderName | components/shared/FileDropzone.tsx:83 | The folder name is non-empty: a prefix of the relative path or the default |
| FileDropzone.FolderNameOfRelativePath | components/shared/FileDropzone.tsx:83 | A relative path "folder/rest" gives the name "folder" |
| FileDropzone.BrowserChange | components/shared/FileDropzone.tsx:79-88 | A folder is reported iff folder mode has a callback and files came; otherwise the files are forwarded |
| FileDropzone.HandleClick | components/shared/FileDropzone.tsx:31-91 | The click delivers what the chosen picker returned, and never an empty selection from a context picker |
| FileDropzone.OnDrop | components/shared/FileDropzone.tsx:93-98 | A drop ends the drag state and forwards the accepted files iff there are any |
| FileDropzone.DropAndInputAgree | components/shared/FileDropzone.tsx:66-109 | A drop takes several files iff the browser input takes several files or a folder, and has no file limit iff in folder mode |
| FileDropzone.DropAndBrowseDeliverSame | components/shared/FileDropzone.tsx:66-98 | Outside folder reporting, dropping and browsing the same files deliver the same list; a drop never delivers an empty one |

## Left out

- The backend behind the IPC bridge: encryption, decryption, shredding, vault storage. It is not implemented in the repository, so each call becomes an outcome parameter.
- The Electron main process and preload script.
- `localStorage`, `JSON.parse`/`JSON.stringify` and the export `Blob`: text is abstracted to a parsed record or "does not parse". When stored text does not parse, the loading effect throws; this is modelled as keeping the current settings.
- A parsed import that is `null` or not an object, and JSON fields of the wrong type (a string where a boolean is expected): records carry only typed optional fields.
- `handleCopyToClipboard` and the timed "copied" reset: clipboard and timers.
- `getAppVersion`, `updateUserProfile`, the footer signature and the context's encryption and decryption job lists: no logic beyond returning a constant or storing a value.
- `constants.ts` is not part of this model. `TRANSLATIONS` becomes the `Locale` table parameter, and the first entry of `AVAILABLE_ALGORITHMS` becomes the `firstAlgorithm` parameter.
- Rendering, styles, animations, modals, focus and keyboard handling, except the attributes the handlers depend on.
- React's asynchronous state batching and interleavings: each handler is modelled from click to settled state, with the in-flight state as its own function.
- Text.Lower: ASCII letters only, not the full Unicode case mapping of `toLowerCase`.
- Text.StrLess: compares characters, not UTF-16 code units, so strings outside the Basic Multilingual Plane may order differently.
- ActivityLogPage.SortLog: proved a permutation and ordered, but stability of `Array.prototype.sort` is not stated.
- KeyGeneratorPage.UpdateKeyStrength: the service's score is taken as an integer; a fractional score and `guesses_log10` are not modelled.
- Header.Welcome: uses the verbatim translation, while the header's `translate` expands `$` patterns in the username (see Findings); Header.WelcomeAsWrittenAgrees shows they agree on names without `$`.
- Header.WelcomeFollowsSession: states the line through the verbatim translation, as Header.Welcome does.
- VaultManagementPage.HandleViewVaultContents: the failure alert uses the verbatim translation, while the page's `translate` expands `$` patterns in the vault name (see Findings); VaultManagementPage.ViewAlertAsWrittenAgrees shows they agree on names without `$`.
- AppContext.GeneratePasswordFallback: `Math.random` is a sequence of natural-number draws taken modulo the charset length, not a floating-point scale and floor.
- Number inputs read with `parseInt` (key length, shred passes): a `NaN` from an empty field is not modelled; values are integers.
- AppRoutes.Land: follows at most `fuel` redirects and gives nothing when they run out; the route table never needs more than two.
- React Router's case-insensitive and trailing-slash path matching: paths match exactly.

## Findings

| source | as written | input that shows it | evidently intended | confidence | as-written member | corrected member |
|---|---|---|---|---|---|---|
| contexts/AppContext.tsx:122 | Each placeholder is replaced with `String.prototype.replace` and a string replacement, so `$&`, `$$`, `` $` `` and `$'` in an argument are expanded | Welcome text "Hi {0}" with user name "a$&b" shows "Hi a{0}b" | The argument is inserted verbatim, giving "Hi a$&b" | not executed | AppContext.DollarInArgumentIsExpanded | AppContext.TranslateFillsPlaceholder |
| App.tsx:60-65 | The login route renders a redirect to "/" for an authenticated user, so the login page's own redirect to the remembered `from` path never runs | A guest opens /vaults, is sent to /login with from = /vaults, logs in, and lands on "/" | After logging in the user returns to /vaults | not executed | AppRoutes.RememberedPathIsLost | AppRoutes.IntendedReturnsToPage |
