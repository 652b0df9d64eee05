/** The closed datatypes of the application shell: themes, languages,
    encryption algorithms, activity-log entries, vaults and the
    password-generation options. String-valued enumerations carry their
    wire tag, and each tag parses back to its variant. */
module Types {
  import opened Wrappers

  datatype Theme = Light | Dark

  function ThemeTag(t: Theme): string {
    match t
    case Light => "light"
    case Dark => "dark"
  }

  datatype Language = English | Arabic

  function LanguageTag(l: Language): string {
    match l
    case English => "en"
    case Arabic => "ar"
  }

  /** Five string-valued variants, two of them post-quantum placeholders. */
  datatype EncryptionAlgorithm = AES256_GCM | AES512_GCM | ChaCha20_Poly1305 | NTRU | Kyber

  function AlgorithmTag(a: EncryptionAlgorithm): (r: string)
    ensures r != ""
  {
    match a
    case AES256_GCM => "aes-256-gcm"
    case AES512_GCM => "aes-512-gcm"
    case ChaCha20_Poly1305 => "chacha20-poly1305"
    case NTRU => "ntru"
    case Kyber => "kyber"
  }

  function ParseAlgorithm(tag: string): (r: Option<EncryptionAlgorithm>)
    ensures r.Some? ==> AlgorithmTag(r.value) == tag
  {
    if tag == "aes-256-gcm" then Some(AES256_GCM)
    else if tag == "aes-512-gcm" then Some(AES512_GCM)
    else if tag == "chacha20-poly1305" then Some(ChaCha20_Poly1305)
    else if tag == "ntru" then Some(NTRU)
    else if tag == "kyber" then Some(Kyber)
    else None
  }

  /** The set of algorithms is closed: a tag names a variant exactly when it
      is one of the five tags, and distinct variants have distinct tags. */
  lemma AlgorithmTagsRoundTrip(a: EncryptionAlgorithm, tag: string)
    ensures ParseAlgorithm(AlgorithmTag(a)) == Some(a)
    ensures ParseAlgorithm(tag).Some? <==>
            tag in {"aes-256-gcm", "aes-512-gcm", "chacha20-poly1305", "ntru", "kyber"}
  {
  }

  /** The twelve operation tags of an activity-log entry. */
  datatype LogOperation =
    | Encrypt | Decrypt | Shred | KeyGenerate | VaultCreate | VaultDelete
    | VaultListContents | SettingsChange | AppStart | ErrorGeneric | Login | Logout

  function OperationTag(op: LogOperation): (r: string)
    ensures r != ""
  {
    match op
    case Encrypt => "encrypt"
    case Decrypt => "decrypt"
    case Shred => "shred"
    case KeyGenerate => "key_generate"
    case VaultCreate => "vault_create"
    case VaultDelete => "vault_delete"
    case VaultListContents => "vault_list_contents"
    case SettingsChange => "settings_change"
    case AppStart => "app_start"
    case ErrorGeneric => "error_generic"
    case Login => "login"
    case Logout => "logout"
  }

  /** Distinct operations have distinct tags. */
  lemma OperationTagInjective(a: LogOperation, b: LogOperation)
    ensures OperationTag(a) == OperationTag(b) ==> a == b
  {
  }

  datatype LogStatus = Success | Failure | Info | Warning

  function StatusTag(s: LogStatus): string {
    match s
    case Success => "success"
    case Failure => "failure"
    case Info => "info"
    case Warning => "warning"
  }

  /** An entry of the activity log. Optional fields are `None` where the
      source leaves them `undefined`. */
  datatype LogEntry = LogEntry(
    id: string,
    timestamp: int,
    operation: LogOperation,
    details: string,
    status: LogStatus,
    targetFile: Option<string>,
    targetVault: Option<string>,
    algorithmUsed: Option<EncryptionAlgorithm>,
    errorDetails: Option<string>,
    username: Option<string>)

  /** What a caller of `addLogEntry` supplies: an entry without its id and
      timestamp. */
  datatype LogDraft = LogDraft(
    operation: LogOperation,
    details: string,
    status: LogStatus,
    targetFile: Option<string>,
    targetVault: Option<string>,
    algorithmUsed: Option<EncryptionAlgorithm>,
    errorDetails: Option<string>,
    username: Option<string>)

  /** A draft with only the three mandatory fields. */
  function Draft(op: LogOperation, details: string, status: LogStatus): LogDraft {
    LogDraft(op, details, status, None, None, None, None, None)
  }

  datatype VaultItem = VaultItem(
    id: string,
    name: string,
    path: string,
    createdAt: int,
    encryptedFileCount: int,
    totalSizeEncrypted: int)

  datatype VaultFile = VaultFile(
    name: string,
    path: string,
    originalSize: Option<int>,
    encryptedAt: Option<int>,
    fileType: Option<string>)

  /** A length plus four independent character-class flags. */
  datatype PasswordOptions = PasswordOptions(
    length: int,
    includeUppercase: bool,
    includeLowercase: bool,
    includeNumbers: bool,
    includeSymbols: bool)

  /** A strength score as the strength service declares it: 0 (too
      guessable) to 4 (very unguessable). */
  type StrengthScore = s: int | 0 <= s <= 4

  datatype AIFeedback = AIFeedback(warning: Option<string>, suggestions: Option<seq<string>>)

  /** The strength service's verdict on a key. Its score is declared 0..4,
      but the page only checks that it is a number, so any integer is kept. */
  datatype AIStrengthResult = AIStrengthResult(score: int, feedback: Option<AIFeedback>)

  datatype CurrentUser = CurrentUser(id: string, username: string)
}
