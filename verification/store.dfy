/**
  The two stores the page writes to and reads from, as values: the hosted
  database's configuration and start-up, the device-local log slot, and the
  documents of the remote `responses` collection.
 */
module Store {
  import Text

  /** The hosted-database credentials object (`firebaseConfig`). */
  datatype Config = Config(
    apiKey: string,
    authDomain: string,
    projectId: string,
    storageBucket: string,
    messagingSenderId: string,
    appId: string)

  const PlaceholderApiKey := "YOUR_API_KEY"
  const PlaceholderProjectId := "YOUR_PROJECT_ID"

  /** The configuration as shipped: every credential still a placeholder. */
  const ShippedConfig := Config(
    PlaceholderApiKey,
    "YOUR_PROJECT_ID.firebaseapp.com",
    PlaceholderProjectId,
    "YOUR_PROJECT_ID.appspot.com",
    "YOUR_SENDER_ID",
    "YOUR_APP_ID")

  predicate HasPlaceholder(c: Config)
  {
    c.apiKey == PlaceholderApiKey || c.projectId == PlaceholderProjectId
  }

  /** Whether the SDK's `initializeApp`/`firestore` calls return or throw. */
  datatype InitOutcome = InitSucceeds | InitThrows

  /** The module-level state after start-up: whether `db` holds a handle,
      and the `firebaseConfigured` flag. */
  datatype Startup = Startup(hasDb: bool, configured: bool)

  /** Start-up: placeholder credentials skip initialisation, a throwing
      initialisation is caught; only a real, successful start sets `db`. */
  function Start(c: Config, init: InitOutcome): (s: Startup)
    ensures s.hasDb == s.configured
    ensures s.hasDb <==>
              c.apiKey != "YOUR_API_KEY" && c.projectId != "YOUR_PROJECT_ID" && init.InitSucceeds?
  {
    if HasPlaceholder(c) then Startup(false, false)
    else match init
      case InitSucceeds => Startup(true, true)
      case InitThrows => Startup(false, false)
  }

  /** The shipped configuration never sets `db`, whatever the SDK does. */
  lemma ShippedConfigIsUnconfigured(init: InitOutcome)
    ensures !Start(ShippedConfig, init).hasDb
    ensures !Start(ShippedConfig, init).configured
  {
  }

  /** Only `apiKey` and `projectId` decide whether the store counts as configured. */
  lemma OnlyKeyAndProjectMatter(c: Config, d: Config, init: InitOutcome)
    requires c.apiKey == d.apiKey && c.projectId == d.projectId
    ensures Start(c, init) == Start(d, init)
  {
  }

  /** A stored `choice` field as the admin table's render code meets it: a
      string, a falsy non-string (absent, `null`, `0`, `false`), or a truthy
      non-string (a number, an object, ...), on which `toLowerCase` throws.
      The page itself only ever writes strings. */
  datatype ChoiceValue = Str(s: string) | Falsy | TruthyNonString

  /** One local-log item `{choice, time}`; `time` is the ISO-8601 text the
      client wrote when saving, kept opaque. An absent time is "". */
  datatype Entry = Entry(choice: ChoiceValue, time: string)

  /** What the local slot holds under the log key, classified the way the
      code's `JSON.parse` / `Array.isArray` tests see it. `Missing` covers
      both an absent key and the empty string: both are falsy. */
  datatype LocalRaw = Missing | Malformed | NonArray | Arr(entries: seq<Entry>)

  /** What reading the local slot gives: the storage call throws (storage is
      unavailable), or it yields the stored value. */
  datatype LocalSlot = Unreadable | Stored(raw: LocalRaw)

  /** The list the code works with: anything but an array counts as `[]`. */
  function ParseLog(raw: LocalRaw): seq<Entry>
  {
    if raw.Arr? then raw.entries else []
  }

  /** The server-assigned `time` of a remote document; `NoTime` stands for a
      document whose time has no `toDate` (absent or not yet assigned). */
  datatype DocTime = NoTime | Stamped(ms: nat)

  /** One document of the remote `responses` collection. */
  datatype Doc = Doc(choice: ChoiceValue, time: DocTime, userAgent: string, device: string)

  /** The remote store as the code sees it: `db` is null, or a handle on the
      collection's documents (kept in insertion order). */
  datatype Db = NoDb | Db(docs: seq<Doc>)

  /** The alternatives of the device regular expression. */
  const MobileTokens: seq<string> := ["Mobile", "Android", "iPhone", "iPad"]

  /** The `device` field written with every remote document. */
  function DeviceLabel(userAgent: string): (d: string)
    ensures d == "Mobile" || d == "Desktop"
    ensures d == "Mobile" <==>
              exists k :: 0 <= k < |MobileTokens| && Text.Occurs(userAgent, MobileTokens[k])
  {
    if Text.Contains(userAgent, MobileTokens[0]) || Text.Contains(userAgent, MobileTokens[1])
       || Text.Contains(userAgent, MobileTokens[2]) || Text.Contains(userAgent, MobileTokens[3])
    then "Mobile"
    else "Desktop"
  }
}
