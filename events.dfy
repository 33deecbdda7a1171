/** The shared vocabulary of the watcher: journal field values, raw journal
    entries, severities and the events every source produces. */
module Events {

  datatype Option<+T> = None | Some(value: T)

  type Bytes = seq<bv8>

  /** A journal field as the journal binding decodes it. Only the first four
      kinds are scalars; the binding hands timestamps over as datetimes,
      boot and machine ids as UUIDs, and multi-valued fields as lists. */
  datatype Value =
    | VStr(s: string)
    | VInt(i: int)
    | VFloat(f: real)
    | VBool(b: bool)
    | VBytes(bytes: Bytes)
    | VTime(t: real)          // a datetime, in seconds since the epoch
    | VUuid(id: nat)
    | VList(items: seq<Value>)

  /** Python truthiness of a field value (`if msg:`, `a or b`). A datetime and
      a UUID define neither a length nor a boolean value, so both are true. */
  predicate Truthy(v: Value) {
    match v
    case VStr(s) => s != []
    case VInt(i) => i != 0
    case VFloat(f) => f != 0.0
    case VBool(b) => b
    case VBytes(bs) => bs != []
    case VTime(_) => true
    case VUuid(_) => true
    case VList(items) => items != []
  }

  /** `isinstance(v, (str, int, float, bool))` */
  predicate IsScalar(v: Value) {
    v.VStr? || v.VInt? || v.VFloat? || v.VBool?
  }

  /** A raw journal entry: field name to value. */
  type Entry = map<string, Value>

  /** `entry.get(key)` */
  function Get(e: Entry, key: string): Option<Value> {
    if key in e then Some(e[key]) else None
  }

  const MessageField := "MESSAGE"
  const PriorityField := "PRIORITY"
  const TimestampField := "__REALTIME_TIMESTAMP"
  const IdentifierField := "SYSLOG_IDENTIFIER"
  const UnitField := "_SYSTEMD_UNIT"
  const CursorField := "__CURSOR"
  const BootField := "_BOOT_ID"

  datatype Severity = Debug | Info | Warning | Error | Critical {
    /** The enumeration value of the severity: DEBUG = 1 up to CRITICAL = 5. */
    function Rank(): int {
      match this
      case Debug => 1
      case Info => 2
      case Warning => 3
      case Error => 4
      case Critical => 5
    }
  }

  /** One event. The timestamp is whatever the entry carried (normally a
      datetime); the message is the entry's MESSAGE, decoded when it was bytes. */
  datatype LogEvent = LogEvent(
    source: string,
    severity: Severity,
    timestamp: Option<Value>,
    subsystem: Value,
    rawMessage: Value,
    structuredData: map<string, Value>)
}
