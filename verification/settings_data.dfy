/**
 One scope's settings record (`GerritSettingsData`) as the settings component uses it:
 a plain value with one field per option, read through getters and changed through
 setters. The record class itself is not part of this model; its fields are taken to
 be independent storage cells.
 */
module SettingsData {
  import opened Wrappers

  /** A Java `int`. */
  type Int32 = x: int | -0x8000_0000 <= x < 0x8000_0000

  /** When the change list shows its project column. */
  datatype ShowProjectColumn = Auto | Always | Never

  /** The boolean options of a record. */
  datatype Flag =
    | ListAllChanges
    | AutomaticRefresh
    | ReviewNotifications
    | PushToGerrit
    | ShowChangeNumberColumn
    | ShowChangeIdColumn
    | ShowTopicColumn

  /** The settings of one scope. `Null` stands for a `null` string field; the boolean
      options are kept as the set of those that are on. */
  datatype Record = Record(
    login: Nullable<string>,
    host: string,
    enabled: set<Flag>,
    refreshTimeout: Int32,
    showProjectColumn: ShowProjectColumn,
    cloneBaseUrl: Nullable<string>)
  {
    /** The value of a boolean option. */
    predicate IsSet(f: Flag) {
      f in enabled
    }

    /** The base URL for cloning: the clone base URL when one is set, the host otherwise. */
    function CloneBaseUrlOrHost(): (url: string)
      ensures cloneBaseUrl.NonNull? && cloneBaseUrl.value != "" ==> url == cloneBaseUrl.value
      ensures cloneBaseUrl.Null? || cloneBaseUrl.value == "" ==> url == host
    {
      match cloneBaseUrl
      case NonNull(u) => if u != "" then u else host
      case Null => host
    }
  }

  /** One setter call on a record: the field it writes and the value. */
  datatype Update =
    | SetLogin(newLogin: Nullable<string>)
    | SetHost(newHost: string)
    | SetFlag(flag: Flag, on: bool)
    | SetRefreshTimeout(seconds: Int32)
    | SetShowProjectColumn(mode: ShowProjectColumn)
    | SetCloneBaseUrl(newUrl: Nullable<string>)

  /** The storage cell of a record an update writes. */
  datatype Field = LoginField | HostField | FlagField(f: Flag) | RefreshTimeoutField
                 | ShowProjectColumnField | CloneBaseUrlField

  function Target(u: Update): Field {
    match u
    case SetLogin(_) => LoginField
    case SetHost(_) => HostField
    case SetFlag(f, _) => FlagField(f)
    case SetRefreshTimeout(_) => RefreshTimeoutField
    case SetShowProjectColumn(_) => ShowProjectColumnField
    case SetCloneBaseUrl(_) => CloneBaseUrlField
  }

  /** Whether `r` holds, in the field `u` writes, the value `u` writes. */
  predicate Shows(r: Record, u: Update) {
    match u
    case SetLogin(l) => r.login == l
    case SetHost(h) => r.host == h
    case SetFlag(f, on) => r.IsSet(f) == on
    case SetRefreshTimeout(t) => r.refreshTimeout == t
    case SetShowProjectColumn(m) => r.showProjectColumn == m
    case SetCloneBaseUrl(c) => r.cloneBaseUrl == c
  }

  /** A setter applied to a record: the written field shows the new value, every other
      field keeps what it showed. */
  function Apply(r: Record, u: Update): (r': Record)
    ensures Shows(r', u)
    ensures forall v :: Target(v) != Target(u) ==> (Shows(r', v) <==> Shows(r, v))
  {
    match u
    case SetLogin(l) => r.(login := l)
    case SetHost(h) => r.(host := h)
    case SetFlag(f, on) => r.(enabled := if on then r.enabled + {f} else r.enabled - {f})
    case SetRefreshTimeout(t) => r.(refreshTimeout := t)
    case SetShowProjectColumn(m) => r.(showProjectColumn := m)
    case SetCloneBaseUrl(c) => r.(cloneBaseUrl := c)
  }

  /** Writing a value a record already shows leaves it as it is. */
  lemma ApplyShownIsIdentity(r: Record, u: Update)
    requires Shows(r, u)
    ensures Apply(r, u) == r
  {
  }

  /** Writing the same value twice is the same as writing it once. */
  lemma ApplyIdempotent(r: Record, u: Update)
    ensures Apply(Apply(r, u), u) == Apply(r, u)
  {
    ApplyShownIsIdentity(Apply(r, u), u);
  }

  /** The later of two writes to the same field wins. */
  lemma ApplyLastWriteWins(r: Record, u: Update, v: Update)
    requires Target(u) == Target(v)
    ensures Apply(Apply(r, u), v) == Apply(r, v)
  {
  }
}
