/**
 The settings component of the Gerrit plugin (`GerritSettings`) as a functional state
 machine. Its state is three maps:
   - the settings map from project name to record, whose reserved key `GLOBAL` holds
     the global record;
   - the in-memory password cache from project name to an optional password;
   - the entries of the password safe that belong to this component, by key.
 The ambient inputs of the source (the current project name, whether the caller runs
 on the dispatch thread, and whether a password-safe call fails) are the explicit
 `Context` of each operation. Once a logger has been set, every exception the source
 raises is raised before any mutation, so an operation that throws leaves no new state
 behind.
 */
module GerritSettings {
  import opened Wrappers
  import opened SettingsData
  import opened PasswordKeys

  /** Key of the global record in the settings map (the component's XML tag). */
  const GLOBAL := "GerritSettings"

  datatype State = State(
    projects: map<string, Record>,
    cache: map<string, Nullable<string>>,
    store: map<string, string>)

  /** Whether the one password-safe read and the one password-safe write an operation
      may perform fail (with a `PasswordSafeException`, which the source logs and swallows). */
  datatype Faults = Faults(readFails: bool, writeFails: bool)

  /** What the source reads from its environment: the current project name (`""` when
      none is resolved), whether the caller is the dispatch thread, password-safe failures. */
  datatype Context = Context(project: string, dispatchThread: bool, faults: Faults)

  /** The exceptions that escape the component. */
  datatype Exception =
    | NullPointer   // the global record is needed but absent
    | IllegalState  // a background password read without a preload

  /** The outcome of an operation: the new state and the result, or an exception. */
  datatype Step<T> = Ok(state: State, value: T) | Threw(error: Exception)

  /** States the component can reach once loaded: the global record exists and no
      project is stored under the empty name. */
  predicate Valid(s: State) {
    GLOBAL in s.projects && "" !in s.projects
  }

  // ---------------------------------------------------------------------------
  // The password safe
  // ---------------------------------------------------------------------------

  /** `PasswordSafe.getPassword`: the stored password, `Null` when nothing is stored. */
  function Lookup(store: map<string, string>, key: string): (password: Nullable<string>)
    ensures password.NonNull? <==> key in store
    ensures password.NonNull? ==> password.value == store[key]
  {
    if key in store then NonNull(store[key]) else Null
  }

  /** `map2` is `map1` with `key` holding `value`, and nothing else changed. */
  predicate WrittenAt(map1: map<string, string>, map2: map<string, string>, key: string, value: string) {
    && map2.Keys == map1.Keys + {key}
    && map2[key] == value
    && forall k :: k in map1 && k != key ==> map2[k] == map1[k]
  }

  /** A password-safe write, lost when the write fails. */
  function StoreWrite(s: State, key: string, password: string, faults: Faults): (s': State)
    ensures s'.projects == s.projects && s'.cache == s.cache
    ensures faults.writeFails ==> s'.store == s.store
    ensures !faults.writeFails ==> WrittenAt(s.store, s'.store, key, password)
  {
    if faults.writeFails then s else s.(store := s.store[key := password])
  }

  /** `getDefaultPassword`: the password under the fixed key, `Null` when there is none,
      and `""` when the password safe fails. */
  function GetDefaultPassword(s: State, faults: Faults): (password: Nullable<string>)
    ensures faults.readFails ==> password == NonNull("")
    ensures !faults.readFails ==> (password.NonNull? <==> DEFAULT_PASSWORD_KEY in s.store)
    ensures !faults.readFails && password.NonNull? ==> password.value == s.store[DEFAULT_PASSWORD_KEY]
  {
    if faults.readFails then NonNull("") else Lookup(s.store, DEFAULT_PASSWORD_KEY)
  }

  /** `setDefaultPassword`: writes the password (`""` for `null`) under the fixed key,
      whatever the current project; the cache is not touched. */
  function SetDefaultPassword(s: State, password: Nullable<string>, faults: Faults): (s': State)
    ensures s'.projects == s.projects && s'.cache == s.cache
    ensures faults.writeFails ==> s' == s
    ensures !faults.writeFails ==> WrittenAt(s.store, s'.store, DEFAULT_PASSWORD_KEY, password.OrElse(""))
  {
    StoreWrite(s, DEFAULT_PASSWORD_KEY, password.OrElse(""), faults)
  }

  /** `setPassword`: writes the password (`""` for `null`) under the current project's
      key; the cache is not touched. */
  function SetPassword(s: State, ctx: Context, password: Nullable<string>): (s': State)
    ensures s'.projects == s.projects && s'.cache == s.cache
    ensures ctx.faults.writeFails ==> s' == s
    ensures !ctx.faults.writeFails ==> WrittenAt(s.store, s'.store, PasswordKey(ctx.project), password.OrElse(""))
  {
    StoreWrite(s, PasswordKey(ctx.project), password.OrElse(""), ctx.faults)
  }

  /** `forgetPassword`: removes the entry under the current project's key; the cache
      is not touched. */
  function ForgetPassword(s: State, ctx: Context): (s': State)
    ensures s'.projects == s.projects && s'.cache == s.cache
    ensures ctx.faults.writeFails ==> s' == s
    ensures !ctx.faults.writeFails ==> s'.store.Keys == s.store.Keys - {PasswordKey(ctx.project)}
    ensures forall k :: k in s'.store ==> s'.store[k] == s.store[k]
  {
    if ctx.faults.writeFails then s else s.(store := s.store - {PasswordKey(ctx.project)})
  }

  // ---------------------------------------------------------------------------
  // The password cache
  // ---------------------------------------------------------------------------

  /** `preloadPassword`: caches, under the current project name, what the password safe
      holds under the project's key, or `null` when the read fails. Other cache entries,
      the settings and the safe are unchanged. */
  function PreloadPassword(s: State, ctx: Context): (s': State)
    ensures s'.projects == s.projects && s'.store == s.store
    ensures s'.cache.Keys == s.cache.Keys + {ctx.project}
    ensures ctx.faults.readFails ==> s'.cache[ctx.project] == Null
    ensures !ctx.faults.readFails ==>
      (s'.cache[ctx.project].NonNull? <==> PasswordKey(ctx.project) in s.store)
    ensures !ctx.faults.readFails && s'.cache[ctx.project].NonNull? ==>
      s'.cache[ctx.project].value == s.store[PasswordKey(ctx.project)]
    ensures forall p :: p in s.cache && p != ctx.project ==> s'.cache[p] == s.cache[p]
  {
    var password := if ctx.faults.readFails then Null else Lookup(s.store, PasswordKey(ctx.project));
    s.(cache := s.cache[ctx.project := password])
  }

  /** `getPassword`: off the dispatch thread, the cached password of the current project,
      or `IllegalState` when it was never preloaded; on the dispatch thread, a fresh
      preload followed by the newly cached value. */
  function GetPassword(s: State, ctx: Context): (r: Step<Nullable<string>>)
    ensures !ctx.dispatchThread ==> (r.Threw? <==> ctx.project !in s.cache)
    ensures r.Threw? ==> r.error == IllegalState
    ensures !ctx.dispatchThread && r.Ok? ==> r.state == s && r.value == s.cache[ctx.project]
    ensures ctx.dispatchThread ==> r.Ok? && r.state == PreloadPassword(s, ctx)
    ensures r.Ok? ==> ctx.project in r.state.cache && r.value == r.state.cache[ctx.project]
  {
    if !ctx.dispatchThread then
      if ctx.project !in s.cache then Threw(IllegalState) else Ok(s, s.cache[ctx.project])
    else
      var s' := PreloadPassword(s, ctx);
      Ok(s', s'.cache[ctx.project])
  }

  // ---------------------------------------------------------------------------
  // Scope resolution
  // ---------------------------------------------------------------------------

  /** `s'` is `s` with the current project newly added as a copy of the global record,
      the default password seeded under the project's key, and nothing else changed. */
  predicate Materialised(s: State, s': State, ctx: Context)
    requires GLOBAL in s.projects
  {
    var key := PasswordKey(ctx.project);
    && s'.projects.Keys == s.projects.Keys + {ctx.project}
    && s'.projects[ctx.project] == s.projects[GLOBAL]
    && (forall p :: p in s.projects && p != ctx.project ==> s'.projects[p] == s.projects[p])
    && s'.cache == s.cache
    && (ctx.faults.writeFails ==> s'.store == s.store)
    && (!ctx.faults.writeFails ==>
          var seed := if !ctx.faults.readFails && DEFAULT_PASSWORD_KEY in s.store
                      then s.store[DEFAULT_PASSWORD_KEY] else "";
          WrittenAt(s.store, s'.store, key, seed))
  }

  /** `getDefaultSettings`: the global record, `null` before any has been loaded. */
  function GetDefaultSettings(s: State): (global: Nullable<Record>)
    ensures global.NonNull? <==> GLOBAL in s.projects
    ensures global.NonNull? ==> global.value == s.projects[GLOBAL]
  {
    if GLOBAL in s.projects then NonNull(s.projects[GLOBAL]) else Null
  }

  /** The current project needs a record of its own before it can be read or written. */
  predicate NeedsRecord(s: State, ctx: Context) {
    ctx.project != "" && ctx.project !in s.projects
  }

  /** `s'` is what resolving the current project leaves: `s` itself when no project is
      resolved or it already has a record, `s` with the project materialised otherwise. */
  predicate Resolved(s: State, s': State, ctx: Context) {
    if NeedsRecord(s, ctx) then GLOBAL in s.projects && Materialised(s, s', ctx) else s' == s
  }

  /** `addProjectSettingsFromDefault`: stores a copy of the global record under the
      current project, then stores the default password under the project's key.
      Throws `NullPointer` when there is no global record. */
  function AddProjectSettingsFromDefault(s: State, ctx: Context): (r: Step<()>)
    requires ctx.project != ""
    ensures r.Threw? <==> GLOBAL !in s.projects
    ensures r.Threw? ==> r.error == NullPointer
    ensures r.Ok? ==> Materialised(s, r.state, ctx)
  {
    match GetDefaultSettings(s)
    case Null => Threw(NullPointer)
    case NonNull(global) =>
      var copied := s.(projects := s.projects[ctx.project := global]);
      Ok(SetPassword(copied, ctx, GetDefaultPassword(copied, ctx.faults)), ())
  }

  /** `getForCurrentProject` before the getter is applied: no record when no project is
      resolved, otherwise the project's record, created from the global one on first use. */
  function ForCurrentProject(s: State, ctx: Context): (r: Step<Nullable<Record>>)
    ensures r.Threw? <==> NeedsRecord(s, ctx) && GLOBAL !in s.projects
    ensures r.Threw? ==> r.error == NullPointer
    ensures r.Ok? ==> Resolved(s, r.state, ctx)
    ensures ctx.project == "" ==> r == Ok(s, Null)
    ensures r.Ok? && ctx.project != "" ==>
      ctx.project in r.state.projects && r.value == NonNull(r.state.projects[ctx.project])
  {
    if ctx.project == "" then Ok(s, Null)
    else if ctx.project in s.projects then Ok(s, NonNull(s.projects[ctx.project]))
    else
      match AddProjectSettingsFromDefault(s, ctx)
      case Threw(e) => Threw(e)
      case Ok(s', _) => Ok(s', NonNull(s'.projects[ctx.project]))
  }

  /** A typed getter: the field of the current project's record, or `default` when no
      project is resolved (the `x != null ? x : default` of each getter). */
  function Read<T>(s: State, ctx: Context, field: Record -> T, default: T): (r: Step<T>)
    ensures r.Threw? <==> NeedsRecord(s, ctx) && GLOBAL !in s.projects
    ensures r.Threw? ==> r.error == NullPointer
    ensures r.Ok? ==> Resolved(s, r.state, ctx)
    ensures ctx.project == "" ==> r == Ok(s, default)
    ensures r.Ok? && ctx.project != "" ==>
      ctx.project in r.state.projects && r.value == field(r.state.projects[ctx.project])
  {
    match ForCurrentProject(s, ctx)
    case Threw(e) => Threw(e)
    case Ok(s', record) => Ok(s', if record.NonNull? then field(record.value) else default)
  }

  /** `getLogin`: `null` when no project is resolved. */
  function GetLogin(s: State, ctx: Context): (r: Step<Nullable<string>>)
    ensures r.Threw? <==> NeedsRecord(s, ctx) && GLOBAL !in s.projects
    ensures r.Threw? ==> r.error == NullPointer
    ensures ctx.project == "" ==> r == Ok(s, Null)
    ensures r.Ok? ==> Resolved(s, r.state, ctx)
    ensures r.Ok? && ctx.project != "" ==> ctx.project in r.state.projects && r.value == r.state.projects[ctx.project].login
  {
    Read(s, ctx, (rec: Record) => rec.login, Null)
  }

  /** `getHost`: `""` when no project is resolved. */
  function GetHost(s: State, ctx: Context): (r: Step<string>)
    ensures r.Threw? <==> NeedsRecord(s, ctx) && GLOBAL !in s.projects
    ensures r.Threw? ==> r.error == NullPointer
    ensures ctx.project == "" ==> r == Ok(s, "")
    ensures r.Ok? ==> Resolved(s, r.state, ctx)
    ensures r.Ok? && ctx.project != "" ==> ctx.project in r.state.projects && r.value == r.state.projects[ctx.project].host
  {
    Read(s, ctx, (rec: Record) => rec.host, "")
  }

  /** `getListAllChanges`, `getAutomaticRefresh`, `getReviewNotifications`,
      `getPushToGerrit`, `getShow...Column`: `false` when no project is resolved. */
  function GetFlag(s: State, ctx: Context, flag: Flag): (r: Step<bool>)
    ensures r.Threw? <==> NeedsRecord(s, ctx) && GLOBAL !in s.projects
    ensures r.Threw? ==> r.error == NullPointer
    ensures ctx.project == "" ==> r == Ok(s, false)
    ensures r.Ok? ==> Resolved(s, r.state, ctx)
    ensures r.Ok? && ctx.project != "" ==> ctx.project in r.state.projects && (r.value <==> r.state.projects[ctx.project].IsSet(flag))
  {
    Read(s, ctx, (rec: Record) => rec.IsSet(flag), false)
  }

  /** `getRefreshTimeout`: `0` when no project is resolved. */
  function GetRefreshTimeout(s: State, ctx: Context): (r: Step<Int32>)
    ensures r.Threw? <==> NeedsRecord(s, ctx) && GLOBAL !in s.projects
    ensures r.Threw? ==> r.error == NullPointer
    ensures ctx.project == "" ==> r == Ok(s, 0)
    ensures r.Ok? ==> Resolved(s, r.state, ctx)
    ensures r.Ok? && ctx.project != "" ==> ctx.project in r.state.projects && r.value == r.state.projects[ctx.project].refreshTimeout
  {
    Read(s, ctx, (rec: Record) => rec.refreshTimeout, 0)
  }

  /** `getShowProjectColumn`: `AUTO` when no project is resolved. */
  function GetShowProjectColumn(s: State, ctx: Context): (r: Step<ShowProjectColumn>)
    ensures r.Threw? <==> NeedsRecord(s, ctx) && GLOBAL !in s.projects
    ensures r.Threw? ==> r.error == NullPointer
    ensures ctx.project == "" ==> r == Ok(s, Auto)
    ensures r.Ok? ==> Resolved(s, r.state, ctx)
    ensures r.Ok? && ctx.project != "" ==> ctx.project in r.state.projects && r.value == r.state.projects[ctx.project].showProjectColumn
  {
    Read(s, ctx, (rec: Record) => rec.showProjectColumn, Auto)
  }

  /** `getCloneBaseUrl`: `null` when no project is resolved. */
  function GetCloneBaseUrl(s: State, ctx: Context): (r: Step<Nullable<string>>)
    ensures r.Threw? <==> NeedsRecord(s, ctx) && GLOBAL !in s.projects
    ensures r.Threw? ==> r.error == NullPointer
    ensures ctx.project == "" ==> r == Ok(s, Null)
    ensures r.Ok? ==> Resolved(s, r.state, ctx)
    ensures r.Ok? && ctx.project != "" ==> ctx.project in r.state.projects && r.value == r.state.projects[ctx.project].cloneBaseUrl
  {
    Read(s, ctx, (rec: Record) => rec.cloneBaseUrl, Null)
  }

  /** `getCloneBaseUrlOrHost`: `""` when no project is resolved. */
  function GetCloneBaseUrlOrHost(s: State, ctx: Context): (r: Step<string>)
    ensures r.Threw? <==> NeedsRecord(s, ctx) && GLOBAL !in s.projects
    ensures r.Threw? ==> r.error == NullPointer
    ensures ctx.project == "" ==> r == Ok(s, "")
    ensures r.Ok? ==> Resolved(s, r.state, ctx)
    ensures r.Ok? && ctx.project != "" ==> ctx.project in r.state.projects && r.value == r.state.projects[ctx.project].CloneBaseUrlOrHost()
  {
    Read(s, ctx, (rec: Record) => rec.CloneBaseUrlOrHost(), "")
  }

  /** `isLoginAndPasswordAvailable`: whether the current project has a non-empty login. */
  function IsLoginAndPasswordAvailable(s: State, ctx: Context): (r: Step<bool>)
    ensures r.Threw? <==> NeedsRecord(s, ctx) && GLOBAL !in s.projects
    ensures r.Threw? ==> r.error == NullPointer
    ensures ctx.project == "" ==> r == Ok(s, false)
    ensures r.Ok? ==> Resolved(s, r.state, ctx)
    ensures r.Ok? && ctx.project != "" ==>
      && ctx.project in r.state.projects
      && (r.value <==> r.state.projects[ctx.project].login.NonNull? && r.state.projects[ctx.project].login.value != "")
  {
    match GetLogin(s, ctx)
    case Threw(e) => Threw(e)
    case Ok(s', login) => Ok(s', login.NonNull? && login.value != "")
  }

  /** `setForCurrentProject` with one of the field setters: a no-op when no project is
      resolved; otherwise the update is applied to the current project's record (created
      from the global one on first use) and to no other record. */
  function SetForCurrentProject(s: State, ctx: Context, u: Update): (r: Step<()>)
    ensures r.Threw? <==> NeedsRecord(s, ctx) && GLOBAL !in s.projects
    ensures r.Threw? ==> r.error == NullPointer
    ensures ctx.project == "" ==> r == Ok(s, ())
    ensures r.Ok? && ctx.project != "" ==>
      && r.state.projects.Keys == s.projects.Keys + {ctx.project}
      && r.state.projects[ctx.project]
           == Apply(if ctx.project in s.projects then s.projects[ctx.project] else s.projects[GLOBAL], u)
      && (forall p :: p in s.projects && p != ctx.project ==> r.state.projects[p] == s.projects[p])
      && r.state.cache == s.cache
    ensures r.Ok? && !NeedsRecord(s, ctx) ==> r.state.store == s.store
    ensures r.Ok? && NeedsRecord(s, ctx) ==>
      Materialised(s, r.state.(projects := r.state.projects[ctx.project := s.projects[GLOBAL]]), ctx)
  {
    match ForCurrentProject(s, ctx)
    case Threw(e) => Threw(e)
    case Ok(s', record) =>
      if record.Null? then Ok(s', ())
      else Ok(s'.(projects := s'.projects[ctx.project := Apply(record.value, u)]), ())
  }
}
