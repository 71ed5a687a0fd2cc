/**
 Properties that relate several operations of the settings component: first use of a
 project, locality of setters, read-back of written values, and the preload contract
 of the password cache.
 */
module SettingsProperties {
  import opened Wrappers
  import opened SettingsData
  import opened PasswordKeys
  import opened GerritSettings


  /** A context in which no password-safe call fails. */
  predicate Reliable(ctx: Context) {
    !ctx.faults.readFails && !ctx.faults.writeFails
  }

  // ---------------------------------------------------------------------------
  // Scope resolution
  // ---------------------------------------------------------------------------

  /** First use of a project that has no record copies the global record, leaves every
      other record and the global one as they were, and seeds the project's password
      with the default password (`""` when there is none). */
  lemma FirstAccessClonesGlobal(s: State, ctx: Context)
    requires GLOBAL in s.projects && NeedsRecord(s, ctx) && Reliable(ctx)
    ensures var r := ForCurrentProject(s, ctx);
      && r.Ok?
      && r.value == NonNull(s.projects[GLOBAL])
      && r.state.projects[GLOBAL] == s.projects[GLOBAL]
      && (forall p :: p in s.projects ==> r.state.projects[p] == s.projects[p])
      && Lookup(r.state.store, PasswordKey(ctx.project)) == NonNull(GetDefaultPassword(s, ctx.faults).OrElse(""))
  {
  }

  /** Once a project has been resolved, resolving it again (whatever the thread or the
      password safe does) changes nothing and yields the same record: no second copy. */
  lemma SecondAccessIsStable(s: State, ctx: Context, ctx2: Context)
    requires ForCurrentProject(s, ctx).Ok? && ctx.project == ctx2.project
    ensures var r := ForCurrentProject(s, ctx);
      ForCurrentProject(r.state, ctx2) == r
  {
  }

  /** A setter on a project other than the reserved name leaves the global record alone. */
  lemma SetterKeepsGlobal(s: State, ctx: Context, u: Update)
    requires GLOBAL in s.projects && ctx.project != GLOBAL
    ensures var r := SetForCurrentProject(s, ctx, u);
      r.Ok? && r.state.projects[GLOBAL] == s.projects[GLOBAL]
  {
  }

  /** The reserved name is not protected: when the current project is literally called
      `GerritSettings`, its setters write the global record. */
  lemma ReservedNameAliasesGlobal(s: State, ctx: Context, u: Update)
    requires GLOBAL in s.projects && ctx.project == GLOBAL
    ensures var r := SetForCurrentProject(s, ctx, u);
      r.Ok? && r.state.projects[GLOBAL] == Apply(s.projects[GLOBAL], u)
  {
  }

  /** What a setter writes is what the current project's record shows afterwards. */
  lemma SetThenRead(s: State, ctx: Context, u: Update, ctx2: Context)
    requires ctx.project != "" && ctx.project == ctx2.project
    requires SetForCurrentProject(s, ctx, u).Ok?
    ensures var s1 := SetForCurrentProject(s, ctx, u).state;
      var r := ForCurrentProject(s1, ctx2);
      r.Ok? && r.state == s1 && r.value.NonNull? && Shows(r.value.value, u)
  {
  }

  /** `setHost` followed by `getHost` on the same project returns the host set. */
  lemma SetHostThenGetHost(s: State, ctx: Context, host: string, ctx2: Context)
    requires ctx.project != "" && ctx.project == ctx2.project
    requires SetForCurrentProject(s, ctx, SetHost(host)).Ok?
    ensures var s1 := SetForCurrentProject(s, ctx, SetHost(host)).state;
      GetHost(s1, ctx2) == Ok(s1, host)
  {
    SetThenRead(s, ctx, SetHost(host), ctx2);
  }

  /** A boolean setter followed by its getter on the same project returns the value set. */
  lemma SetFlagThenGetFlag(s: State, ctx: Context, flag: Flag, on: bool, ctx2: Context)
    requires ctx.project != "" && ctx.project == ctx2.project
    requires SetForCurrentProject(s, ctx, SetFlag(flag, on)).Ok?
    ensures var s1 := SetForCurrentProject(s, ctx, SetFlag(flag, on)).state;
      GetFlag(s1, ctx2, flag) == Ok(s1, on)
  {
    SetThenRead(s, ctx, SetFlag(flag, on), ctx2);
  }

  /** Without a resolved project, every getter returns its default and every setter is
      a no-op, whatever the settings map holds. */
  lemma UnresolvedProjectUsesDefaults(s: State, ctx: Context, flag: Flag, u: Update)
    requires ctx.project == ""
    ensures GetHost(s, ctx) == Ok(s, "") && GetCloneBaseUrlOrHost(s, ctx) == Ok(s, "")
    ensures GetFlag(s, ctx, flag) == Ok(s, false) && GetRefreshTimeout(s, ctx) == Ok(s, 0)
    ensures GetShowProjectColumn(s, ctx) == Ok(s, Auto)
    ensures GetLogin(s, ctx) == Ok(s, Null) && GetCloneBaseUrl(s, ctx) == Ok(s, Null)
    ensures SetForCurrentProject(s, ctx, u) == Ok(s, ())
  {
  }

  // ---------------------------------------------------------------------------
  // The reachable states
  // ---------------------------------------------------------------------------

  /** From a valid state, resolution never throws. */
  lemma ValidResolutionNeverThrows(s: State, ctx: Context)
    requires Valid(s)
    ensures ForCurrentProject(s, ctx).Ok?
  {
  }

  /** Every operation keeps the state valid: the global record is never removed and no
      record is ever stored under the empty name. */
  lemma OperationsPreserveValid(s: State, ctx: Context, u: Update, password: Nullable<string>)
    requires Valid(s)
    ensures Valid(ForCurrentProject(s, ctx).state)
    ensures Valid(SetForCurrentProject(s, ctx, u).state)
    ensures GetPassword(s, ctx).Ok? ==> Valid(GetPassword(s, ctx).state)
    ensures Valid(PreloadPassword(s, ctx))
    ensures Valid(SetPassword(s, ctx, password))
    ensures Valid(ForgetPassword(s, ctx))
    ensures Valid(SetDefaultPassword(s, password, ctx.faults))
  {
  }

  // ---------------------------------------------------------------------------
  // Passwords
  // ---------------------------------------------------------------------------

  /** After a preload, a background read returns the preloaded value instead of throwing. */
  lemma PreloadThenBackgroundRead(s: State, ctx: Context, ctx2: Context)
    requires ctx.project == ctx2.project && !ctx2.dispatchThread
    ensures var s1 := PreloadPassword(s, ctx);
      GetPassword(s1, ctx2) == Ok(s1, s1.cache[ctx.project])
  {
  }

  /** Forgetting a password does not evict it from the cache: a background read still
      returns the value cached before. */
  lemma ForgetKeepsCachedPassword(s: State, ctx: Context, ctx2: Context)
    requires ctx.project == ctx2.project && !ctx2.dispatchThread && ctx.project in s.cache
    ensures var s1 := ForgetPassword(s, ctx);
      GetPassword(s1, ctx2) == Ok(s1, s.cache[ctx.project])
  {
  }

  /** Forgetting a password and then preloading caches `null`. */
  lemma ForgetThenPreloadIsAbsent(s: State, ctx: Context, ctx2: Context)
    requires ctx.project == ctx2.project && !ctx.faults.writeFails
    ensures PreloadPassword(ForgetPassword(s, ctx), ctx2).cache[ctx.project] == Null
  {
  }

  /** A stored password is what the next preload caches (`""` for a `null` password). */
  lemma SetPasswordThenPreload(s: State, ctx: Context, password: Nullable<string>, ctx2: Context)
    requires ctx.project == ctx2.project && !ctx.faults.writeFails && !ctx2.faults.readFails
    ensures PreloadPassword(SetPassword(s, ctx, password), ctx2).cache[ctx.project] == NonNull(password.OrElse(""))
  {
  }

  /** Setting a password leaves the cached value in place until the next preload. */
  lemma SetPasswordBypassesCache(s: State, ctx: Context, password: Nullable<string>, ctx2: Context)
    requires ctx.project == ctx2.project && !ctx2.dispatchThread && ctx.project in s.cache
    ensures var s1 := SetPassword(s, ctx, password);
      GetPassword(s1, ctx2) == Ok(s1, s.cache[ctx.project])
  {
  }

  /** The default password round-trips through the password safe. */
  lemma SetDefaultThenGetDefault(s: State, password: Nullable<string>, faults: Faults)
    requires !faults.readFails && !faults.writeFails
    ensures GetDefaultPassword(SetDefaultPassword(s, password, faults), faults) == NonNull(password.OrElse(""))
  {
  }

  /** The password of one project is invisible to another: storing or forgetting it
      does not change what a preload of a different project caches. */
  lemma PasswordsOfProjectsAreIndependent(s: State, ctx: Context, password: Nullable<string>, ctx2: Context)
    requires ctx.project != ctx2.project
    ensures PreloadPassword(SetPassword(s, ctx, password), ctx2).cache[ctx2.project]
         == PreloadPassword(s, ctx2).cache[ctx2.project]
    ensures PreloadPassword(ForgetPassword(s, ctx), ctx2).cache[ctx2.project]
         == PreloadPassword(s, ctx2).cache[ctx2.project]
  {
    if PasswordKey(ctx.project) == PasswordKey(ctx2.project) {
      PasswordKeyInjective(ctx.project, ctx2.project);
    }
  }

  /** On first use of a project, the default password becomes the project's password:
      the dispatch thread then reads it back (`""` when no default is stored). */
  lemma FirstAccessSeedsPassword(s: State, ctx: Context, ctx2: Context)
    requires GLOBAL in s.projects && NeedsRecord(s, ctx) && Reliable(ctx)
    requires ctx.project == ctx2.project && ctx2.dispatchThread && !ctx2.faults.readFails
    ensures var s1 := ForCurrentProject(s, ctx).state;
      GetPassword(s1, ctx2).value == NonNull(GetDefaultPassword(s, ctx.faults).OrElse(""))
  {
  }
}
