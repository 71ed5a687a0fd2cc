# Gerrit plugin settings: scope resolution and password cache

A Dafny model of `GerritSettings`, the settings component of the Gerrit IntelliJ plugin.
The component keeps one settings record per IDE project. A reserved key, `GerritSettings`,
holds the global record. The first time a project is used, it gets its own copy of the
global record, and the default password is copied to the project's password-safe key.
The component also caches passwords in memory. Off the dispatch thread, a password can
only be read after it has been preloaded.

The model is a functional state machine over three maps:

- `projects`: project name to record. The key `GLOBAL` (`"GerritSettings"`) holds the global record.
- `cache`: project name to an optional password. This is `preloadedPasswords`; `Null` stands for a cached `null`.
- `store`: the entries of the password safe, by key.

Each operation is a pure function of a `State` and a `Context`. The context holds three inputs:

- the current project name, `""` when none is resolved;
- whether the caller is the dispatch thread;
- whether the operation's password-safe read or write fails.

An operation returns `Ok(newState, result)` or `Threw(NullPointer | IllegalState)`. In the
source, once a logger has been set, every exception is raised before anything is mutated,
so `Threw` carries no state.

Files:

- `wrappers.dfy`: `Nullable` and `byte`.
- `utf8.dfy`: the bytes of `String.getBytes()` under a UTF-8 charset, and the proof that this encoding is injective.
- `base64.dfy`: `Base64.getEncoder().encodeToString`, removal of `=` padding, and decoding of the unpadded text.
- `password_keys.dfy`: `getPasswordKey` and its injectivity.
- `settings_data.dfy`: the record and its setters.
- `gerrit_settings.dfy`: the state, the password operations, scope resolution, and the typed getters and setters.
- `settings_properties.dfy`: properties that relate several operations.
- `persistence.dfy`: `getState` and `loadState` over an abstract document tree.

Behaviours of the code worth knowing:

- With an empty project name, `getForCurrentProject` yields no record, not the global one. Getters then return their defaults and setters do nothing.
- `loadState` does not skip a project element named `GerritSettings`. Such an element overwrites the global record (`SettingsPersistence.ReservedElementOverwritesGlobal`).
- `loadState` never removes entries. An element that fails to parse ends the load and keeps everything stored before it; the global record is not reset.
- `setPassword` and `forgetPassword` never touch the cache. After `forgetPassword`, a background `getPassword` still returns the old cached value.
- The global record is not guaranteed to exist. If it is missing, `getState` throws `NullPointer`, and so does first use of a project.
- A project whose name is literally `GerritSettings` shares the global record. Its setters change the global settings (`SettingsProperties.ReservedNameAliasesGlobal`).

## Model

| member | source | states |
|---|---|---|
| `Utf8.EncodeInjective` | src/main/java/com/urswolfer/intellij/plugin/gerrit/GerritSettings.java:222 | two project names with the same byte encoding are the same name |
| `Base64.DecodeStripEncode` | src/main/java/com/urswolfer/intellij/plugin/gerrit/GerritSettings.java:222 | Base64 with every `=` removed loses no information: decoding gives back the bytes |
| `Base64.StrippedEncodingIsAlphabet` | src/main/java/com/urswolfer/intellij/plugin/gerrit/GerritSettings.java:222 | the key of a named project uses only Base64 alphabet characters (no `=`, no `_`) |
| `PasswordKeys.PasswordKey` | src/main/java/com/urswolfer/intellij/plugin/gerrit/GerritSettings.java:219-225 | the key is `GERRIT_SETTINGS_PASSWORD_KEY` exactly when the project name is empty; for a named project it is Base64 text that decodes back to the name's UTF-8 bytes |
| `PasswordKeys.PasswordKeyInjective` | src/main/java/com/urswolfer/intellij/plugin/gerrit/GerritSettings.java:219-225 | two different project names (the empty name included) never share a password key |
| `SettingsData.Apply` | src/main/java/com/urswolfer/intellij/plugin/gerrit/GerritSettings.java:247-367 | a setter makes its field show the new value and leaves every other field's value unchanged |
| `SettingsData.ApplyShownIsIdentity` | src/main/java/com/urswolfer/intellij/plugin/gerrit/GerritSettings.java:288-292 | writing a value the record already holds changes nothing |
| `SettingsData.ApplyIdempotent` | src/main/java/com/urswolfer/intellij/plugin/gerrit/GerritSettings.java:288-292 | calling the same setter twice has the effect of calling it once |
| `SettingsData.ApplyLastWriteWins` | src/main/java/com/urswolfer/intellij/plugin/gerrit/GerritSettings.java:288-292 | of two writes to the same field, the later one wins |
| `GerritSettings.GetDefaultPassword` | src/main/java/com/urswolfer/intellij/plugin/gerrit/GerritSettings.java:202-209 | the password stored under the fixed key; `null` when none is stored; `""` when the password safe fails |
| `GerritSettings.SetDefaultPassword` | src/main/java/com/urswolfer/intellij/plugin/gerrit/GerritSettings.java:211-217 | stores the password (`""` for `null`) under the fixed key and nowhere else; settings and cache unchanged; a failed write changes nothing |
| `GerritSettings.SetPassword` | src/main/java/com/urswolfer/intellij/plugin/gerrit/GerritSettings.java:272-278 | stores the password (`""` for `null`) under the current project's key only; the cache is untouched |
| `GerritSettings.ForgetPassword` | src/main/java/com/urswolfer/intellij/plugin/gerrit/GerritSettings.java:280-286 | removes the current project's key from the password safe and nothing else; the cache is untouched |
| `GerritSettings.PreloadPassword` | src/main/java/com/urswolfer/intellij/plugin/gerrit/GerritSettings.java:192-200 | replaces the current project's cache entry with the safe's value at the project's key (`null` when absent or when the read fails); other entries unchanged |
| `GerritSettings.GetPassword` | src/main/java/com/urswolfer/intellij/plugin/gerrit/GerritSettings.java:180-190 | off the dispatch thread: throws `IllegalState` exactly when nothing is cached, otherwise returns the cached value with no state change; on the dispatch thread: preloads, then returns the new cache entry |
| `GerritSettings.GetDefaultSettings` | src/main/java/com/urswolfer/intellij/plugin/gerrit/GerritSettings.java:142-144 | the global record, or `null` when there is none |
| `GerritSettings.AddProjectSettingsFromDefault` | src/main/java/com/urswolfer/intellij/plugin/gerrit/GerritSettings.java:135-140 | throws `NullPointer` exactly when there is no global record; otherwise adds a copy of the global record under the project, leaves other records and the cache as they were, and stores the default password (or `""`) under the project's key |
| `GerritSettings.ForCurrentProject` | src/main/java/com/urswolfer/intellij/plugin/gerrit/GerritSettings.java:146-158 | no record for an empty name, with no state change; an existing record is returned with no state change; a new project is materialised first; throws only when a new project meets a missing global record |
| `GerritSettings.Read` | src/main/java/com/urswolfer/intellij/plugin/gerrit/GerritSettings.java:146-158 | a getter returns its default with no state change when no project is resolved; otherwise it returns the field of the current project's (possibly new) record |
| `GerritSettings.GetLogin` | src/main/java/com/urswolfer/intellij/plugin/gerrit/GerritSettings.java:172-176 | `null` without a project; otherwise the current record's login; throws `NullPointerException` exactly when a project without a record meets a missing global record |
| `GerritSettings.GetHost` | src/main/java/com/urswolfer/intellij/plugin/gerrit/GerritSettings.java:232-236 | `""` without a project; otherwise the current record's host; throws `NullPointerException` exactly when a project without a record meets a missing global record |
| `GerritSettings.GetFlag` | src/main/java/com/urswolfer/intellij/plugin/gerrit/GerritSettings.java:243-245 | for every boolean getter (also lines 253-255, 262-264, 318-344): `false` without a project; otherwise the current record's option; throws `NullPointerException` exactly when a project without a record meets a missing global record |
| `GerritSettings.GetRefreshTimeout` | src/main/java/com/urswolfer/intellij/plugin/gerrit/GerritSettings.java:257-260 | `0` without a project; otherwise the current record's timeout; throws `NullPointerException` exactly when a project without a record meets a missing global record |
| `GerritSettings.GetShowProjectColumn` | src/main/java/com/urswolfer/intellij/plugin/gerrit/GerritSettings.java:346-349 | `AUTO` without a project; otherwise the current record's mode; throws `NullPointerException` exactly when a project without a record meets a missing global record |
| `GerritSettings.GetCloneBaseUrl` | src/main/java/com/urswolfer/intellij/plugin/gerrit/GerritSettings.java:369-371 | `null` without a project; otherwise the current record's clone base URL; throws `NullPointerException` exactly when a project without a record meets a missing global record |
| `GerritSettings.GetCloneBaseUrlOrHost` | src/main/java/com/urswolfer/intellij/plugin/gerrit/GerritSettings.java:381-384 | `""` without a project; otherwise the clone base URL when it is non-empty, else the host; throws `NullPointerException` exactly when a project without a record meets a missing global record |
| `GerritSettings.IsLoginAndPasswordAvailable` | src/main/java/com/urswolfer/intellij/plugin/gerrit/GerritSettings.java:238-241 | true exactly when the current project's login is non-null and non-empty; throws `NullPointerException` exactly when a project without a record meets a missing global record |
| `GerritSettings.SetForCurrentProject` | src/main/java/com/urswolfer/intellij/plugin/gerrit/GerritSettings.java:159-170 | a no-op without a project; throws `NullPointerException` exactly when a project without a record meets a missing global record; otherwise the update is applied to the current record (which starts as a copy of the global one on first use), every other record and the cache are unchanged, and on first use the default password (or `""`) is seeded under the project's key, the password safe being untouched otherwise |
| `SettingsProperties.FirstAccessClonesGlobal` | src/main/java/com/urswolfer/intellij/plugin/gerrit/GerritSettings.java:135-158 | first use of a new project yields the global record, keeps every existing record, and seeds the project's password with the default password |
| `SettingsProperties.SecondAccessIsStable` | src/main/java/com/urswolfer/intellij/plugin/gerrit/GerritSettings.java:146-158 | resolving an already resolved project again changes nothing and returns the same record |
| `SettingsProperties.SetterKeepsGlobal` | src/main/java/com/urswolfer/intellij/plugin/gerrit/GerritSettings.java:159-170 | a setter on any project not named `GerritSettings` leaves the global record unchanged |
| `SettingsProperties.ReservedNameAliasesGlobal` | src/main/java/com/urswolfer/intellij/plugin/gerrit/GerritSettings.java:159-170 | a setter on a project named `GerritSettings` rewrites the global record |
| `SettingsProperties.SetThenRead` | src/main/java/com/urswolfer/intellij/plugin/gerrit/GerritSettings.java:146-170 | after a setter, the current project's record shows the value written, and reading it changes nothing |
| `SettingsProperties.SetHostThenGetHost` | src/main/java/com/urswolfer/intellij/plugin/gerrit/GerritSettings.java:232-236 | `setHost(h)` then `getHost()` on the same project returns `h` |
| `SettingsProperties.SetFlagThenGetFlag` | src/main/java/com/urswolfer/intellij/plugin/gerrit/GerritSettings.java:243-251 | a boolean setter then its getter on the same project returns the value set |
| `SettingsProperties.UnresolvedProjectUsesDefaults` | src/main/java/com/urswolfer/intellij/plugin/gerrit/GerritSettings.java:146-170 | with an empty project name every getter returns its default and every setter leaves the state unchanged |
| `SettingsProperties.ValidResolutionNeverThrows` | src/main/java/com/urswolfer/intellij/plugin/gerrit/GerritSettings.java:135-158 | once a global record exists, resolving a project never throws |
| `SettingsProperties.OperationsPreserveValid` | src/main/java/com/urswolfer/intellij/plugin/gerrit/GerritSettings.java:135-286 | no operation removes the global record or stores a record under the empty name |
| `SettingsProperties.PreloadThenBackgroundRead` | src/main/java/com/urswolfer/intellij/plugin/gerrit/GerritSettings.java:180-200 | after a preload, a background `getPassword` returns the preloaded value instead of throwing |
| `SettingsProperties.ForgetKeepsCachedPassword` | src/main/java/com/urswolfer/intellij/plugin/gerrit/GerritSettings.java:180-190 | after `forgetPassword`, a background read still returns the value cached before |
| `SettingsProperties.ForgetThenPreloadIsAbsent` | src/main/java/com/urswolfer/intellij/plugin/gerrit/GerritSettings.java:192-200 | after `forgetPassword`, a preload caches `null` |
| `SettingsProperties.SetPasswordThenPreload` | src/main/java/com/urswolfer/intellij/plugin/gerrit/GerritSettings.java:272-278 | a stored password (`""` for `null`) is what the next preload caches |
| `SettingsProperties.SetPasswordBypassesCache` | src/main/java/com/urswolfer/intellij/plugin/gerrit/GerritSettings.java:272-278 | after `setPassword`, a background read still returns the old cached value |
| `SettingsProperties.SetDefaultThenGetDefault` | src/main/java/com/urswolfer/intellij/plugin/gerrit/GerritSettings.java:202-217 | `getDefaultPassword` returns what `setDefaultPassword` stored (`""` for `null`) |
| `SettingsProperties.PasswordsOfProjectsAreIndependent` | src/main/java/com/urswolfer/intellij/plugin/gerrit/GerritSettings.java:219-225 | storing or forgetting one project's password does not change what a preload of another project caches |
| `SettingsProperties.FirstAccessSeedsPassword` | src/main/java/com/urswolfer/intellij/plugin/gerrit/GerritSettings.java:135-140 | after first use of a project, a dispatch-thread `getPassword` returns the default password (`""` when none is stored) |
| `SettingsPersistence.LoadProjects` | src/main/java/com/urswolfer/intellij/plugin/gerrit/GerritSettings.java:98-107 | the element loop only adds entries, only under the names of the elements; it never stores anything under `""`; it leaves every key no element names alone |
| `SettingsPersistence.LoadState` | src/main/java/com/urswolfer/intellij/plugin/gerrit/GerritSettings.java:92-112 | the root replaces the global record; without `projects` nothing else changes; nothing is removed; the cache and the safe are untouched; a root that fails to parse changes nothing |
| `SettingsPersistence.LoadLoadable` | src/main/java/com/urswolfer/intellij/plugin/gerrit/GerritSettings.java:101-106 | loading named, parseable elements never aborts and adds exactly the map they describe |
| `SettingsPersistence.LaterDuplicateWins` | src/main/java/com/urswolfer/intellij/plugin/gerrit/GerritSettings.java:101-106 | of several elements with the same name, the last one is what is loaded |
| `SettingsPersistence.LoadStateOfLoadable` | src/main/java/com/urswolfer/intellij/plugin/gerrit/GerritSettings.java:96-106 | loading a root and named, parseable elements yields the prior map with the root as the global record, overridden by the last-wins map of the elements |
| `SettingsPersistence.ReservedElementOverwritesGlobal` | src/main/java/com/urswolfer/intellij/plugin/gerrit/GerritSettings.java:96-106 | an element named `GerritSettings`, with no later element of that name, replaces the global record the root supplied |
| `SettingsPersistence.MalformedEndsLoad` | src/main/java/com/urswolfer/intellij/plugin/gerrit/GerritSettings.java:94-111 | an element that fails to parse ends the load; the elements after it are ignored |
| `SettingsPersistence.UnnamedElementIsSkipped` | src/main/java/com/urswolfer/intellij/plugin/gerrit/GerritSettings.java:101-105 | a project element with no name or an empty name, wherever it sits in the list, leaves the load exactly as if it were absent |
| `SettingsPersistence.LoadRestoresDescribed` | src/main/java/com/urswolfer/intellij/plugin/gerrit/GerritSettings.java:92-112 | loading a document that faithfully describes a map (with no `""` key) restores that map |
| `SettingsPersistence.GetState` | src/main/java/com/urswolfer/intellij/plugin/gerrit/GerritSettings.java:66-90 | throws exactly when there is no global record; otherwise materialises the current project, puts the global record at the root and one named element per other key (each key once, with its record); loading the result restores the saved map |
| `SettingsPersistence.ProjectElements` | src/main/java/com/urswolfer/intellij/plugin/gerrit/GerritSettings.java:79-84 | the `projects` child holds one element per key other than `GerritSettings`, each key exactly once, each element carrying that key's record |
| `SettingsPersistence.LoadThenDivergeExample` | src/main/java/com/urswolfer/intellij/plugin/gerrit/GerritSettings.java:92-170 | a document with only a root loads as the global record alone; setting the host of a new project changes that project's copy and not the global record |
| `SettingsPersistence.SaveAfterDivergeExample` | src/main/java/com/urswolfer/intellij/plugin/gerrit/GerritSettings.java:66-90 | saving after that divergence emits the untouched global record at the root and exactly one element, for the project, carrying its own host and the inherited timeout |

## Left out

- `getCurrentProjectName` (lines 114-133) asks the IDE's project manager and focus tracking. It is replaced by `Context.project`.
- `ApplicationManager.isDispatchThread` is replaced by `Context.dispatchThread`. Threads, races and memory visibility are not modelled.
- The password safe is modelled as a map plus a "this call fails" flag for one read and one write per operation. Its owner arguments (`null`, `GerritSettings.class`) are not modelled. The logging done on failure is not modelled. The logger is assumed set. Before `setLog` runs, each `log.info` or `log.error` call in a catch block (lines 110, 197, 206, 215, 276 and 284) would throw `NullPointerException`. Three of them would throw after a mutation: line 110, after `loadState` has stored records; lines 206 and 276, when reached from `addProjectSettingsFromDefault` after the project record was stored at line 138.
- `GerritSettingsData` is not part of this model. Its fields are independent cells and its getters return them. `getCloneBaseUrlOrHost` is taken as "clone base URL when non-empty, else host". The clone in `addProjectSettingsFromDefault` goes through `fillElement` and the element constructor; the model treats it as an exact copy.
- The XML encoding of records (`fillElement`, the element constructor) is not modelled. A document is a root record plus an optional list of `(name, record)` elements; a record whose construction throws is `Null`.
- `String.getBytes()` uses the platform charset. The model uses UTF-8, the JVM default since JDK 18. Names are sequences of Unicode scalar values, so lone UTF-16 surrogates are not modelled. UTF-8 `getBytes` turns those into `?`, so such names could collide.
- `getState` iterates a `HashMap`. The model emits the project elements in an arbitrary order and states only what holds for every order.
- `null` values are not modelled in three places: map keys (the `projectName != null` check in `getState`), map values (the `settings != null` checks), and `null` arguments to `setHost` and `setShowProjectColumn`.
- `setLog` (lines 373-379), the logger, `isHttpPassword` (lines 227-230) and the `@NotNull` annotation on `getPassword` are plumbing and are not modelled. `GetPassword` returns `Null` where the source returns `null`.
- The individual field setters (`setLogin`, `setHost`, ...) are one member, `SetForCurrentProject`, with an `Update` value naming the field. In the same way, the boolean getters are all `GetFlag`.
- `setRefreshTimeout` takes a Java `int`. The record keeps it as a 32-bit value, and no arithmetic is done on it.
