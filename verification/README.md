# Platform profile loader

A model of the `PlatformProfileLoader` used for configuration profiles published on
the control plane. The loader caches one `ConfigResult` (a document or nothing, a
list of errors or nothing, and an "interrupted" flag). It has two operations:

- **Refresh tick.** A timer fires every 15 minutes. It lists the control plane's
  assistants and takes the first entry whose owner and package slugs equal the
  loader's. If that entry carries a result, the tick renders the entry's document
  when there is one. It then replaces the cache and calls `onReload`.
- **On-demand load (`doLoadConfig`).** Cached errors are returned without
  materialising. Otherwise the cached document goes to the materialiser, and the
  materialiser's errors are replaced by an empty list.

The loader is an immutable value (`PlatformProfileLoader.Loader`), so both
operations are pure functions:

- `Tick(loader, assistants, stringify, render)` returns the next loader. It also
  returns `reloads`: the cache that each `onReload` call observes, in order.
- `Load(loader, materialize)` returns the resolved result. It also returns the
  materialiser call it made, if any, with its arguments. The loader it was given
  is left as it was.

The collaborators whose code is not in this model are parameters:

- the directory listing from `listAssistants`;
- `YAML.stringify` and `clientRenderHelper`, as total functions;
- the imported `doLoadConfig` materialiser, as a total function.

The IDE handle, the IDE-settings promise, the control-plane client and the log
writer are only passed through to these collaborators. They are taken to live in
the closures passed in.

Files:

- `options.dfy`: `Option`, standing for `T | undefined`.
- `config_result.dfy`: `ConfigResult`, with `HasErrors`, which is the truthiness
  of `errors?.length`.
- `platform_profile_loader.dfy`: the loader: construction, `FindFirst`, `Tick`,
  `RunTicks` (successive firings), `Load` and `SetIsActive`.
- `loader_properties.dfy`: lemmas relating these operations.
- `scenarios.dfy`: two concrete runs for `acme/agent@1.0`.

The tick takes the first matching entry in list order (`Array.prototype.find`,
PlatformProfileLoader.ts:53-57), so list order matters when the directory holds
two entries with the same owner and package slugs.

## Model

| member | source | states |
|---|---|---|
| PlatformProfileLoader.NewLoader | core/config/profile/PlatformProfileLoader.ts:28-49 | The cache starts as the initial result, with no refresh at construction. The id is the owner slug, `/`, then the package slug. The title is the id, `@`, then the version slug. `fullSlug` holds the three slugs unchanged. The profile type is `"platform"`. The description's errors are the initial result's errors. |
| PlatformProfileLoader.FindFirst | core/config/profile/PlatformProfileLoader.ts:53-57 | The position returned is the first entry whose package and owner slugs both match. There is no such position exactly when no entry matches. |
| PlatformProfileLoader.Tick | core/config/profile/PlatformProfileLoader.ts:51-77 | The tick aborts when there is no match, or when the first match has no result. It then leaves the loader unchanged and does not notify. Otherwise the cache gets the entry's errors and the interrupted flag is cleared. The document is `render(stringify(config))` when the entry has one, and absent otherwise. `onReload` fires exactly once and observes the new cache. The identity and description never change. |
| PlatformProfileLoader.Load | core/config/profile/PlatformProfileLoader.ts:80-106 | The materialiser is called exactly when the cached errors are absent or empty. It gets the cached document and `{ownerSlug, packageSlug}`. Its result is returned with `errors` set to `[]`. Otherwise the result is `{absent, cached errors, false}` and nothing is materialised. |
| PlatformProfileLoader.RunTicks | core/config/profile/PlatformProfileLoader.ts:51-77 | Repeated timer firings, one listing each. Every reload observes a cache whose interrupted flag is cleared. The final cache is either the starting one or such a refreshed cache. Identity, reload count and composition are stated by `RunTicksKeepsIdentity`, `RunTicksReloads` and `RunTicksAppend`. |
| PlatformProfileLoader.SetIsActive | core/config/profile/PlatformProfileLoader.ts:108 | Whatever the flag, the cache, the slugs and the description stay as they were. `SetIsActiveInvisible` states that no tick or load can observe the call. |
| LoaderProperties.IdRoundTrip | core/config/profile/PlatformProfileLoader.ts:40 | Splitting an id at its first `/` gives back the owner and package slugs, when the owner slug has no `/`. |
| LoaderProperties.ProfileIdInjective | core/config/profile/PlatformProfileLoader.ts:40 | Two ids are equal exactly when their owner and package slugs are equal, for owner slugs without `/`. |
| LoaderProperties.MatchesIffSameId | core/config/profile/PlatformProfileLoader.ts:40-57 | For owner slugs without `/` (the loader's and the entry's), a tick matches an entry exactly when the entry's own `owner/package` id is the loader's description id. |
| LoaderProperties.SlashInOwnerBreaksIdMatch | core/config/profile/PlatformProfileLoader.ts:40-57 | Without that condition the equivalence fails. A loader for owner `a` and package `b/c` and an entry for owner `a/b` and package `c` share the id `a/b/c`, yet the tick does not match the entry. |
| LoaderProperties.TickIgnoresVersion | core/config/profile/PlatformProfileLoader.ts:32-57 | Loaders that differ only in version slug install the same cache and notify the same way on every listing. |
| LoaderProperties.TickWithoutMatchIsNoOp | core/config/profile/PlatformProfileLoader.ts:53-60 | A listing with no entry for the loader's owner and package leaves the loader unchanged and fires no reload. |
| LoaderProperties.TickUsesFirstMatch | core/config/profile/PlatformProfileLoader.ts:53-57 | Once the listing holds a match, appending entries after it does not change the tick's outcome. |
| LoaderProperties.TickIdempotent | core/config/profile/PlatformProfileLoader.ts:62-76 | The installed cache does not depend on the cache it replaces. A second tick on the same listing yields the same loader and the same notifications. |
| LoaderProperties.TickMeaningfulIff | core/config/profile/PlatformProfileLoader.ts:62-75 | After a successful tick, the cache has a document, errors or the interrupted flag exactly when the entry had a document or errors. The entry's own interrupted flag is dropped. |
| LoaderProperties.RunTicksKeepsIdentity | core/config/profile/PlatformProfileLoader.ts:39-77 | Over any number of ticks the slugs and the whole description stay the same. So the description's errors remain the construction-time snapshot. |
| LoaderProperties.RunTicksReloads | core/config/profile/PlatformProfileLoader.ts:51-77 | A run of n ticks fires at most n reloads (the per-tick bound is `Tick`'s contract). With no reload the cache is the initial one. Otherwise the final cache is what the last reload observed. |
| LoaderProperties.RunTicksAppend | core/config/profile/PlatformProfileLoader.ts:51-77 | Running ticks over `history + [last]` is the same as running them over `history` and then ticking on `last`. |
| LoaderProperties.LastUsableListingWins | core/config/profile/PlatformProfileLoader.ts:71-75 | The cache is last-writer-wins. If the final listing has a usable entry, the final cache depends neither on the starting cache nor on earlier listings. |
| LoaderProperties.LoadErrorsMirrorCache | core/config/profile/PlatformProfileLoader.ts:81-105 | A load reports errors exactly when the cache holds errors, and then reports those same errors with no document. A load that materialises always reports `[]`. |
| LoaderProperties.LoadIgnoresInterruptedFlag | core/config/profile/PlatformProfileLoader.ts:81-105 | Changing the cached interrupted flag changes neither whether a load materialises nor what it returns. |
| LoaderProperties.LoadAfterTick | core/config/profile/PlatformProfileLoader.ts:62-105 | After a successful tick, if the entry had errors, a load returns them without materialising. Otherwise the load materialises the rendered entry document under the loader's slugs. |
| LoaderProperties.SetIsActiveInvisible | core/config/profile/PlatformProfileLoader.ts:108 | `setIsActive` changes nothing that a tick or a load can observe. |
| Scenarios.FreshInterruptedLoaderMaterializes | core/config/profile/PlatformProfileLoader.ts:39-105 | `acme/agent@1.0` starts from `{absent, [], interrupted}`. A load calls the materialiser with an absent document and `{acme, agent}`, and reports `[]`. |
| Scenarios.RefreshedErrorShortCircuits | core/config/profile/PlatformProfileLoader.ts:51-87 | After one tick on a listing whose entry has error `"bad field"`, exactly one reload fires. The next load returns `{absent, ["bad field"], false}` without materialising. |

## Left out

- The `setInterval` timer and its 15-minute period (`ReloadIntervalMs` is kept only as a constant), and all async scheduling. A tick is one atomic step. Overlapping ticks and their last-writer-wins race are not modelled; `RunTicks` runs ticks one after another.
- `controlPlaneClient.listAssistants()` is a network call. Its result is an input to `Tick`.
- `clientRenderHelper`, `YAML.stringify` and the imported `doLoadConfig` are total functions here. A rejected render aborts a tick before the cache is replaced, and a rejected materialisation propagates to the caller. Neither failure is modelled.
- The IDE handle, the IDE-settings promise, the control-plane client, `writeLog` and the fixed `undefined` organisation override are only passed through, so they do not appear except inside the closures passed in.
- The contents of `ConfigYaml`, `ContinueConfig` and the error type are type parameters.
- LoaderProperties.MatchesIffSameId: assumes owner slugs without `/`, for the loader and the entry. The source does not check for this, and `SlashInOwnerBreaksIdMatch` shows the equivalence fails without it.
- LoaderProperties.IdRoundTrip: assumes owner slugs without `/`. The source does not check for this. Without it, two different slug pairs can share an id.
