/** A profile loader for configuration published on the control plane.

    The loader caches one `ConfigResult`. A periodic refresh tick replaces the
    cache with the matching assistant's configuration taken from the control
    plane's assistant directory, and an on-demand load turns the cache into a
    materialised application configuration. The loader is an immutable value
    here: a tick returns the next loader, and a load returns its result next to
    an unchanged loader. The collaborators whose code is not part of this model
    are parameters: the directory listing is the `assistants` argument, and
    `YAML.stringify`, `clientRenderHelper` and the imported `doLoadConfig`
    materialiser are total functions supplied by the caller. */
module PlatformProfileLoader {
  import opened Options
  import opened ConfigResults

  /** Period of the refresh timer, in milliseconds: every 15 minutes. */
  const ReloadIntervalMs: nat := 1000 * 60 * 15

  /** Discriminator of profiles sourced from the control plane. */
  const PlatformProfileType: string := "platform"

  /** Package coordinates handed to the materialiser. */
  datatype PlatformConfigMetadata = PlatformConfigMetadata(ownerSlug: string, packageSlug: string)

  /** All identity coordinates of a profile; the version is for display only. */
  datatype FullSlug = FullSlug(ownerSlug: string, packageSlug: string, versionSlug: string)

  /** Identity and presentation metadata, fixed when the loader is built. */
  datatype ProfileDescription<+E> = ProfileDescription(
    id: string,
    profileType: string,
    fullSlug: FullSlug,
    title: string,
    errors: Option<seq<E>>)

  /** One entry of the control plane's assistant directory, over raw documents `R`. */
  datatype Assistant<+R, +E> =
    Assistant(ownerSlug: string, packageSlug: string, configResult: Option<ConfigResult<R, E>>)

  /** The loader: its cache of rendered documents `Y`, its match key and its description. */
  datatype Loader<+Y, +E> = Loader(
    configResult: ConfigResult<Y, E>,
    ownerSlug: string,
    packageSlug: string,
    description: ProfileDescription<E>)

  /** The loader after a tick, with the cache each `onReload` call observes, in order. */
  datatype TickOutcome<+Y, +E> = TickOutcome(state: Loader<Y, E>, reloads: seq<ConfigResult<Y, E>>)

  /** The arguments the loader passes to the materialiser. The IDE handle, the
      settings promise, the control-plane client and the log writer are passed
      through untouched and live in the materialiser's closure, and so does the
      fixed "no organisation override" (`undefined`) argument. */
  datatype MaterializerCall<+Y> = MaterializerCall(config: Option<Y>, metadata: PlatformConfigMetadata)

  /** The value `doLoadConfig` resolves to, and the materialiser call it made, if any. */
  datatype LoadOutcome<+Y, +C, +E> = LoadOutcome(result: ConfigResult<C, E>, call: Option<MaterializerCall<Y>>)

  // ---------------------------------------------------------------------------
  // Construction

  /** `owner/package`, the profile id. */
  function ProfileId(ownerSlug: string, packageSlug: string): string
  {
    ownerSlug + "/" + packageSlug
  }

  /** Builds a loader; no refresh happens at construction, so the initial
      result is the cache until the first tick. */
  function NewLoader<Y, E>(initial: ConfigResult<Y, E>, ownerSlug: string, packageSlug: string, versionSlug: string)
    : (l: Loader<Y, E>)
    ensures l.configResult == initial
    ensures l.ownerSlug == ownerSlug && l.packageSlug == packageSlug
    ensures var id := l.description.id;
            && |id| == |ownerSlug| + 1 + |packageSlug|
            && id[..|ownerSlug|] == ownerSlug
            && id[|ownerSlug|] == '/'
            && id[|ownerSlug| + 1..] == packageSlug
    ensures var t := l.description.title;
            && |t| == |l.description.id| + 1 + |versionSlug|
            && t[..|l.description.id|] == l.description.id
            && t[|l.description.id|] == '@'
            && t[|l.description.id| + 1..] == versionSlug
    ensures l.description.fullSlug.ownerSlug == ownerSlug
    ensures l.description.fullSlug.packageSlug == packageSlug
    ensures l.description.fullSlug.versionSlug == versionSlug
    ensures l.description.profileType == PlatformProfileType
    ensures l.description.errors == initial.errors
  {
    var id := ProfileId(ownerSlug, packageSlug);
    var title := id + "@" + versionSlug;
    assert title[..|id|] == id;
    Loader(initial, ownerSlug, packageSlug,
           ProfileDescription(id, PlatformProfileType, FullSlug(ownerSlug, packageSlug, versionSlug), title, initial.errors))
  }

  // ---------------------------------------------------------------------------
  // Refresh tick

  /** The predicate handed to `assistants.find`: package and owner both equal
      the loader's. The version plays no part. */
  predicate Matches<R, E>(a: Assistant<R, E>, ownerSlug: string, packageSlug: string)
  {
    a.packageSlug == packageSlug && a.ownerSlug == ownerSlug
  }

  /** `i` is the position of the first matching entry. */
  ghost predicate IsFirstMatch<R, E>(assistants: seq<Assistant<R, E>>, ownerSlug: string, packageSlug: string, i: int)
  {
    && 0 <= i < |assistants|
    && Matches(assistants[i], ownerSlug, packageSlug)
    && forall j :: 0 <= j < i ==> !Matches(assistants[j], ownerSlug, packageSlug)
  }

  /** `Array.prototype.find`, returning the position of the entry it finds. */
  function FindFirst<R, E>(assistants: seq<Assistant<R, E>>, ownerSlug: string, packageSlug: string): (r: Option<nat>)
    ensures r.Some? ==> IsFirstMatch(assistants, ownerSlug, packageSlug, r.value)
    ensures r.None? <==> forall i :: 0 <= i < |assistants| ==> !Matches(assistants[i], ownerSlug, packageSlug)
    decreases |assistants|
  {
    if |assistants| == 0 then None
    else if Matches(assistants[0], ownerSlug, packageSlug) then Some(0)
    else
      match FindFirst(assistants[1..], ownerSlug, packageSlug)
      case None => None
      case Some(i) => Some(i + 1)
  }

  /** The cache a successful tick installs for the matched entry's result:
      the rendered document when the entry has one, the entry's errors, and
      the interrupted flag cleared. */
  function Refreshed<R, Y, E>(entry: ConfigResult<R, E>, stringify: R -> string, render: string -> Y): ConfigResult<Y, E>
  {
    var rendered := if entry.config.Some? then Some(render(stringify(entry.config.value))) else None;
    ConfigResult(rendered, entry.errors, false)
  }

  /** A tick that finds a matching entry carrying a result. */
  ghost predicate Usable<R, Y, E>(l: Loader<Y, E>, assistants: seq<Assistant<R, E>>)
  {
    exists i :: IsFirstMatch(assistants, l.ownerSlug, l.packageSlug, i) && assistants[i].configResult.Some?
  }

  /** One firing of the refresh timer, with `assistants` the directory listing. */
  function Tick<R, Y, E>(l: Loader<Y, E>, assistants: seq<Assistant<R, E>>, stringify: R -> string, render: string -> Y)
    : (o: TickOutcome<Y, E>)
    ensures o.state.ownerSlug == l.ownerSlug && o.state.packageSlug == l.packageSlug
    ensures o.state.description == l.description
    ensures !Usable(l, assistants) ==> o.state == l && o.reloads == []
    ensures Usable(l, assistants) ==> o.reloads == [o.state.configResult]
    ensures forall i :: IsFirstMatch(assistants, l.ownerSlug, l.packageSlug, i) && assistants[i].configResult.Some? ==>
              var entry := assistants[i].configResult.value;
              && o.state.configResult.errors == entry.errors
              && !o.state.configResult.configLoadInterrupted
              && (entry.config.Some? ==> o.state.configResult.config == Some(render(stringify(entry.config.value))))
              && (entry.config.None? ==> o.state.configResult.config == None)
  {
    match FindFirst(assistants, l.ownerSlug, l.packageSlug)
    case None => TickOutcome(l, [])
    case Some(i) =>
      match assistants[i].configResult
      case None => TickOutcome(l, [])
      case Some(entry) =>
        var next := l.(configResult := Refreshed(entry, stringify, render));
        TickOutcome(next, [next.configResult])
  }

  /** Successive ticks, one per directory listing, in order. Every reload
      observes a freshly refreshed cache, so never one flagged as interrupted,
      and the final cache is either the starting one or such a refreshed one. */
  function RunTicks<R, Y, E>(l: Loader<Y, E>, listings: seq<seq<Assistant<R, E>>>, stringify: R -> string, render: string -> Y)
    : (o: TickOutcome<Y, E>)
    ensures forall k :: 0 <= k < |o.reloads| ==> !o.reloads[k].configLoadInterrupted
    ensures o.state.configResult == l.configResult || !o.state.configResult.configLoadInterrupted
    decreases |listings|
  {
    if |listings| == 0 then TickOutcome(l, [])
    else
      var first := Tick(l, listings[0], stringify, render);
      var rest := RunTicks(first.state, listings[1..], stringify, render);
      TickOutcome(rest.state, first.reloads + rest.reloads)
  }

  // ---------------------------------------------------------------------------
  // On-demand load and the lifecycle stub

  /** `doLoadConfig`: cached errors are returned without materialising;
      otherwise the materialiser runs on the cached document and its errors are
      dropped, since validation happens elsewhere. */
  function Load<Y, C, E>(l: Loader<Y, E>, materialize: MaterializerCall<Y> -> ConfigResult<C, E>)
    : (o: LoadOutcome<Y, C, E>)
    ensures o.call.Some? <==> !HasErrors(l.configResult)
    ensures o.call.Some? ==> o.call.value.config == l.configResult.config
    ensures o.call.Some? ==> o.call.value.metadata == PlatformConfigMetadata(l.ownerSlug, l.packageSlug)
    ensures o.call.None? ==> o.result == ConfigResult(None, l.configResult.errors, false)
    ensures o.call.Some? ==>
              var m := materialize(o.call.value);
              o.result == m.(errors := Some([]))
  {
    if HasErrors(l.configResult) then
      LoadOutcome(ConfigResult(None, l.configResult.errors, false), None)
    else
      var call := MaterializerCall(l.configResult.config, PlatformConfigMetadata(l.ownerSlug, l.packageSlug));
      var results := materialize(call);
      LoadOutcome(results.(errors := Some([])), Some(call))
  }

  /** `setIsActive`: the timer runs regardless of activation, so nothing changes. */
  function SetIsActive<Y, E>(l: Loader<Y, E>, isActive: bool): (l': Loader<Y, E>)
    ensures l'.configResult == l.configResult
    ensures l'.ownerSlug == l.ownerSlug && l'.packageSlug == l.packageSlug
    ensures l'.description == l.description
  {
    l
  }
}
