/** Properties relating the loader's operations to each other: the profile id
    as a key, the refresh tick over one or many firings, and the on-demand
    load before and after a refresh. */
module LoaderProperties {
  import opened Options
  import opened ConfigResults
  import opened PlatformProfileLoader

  // ---------------------------------------------------------------------------
  // The profile id as a key

  /** The text of an id before its first `/`. */
  function OwnerPart(id: string): string
  {
    if |id| == 0 then ""
    else if id[0] == '/' then ""
    else [id[0]] + OwnerPart(id[1..])
  }

  /** The text of an id after its first `/`. */
  function PackagePart(id: string): string
  {
    if |id| == 0 then ""
    else if id[0] == '/' then id[1..]
    else PackagePart(id[1..])
  }

  /** Splitting an id at its first `/` gives back both slugs, provided the
      owner slug contains no `/`. */
  lemma {:induction false} IdRoundTrip(ownerSlug: string, packageSlug: string)
    requires '/' !in ownerSlug
    ensures OwnerPart(ProfileId(ownerSlug, packageSlug)) == ownerSlug
    ensures PackagePart(ProfileId(ownerSlug, packageSlug)) == packageSlug
  {
    var id := ProfileId(ownerSlug, packageSlug);
    if |ownerSlug| == 0 {
      assert id == "/" + packageSlug;
      assert id[1..] == packageSlug;
    } else {
      assert ownerSlug[0] in ownerSlug;
      assert id[0] == ownerSlug[0];
      assert id[1..] == ProfileId(ownerSlug[1..], packageSlug);
      assert '/' !in ownerSlug[1..] by {
        forall k | 0 <= k < |ownerSlug[1..]|
          ensures ownerSlug[1..][k] != '/'
        {
          assert ownerSlug[1..][k] == ownerSlug[k + 1];
          assert ownerSlug[k + 1] in ownerSlug;
        }
      }
      IdRoundTrip(ownerSlug[1..], packageSlug);
      assert [ownerSlug[0]] + ownerSlug[1..] == ownerSlug;
    }
  }

  /** Two profiles have the same id exactly when they have the same owner and
      package slugs (owner slugs containing no `/`). */
  lemma ProfileIdInjective(owner1: string, package1: string, owner2: string, package2: string)
    requires '/' !in owner1 && '/' !in owner2
    ensures ProfileId(owner1, package1) == ProfileId(owner2, package2) <==> owner1 == owner2 && package1 == package2
  {
    IdRoundTrip(owner1, package1);
    IdRoundTrip(owner2, package2);
  }

  /** A tick matches exactly the directory entries whose own profile id is the
      loader's description id. */
  lemma MatchesIffSameId<R, Y, E>(initial: ConfigResult<Y, E>, ownerSlug: string, packageSlug: string, versionSlug: string,
                                  a: Assistant<R, E>)
    requires '/' !in ownerSlug && '/' !in a.ownerSlug
    ensures var l := NewLoader(initial, ownerSlug, packageSlug, versionSlug);
            Matches(a, l.ownerSlug, l.packageSlug) <==> ProfileId(a.ownerSlug, a.packageSlug) == l.description.id
  {
    var l := NewLoader(initial, ownerSlug, packageSlug, versionSlug);
    assert l.description.id == ProfileId(ownerSlug, packageSlug) by {
      assert l.description.id == l.description.id[..|ownerSlug|] + "/" + l.description.id[|ownerSlug| + 1..];
    }
    ProfileIdInjective(a.ownerSlug, a.packageSlug, ownerSlug, packageSlug);
  }

  /** Without the slash-free owner slug the id no longer identifies the match
      key: owner `a` with package `b/c` and owner `a/b` with package `c` share
      the id `a/b/c`, yet the tick's predicate tells them apart. */
  lemma SlashInOwnerBreaksIdMatch<R, Y, E>(initial: ConfigResult<Y, E>, entryResult: Option<ConfigResult<R, E>>)
    ensures var l := NewLoader(initial, "a", "b/c", "1.0");
            var a := Assistant("a/b", "c", entryResult);
            ProfileId(a.ownerSlug, a.packageSlug) == l.description.id && !Matches(a, l.ownerSlug, l.packageSlug)
  {
  }

  // ---------------------------------------------------------------------------
  // One tick

  /** The version slug given at construction has no influence on what a tick
      installs or whether it notifies. */
  lemma TickIgnoresVersion<R, Y, E>(initial: ConfigResult<Y, E>, ownerSlug: string, packageSlug: string,
                                    version1: string, version2: string,
                                    assistants: seq<Assistant<R, E>>, stringify: R -> string, render: string -> Y)
    ensures var o1 := Tick(NewLoader(initial, ownerSlug, packageSlug, version1), assistants, stringify, render);
            var o2 := Tick(NewLoader(initial, ownerSlug, packageSlug, version2), assistants, stringify, render);
            o1.state.configResult == o2.state.configResult && o1.reloads == o2.reloads
  {
  }

  /** A listing that has no entry for the loader's owner and package leaves the
      loader as it was and does not notify, whatever else it holds. */
  lemma TickWithoutMatchIsNoOp<R, Y, E>(l: Loader<Y, E>, assistants: seq<Assistant<R, E>>,
                                        stringify: R -> string, render: string -> Y)
    requires forall i :: 0 <= i < |assistants| ==> !Matches(assistants[i], l.ownerSlug, l.packageSlug)
    ensures Tick(l, assistants, stringify, render) == TickOutcome(l, [])
  {
  }

  /** Only the first matching entry counts: entries after it cannot change
      the outcome of a tick. */
  lemma TickUsesFirstMatch<R, Y, E>(l: Loader<Y, E>, assistants: seq<Assistant<R, E>>, later: seq<Assistant<R, E>>,
                                    stringify: R -> string, render: string -> Y)
    requires exists i :: 0 <= i < |assistants| && Matches(assistants[i], l.ownerSlug, l.packageSlug)
    ensures Tick(l, assistants + later, stringify, render) == Tick(l, assistants, stringify, render)
  {
    var r := FindFirst(assistants, l.ownerSlug, l.packageSlug);
    var k := r.value;
    assert IsFirstMatch(assistants + later, l.ownerSlug, l.packageSlug, k) by {
      forall j | 0 <= j < k
        ensures !Matches((assistants + later)[j], l.ownerSlug, l.packageSlug)
      {
        assert (assistants + later)[j] == assistants[j];
      }
    }
    var r' := FindFirst(assistants + later, l.ownerSlug, l.packageSlug);
    assert r'.Some? && r'.value == k;
  }

  /** A successful tick does not depend on the cache it replaces: repeating
      it with the same listing reinstalls the same cache and notifies again.
      This rests on rendering being a function of the document text alone;
      `clientRenderHelper` also receives the IDE handle and the control-plane
      client, which the model takes to be fixed. */
  lemma TickIdempotent<R, Y, E>(l: Loader<Y, E>, assistants: seq<Assistant<R, E>>,
                                stringify: R -> string, render: string -> Y)
    ensures var once := Tick(l, assistants, stringify, render);
            var twice := Tick(once.state, assistants, stringify, render);
            twice.state == once.state && twice.reloads == once.reloads
  {
  }

  /** The cache a successful tick installs obeys the producers' discipline
      (a document, errors, or the interrupted flag) exactly when the entry has a
      document or errors: an entry that only says "interrupted" loses that flag. */
  lemma TickMeaningfulIff<R, Y, E>(l: Loader<Y, E>, assistants: seq<Assistant<R, E>>, i: int,
                                   stringify: R -> string, render: string -> Y)
    requires IsFirstMatch(assistants, l.ownerSlug, l.packageSlug, i)
    requires assistants[i].configResult.Some?
    ensures var entry := assistants[i].configResult.value;
            Meaningful(Tick(l, assistants, stringify, render).state.configResult)
            <==> entry.config.Some? || HasErrors(entry)
  {
  }

  // ---------------------------------------------------------------------------
  // Many ticks

  /** No number of ticks changes the match key or the description; in
      particular the description's errors stay the construction-time snapshot. */
  lemma {:induction false} RunTicksKeepsIdentity<R, Y, E>(l: Loader<Y, E>, listings: seq<seq<Assistant<R, E>>>,
                                                          stringify: R -> string, render: string -> Y)
    ensures var o := RunTicks(l, listings, stringify, render);
            o.state.ownerSlug == l.ownerSlug && o.state.packageSlug == l.packageSlug
            && o.state.description == l.description
    decreases |listings|
  {
    if |listings| > 0 {
      var first := Tick(l, listings[0], stringify, render);
      RunTicksKeepsIdentity(first.state, listings[1..], stringify, render);
    }
  }

  /** Each tick notifies at most once; a run without notifications leaves the
      cache as it was, and otherwise the final cache is the one the last
      notification observed. */
  lemma {:induction false} RunTicksReloads<R, Y, E>(l: Loader<Y, E>, listings: seq<seq<Assistant<R, E>>>,
                                                    stringify: R -> string, render: string -> Y)
    ensures var o := RunTicks(l, listings, stringify, render);
            && |o.reloads| <= |listings|
            && (|o.reloads| == 0 ==> o.state.configResult == l.configResult)
            && (|o.reloads| > 0 ==> o.state.configResult == o.reloads[|o.reloads| - 1])
    decreases |listings|
  {
    if |listings| > 0 {
      var first := Tick(l, listings[0], stringify, render);
      RunTicksReloads(first.state, listings[1..], stringify, render);
    }
  }

  /** Ticking through `history` and then `last` is ticking through `history`,
      then once more. */
  lemma {:induction false} RunTicksAppend<R, Y, E>(l: Loader<Y, E>, history: seq<seq<Assistant<R, E>>>,
                                                   last: seq<Assistant<R, E>>,
                                                   stringify: R -> string, render: string -> Y)
    ensures var before := RunTicks(l, history, stringify, render);
            var final := Tick(before.state, last, stringify, render);
            RunTicks(l, history + [last], stringify, render) == TickOutcome(final.state, before.reloads + final.reloads)
    decreases |history|
  {
    if |history| == 0 {
      assert history + [last] == [last];
      assert ([last])[1..] == [];
    } else {
      var first := Tick(l, history[0], stringify, render);
      assert (history + [last])[0] == history[0];
      assert (history + [last])[1..] == history[1..] + [last];
      RunTicksAppend(first.state, history[1..], last, stringify, render);
    }
  }

  /** The cache is last-writer-wins: when the final listing has a usable entry,
      the resulting cache depends on nothing else, neither on the initial cache
      nor on the listings that came before. */
  lemma LastUsableListingWins<R, Y, E>(l1: Loader<Y, E>, history1: seq<seq<Assistant<R, E>>>,
                                       l2: Loader<Y, E>, history2: seq<seq<Assistant<R, E>>>,
                                       last: seq<Assistant<R, E>>, stringify: R -> string, render: string -> Y)
    requires l1.ownerSlug == l2.ownerSlug && l1.packageSlug == l2.packageSlug
    requires Usable(l1, last)
    ensures RunTicks(l1, history1 + [last], stringify, render).state.configResult
            == RunTicks(l2, history2 + [last], stringify, render).state.configResult
  {
    RunTicksAppend(l1, history1, last, stringify, render);
    RunTicksAppend(l2, history2, last, stringify, render);
    var s1 := RunTicks(l1, history1, stringify, render).state;
    var s2 := RunTicks(l2, history2, stringify, render).state;
    RunTicksKeepsIdentity(l1, history1, stringify, render);
    RunTicksKeepsIdentity(l2, history2, stringify, render);
    var i :| IsFirstMatch(last, l1.ownerSlug, l1.packageSlug, i) && last[i].configResult.Some?;
    assert Usable(s1, last) && Usable(s2, last);
    var c1 := Tick(s1, last, stringify, render).state.configResult;
    var c2 := Tick(s2, last, stringify, render).state.configResult;
    assert c1.config == c2.config;
  }

  // ---------------------------------------------------------------------------
  // The on-demand load

  /** A load reports errors exactly when the cache holds errors, and then
      reports the cached errors themselves; a load that materialises reports
      an empty error list whatever the materialiser returned. */
  lemma LoadErrorsMirrorCache<Y, C, E>(l: Loader<Y, E>, materialize: MaterializerCall<Y> -> ConfigResult<C, E>)
    ensures var o := Load(l, materialize);
            && (HasErrors(o.result) <==> HasErrors(l.configResult))
            && (HasErrors(l.configResult) ==> o.result.errors == l.configResult.errors && o.result.config.None?)
            && (o.call.Some? ==> o.result.errors == Some([]))
  {
  }

  /** Whether a load materialises, and what it returns, looks at the cached
      errors only and never at the interrupted flag. */
  lemma LoadIgnoresInterruptedFlag<Y, C, E>(l: Loader<Y, E>, interrupted: bool,
                                            materialize: MaterializerCall<Y> -> ConfigResult<C, E>)
    ensures Load(l.(configResult := l.configResult.(configLoadInterrupted := interrupted)), materialize)
            == Load(l, materialize)
  {
  }

  /** After a successful tick, a load either returns the entry's errors without
      materialising, or materialises the rendered document of the entry. */
  lemma LoadAfterTick<R, Y, C, E>(l: Loader<Y, E>, assistants: seq<Assistant<R, E>>, i: int,
                                  stringify: R -> string, render: string -> Y,
                                  materialize: MaterializerCall<Y> -> ConfigResult<C, E>)
    requires IsFirstMatch(assistants, l.ownerSlug, l.packageSlug, i)
    requires assistants[i].configResult.Some?
    ensures var entry := assistants[i].configResult.value;
            var o := Load(Tick(l, assistants, stringify, render).state, materialize);
            && (HasErrors(entry) ==> o == LoadOutcome(ConfigResult(None, entry.errors, false), None))
            && (!HasErrors(entry) ==> o.call == Some(MaterializerCall(Refreshed(entry, stringify, render).config,
                                                                       PlatformConfigMetadata(l.ownerSlug, l.packageSlug))))
  {
  }

  /** The lifecycle stub changes nothing a tick or a load can observe. */
  lemma SetIsActiveInvisible<R, Y, C, E>(l: Loader<Y, E>, isActive: bool, assistants: seq<Assistant<R, E>>,
                                         stringify: R -> string, render: string -> Y,
                                         materialize: MaterializerCall<Y> -> ConfigResult<C, E>)
    ensures Tick(SetIsActive(l, isActive), assistants, stringify, render) == Tick(l, assistants, stringify, render)
    ensures Load(SetIsActive(l, isActive), materialize) == Load(l, materialize)
  {
  }
}
