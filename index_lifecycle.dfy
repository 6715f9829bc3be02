/**
 * The lifecycle of a document's concrete indices: listing the generations of a base
 * name, finding the one the base alias points at, moving the alias to a new
 * generation (`migrate`) and creating a generation (`init`).
 */
module IndexLifecycle {

  import opened Wrappers
  import opened Ordering
  import opened IndexNaming
  import opened SearchEngine

  /** A generation of `base` that currently holds the alias `base`. */
  ghost predicate IsActiveGeneration(indices: set<string>, aliases: set<AliasEntry>, base: string, name: string)
  {
    name in indices && IsGenerationOf(base, name) && AliasEntry(name, base) in aliases
  }

  /** A set with at most one element that holds `x` is exactly `{x}`. */
  lemma AtMostOneIsSingleton<T>(s: set<T>, x: T)
    requires |s| <= 1 && x in s
    ensures s == {x}
  {
    assert |s - {x}| == |s| - 1;
    assert s - {x} == {};
  }

  /**
   * `Document.get_all_indices`: the names of all generations of `base`, in Python's
   * sorted string order.
   */
  method GetAllIndices(engine: Engine, base: string) returns (names: seq<string>)
    ensures SortedBy(names, LexLe)
    ensures forall n :: n in names <==> n in engine.indices && IsGenerationOf(base, n)
    ensures forall i, j :: 0 <= i < j < |names| ==> names[i] != names[j]
  {
    var keys := engine.ListGenerations(base);
    names := SortedNames(keys);
    assert forall n :: n in names <==> n in multiset(keys);
  }

  /**
   * `Document.get_active_index`: the first generation, in sorted order, that holds the
   * alias `base`, or None when no generation holds it. The one returned is the least
   * such name, so the result does not depend on the order the engine lists names in.
   */
  method GetActiveIndex(engine: Engine, base: string) returns (active: Option<string>)
    ensures active.None? <==> forall n :: !IsActiveGeneration(engine.indices, engine.aliases, base, n)
    ensures active.Some? ==> IsActiveGeneration(engine.indices, engine.aliases, base, active.value)
    ensures active.Some? ==> forall n :: IsActiveGeneration(engine.indices, engine.aliases, base, n) ==> LexLe(active.value, n)
  {
    var names := GetAllIndices(engine, base);
    var k := 0;
    while k < |names|
      invariant 0 <= k <= |names|
      invariant forall j :: 0 <= j < k ==> !engine.HoldsAlias(names[j], base)
    {
      if engine.HoldsAlias(names[k], base) {
        assert IsActiveGeneration(engine.indices, engine.aliases, base, names[k]);
        forall n | IsActiveGeneration(engine.indices, engine.aliases, base, n) ensures LexLe(names[k], n) {
          var j :| 0 <= j < |names| && names[j] == n;
          if j == k { LexLeTotal(n, n); }
        }
        return Some(names[k]);
      }
      k := k + 1;
    }
    return None;
  }

  /**
   * The `actions_on_aliases` list `migrate` sends: add the alias `base` to the new
   * generation, preceded by removing it from the active generation when there is one.
   */
  function AliasActions(base: string, suffix: Option<string>, active: Option<string>): (r: seq<AliasAction>)
    ensures |r| == if active.Some? then 2 else 1
    ensures r[|r| - 1] == Add(IndexName(base, suffix), base)
    ensures active.Some? ==> r[0] == Remove(active.value, base)
  {
    var add := [Add(IndexName(base, suffix), base)];
    if active.Some? then [Remove(active.value, base)] + add else add
  }

  /** The entries the cut-over removes: the active generation's hold on the alias. */
  function Retired(base: string, active: Option<string>): set<AliasEntry>
  {
    if active.Some? then {AliasEntry(active.value, base)} else {}
  }

  /**
   * Applying the cut-over list in one batch: it is accepted exactly when the new index
   * exists and no index is named like the alias; then the alias has left the old active
   * generation and points at the new one, and no other entry changed.
   */
  lemma {:induction false} CutOverEffect(indices: set<string>, aliases: set<AliasEntry>, base: string,
                                         suffix: Option<string>, active: Option<string>)
    requires active.Some? ==> AliasEntry(active.value, base) in aliases
    ensures ApplyAliasActions(indices, aliases, AliasActions(base, suffix, active)).Some?
            <==> IndexName(base, suffix) in indices && base !in indices
    ensures ApplyAliasActions(indices, aliases, AliasActions(base, suffix, active)).Some? ==>
            ApplyAliasActions(indices, aliases, AliasActions(base, suffix, active)).value
            == (aliases - Retired(base, active)) + {AliasEntry(IndexName(base, suffix), base)}
  {
    var newName := IndexName(base, suffix);
    var add := [Add(newName, base)];
    var rest := aliases - Retired(base, active);
    assert ApplyAliasActions(indices, rest, add) ==
           if newName in indices && base !in indices
           then ApplyAliasActions(indices, rest + {AliasEntry(newName, base)}, [])
           else None;
    if active.Some? {
      var actions := AliasActions(base, suffix, active);
      assert actions[1..] == add;
    }
  }

  /**
   * `Document.migrate(suffix)`: points the alias `base` at generation `<base>--<suffix>`.
   * With no active generation while the name `base` exists, the bare index `base` is
   * deleted first (an error when `base` is not an index); then the alias actions are
   * sent as one batch. `ok` is false when either engine call is rejected.
   */
  method Migrate(engine: Engine, base: string, suffix: Option<string>)
    returns (actions: seq<AliasAction>, active: Option<string>, ok: bool)
    requires engine.Valid()
    modifies engine
    ensures engine.Valid()
    ensures active.None? <==> forall n :: !IsActiveGeneration(old(engine.indices), old(engine.aliases), base, n)
    ensures active.Some? ==> IsActiveGeneration(old(engine.indices), old(engine.aliases), base, active.value)
    ensures active.Some? ==> forall n :: IsActiveGeneration(old(engine.indices), old(engine.aliases), base, n) ==> LexLe(active.value, n)
    ensures actions == AliasActions(base, suffix, active)
    // the bare index `base` is deleted only in the collision case
    ensures engine.indices ==
            if |actions| == 1 && old(engine.Exists(base)) then old(engine.indices) - {base} else old(engine.indices)
    ensures ok <==> && Present(suffix)
                    && IndexName(base, suffix) in old(engine.indices)
                    && (|actions| == 1 && old(engine.Exists(base)) ==> base in old(engine.indices))
    ensures !ok ==> (engine.aliases ==
            if |actions| == 1 && old(engine.Exists(base)) then WithoutIndex(old(engine.aliases), base) else old(engine.aliases))
    ensures ok ==> (engine.aliases ==
            ((if |actions| == 1 && old(engine.Exists(base)) then WithoutIndex(old(engine.aliases), base) else old(engine.aliases))
             - Retired(base, active)) + {AliasEntry(IndexName(base, suffix), base)})
    ensures ok ==> engine.Holders(base) == (old(engine.Holders(base)) - ActiveSet(active)) + {IndexName(base, suffix)}
    ensures ok && |old(engine.Holders(base))| <= 1 ==> engine.Holders(base) == {IndexName(base, suffix)}
  {
    ghost var indices0, aliases0 := engine.indices, engine.aliases;
    var indexName := IndexName(base, suffix);
    active := GetActiveIndex(engine, base);
    actions := AliasActions(base, suffix, active);
    var collision := |actions| == 1 && engine.Exists(base);
    if collision {
      ok := engine.Delete(base);
      if !ok {
        NoEntriesOnMissingIndex(indices0, aliases0, base);
        return;
      }
    }
    ghost var aliases1 := engine.aliases;
    HoldersWithoutIndex(indices0, aliases0, base);
    assert base !in engine.indices by {
      if active.Some? {
        assert AliasEntry(active.value, base) in aliases0;
      }
    }
    CutOverEffect(engine.indices, aliases1, base, suffix, active);
    ok := engine.UpdateAliases(actions);
    if ok {
      CutOverHolders(aliases1, base, indexName, active);
      if |old(engine.Holders(base))| <= 1 {
        if active.Some? {
          AtMostOneIsSingleton(HoldersIn(aliases0, base), active.value);
        } else {
          assert forall i :: AliasEntry(i, base) !in aliases0;
        }
      }
    }
  }

  /** With no index `name`, no alias entry points at it. */
  lemma NoEntriesOnMissingIndex(indices: set<string>, aliases: set<AliasEntry>, name: string)
    requires ValidState(indices, aliases) && name !in indices
    ensures WithoutIndex(aliases, name) == aliases
  {
  }

  /** Deleting the index `base` never takes the alias `base` off anything. */
  lemma HoldersWithoutIndex(indices: set<string>, aliases: set<AliasEntry>, base: string)
    requires ValidState(indices, aliases)
    ensures HoldersIn(WithoutIndex(aliases, base), base) == HoldersIn(aliases, base)
  {
  }

  /** After the cut-over the alias is held by the old holders, less the retired one, plus the new generation. */
  lemma CutOverHolders(aliases: set<AliasEntry>, base: string, newName: string, active: Option<string>)
    ensures HoldersIn((aliases - Retired(base, active)) + {AliasEntry(newName, base)}, base)
            == (HoldersIn(aliases, base) - ActiveSet(active)) + {newName}
  {
  }

  /** The active generation, as a set. */
  function ActiveSet(active: Option<string>): set<string>
  {
    if active.Some? then {active.value} else {}
  }

  /**
   * `Document.init(suffix)`: creates generation `<base>--<suffix>` (the suffix defaults
   * to the clock reading `now` when absent or empty) and migrates the alias to it only
   * when the name `base` does not exist yet, as an index or as an alias.
   */
  method Init(engine: Engine, base: string, suffix: Option<string>, now: string)
    returns (indexName: string, migrated: bool, ok: bool)
    requires engine.Valid()
    requires now != []
    modifies engine
    ensures engine.Valid()
    ensures indexName == IndexName(base, Some(if Present(suffix) then suffix.value else now))
    ensures engine.Exists(indexName)
    ensures migrated <==> !old(engine.Exists(base))
    ensures !migrated ==> ok && engine.aliases == old(engine.aliases)
    ensures engine.indices == if old(engine.Exists(indexName)) then old(engine.indices) else old(engine.indices) + {indexName}
    ensures migrated ==> (ok <==> !old(engine.Exists(indexName)) || indexName in old(engine.indices))
    ensures migrated ==> engine.aliases == if ok then old(engine.aliases) + {AliasEntry(indexName, base)} else old(engine.aliases)
    ensures migrated && ok ==> engine.Holders(base) == {indexName}
  {
    var chosen := if Present(suffix) then suffix.value else now;
    indexName := IndexName(base, Some(chosen));
    engine.CreateIndex(indexName);
    migrated := !engine.Exists(base);
    ok := true;
    if migrated {
      assert engine.Holders(base) == {};
      var actions, active;
      actions, active, ok := Migrate(engine, base, Some(chosen));
    }
  }

  /**
   * Two `init` calls for a base name that does not exist yet: the first creates
   * generation `s1` and points the alias at it; the second creates generation `s2`, but
   * since the name `base` now exists (as the alias) it does not migrate, and the alias
   * stays on `s1`.
   */
  method InitTwiceKeepsFirstGeneration(engine: Engine, base: string, s1: string, s2: string, now: string)
    requires engine.Valid() && !engine.Exists(base)
    requires s1 != [] && s2 != [] && now != []
    requires !engine.Exists(IndexName(base, Some(s1)))
    modifies engine
    ensures engine.Valid()
    ensures engine.Holders(base) == {IndexName(base, Some(s1))}
    ensures engine.Exists(IndexName(base, Some(s2)))
  {
    var first, migrated1, ok1 := Init(engine, base, Some(s1), now);
    var second, migrated2, ok2 := Init(engine, base, Some(s2), now);
  }
}
