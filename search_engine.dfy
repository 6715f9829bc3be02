/**
 * The OpenSearch cluster as the document code sees it: a set of concrete index names
 * and a set of alias entries (an alias name attached to a concrete index). Only the
 * calls the document code makes are modelled: `indices.exists`, `indices.delete`,
 * `indices.get(<pattern>)`, `exists_alias`, `update_aliases` and index creation.
 */
module SearchEngine {

  import opened Wrappers
  import opened IndexNaming

  datatype AliasEntry = AliasEntry(index: string, alias: string)

  /** One entry of the `actions` list sent to `update_aliases`. */
  datatype AliasAction = Add(index: string, alias: string) | Remove(index: string, alias: string)

  /** Every alias points at an existing index, and no alias shares its name with an index. */
  ghost predicate ValidState(indices: set<string>, aliases: set<AliasEntry>)
  {
    forall e :: e in aliases ==> e.index in indices && e.alias !in indices
  }

  /**
   * `update_aliases`: the actions are applied in order and atomically. An `add` is
   * rejected when its index does not exist or its alias name is taken by an index; a
   * `remove` is rejected when the entry does not exist. One rejected action rejects the
   * whole batch (None). A batch that is accepted keeps the state valid.
   */
  function ApplyAliasActions(indices: set<string>, aliases: set<AliasEntry>, actions: seq<AliasAction>)
    : (r: Option<set<AliasEntry>>)
    ensures r.Some? && ValidState(indices, aliases) ==> ValidState(indices, r.value)
    decreases |actions|
  {
    if actions == [] then Some(aliases)
    else match actions[0]
      case Add(i, a) =>
        if i in indices && a !in indices then ApplyAliasActions(indices, aliases + {AliasEntry(i, a)}, actions[1..])
        else None
      case Remove(i, a) =>
        if AliasEntry(i, a) in aliases then ApplyAliasActions(indices, aliases - {AliasEntry(i, a)}, actions[1..])
        else None
  }

  /** The alias entries left once index `name` is deleted. */
  function WithoutIndex(aliases: set<AliasEntry>, name: string): (r: set<AliasEntry>)
    ensures forall e :: e in r <==> e in aliases && e.index != name
  {
    set e | e in aliases && e.index != name
  }

  /** The indices an alias points at. */
  function HoldersIn(aliases: set<AliasEntry>, alias: string): (r: set<string>)
    ensures forall i :: i in r <==> AliasEntry(i, alias) in aliases
  {
    set e | e in aliases && e.alias == alias :: e.index
  }

  class Engine {
    var indices: set<string>
    var aliases: set<AliasEntry>

    ghost predicate Valid()
      reads this
    {
      ValidState(indices, aliases)
    }

    /** `indices.exists(name)`: true for an index and for an alias alike. */
    function Exists(name: string): (b: bool)
      reads this
      ensures b <==> name in indices || HoldersIn(aliases, name) != {}
    {
      assert forall e :: e in aliases && e.alias == name ==> e.index in HoldersIn(aliases, name);
      name in indices || exists e :: e in aliases && e.alias == name
    }

    /**
     * `indices.exists_alias(index=index, name=alias)`: in a valid state, an index that holds
     * an alias exists, and so does the alias, whose name is not an index's.
     */
    function HoldsAlias(index: string, alias: string): (b: bool)
      reads this
      ensures b && Valid() ==> index in indices && alias !in indices && Exists(alias)
    {
      AliasEntry(index, alias) in aliases
    }

    /** The indices the alias currently points at. */
    function Holders(alias: string): (r: set<string>)
      reads this
      ensures forall i :: i in r <==> HoldsAlias(i, alias)
    {
      HoldersIn(aliases, alias)
    }

    constructor ()
      ensures Valid() && indices == {} && aliases == {}
    {
      indices, aliases := {}, {};
    }

    /** Index creation as `Index.save` does it: create the index only when the name is free. */
    method CreateIndex(name: string)
      requires Valid()
      modifies this
      ensures Valid()
      ensures indices == if old(Exists(name)) then old(indices) else old(indices) + {name}
      ensures aliases == old(aliases)
    {
      if !Exists(name) {
        indices := indices + {name};
      }
    }

    /**
     * `indices.delete(name)`: removes an index with its alias entries; a name that is
     * not an index (a missing name, or an alias) is an error and changes nothing.
     */
    method Delete(name: string) returns (ok: bool)
      requires Valid()
      modifies this
      ensures Valid()
      ensures ok <==> name in old(indices)
      ensures indices == old(indices) - {name}
      ensures aliases == WithoutIndex(old(aliases), name)
    {
      ok := name in indices;
      if ok {
        indices := indices - {name};
        aliases := WithoutIndex(aliases, name);
      }
    }

    /** `indices.update_aliases(body={"actions": actions})`: all or nothing. */
    method UpdateAliases(actions: seq<AliasAction>) returns (ok: bool)
      requires Valid()
      modifies this
      ensures Valid()
      ensures ok <==> ApplyAliasActions(old(indices), old(aliases), actions).Some?
      ensures ok ==> aliases == ApplyAliasActions(old(indices), old(aliases), actions).value
      ensures !ok ==> aliases == old(aliases)
      ensures indices == old(indices)
    {
      var r := ApplyAliasActions(indices, aliases, actions);
      ok := r.Some?;
      if ok {
        aliases := r.value;
      }
    }

    /**
     * The keys of `indices.get("<base>--*")`: every index whose name matches the
     * pattern, each once, in no particular order.
     */
    method ListGenerations(base: string) returns (keys: seq<string>)
      ensures forall n :: n in keys <==> n in indices && IsGenerationOf(base, n)
      ensures forall i, j :: 0 <= i < j < |keys| ==> keys[i] != keys[j]
    {
      keys := [];
      var rest := set n | n in indices && IsGenerationOf(base, n);
      while rest != {}
        invariant forall n :: n in keys || n in rest <==> n in indices && IsGenerationOf(base, n)
        invariant forall k :: 0 <= k < |keys| ==> keys[k] !in rest
        invariant forall i, j :: 0 <= i < j < |keys| ==> keys[i] != keys[j]
        decreases |rest|
      {
        var n :| n in rest;
        keys := keys + [n];
        rest := rest - {n};
      }
    }
  }
}
