/**
 * A document type bound to a Django model: its compiled preparers, and the bulk
 * actions it builds for model instances (`_prepare_action`, `_get_actions`, `update`).
 */
module Documents {

  import opened Wrappers
  import opened Records
  import opened IndexNaming
  import opened Preparers

  /** The bulk operation types (`OpensearchAction` values). */
  datatype BulkOp = OpIndex | OpCreate | OpUpdate | OpDelete

  /**
   * The payload key of a bulk action: `_source` holds the document (None for a delete),
   * `doc` holds the partial document of an update.
   */
  datatype Body = SourceBody(source: Option<Doc>) | DocBody(doc: Doc)

  /** The dict `_prepare_action` returns: `_op_type`, `_index`, `_id` and the payload key. */
  datatype BulkAction = BulkAction(opType: BulkOp, index: string, id: int, body: Body)

  /** The document an action carries, whichever key it sits under. */
  function Payload(a: BulkAction): Option<Doc>
  {
    match a.body
    case SourceBody(source) => source
    case DocBody(doc) => Some(doc)
  }

  /** What `update` is given: one model instance, or an iterable of them. */
  datatype Thing = OneInstance(instance: Record) | Many(instances: seq<Record>)

  /** The call `update` makes to the bulk helper: the actions and the refresh setting. */
  datatype BulkRequest = BulkRequest(actions: seq<BulkAction>, refresh: bool)

  class Document {
    /** `_index._name`: the base index name, which is also the alias. */
    const base: string
    const hooks: Hooks
    /** `_related_instance_to_ignore`. */
    const relatedToIgnore: Option<Record>
    /** `_prepared_fields`. */
    const preparedFields: seq<Compiled>
    /** An override of `should_index_object`; None keeps the default. */
    const shouldIndex: Option<Record -> bool>
    /** An override of `generate_id`; None keeps the default. */
    const idOf: Option<Record -> int>
    /** `Index.auto_refresh`, when the document's Index class sets it. */
    const autoRefresh: Option<bool>

    ghost predicate Valid()
    {
      && DistinctCompiledNames(preparedFields)
      && forall i :: 0 <= i < |preparedFields| ==> Bound(preparedFields[i].fn, hooks)
    }

    /**
     * `Document.__init__`: keeps the instance to ignore and compiles the preparers of
     * `_fields` (whose names are distinct, being dict keys).
     */
    constructor (base: string, fields: seq<FieldEntry>, hooks: Hooks, relatedToIgnore: Option<Record>,
                 shouldIndex: Option<Record -> bool>, idOf: Option<Record -> int>, autoRefresh: Option<bool>)
      requires DistinctNames(fields)
      modifies Fields(fields)
      ensures Valid()
      ensures this.base == base && this.hooks == hooks && this.relatedToIgnore == relatedToIgnore
      ensures this.shouldIndex == shouldIndex && this.idOf == idOf && this.autoRefresh == autoRefresh
      ensures preparedFields == Compile(fields, old(PathsOf(fields)), hooks, relatedToIgnore)
      ensures forall f :: f in Fields(fields) ==> f.path == Normalize(fields, old(PathsOf(fields)))[f]
    {
      ghost var paths := PathsOf(fields);
      var prepared := InitPrepare(fields, hooks, relatedToIgnore);
      CompileShape(fields, paths, hooks, relatedToIgnore);
      this.base := base;
      this.hooks := hooks;
      this.relatedToIgnore := relatedToIgnore;
      this.preparedFields := prepared;
      this.shouldIndex := shouldIndex;
      this.idOf := idOf;
      this.autoRefresh := autoRefresh;
    }

    /**
     * `Document.prepare(instance)`: a document whose keys are exactly the compiled field
     * names, each holding what that field's preparer returns for the instance.
     */
    function Prepare(instance: Record): (r: Doc)
      requires Valid()
      ensures forall n :: n in r <==> exists i :: 0 <= i < |preparedFields| && preparedFields[i].name == n
      ensures forall i :: 0 <= i < |preparedFields| ==>
                preparedFields[i].name in r && r[preparedFields[i].name] == Apply(preparedFields[i].fn, hooks, instance)
    {
      PrepareFrom(preparedFields, hooks, instance)
    }

    /**
     * `Document.generate_id`: the `_id` of an instance's document: the document's own
     * override when it has one, else the instance's primary key.
     */
    function GenerateId(instance: Record): (id: int)
      ensures idOf.None? ==> id == instance.pk
      ensures idOf.Some? ==> id == idOf.value(instance)
    {
      if idOf.Some? then idOf.value(instance) else instance.pk
    }

    /** `Document.should_index_object`: every instance is indexed unless the document overrides it. */
    function ShouldIndexObject(instance: Record): (b: bool)
      ensures shouldIndex.None? ==> b
      ensures shouldIndex.Some? ==> b == shouldIndex.value(instance)
    {
      shouldIndex.None? || shouldIndex.value(instance)
    }

    /**
     * `Document._prepare_action`: the action for one instance. It targets the given
     * index name, or the base name when none (or an empty one) is given; its id is what
     * `generate_id` gives (the primary key by default); a delete carries no document, an
     * update carries the prepared document under `doc`, and any other action carries it
     * under `_source`.
     */
    function PrepareAction(instance: Record, op: BulkOp, indexName: Option<string>): (a: BulkAction)
      requires Valid()
      ensures a.opType == op && a.id == GenerateId(instance)
      ensures idOf.None? ==> a.id == instance.pk
      ensures a.index == if Present(indexName) then indexName.value else base
      ensures a.body.DocBody? <==> op == OpUpdate
      ensures Payload(a) == if op == OpDelete then None else Some(Prepare(instance))
    {
      BulkAction(op, if Present(indexName) then indexName.value else base, GenerateId(instance),
                 if op == OpUpdate then DocBody(Prepare(instance))
                 else SourceBody(if op == OpDelete then None else Some(Prepare(instance))))
    }

    /** The instances `_get_actions` emits an action for: all of them for a delete. */
    function Eligible(instances: seq<Record>, op: BulkOp): (r: seq<Record>)
    {
      if instances == [] then []
      else
        (if op == OpDelete || ShouldIndexObject(instances[0]) then [instances[0]] else [])
        + Eligible(instances[1..], op)
    }

    /** `Document._get_actions`: one action per eligible instance, in input order. */
    function GetActions(instances: seq<Record>, op: BulkOp, indexName: Option<string>): (r: seq<BulkAction>)
      requires Valid()
      ensures |r| == |Eligible(instances, op)|
      ensures forall i :: 0 <= i < |r| ==> r[i] == PrepareAction(Eligible(instances, op)[i], op, indexName)
    {
      var eligible := Eligible(instances, op);
      seq(|eligible|, i requires 0 <= i < |eligible| => PrepareAction(eligible[i], op, indexName))
    }

    /**
     * Exactly the instances that pass `should_index_object` get an index, create or update
     * action, each as often as it occurs; a delete ignores the predicate.
     */
    lemma {:induction false} EligibleCounts(instances: seq<Record>, op: BulkOp, x: Record)
      ensures multiset(Eligible(instances, op))[x] ==
              if op == OpDelete || ShouldIndexObject(x) then multiset(instances)[x] else 0
    {
      if instances != [] {
        EligibleCounts(instances[1..], op, x);
        assert instances == [instances[0]] + instances[1..];
      }
    }

    /** With the default `should_index_object`, every instance gets an action, in order. */
    lemma {:induction false} DefaultIndexesEverything(instances: seq<Record>, op: BulkOp)
      requires shouldIndex.None?
      ensures Eligible(instances, op) == instances
    {
      if instances != [] {
        DefaultIndexesEverything(instances[1..], op);
        assert instances == [instances[0]] + instances[1..];
      }
    }

    /** A delete acts on every instance, in order, whatever `should_index_object` says. */
    lemma {:induction false} DeleteIgnoresPredicate(instances: seq<Record>)
      ensures Eligible(instances, OpDelete) == instances
    {
      if instances != [] {
        DeleteIgnoresPredicate(instances[1..]);
        assert instances == [instances[0]] + instances[1..];
      }
    }

    /** Filtering streams: what passes from a concatenation is what passes from each part. */
    lemma {:induction false} EligibleConcat(xs: seq<Record>, ys: seq<Record>, op: BulkOp)
      ensures Eligible(xs + ys, op) == Eligible(xs, op) + Eligible(ys, op)
    {
      if xs == [] {
        assert xs + ys == ys;
      } else {
        var head := if op == OpDelete || ShouldIndexObject(xs[0]) then [xs[0]] else [];
        assert (xs + ys)[0] == xs[0] && (xs + ys)[1..] == xs[1..] + ys;
        assert Eligible(xs + ys, op) == head + Eligible(xs[1..] + ys, op);
        EligibleConcat(xs[1..], ys, op);
        assert Eligible(xs, op) == head + Eligible(xs[1..], op);
      }
    }

    /** `_get_actions` streams: the actions of a concatenation are the concatenated actions. */
    lemma GetActionsConcat(xs: seq<Record>, ys: seq<Record>, op: BulkOp, indexName: Option<string>)
      requires Valid()
      ensures GetActions(xs + ys, op, indexName) == GetActions(xs, op, indexName) + GetActions(ys, op, indexName)
    {
      EligibleConcat(xs, ys, op);
    }

    /**
     * The refresh setting `update` uses: an explicit argument wins (even `False`), then the
     * document's `Index.auto_refresh`, then the application default.
     */
    function RefreshSetting(refresh: Option<bool>, appDefault: bool): (r: bool)
      ensures refresh.Some? ==> r == refresh.value
      ensures refresh.None? && autoRefresh.Some? ==> r == autoRefresh.value
      ensures refresh.None? && autoRefresh.None? ==> r == appDefault
    {
      if refresh.Some? then refresh.value
      else if autoRefresh.Some? then autoRefresh.value
      else appDefault
    }

    function ObjectList(thing: Thing): seq<Record>
    {
      match thing
      case OneInstance(instance) => [instance]
      case Many(instances) => instances
    }

    /**
     * `Document.update`: the bulk call for one instance or many. Its actions are those
     * `_get_actions` builds for the instances, aimed at `get_index_name(index_suffix)`
     * when a suffix is given and at no explicit index otherwise; its refresh setting is
     * chosen by precedence.
     */
    function Update(thing: Thing, op: BulkOp, indexSuffix: Option<string>, refresh: Option<bool>,
                    appDefault: bool): (r: BulkRequest)
      requires Valid()
      ensures r.actions == GetActions(ObjectList(thing), op, if Present(indexSuffix) then Some(IndexName(base, indexSuffix)) else None)
      ensures r.refresh == RefreshSetting(refresh, appDefault)
    {
      var indexName := if Present(indexSuffix) then Some(IndexName(base, indexSuffix)) else None;
      BulkRequest(GetActions(ObjectList(thing), op, indexName), RefreshSetting(refresh, appDefault))
    }

    /** Every action `update` builds targets `get_index_name(index_suffix)`, suffix or not. */
    lemma UpdateTargetsIndexName(thing: Thing, op: BulkOp, indexSuffix: Option<string>, refresh: Option<bool>,
                                 appDefault: bool)
      requires Valid()
      ensures forall a :: a in Update(thing, op, indexSuffix, refresh, appDefault).actions ==>
                a.index == IndexName(base, indexSuffix)
    {
      var indexName := if Present(indexSuffix) then Some(IndexName(base, indexSuffix)) else None;
      var actions := GetActions(ObjectList(thing), op, indexName);
      forall a | a in actions ensures a.index == IndexName(base, indexSuffix) {
        var i :| 0 <= i < |actions| && actions[i] == a;
        if Present(indexSuffix) {
          assert Present(indexName);
        }
      }
    }

    /** A single instance is handled as the one-element list holding it. */
    lemma UpdateOneIsListOfOne(instance: Record, op: BulkOp, indexSuffix: Option<string>, refresh: Option<bool>,
                               appDefault: bool)
      requires Valid()
      ensures Update(OneInstance(instance), op, indexSuffix, refresh, appDefault)
              == Update(Many([instance]), op, indexSuffix, refresh, appDefault)
      ensures |Update(OneInstance(instance), op, indexSuffix, refresh, appDefault).actions|
              == if op == OpDelete || ShouldIndexObject(instance) then 1 else 0
    {
      assert Eligible([instance], op) == (if op == OpDelete || ShouldIndexObject(instance) then [instance] else []) + Eligible([], op);
    }
  }
}
