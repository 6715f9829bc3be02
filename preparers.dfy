/**
 * Preparer compilation and document extraction. A document compiles, once, one
 * preparer per declared field: the field's `prepare_<name>_with_related` method if it
 * has one, else its `prepare_<name>` method, else the field's own value extractor.
 * `prepare(instance)` then maps every compiled field name to its preparer's output.
 */
module Preparers {

  import opened Wrappers
  import opened Records

  /** A field object in the document's `_fields`; `init_prepare` fills its `_path` in place. */
  class DocField {
    const isDodField: bool
    var path: seq<string>

    constructor (isDodField: bool, path: seq<string>)
      ensures this.isDodField == isDodField && this.path == path
    {
      this.isDodField := isDodField;
      this.path := path;
    }
  }

  /** One `(name, field)` item of the document's `_fields`. */
  datatype FieldEntry = FieldEntry(name: string, field: DocField)

  /**
   * The preparers a document class defines, looked up by field name, and the field
   * value extractor (`DODField.get_value_from_instance`) for fields without one.
   */
  datatype Hooks = Hooks(
    withRelated: map<string, (Record, Option<Record>) -> Value>,
    plain: map<string, Record -> Value>,
    extract: (seq<string>, Record, Option<Record>) -> Value)

  /** The callable compiled for one field, with the arguments bound to it. */
  datatype Preparer =
    | RelatedAware(name: string, relatedToIgnore: Option<Record>)
    | Custom(name: string)
    | FieldValue(path: seq<string>, valueToIgnore: Option<Record>)

  /** One `(name, field, fn)` item of `_prepared_fields`. */
  datatype Compiled = Compiled(name: string, field: DocField, fn: Preparer)

  /**
   * The preparer for field `name`, in precedence order: the related-aware method bound
   * with the instance to ignore, else the plain method, else the field's extractor over
   * `path`, also bound with the instance to ignore.
   */
  function Resolve(name: string, path: seq<string>, hooks: Hooks, ignore: Option<Record>): (p: Preparer)
    ensures p.RelatedAware? <==> name in hooks.withRelated
    ensures p.Custom? <==> name !in hooks.withRelated && name in hooks.plain
    ensures p.RelatedAware? ==> p.name == name && p.relatedToIgnore == ignore
    ensures p.Custom? ==> p.name == name
    ensures p.FieldValue? ==> p.path == path && p.valueToIgnore == ignore
  {
    if name in hooks.withRelated then RelatedAware(name, ignore)
    else if name in hooks.plain then Custom(name)
    else FieldValue(path, ignore)
  }

  /** The preparer names a method the document defines. */
  predicate Bound(p: Preparer, hooks: Hooks)
  {
    && (p.RelatedAware? ==> p.name in hooks.withRelated)
    && (p.Custom? ==> p.name in hooks.plain)
  }

  function Fields(entries: seq<FieldEntry>): set<DocField>
  {
    set e | e in entries :: e.field
  }

  ghost predicate Covers(entries: seq<FieldEntry>, paths: map<DocField, seq<string>>)
  {
    forall i :: 0 <= i < |entries| ==> entries[i].field in paths
  }

  /** The `_path` of every field object, as a value. */
  ghost function PathsOf(entries: seq<FieldEntry>): (r: map<DocField, seq<string>>)
    reads Fields(entries)
    ensures Covers(entries, r)
  {
    map f | f in Fields(entries) :: f.path
  }

  /** The declared fields that are DODFields, in declaration order. */
  function DodEntries(entries: seq<FieldEntry>): (r: seq<FieldEntry>)
    ensures forall i :: 0 <= i < |r| ==> r[i] in entries && r[i].field.isDodField
    ensures forall i :: 0 <= i < |entries| && entries[i].field.isDodField ==> entries[i] in r
    ensures DistinctNames(entries) ==> DistinctNames(r)
  {
    if entries == [] then []
    else
      var prefix := entries[..|entries| - 1];
      var last := entries[|entries| - 1];
      assert entries == prefix + [last];
      if last.field.isDodField then DodEntries(prefix) + [last] else DodEntries(prefix)
  }

  /**
   * The DODFields keep their declaration order: those of a concatenation are those of
   * each part, in turn, and a single entry is kept exactly when it is a DODField.
   */
  lemma {:induction false} DodEntriesConcat(a: seq<FieldEntry>, b: seq<FieldEntry>)
    ensures DodEntries(a + b) == DodEntries(a) + DodEntries(b)
    ensures |b| == 1 ==> DodEntries(b) == if b[0].field.isDodField then b else []
  {
    if b == [] {
      assert a + b == a;
    } else {
      var front, last := b[..|b| - 1], b[|b| - 1];
      assert (a + b)[..|a + b| - 1] == a + front;
      assert (a + b)[|a + b| - 1] == last;
      DodEntriesConcat(a, front);
      if |b| == 1 {
        assert front == [];
      }
    }
  }

  predicate DistinctNames(entries: seq<FieldEntry>)
  {
    forall i, j :: 0 <= i < j < |entries| ==> entries[i].name != entries[j].name
  }

  predicate DistinctCompiledNames(cs: seq<Compiled>)
  {
    forall i, j :: 0 <= i < j < |cs| ==> cs[i].name != cs[j].name
  }

  /**
   * The `_path` of every field after `init_prepare` has seen `entries`, from the paths
   * before: a DODField whose path is empty when its entry is reached gets `[name]`.
   */
  function Normalize(entries: seq<FieldEntry>, paths: map<DocField, seq<string>>): (r: map<DocField, seq<string>>)
    requires Covers(entries, paths)
    ensures r.Keys == paths.Keys
  {
    if entries == [] then paths
    else
      var before := Normalize(entries[..|entries| - 1], paths);
      var last := entries[|entries| - 1];
      if last.field.isDodField && before[last.field] == [] then before[last.field := [last.name]] else before
  }

  /** `_prepared_fields` after `init_prepare` has seen `entries`, from the paths before. */
  function Compile(entries: seq<FieldEntry>, paths: map<DocField, seq<string>>, hooks: Hooks,
                   ignore: Option<Record>): seq<Compiled>
    requires Covers(entries, paths)
  {
    if entries == [] then []
    else
      var prefix := entries[..|entries| - 1];
      var last := entries[|entries| - 1];
      if !last.field.isDodField then Compile(prefix, paths, hooks, ignore)
      else
        var path := Normalize(entries, paths)[last.field];
        Compile(prefix, paths, hooks, ignore) + [Compiled(last.name, last.field, Resolve(last.name, path, hooks, ignore))]
  }

  /** Field `f` is a DODField declared in `entries`. */
  predicate DeclaresDod(entries: seq<FieldEntry>, f: DocField)
  {
    f.isDodField && exists i :: 0 <= i < |entries| && entries[i].field == f
  }

  /** The name of the first entry that holds DODField `f`. */
  function FirstDodName(entries: seq<FieldEntry>, f: DocField): string
    requires DeclaresDod(entries, f)
  {
    var prefix := entries[..|entries| - 1];
    if DeclaresDod(prefix, f) then FirstDodName(prefix, f) else entries[|entries| - 1].name
  }

  /**
   * `init_prepare` fills an empty `_path` with the field's name (the first name it is
   * declared under, should one field object be declared twice) and leaves every other
   * path as it was.
   */
  lemma {:induction false} NormalizeFillsEmptyPaths(entries: seq<FieldEntry>, paths: map<DocField, seq<string>>, f: DocField)
    requires Covers(entries, paths) && f in paths
    ensures Normalize(entries, paths)[f] ==
            if paths[f] == [] && DeclaresDod(entries, f)
            then [FirstDodName(entries, f)] else paths[f]
  {
    if entries != [] {
      var prefix := entries[..|entries| - 1];
      var last := entries[|entries| - 1];
      assert entries == prefix + [last];
      NormalizeFillsEmptyPaths(prefix, paths, f);
      if DeclaresDod(prefix, f) {
        var i :| 0 <= i < |prefix| && prefix[i].field == f;
        assert entries[i].field == f;
      }
    }
  }

  /** Every DODField has a nonempty `_path` once `init_prepare` has seen it. */
  lemma {:induction false} NormalizeFillsDodFields(entries: seq<FieldEntry>, paths: map<DocField, seq<string>>)
    requires Covers(entries, paths)
    ensures forall i :: 0 <= i < |entries| && entries[i].field.isDodField ==> Normalize(entries, paths)[entries[i].field] != []
  {
    if entries != [] {
      var prefix := entries[..|entries| - 1];
      assert entries == prefix + [entries[|entries| - 1]];
      NormalizeFillsDodFields(prefix, paths);
    }
  }

  /**
   * `_prepared_fields` holds one `(name, field, fn)` per DODField, in declaration order;
   * every `fn` names a method the document defines or reads the field's final, nonempty
   * `_path`.
   */
  lemma {:induction false} CompileShape(entries: seq<FieldEntry>, paths: map<DocField, seq<string>>, hooks: Hooks,
                                        ignore: Option<Record>)
    requires Covers(entries, paths)
    ensures |Compile(entries, paths, hooks, ignore)| == |DodEntries(entries)|
    ensures forall i :: 0 <= i < |DodEntries(entries)| ==>
              var c := Compile(entries, paths, hooks, ignore)[i];
              && c.name == DodEntries(entries)[i].name
              && c.field == DodEntries(entries)[i].field
              && c.fn == Resolve(c.name, Normalize(entries, paths)[c.field], hooks, ignore)
              && Normalize(entries, paths)[c.field] != []
  {
    if entries != [] {
      var prefix := entries[..|entries| - 1];
      var last := entries[|entries| - 1];
      assert entries == prefix + [last];
      CompileShape(prefix, paths, hooks, ignore);
      NormalizeFillsDodFields(prefix, paths);
      NormalizeFillsDodFields(entries, paths);
      var before := Normalize(prefix, paths);
      forall i | 0 <= i < |DodEntries(prefix)|
        ensures Normalize(entries, paths)[DodEntries(prefix)[i].field] == before[DodEntries(prefix)[i].field]
      {
        assert DodEntries(prefix)[i] in DodEntries(prefix);
      }
    }
  }

  /** What a compiled preparer returns for `instance`. */
  function Apply(p: Preparer, hooks: Hooks, instance: Record): Value
    requires Bound(p, hooks)
  {
    match p
    case RelatedAware(name, ignore) => hooks.withRelated[name](instance, ignore)
    case Custom(name) => hooks.plain[name](instance)
    case FieldValue(path, ignore) => hooks.extract(path, instance, ignore)
  }

  /**
   * The dict comprehension of `prepare`: a document whose keys are exactly the compiled
   * names, each holding its own preparer's output.
   */
  function PrepareFrom(cs: seq<Compiled>, hooks: Hooks, instance: Record): (r: Doc)
    requires forall i :: 0 <= i < |cs| ==> Bound(cs[i].fn, hooks)
    requires DistinctCompiledNames(cs)
    ensures forall n :: n in r <==> exists i :: 0 <= i < |cs| && cs[i].name == n
    ensures forall i :: 0 <= i < |cs| ==> cs[i].name in r && r[cs[i].name] == Apply(cs[i].fn, hooks, instance)
  {
    if cs == [] then map[]
    else
      var prefix := cs[..|cs| - 1];
      var last := cs[|cs| - 1];
      assert cs == prefix + [last];
      PrepareFrom(prefix, hooks, instance)[last.name := Apply(last.fn, hooks, instance)]
  }

  /**
   * `Document.init_prepare`: walks `_fields` in order, skips fields that are not
   * DODFields, fills an empty `_path` with `[name]`, and appends `(name, field, fn)`
   * with `fn` resolved by precedence.
   */
  method InitPrepare(entries: seq<FieldEntry>, hooks: Hooks, ignore: Option<Record>) returns (preparers: seq<Compiled>)
    modifies Fields(entries)
    ensures preparers == Compile(entries, old(PathsOf(entries)), hooks, ignore)
    ensures forall f :: f in Fields(entries) ==> f.path == Normalize(entries, old(PathsOf(entries)))[f]
  {
    ghost var paths := PathsOf(entries);
    preparers := [];
    var k := 0;
    while k < |entries|
      invariant 0 <= k <= |entries|
      invariant preparers == Compile(entries[..k], paths, hooks, ignore)
      invariant forall f :: f in Fields(entries) ==> f.path == Normalize(entries[..k], paths)[f]
    {
      var name, field := entries[k].name, entries[k].field;
      assert entries[..k + 1][..k] == entries[..k];
      if field.isDodField {
        if field.path == [] {
          field.path := [name];
        }
        preparers := preparers + [Compiled(name, field, Resolve(name, field.path, hooks, ignore))];
      }
      k := k + 1;
    }
    assert entries[..k] == entries;
  }
}
