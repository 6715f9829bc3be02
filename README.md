# A verified model of django-opensearch-dsl's `Document`

This project models the core of `django_opensearch_dsl/documents.py`, the class that
ties a Django model to an OpenSearch index. It covers the following parts:

- **Field mapping** (`field_mapping.dfy`): the table from Django model-field classes to
  OpenSearch field classes, and `to_field`.
- **Index naming and lifecycle** (`index_naming.dfy`, `index_lifecycle.dfy`):
  - a document's concrete indices are *generations* named `<base>--<suffix>`;
  - the base name is an alias that points at the active generation;
  - `get_index_name`, `get_all_indices`, `get_active_index`, `migrate` and `init`.
- **The cluster** (`search_engine.dfy`): an `Engine` class whose state is a set of index
  names and a set of alias entries. It offers the calls the document code makes:
  - index creation, `exists`, `delete`;
  - the listing of `indices.get("<base>--*")`;
  - the atomic `update_aliases`.
- **Record selection and pagination** (`pagination.dfy`):
  - `get_queryset` (filter, exclude, count limit);
  - the ordering rule of `get_indexing_queryset` (order by primary key unless the
    queryset is already sliced);
  - its chunked walk, which yields each row once while pulling slices of
    `queryset_pagination` rows;
  - the `_eta` progress estimate, with Python's `round` (ties to even) and `//`.
- **Preparers** (`preparers.dfy`): `init_prepare` compiles one preparer per declared
  field, in this order of precedence:
  1. `prepare_<name>_with_related`, bound with the instance to ignore;
  2. `prepare_<name>`;
  3. the field's value extractor.

  It also fills a field's empty path with its own name. `prepare` builds the document
  from the compiled preparers.
- **Bulk actions** (`documents.dfy`): the `Document` class, with:
  - `_prepare_action`, `_get_actions`, `should_index_object` and `generate_id`;
  - the action list and refresh setting that `update` hands to the bulk helper.
- **Support**:
  - `ordering.dfy`: a stable insertion sort and Python's string order;
  - `decimal.dfy`: integer-to-decimal text and back;
  - `records.dfy`: model instances as a primary key plus attribute values;
  - `wrappers.dfy`: `Option` and `Result`.

### `init` does not move an existing alias

`init` migrates only when the base name itself does not exist yet, whether as an index
or as an alias (documents.py:132). It does not check whether the new generation
existed before. A second `init` with a fresh suffix therefore creates the new generation
but leaves the alias on the first one. The model follows the code:

- `IndexLifecycle.Init` states this in its contract;
- `IndexLifecycle.InitTwiceKeepsFirstGeneration` shows it for two calls in a row.

A caller who wants a later generation to become active must call `migrate` for it.

### Assumptions about the cluster

The cluster's behaviour is not part of this source; the model fixes it as follows:

- An `add` alias action is rejected when its index does not exist, or when an index
  already has the alias's name.
- A `remove` is rejected when the entry does not exist.
- A batch is applied all or nothing.
- Deleting a name that is not an index fails.
- Deleting an index drops the alias entries on it.
- `exists(name)` holds for an index or an alias of that name.
- `indices.get("<base>--*")` lists only the indices whose own name matches the pattern.
  An alias whose name matches it is not expanded to the indices behind it.
- Creating an index under a name that already exists, as an index or as an alias,
  succeeds and changes nothing.

Where the model has an `ok` result (`delete`, `update_aliases`, and `migrate` and
`init` built on them), it returns `ok = false` in the cases these assumptions reject,
where the client would raise. Index creation has no failure case in the model.

## Model

| member | source | states |
|---|---|---|
| FieldMapping.ToField | django_opensearch_dsl/documents.py:235-244 | succeeds exactly for the classes in the table, giving the mapped field class with `attr` set to the field name; otherwise fails with `ModelFieldNotMappedError` and the message "Cannot convert model field <name> to an Opensearch field!" |
| FieldMapping.ToFieldFailsOnlyOnUnregistered | django_opensearch_dsl/documents.py:22-46 | every model-field class the table lists converts; only an unlisted class fails |
| FieldMapping.IntegerColumnsMapByWidth | django_opensearch_dsl/documents.py:23-41 | small integer columns map to short, 32-bit ones (and `AutoField`) to integer, 64-bit ones (and `BigAutoField`) to long |
| IndexNaming.IndexName | django_opensearch_dsl/documents.py:74-79 | the name is a generation `<base>--…` exactly when the suffix is given and nonempty, and its suffix can be read back; with no suffix the name is the base name |
| IndexNaming.IndexNameInjective | django_opensearch_dsl/documents.py:74-79 | different nonempty suffixes give different index names |
| SearchEngine.ApplyAliasActions | django_opensearch_dsl/documents.py:119-121 | an accepted `update_aliases` batch keeps every alias on an existing index and never gives an alias an index's name |
| SearchEngine.Engine.Exists | django_opensearch_dsl/documents.py:116 | `indices.exists(name)` is true exactly when `name` is an index or an alias that some index holds |
| SearchEngine.Engine.HoldsAlias | django_opensearch_dsl/documents.py:97 | `exists_alias` is true only for an existing index and a real alias, whose name is not an index's and which therefore exists |
| SearchEngine.Engine.CreateIndex | django_opensearch_dsl/documents.py:131 | creates the index when the name is free, changes nothing otherwise, and touches no alias |
| SearchEngine.Engine.Delete | django_opensearch_dsl/documents.py:116-117 | succeeds exactly when the name is an index; removes it and the alias entries on it |
| SearchEngine.Engine.UpdateAliases | django_opensearch_dsl/documents.py:119-121 | all or nothing: when the whole batch is accepted the aliases become its result, otherwise they are unchanged; indices never change |
| SearchEngine.Engine.ListGenerations | django_opensearch_dsl/documents.py:87-89 | the keys are exactly the indices matching `<base>--*`, each once |
| Ordering.Sort | django_opensearch_dsl/documents.py:86 | the output is a permutation of the input, and it is sorted whenever the order is a total preorder |
| Ordering.LexLeIsTotalPreorder | django_opensearch_dsl/documents.py:86 | Python's string comparison is total, transitive and reflexive, so `sorted` yields an ordered list |
| Ordering.LexLeAntisymmetric | django_opensearch_dsl/documents.py:86 | two names that sort each before the other are equal, so the sorted order of distinct names is unique |
| Ordering.SortedNames | django_opensearch_dsl/documents.py:86 | `sorted(names)` is a permutation of the names in ascending string order, and distinct names stay distinct |
| IndexLifecycle.GetAllIndices | django_opensearch_dsl/documents.py:82-91 | lists exactly the existing generations of the base name, each once, in ascending string order |
| IndexLifecycle.GetActiveIndex | django_opensearch_dsl/documents.py:94-98 | None exactly when no generation holds the alias; otherwise a generation holding it, the least such name in string order |
| IndexLifecycle.AliasActions | django_opensearch_dsl/documents.py:103-114 | the batch ends with adding the alias to the new generation, and starts with removing it from the active generation when there is one |
| IndexLifecycle.CutOverEffect | django_opensearch_dsl/documents.py:105-121 | the batch is accepted exactly when the new generation exists and no index has the base name; the alias then leaves the old generation and holds the new one, with no other entry changed |
| IndexLifecycle.CutOverHolders | django_opensearch_dsl/documents.py:110-121 | after the cut-over the alias is held by its old holders, minus the active one, plus the new generation |
| IndexLifecycle.HoldersWithoutIndex | django_opensearch_dsl/documents.py:116-117 | deleting the bare base index never detaches the base alias from anything |
| IndexLifecycle.NoEntriesOnMissingIndex | django_opensearch_dsl/documents.py:116-117 | a failed delete of a non-index leaves the alias entries as they were |
| IndexLifecycle.Migrate | django_opensearch_dsl/documents.py:101-121 | finds the active generation and sends the cut-over batch; deletes the bare base index only when nothing is active and the base name exists. Success requires a nonempty suffix, an existing target and a successful delete. On success the alias entries are exactly the old ones (less those the delete dropped), without the active generation's hold and with the new generation's; the alias moves from the active generation to the new one, and when at most one index held it before, the new generation is its only holder. On failure the aliases are unchanged apart from the delete |
| IndexLifecycle.Init | django_opensearch_dsl/documents.py:124-133 | the suffix defaults to the clock reading; the generation exists afterwards, and the only index that may be added is that generation. It migrates exactly when the base name did not exist; the migration fails only when the generation's name was already taken by an alias, and on success the alias entries gain exactly the base alias on the new generation, which is then its only holder. Without a migration, or when it fails, the aliases are untouched |
| IndexLifecycle.InitTwiceKeepsFirstGeneration | django_opensearch_dsl/documents.py:124-133 | after two `init` calls on a fresh base name, the alias still points only at the first generation, while the second generation exists |
| Pagination.Kept | django_opensearch_dsl/documents.py:144-149 | the filtered queryset holds every row that passes the filter and the exclusion, as often as it occurs, and nothing else |
| Pagination.GetQueryset | django_opensearch_dsl/documents.py:142-153 | fails exactly on a negative count (Django refuses negative slicing); otherwise the result is a prefix of the filtered rows of length `min(count, N)`, and it is marked sliced exactly when a count was given |
| Pagination.PkLeIsTotalPreorder | django_opensearch_dsl/documents.py:177 | ordering by primary key is a total preorder |
| Pagination.IndexingOrder | django_opensearch_dsl/documents.py:177 | an unsliced queryset is put in primary-key order; a sliced one is kept as it is; no row is lost or added |
| Pagination.OffsetIsCappedMultiple | django_opensearch_dsl/documents.py:195 | after `k` steps of `i = min(i + chunk_size, count)` the offset is `min(k * chunk_size, count)` |
| Pagination.WindowBounds | django_opensearch_dsl/documents.py:191 | the `k`-th pull is the slice `qs[k*c : k*c + c]`, clamped to the row count |
| Pagination.PullCount | django_opensearch_dsl/documents.py:187-195 | the loop stops after exactly `ceil(count / chunk_size)` pulls |
| Pagination.CeilDivCharacterized | django_opensearch_dsl/documents.py:187-195 | the least number of pulls of `c` rows that covers `n` rows is `ceil(n / c)` |
| Pagination.WalkInChunks | django_opensearch_dsl/documents.py:182-195 | yields every row exactly once, in order; the pulls concatenate to the rows; there are `ceil(N / c)` pulls, each nonempty, at most `c` rows, and the `k`-th is rows `[k*c, (k+1)*c)` |
| Pagination.GetIndexingQueryset | django_opensearch_dsl/documents.py:165-198 | fails exactly when `get_queryset` does; otherwise walks the queryset in indexing order in chunks as `WalkInChunks` states |
| Pagination.RoundHalfEven | django_opensearch_dsl/documents.py:158 | Python's `round` of a quotient: within half a unit of it, and even on a tie |
| Pagination.EtaEstimate | django_opensearch_dsl/documents.py:155-163 | unknown exactly when nothing is done; otherwise the rounded remaining time `elapsed / done * (total - done)`, in seconds exactly when it is at most 120, else its floor division by 60 in minutes (at least 2) |
| Pagination.Eta | django_opensearch_dsl/documents.py:155-163 | the text is `~` exactly when nothing is done, it reads back as the estimate `EtaEstimate` gives, and it is the only text that does |
| Pagination.ParseEtaExact | django_opensearch_dsl/documents.py:163 | a text that reads back as an estimate is that estimate's printed form, so `-0 secs` or `007 mins` never stand for one |
| Pagination.EtaTextRoundTrip | django_opensearch_dsl/documents.py:155-163 | the printed estimate (`~`, `<n> secs`, `<n> mins`) reads back as the estimate it came from |
| Decimal.ParseIntExact | django_opensearch_dsl/documents.py:163 | the only text that reads back as an integer is the one an f-string prints for it (no `-0`, no leading zeros) |
| Decimal.IntToDecimalRoundTrip | django_opensearch_dsl/documents.py:163 | the decimal text of an integer, as an f-string prints it, parses back to that integer |
| Preparers.Resolve | django_opensearch_dsl/documents.py:215-223 | uses `prepare_<name>_with_related` (bound with the instance to ignore) when the document defines it, else `prepare_<name>`, else the field's extractor over its path with the instance to ignore |
| Preparers.DodEntries | django_opensearch_dsl/documents.py:208-210 | keeps exactly the declared fields that are document fields, in order, with distinct names |
| Preparers.DodEntriesConcat | django_opensearch_dsl/documents.py:208-210 | the document fields keep declaration order: those of a concatenation are those of each part in turn, and one entry is kept exactly when it is a document field |
| Preparers.NormalizeFillsEmptyPaths | django_opensearch_dsl/documents.py:212-213 | a field with an empty path gets the name it is first declared under; any other path is kept |
| Preparers.NormalizeFillsDodFields | django_opensearch_dsl/documents.py:212-213 | after compilation every document field has a nonempty path |
| Preparers.CompileShape | django_opensearch_dsl/documents.py:207-227 | one preparer per document field, in declaration order, with the field's name and object, resolved by precedence over the field's final path, and with distinct names |
| Preparers.InitPrepare | django_opensearch_dsl/documents.py:200-227 | the returned preparers are the compiled list, and every field object's path is updated in place to its normalized path |
| Preparers.PrepareFrom | django_opensearch_dsl/documents.py:229-232 | the document's keys are exactly the preparer names, each mapped to its preparer's value for the instance |
| Documents.Document.constructor | django_opensearch_dsl/documents.py:66-71 | keeps the instance to ignore and stores the compiled preparers of the declared fields, updating the field paths |
| Documents.Document.Prepare | django_opensearch_dsl/documents.py:229-232 | the document's keys are exactly the prepared field names, each holding its preparer's value |
| Documents.Document.GenerateId | django_opensearch_dsl/documents.py:265-273 | the id is the instance's primary key unless the document overrides `generate_id`, in which case the override decides |
| Documents.Document.ShouldIndexObject | django_opensearch_dsl/documents.py:294-300 | every instance is indexed unless the document overrides `should_index_object`, in which case the override decides |
| Documents.Document.PrepareAction | django_opensearch_dsl/documents.py:275-281 | op type as given; id is `generate_id` of the instance (the primary key by default); index is the given name, or the base name when none or an empty one is given; an update carries the document under `doc`, a delete carries no document under `_source`, any other action carries the document under `_source` |
| Documents.Document.GetActions | django_opensearch_dsl/documents.py:283-286 | one action per eligible instance, in input order, each built by `_prepare_action` |
| Documents.Document.EligibleCounts | django_opensearch_dsl/documents.py:283-286 | every instance that passes `should_index_object` gets an action, as often as it occurs, and no other instance does; a delete skips the check |
| Documents.Document.DefaultIndexesEverything | django_opensearch_dsl/documents.py:283-286 | with the default `should_index_object`, every instance gets an action, in order |
| Documents.Document.DeleteIgnoresPredicate | django_opensearch_dsl/documents.py:285 | a delete produces an action for every instance, in order |
| Documents.Document.EligibleConcat | django_opensearch_dsl/documents.py:284-285 | filtering a concatenation is concatenating the filtered parts |
| Documents.Document.GetActionsConcat | django_opensearch_dsl/documents.py:283-286 | the actions of concatenated instance lists are the concatenated actions |
| Documents.Document.RefreshSetting | django_opensearch_dsl/documents.py:304-305 | an explicit `refresh` argument wins, even `False`; without one, `Index.auto_refresh` when set, else the application default |
| Documents.Document.Update | django_opensearch_dsl/documents.py:302-314 | sends `_get_actions` of the instance list, aimed at `get_index_name(index_suffix)` when a suffix is given and at no explicit index otherwise; refresh is the argument, else `Index.auto_refresh`, else the app default |
| Documents.Document.UpdateTargetsIndexName | django_opensearch_dsl/documents.py:307 | every action `update` sends targets `get_index_name(index_suffix)`, whether or not a suffix is given |
| Documents.Document.UpdateOneIsListOfOne | django_opensearch_dsl/documents.py:309-312 | a single instance is handled as the list holding it, giving one action, or none when `should_index_object` rejects it |

## Left out

- `bulk`, `parallel_bulk` and `_bulk` are not modelled. They hand the actions to the
  OpenSearch client's helpers, which are outside this code. `Update` stops at the
  request it would hand over: the actions and the refresh setting.
- The `post_index` signal is not modelled. It notifies Django receivers after a bulk
  call.
- The `IndexMeta` metaclass and `search()` are not modelled. They replace a class and
  build a `Search` object; neither holds logic of its own.
- The real client, connections and `using` aliases are not modelled. The cluster is the
  abstract `Engine` with the assumptions stated above.
- The clock is a parameter:
  - `init`'s default suffix is a nonempty `now` string, and its timestamp format is not
    modelled;
  - `_eta` takes the elapsed time in whole seconds.
- `Pagination.EtaEstimate`: the remaining time is computed on exact rationals, not on
  Python floats, and the elapsed time is whole seconds, so float rounding error is not
  modelled.
- The verbose progress lines written to stdout are not modelled, including the
  percentage `round(i / count * 100)` and the final "OK" line. Only the ETA text is.
- The walk is modelled as its complete result: the rows yielded and the slices pulled.
  Laziness, the one-shot nature of a generator and rows that change between pulls are
  not captured.
- Django's ORM is modelled on values:
  - a queryset is a sequence of rows;
  - `filter`/`exclude` are predicates;
  - `order_by("pk")` is a stable sort on the primary key;
  - `count()` is the length.
- `Preparers.Resolve`: the field's value extractor (`get_value_from_instance`) is a
  single function parameter over the path, the instance and the instance to ignore.
  `django_opensearch_dsl/fields.py` is not part of this model.
- Preparers.CompileShape: a compiled value-extractor preparer holds the field's path as
  a value. This value is the field's final path, because a field's path only changes
  while `init_prepare` fills it. Later changes to the field object are not seen.
- Non-document fields are skipped by `init_prepare`. The model keeps only the flag that
  tells the two kinds apart, and nothing else about field classes.
- The action type is a four-value datatype (index, create, update, delete) rather than
  a string, and `refresh` is a boolean. Other values the client accepts, such as
  `"wait_for"`, are not modelled.
- Pagination.GetIndexingQueryset: requires a positive chunk size. With a
  `queryset_pagination` of 0 and a nonempty queryset, the source pulls empty slices
  and its loop never ends. The model, whose methods terminate, does not capture this.
- Documents.Document.GenerateId: ids and primary keys are integers. Django primary
  keys may also be strings or UUIDs, which the model does not represent.
- SearchEngine.Engine.CreateIndex: creating an index whose name already exists
  changes nothing and cannot fail. The library's `Index.save`, which `super().init`
  calls, then pushes the document's settings and mappings to the existing index, and
  that call can raise. That update and its failure are not modelled, so `init` without a
  migration always reports `ok`.
- Documents.Document.GetActions: the hooks (preparers, the value extractor, and the
  `should_index_object` and `generate_id` overrides) are total functions. A hook that
  raises is not modelled. In the source such an exception propagates out of `prepare`
  and out of the lazy `_get_actions` generator, after earlier actions have already gone
  to the bulk helper. Neither the raise nor the partly consumed action stream is
  modelled.
- A document's keys come from distinct field names, since `_fields` is a dict. The
  constructor requires this.
