/**
 * The static table from a Django model-field class to the OpenSearch field class
 * that indexes it, and the lookup `to_field` that instantiates the mapped field.
 */
module FieldMapping {

  import opened Wrappers

  /** The Django model-field classes the table names; any other class is `Unregistered`. */
  datatype ModelFieldClass =
    | AutoField | BigAutoField | BigIntegerField | BooleanField | CharField
    | DateField | DateTimeField | DecimalField | EmailField | FileField
    | FilePathField | FloatField | ImageField | IntegerField | NullBooleanField
    | PositiveIntegerField | PositiveSmallIntegerField | SlugField | SmallIntegerField
    | TextField | TimeField | URLField | UUIDField
    | Unregistered(className: string)

  /** The OpenSearch field classes the table maps to. */
  datatype SearchFieldClass =
    | IntegerSearchField | LongSearchField | BooleanSearchField | TextSearchField
    | DateSearchField | DoubleSearchField | FileSearchField | KeywordSearchField
    | ShortSearchField

  /** An instantiated OpenSearch field: its class and the model attribute it reads (`attr=`). */
  datatype SearchField = SearchField(fieldClass: SearchFieldClass, attr: string)

  datatype MappingError = ModelFieldNotMappedError(message: string)

  /** `model_field_class_to_field_class`. */
  const FieldClassTable: map<ModelFieldClass, SearchFieldClass> := map[
    AutoField := IntegerSearchField,
    BigAutoField := LongSearchField,
    BigIntegerField := LongSearchField,
    BooleanField := BooleanSearchField,
    CharField := TextSearchField,
    DateField := DateSearchField,
    DateTimeField := DateSearchField,
    DecimalField := DoubleSearchField,
    EmailField := TextSearchField,
    FileField := FileSearchField,
    FilePathField := KeywordSearchField,
    FloatField := DoubleSearchField,
    ImageField := FileSearchField,
    IntegerField := IntegerSearchField,
    NullBooleanField := BooleanSearchField,
    PositiveIntegerField := IntegerSearchField,
    PositiveSmallIntegerField := ShortSearchField,
    SlugField := KeywordSearchField,
    SmallIntegerField := ShortSearchField,
    TextField := TextSearchField,
    TimeField := LongSearchField,
    URLField := TextSearchField,
    UUIDField := KeywordSearchField
  ]

  function NotMappedMessage(fieldName: string): string
  {
    "Cannot convert model field " + fieldName + " to an Opensearch field!"
  }

  /**
   * `Document.to_field`: the mapped field class instantiated with `attr=fieldName`,
   * or `ModelFieldNotMappedError` naming the field when the class is not in the table.
   */
  function ToField(fieldName: string, modelField: ModelFieldClass): (r: Result<SearchField, MappingError>)
    ensures r.Success? <==> modelField in FieldClassTable
    ensures r.Success? ==> r.value.attr == fieldName && r.value.fieldClass == FieldClassTable[modelField]
    ensures r.Failure? ==> r.error == ModelFieldNotMappedError(NotMappedMessage(fieldName))
  {
    if modelField in FieldClassTable then Success(SearchField(FieldClassTable[modelField], fieldName))
    else Failure(ModelFieldNotMappedError(NotMappedMessage(fieldName)))
  }

  /** The table covers every model-field class it lists: only an unregistered class fails. */
  lemma ToFieldFailsOnlyOnUnregistered(fieldName: string, modelField: ModelFieldClass)
    ensures ToField(fieldName, modelField).Failure? <==> modelField.Unregistered?
  {
  }

  /** Integer columns map by width: small to short, 32-bit to integer, 64-bit to long. */
  lemma IntegerColumnsMapByWidth(fieldName: string)
    ensures ToField(fieldName, SmallIntegerField).value.fieldClass == ShortSearchField
    ensures ToField(fieldName, PositiveSmallIntegerField).value.fieldClass == ShortSearchField
    ensures ToField(fieldName, IntegerField).value.fieldClass == IntegerSearchField
    ensures ToField(fieldName, PositiveIntegerField).value.fieldClass == IntegerSearchField
    ensures ToField(fieldName, AutoField).value.fieldClass == IntegerSearchField
    ensures ToField(fieldName, BigIntegerField).value.fieldClass == LongSearchField
    ensures ToField(fieldName, BigAutoField).value.fieldClass == LongSearchField
  {
  }
}
