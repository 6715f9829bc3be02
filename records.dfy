/** The values the document code moves around: model instances and search documents. */
module Records {

  /** A field value as it ends up in a search document. */
  datatype Value = Null | Bool(b: bool) | Int(i: int) | Text(s: string) | List(items: seq<Value>)

  /** A search document body: field name to value. */
  type Doc = map<string, Value>

  /** A Django model instance: its primary key and its attributes. */
  datatype Record = Record(pk: int, attrs: map<string, Value>)
}
