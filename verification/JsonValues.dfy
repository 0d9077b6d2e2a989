/** A decoded JSON document, as far as the readers of this repository look at one. */
module JsonValues {

  /** A decoded document. An object's fields stand in the order in which the map
      happens to be iterated. */
  datatype Json = Text(s: string) | Obj(fields: seq<Field>) | List(items: seq<Json>) | Other

  datatype Field = Field(key: string, value: Json)
}
