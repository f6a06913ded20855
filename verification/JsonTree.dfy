/** JSON as `JSON.parse` leaves it. */
module JsonTree {

  /** An object lists its own properties in enumeration order. */
  datatype Json = JsonArray(elements: seq<Json>) | JsonObject(fields: seq<Field>) | Scalar(text: string)

  datatype Field = Field(key: string, value: Json)
}
