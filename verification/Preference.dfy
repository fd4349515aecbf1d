/** How a preference value is stored as a document body, which must be an object. */
module Preference {
  import opened Base
  import opened Json

  const NON_OBJECT_FIELD := "non_object_value"

  /** `encode_preference`: an object is its own body unless it uses the reserved field. */
  function Encode(value: Json): Json {
    if value.Object? && NON_OBJECT_FIELD !in value.fields then value
    else Object(map[NON_OBJECT_FIELD := value])
  }

  /** `decode_preference`. */
  function Decode(body: Json): Json {
    if body.Object? && |body.fields| == 1 && NON_OBJECT_FIELD in body.fields
    then body.fields[NON_OBJECT_FIELD]
    else body
  }

  /** The encoding loses nothing, and always yields the object a document must be. */
  lemma RoundTrip(value: Json)
    ensures Encode(value).Object? && Decode(Encode(value)) == value
  {
    if value.Object? && NON_OBJECT_FIELD !in value.fields {
    } else {
      assert |map[NON_OBJECT_FIELD := value]| == 1;
    }
  }

  lemma EncodeInjective(v: Json, v': Json)
    requires Encode(v) == Encode(v')
    ensures v == v'
  {
    RoundTrip(v);
    RoundTrip(v');
  }

  /** `preference_body`: the body migrated from a v1 document `{ "value": .. }`. */
  function LegacyValue(doc: Json): Json {
    match doc.Get("value")
    case Some(value) => value
    case None => Null
  }

  /** A legacy document is `{ "value": .. }`; anything else holds null. A value that is no
      object is stored under the reserved field. */
  lemma Formats(fields: map<string, Json>, value: Json)
    ensures LegacyValue(Object(fields["value" := value])) == value
    ensures LegacyValue(Object(fields - {"value"})) == Null && (!value.Object? ==> LegacyValue(value) == Null)
    ensures !value.Object? ==> Encode(value) == Object(map["non_object_value" := value])
    ensures value.Object? && "non_object_value" !in value.fields ==> Encode(value) == value
  {
  }

  function Body(doc: Json): Json {
    Encode(LegacyValue(doc))
  }
}
