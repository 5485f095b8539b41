/** JSON documents, and the two result types the models share. */
module JsonValues {

  datatype Option<+T> = None | Some(value: T)

  /** The outcome of a call that may raise a Python exception. */
  datatype Result<+T> = Ok(value: T) | Raised

  /** An object member's name. Names that the schema cleaner or a schema's meaning looks at have
      their own constructors. Of the keywords that apply subschemas (sections 10.2, 10.3 and 11 of JSON
      Schema Core 2020-12), `Single` covers those with one, `Mapped` those with an object of them, and
      `Listed` those with an array of them, except `anyOf`. `Note` covers the remaining annotations, and
      `Other` every further name. */
  datatype Name =
    | Ref | Defs | AnyOf | Default | Title | Nullable | Type
    | Single(text: string)
    | Mapped(text: string)
    | Listed(text: string)
    | Note(text: string)
    | Other(text: string)

  function NameOf(text: string): Name {
    if text == "$ref" then Ref
    else if text == "$defs" then Defs
    else if text == "anyOf" then AnyOf
    else if text == "default" then Default
    else if text == "title" then Title
    else if text == "nullable" then Nullable
    else if text == "type" then Type
    else if text in {"items", "contains", "additionalProperties", "propertyNames", "not", "if", "then", "else"} then Single(text)
    else if text in {"properties", "patternProperties", "dependentSchemas"} then Mapped(text)
    else if text in {"allOf", "oneOf", "prefixItems"} then Listed(text)
    else if text in {"description", "deprecated", "readOnly", "writeOnly", "$comment", "examples"} then Note(text)
    else Other(text)
  }

  /** A JSON document. Object members are unordered, as in RFC 8259, section 4. */
  datatype Json =
    | Null
    | Bool(b: bool)
    | Num(n: real)
    | Str(s: string)
    | Arr(items: seq<Json>)
    | Obj(fields: map<Name, Json>)
}
