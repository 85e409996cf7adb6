/** `PropertyValue`, the record that carries one synthesised leaf of a mock body from
    the schema flattener to the document reconstructor, and its serialisation. */
module PropertyValues {
  import opened Wrappers
  import opened JsonValues

  /** Five optional fields, one per kind of value the synthesiser can produce. */
  datatype PropertyValue = PropertyValue(
    boolean: Option<bool>,
    integer: Option<I32>,
    number: Option<Float>,
    text: Option<string>,
    json: Option<Json>)

  function BoolValue(b: bool): PropertyValue { PropertyValue(Some(b), None, None, None, None) }
  function IntValue(i: I32): PropertyValue { PropertyValue(None, Some(i), None, None, None) }
  function NumberValue(f: Float): PropertyValue { PropertyValue(None, None, Some(f), None, None) }
  function StringValue(s: string): PropertyValue { PropertyValue(None, None, None, Some(s), None) }
  function JsonValue(j: Json): PropertyValue { PropertyValue(None, None, None, None, Some(j)) }

  /** The JSON renderings of the fields that are set, in the order boolean, number,
      integer, string, arbitrary JSON. */
  function SetFields(pv: PropertyValue): seq<Json> {
    (if pv.boolean.Some? then [JBool(pv.boolean.value)] else [])
    + (if pv.number.Some? then [JFloat(pv.number.value)] else [])
    + (if pv.integer.Some? then [JInt(pv.integer.value as int)] else [])
    + (if pv.text.Some? then [JString(pv.text.value)] else [])
    + (if pv.json.Some? then [pv.json.value] else [])
  }

  /** `impl Serialize for PropertyValue`: the first field that is set wins, in the fixed
      order of `SetFields`; a value with no field set is the empty string. */
  function Serialize(pv: PropertyValue): (r: Json)
    ensures SetFields(pv) == [] ==> r == JString("")
    ensures SetFields(pv) != [] ==> r == SetFields(pv)[0]
  {
    if pv.boolean.Some? then JBool(pv.boolean.value)
    else if pv.number.Some? then JFloat(pv.number.value)
    else if pv.integer.Some? then JInt(pv.integer.value as int)
    else if pv.text.Some? then JString(pv.text.value)
    else if pv.json.Some? then pv.json.value
    else JString("")
  }
}
