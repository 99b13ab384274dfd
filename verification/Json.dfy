/** JSON values as the structural readers see them, after parsing has kept the last of repeated keys. */
module Json {
  import opened Common

  datatype Value =
    | Null
    | Bool(flag: bool)
    | Number(number: int)
    | Text(text: string)
    | Array(items: seq<Value>)
    | Object(members: map<string, Value>)

  /** `None` stands for `undefined`: not an object, or no such own member. */
  function Prop(value: Value, key: string): Option<Value> {
    if value.Object? && key in value.members then Some(value.members[key]) else None
  }

  function StringField(value: Value, key: string): Option<string> {
    var v := Prop(value, key);
    if v.Some? && v.value.Text? then Some(v.value.text) else None
  }

  function NumberField(value: Value, key: string): Option<int> {
    var v := Prop(value, key);
    if v.Some? && v.value.Number? then Some(v.value.number) else None
  }
}
