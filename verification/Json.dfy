/** JSON values and the total accessors through which the converters read them. */
module Json {
  import opened Wrappers
  import opened BoundedInts

  datatype Value =
    | Null
    | Bool(b: bool)
    | Integer(i: int)
    | Fraction(digits: string)
    | Str(s: string)
    | List(items: seq<Value>)
    | Obj(fields: map<string, Value>)
  {
    /** The member `key` of an object; nothing for any other kind of value. */
    function Get(key: string): Option<Value> {
      if Obj? && key in fields then Some(fields[key]) else None
    }

    /** The first element of an array; nothing for any other kind of value. */
    function First(): Option<Value> {
      if List? && |items| > 0 then Some(items[0]) else None
    }

    function AsStr(): Option<string> {
      if Str? then Some(s) else None
    }

    /** Only integers that fit 64 unsigned bits are readable as counts. */
    function AsU64(): Option<u64> {
      if Integer? && 0 <= i < U64_LIMIT then Some(i) else None
    }

    function AsArray(): Option<seq<Value>> {
      if List? then Some(items) else None
    }

    function AsBool(): Option<bool> {
      if Bool? then Some(b) else None
    }
  }

  function Field(v: Option<Value>, key: string): Option<Value> {
    if v.Some? then v.value.Get(key) else None
  }

  function Head(v: Option<Value>): Option<Value> {
    if v.Some? then v.value.First() else None
  }

  function TextOr(v: Option<Value>, default: string): string {
    if v.Some? then v.value.AsStr().GetOr(default) else default
  }

  function CountOr(v: Option<Value>, default: u64): u64 {
    if v.Some? then v.value.AsU64().GetOr(default) else default
  }

  /** `key`, or `fallback` only when `key` is absent: a present `key` of the wrong kind is not skipped. */
  function FieldOrElse(v: Option<Value>, key: string, fallback: string): Option<Value> {
    var first := Field(v, key);
    if first.Some? then first else Field(v, fallback)
  }

  /** The members of an object under construction. */
  type Fields = map<string, Value>

  /** A text member that may be missing. */
  function OptionalText(key: string, text: Option<string>): Fields {
    if text.Some? then map[key := Str(text.value)] else map[]
  }
}
