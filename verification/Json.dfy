// A parsed JSON document, as far as the release gates look at it.
module Json {

  /**
   * A JSON value. An object lists its keys in document order; a listed key without an entry in
   * `values` holds null, so every value of this type stands for some document.
   */
  datatype Json =
    | Null
    | Bool(b: bool)
    | Int(n: int)
    | Float
    | Str(s: string)
    | Array(items: seq<Json>)
    | Object(keys: seq<string>, values: map<string, Json>)
  {
    predicate Has(key: string) {
      Object? && key in keys
    }

    /** `dict.get(key)` */
    function Get(key: string): Json {
      if Has(key) && key in values then values[key] else Null
    }

    /** `dict.get(key, {})` */
    function GetOrEmpty(key: string): Json {
      if Has(key) then Get(key) else Object([], map[])
    }

    /** `isinstance(v, int)`: in Python a bool is an int as well. */
    predicate IsPythonInt() {
      Int? || Bool?
    }

    function PythonInt(): int
      requires IsPythonInt()
    {
      if Int? then n else if b then 1 else 0
    }

    predicate IsPositiveInt() {
      Int? && n > 0
    }

    /** A string that `strip()` does not leave empty. */
    predicate IsNonBlankString() {
      Str? && exists i | 0 <= i < |s| :: !IsSpace(s[i])
    }
  }

  predicate IsSpace(c: char) {
    c == ' ' || '\t' <= c <= '\r' || '\U{1C}' <= c <= '\U{1F}'
  }
}
