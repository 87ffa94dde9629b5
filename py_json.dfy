/** JSON documents as Python's `json.load` hands them to the receipt verifier,
    and the Python membership operator `in` that the verifier applies to them
    before it knows the document is a dict. */
module PyJson {

  datatype Option<+T> = None | Some(value: T)

  /** A decoded JSON value: dict, list, str, number, bool or null. A JSON
      number is kept as an integer: the verifier never looks at a number's
      value. A number document fails `in`; a number among the content fields
      leaves no string to hash (`+` raises, or yields a number with no
      `encode`); a number under `hash` compares unequal to every digest; a
      number under any other key is ignored. */
  datatype Value =
    | Obj(fields: map<string, Value>)
    | Arr(items: seq<Value>)
    | Str(text: string)
    | Num(n: int)
    | Bool(b: bool)
    | Null

  /** Python's `key in s` for two strings: `key` occurs in `s` as a
      contiguous substring (the empty key occurs in every string). */
  predicate Occurs(key: string, s: string)
    decreases |s|
  {
    key <= s || (s != [] && Occurs(key, s[1..]))
  }

  /** `Occurs` agrees with the positional definition of a substring. */
  lemma {:induction false} OccursIff(key: string, s: string)
    ensures Occurs(key, s) <==> exists i :: 0 <= i <= |s| && key <= s[i..]
  {
    if s == [] {
      assert s[0..] == s;
    } else {
      OccursIff(key, s[1..]);
      if Occurs(key, s) {
        if key <= s {
          assert s[0..] == s;
        } else {
          var i :| 0 <= i <= |s| - 1 && key <= s[1..][i..];
          assert s[1..][i..] == s[i + 1..];
        }
      }
      if exists i :: 0 <= i <= |s| && key <= s[i..] {
        var i :| 0 <= i <= |s| && key <= s[i..];
        if i == 0 {
          assert s[0..] == s;
        } else {
          assert s[1..][i - 1..] == s[i..];
        }
      }
    }
  }

  /** Python's `key in v` raises a TypeError unless `v` is a dict, a list or
      a string. */
  predicate SupportsIn(v: Value)
    ensures SupportsIn(v) <==> !(v.Num? || v.Bool? || v.Null?)
  {
    v.Obj? || v.Arr? || v.Str?
  }

  /** Python's `key in v` for a string key: a dict tests its keys, a list
      tests its elements for equality with the string `key`, a string tests
      its substrings. */
  predicate Contains(v: Value, key: string)
    requires SupportsIn(v)
    ensures v.Obj? ==> (Contains(v, key) <==> key in v.fields.Keys)
    ensures v.Arr? ==> (Contains(v, key) <==> exists i :: 0 <= i < |v.items| && v.items[i] == Str(key))
    ensures v.Str? ==> (Contains(v, key) <==> exists i :: 0 <= i <= |v.text| && key <= v.text[i..])
  {
    if v.Obj? then key in v.fields
    else if v.Arr? then Str(key) in v.items
    else OccursIff(key, v.text); Occurs(key, v.text)
  }
}
