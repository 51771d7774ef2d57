/**
 * The JavaScript values and the two string built-ins (`String.prototype.substring`
 * and `String.prototype.indexOf`) that the plugin relies on.
 */
module Js {

  datatype Option<+T> = None | Some(value: T)

  /**
   * A JavaScript value, as far as the plugin looks at one. Arrays, functions and
   * other objects are all `Object`, carried by their own enumerable properties in
   * iteration order; numbers are integers here.
   */
  datatype Value =
    | Undefined
    | Null
    | Bool(b: bool)
    | Number(n: int)
    | Str(s: string)
    | Object(entries: seq<Entry>)

  /** One own enumerable property of an object: a key and its value. */
  datatype Entry = Entry(key: string, value: Value)

  /** JavaScript truthiness: `undefined`, `null`, `false`, `0` and `""` are falsy. */
  predicate Truthy(v: Value)
  {
    match v
    case Undefined => false
    case Null => false
    case Bool(b) => b
    case Number(n) => n != 0
    case Str(s) => s != ""
    case Object(_) => true
  }

  /** lodash `_.isObject`: true of objects, arrays and functions, false of primitives. */
  predicate IsObject(v: Value)
  {
    v.Object?
  }

  /** The clamping step of `substring`: a negative index reads as 0, one past the end as the length. */
  function Clamp(x: int, len: nat): (r: nat)
    ensures r <= len
    ensures 0 <= x <= len ==> r == x
  {
    if x < 0 then 0 else if x > len then len else x
  }

  /**
   * `s.substring(a, b)`: both indices are clamped to the string, and they are
   * swapped when the first is the larger.
   */
  function Substring(s: string, a: int, b: int): (r: string)
    ensures 0 <= a <= b <= |s| ==> |r| == b - a && forall k :: 0 <= k < b - a ==> r[k] == s[a + k]
    ensures 0 <= b <= a <= |s| ==> |r| == a - b && forall k :: 0 <= k < a - b ==> r[k] == s[b + k]
  {
    var i, j := Clamp(a, |s|), Clamp(b, |s|);
    if i <= j then s[i..j] else s[j..i]
  }

  /** `pat` occurs in `s` starting at index `i`. */
  predicate OccursAt(s: string, pat: string, i: nat)
  {
    i + |pat| <= |s| && s[i..i + |pat|] == pat
  }

  /** `pat` is a substring of `s`. */
  ghost predicate Contains(s: string, pat: string)
  {
    exists i: nat :: OccursAt(s, pat, i)
  }

  /** `s.indexOf(pat, i)`: the first occurrence at or after `i`, or -1. */
  function IndexOfFrom(s: string, pat: string, i: nat): (r: int)
    requires i <= |s|
    ensures r == -1 || (i <= r && OccursAt(s, pat, r))
    ensures r == -1 ==> forall j: nat :: i <= j ==> !OccursAt(s, pat, j)
    ensures r != -1 ==> forall j: nat :: i <= j < r ==> !OccursAt(s, pat, j)
    decreases |s| - i
  {
    if OccursAt(s, pat, i) then i
    else if i == |s| then -1
    else IndexOfFrom(s, pat, i + 1)
  }

  /** `s.indexOf(pat)`: the index of the first occurrence of `pat` in `s`, or -1 when there is none. */
  function IndexOf(s: string, pat: string): (r: int)
    ensures r == -1 <==> !Contains(s, pat)
    ensures r != -1 ==> 0 <= r && OccursAt(s, pat, r) && forall j: nat :: j < r ==> !OccursAt(s, pat, j)
  {
    IndexOfFrom(s, pat, 0)
  }
}
