/**
 * The parse5 nodes the plugin inspects: node name, attributes, child nodes and
 * the start and end offsets recorded in `__location`.
 */
module Html {
  import opened Js

  /** One attribute of an element, as parse5 lists it. */
  datatype Attr = Attr(name: string, value: string)

  /**
   * A parsed node. `start` and `end` are the offsets of the node's markup in
   * the string the parser was given; text nodes simply have no children.
   */
  datatype Node = Node(name: string, attrs: seq<Attr>, children: seq<Node>, start: nat, end: nat)

  /** Some attribute in `attrs` is called `name`. */
  ghost predicate HasAttr(attrs: seq<Attr>, name: string)
  {
    exists i :: 0 <= i < |attrs| && attrs[i].name == name
  }

  /** `i` is the position of the first attribute called `name`. */
  ghost predicate IsFirstNamed(attrs: seq<Attr>, i: int, name: string)
  {
    0 <= i < |attrs| && attrs[i].name == name && forall j :: 0 <= j < i ==> attrs[j].name != name
  }

  /** lodash `_.filter(attrs, { name })`: the attributes called `name`, in order. */
  function FilterByName(attrs: seq<Attr>, name: string): (r: seq<Attr>)
    ensures |r| > 0 <==> HasAttr(attrs, name)
    ensures forall a :: a in r <==> a in attrs && a.name == name
  {
    if attrs == [] then []
    else (if attrs[0].name == name then [attrs[0]] else []) + FilterByName(attrs[1..], name)
  }

  /** lodash `_.find(attrs, { name })`: the first attribute called `name`, if any. */
  function FindAttr(attrs: seq<Attr>, name: string): (r: Option<Attr>)
    ensures r.None? <==> !HasAttr(attrs, name)
    ensures r.Some? ==> exists i :: IsFirstNamed(attrs, i, name) && attrs[i] == r.value
  {
    if attrs == [] then None
    else if attrs[0].name == name then Some(attrs[0])
    else
      var r := FindAttr(attrs[1..], name);
      assert r.Some? ==> exists i :: IsFirstNamed(attrs[1..], i, name) && attrs[1..][i] == r.value;
      assert forall i :: IsFirstNamed(attrs[1..], i, name) ==> IsFirstNamed(attrs, i + 1, name);
      r
  }

  /** The node is an `img` element with an `inline` attribute, whatever its value. */
  predicate IsInlineImage(n: Node)
  {
    n.name == "img" && |FilterByName(n.attrs, "inline")| > 0
  }

  /**
   * The `src` the plugin will load for an inline image: the value of its first
   * `src` attribute, provided it is non-empty and contains ".svg" somewhere (a
   * substring test, not an extension test). `None` means the image is left alone.
   */
  function SvgSource(img: Node): (r: Option<string>)
    ensures r.Some? <==> exists i :: IsFirstNamed(img.attrs, i, "src") && Contains(img.attrs[i].value, ".svg")
    ensures r.Some? ==> Contains(r.value, ".svg") && exists i :: IsFirstNamed(img.attrs, i, "src") && img.attrs[i].value == r.value
  {
    match FindAttr(img.attrs, "src")
    case None => None
    case Some(src) =>
      if src.value == "" || IndexOf(src.value, ".svg") == -1 then None else Some(src.value)
  }
}
