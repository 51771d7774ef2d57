/**
 * The two tree walks of the plugin: `getInlineImages`, which collects every
 * inline image, and `getInlineImage`, which picks the one to process next.
 * Both start below the fragment node itself, visit children in document
 * order, and never look inside an `img` element.
 */
module TreeSearch {
  import opened Js
  import opened Html

  /** What the walk contributes for one child: itself if it is an inline image,
      nothing for any other `img`, and the images below it otherwise. */
  function Visit(child: Node): seq<Node>
    decreases child, 1, 0
  {
    if child.name == "img" then (if IsInlineImage(child) then [child] else [])
    else ImagesFrom(child, 0)
  }

  /** The inline images found below `n.children[i..]`, in document order. */
  function ImagesFrom(n: Node, i: nat): seq<Node>
    requires i <= |n.children|
    decreases n, 0, |n.children| - i
  {
    if i == |n.children| then [] else Visit(n.children[i]) + ImagesFrom(n, i + 1)
  }

  /** Every inline image below `fragment`, in depth-first document order. */
  function InlineImages(fragment: Node): seq<Node>
  {
    ImagesFrom(fragment, 0)
  }

  /** The last element of `s`, or `carried` when `s` is empty. */
  function LastOr(s: seq<Node>, carried: Option<Node>): Option<Node>
  {
    if s == [] then carried else Some(s[|s| - 1])
  }

  /** The image `getInlineImage` selects: the last inline image in document order. */
  function LastInlineImage(fragment: Node): Option<Node>
  {
    LastOr(InlineImages(fragment), None)
  }

  lemma AppendAssoc<T>(a: seq<T>, b: seq<T>, c: seq<T>)
    ensures (a + b) + c == a + (b + c)
  {
  }

  lemma LastOrAppend(s: seq<Node>, t: seq<Node>, carried: Option<Node>)
    ensures LastOr(s + t, carried) == LastOr(t, LastOr(s, carried))
  {
    if t != [] {
      assert (s + t)[|s + t| - 1] == t[|t| - 1];
    }
  }

  lemma ImagesFromStep(n: Node, i: nat)
    requires i < |n.children|
    ensures ImagesFrom(n, i) == Visit(n.children[i]) + ImagesFrom(n, i + 1)
  {
  }

  /**
   * `getInlineImages(fragment, acc)`: runs the `forEach` callback
   * (`CollectChild`) on every child of the fragment in turn, threading the
   * accumulator through.
   */
  method GetInlineImages(fragment: Node, acc: seq<Node>) returns (images: seq<Node>)
    ensures images == acc + InlineImages(fragment)
    decreases fragment, 1
  {
    images := acc;
    var i := 0;
    while i < |fragment.children|
      invariant 0 <= i <= |fragment.children|
      invariant images + ImagesFrom(fragment, i) == acc + InlineImages(fragment)
    {
      ImagesFromStep(fragment, i);
      AppendAssoc(images, Visit(fragment.children[i]), ImagesFrom(fragment, i + 1));
      images := CollectChild(fragment.children[i], images);
      i := i + 1;
    }
  }

  /**
   * The `forEach` callback of `getInlineImages`: push an `img` child that has
   * an `inline` attribute, skip any other `img`, recurse into anything else.
   */
  method CollectChild(child: Node, images: seq<Node>) returns (result: seq<Node>)
    ensures result == images + Visit(child)
    decreases child, 2
  {
    if child.name == "img" {
      if |FilterByName(child.attrs, "inline")| > 0 {
        result := images + [child];
      } else {
        result := images;
      }
    } else {
      result := GetInlineImages(child, images);
    }
  }

  /**
   * `getInlineImage(fragment, inlineImage)`: runs the `.some` callback
   * (`SelectChild`) on every child in turn (it never returns true, so no child
   * is skipped), carrying the image found so far. It therefore returns the
   * LAST inline image in document order, or `carried` when there is none.
   */
  method GetInlineImage(fragment: Node, carried: Option<Node>) returns (image: Option<Node>)
    ensures image == LastOr(InlineImages(fragment), carried)
    ensures carried.None? ==> (image.None? <==> InlineImages(fragment) == [])
    ensures InlineImages(fragment) != [] ==> image == Some(InlineImages(fragment)[|InlineImages(fragment)| - 1])
    decreases fragment, 1
  {
    image := carried;
    var i := 0;
    while i < |fragment.children|
      invariant 0 <= i <= |fragment.children|
      invariant LastOr(ImagesFrom(fragment, i), image) == LastOr(InlineImages(fragment), carried)
    {
      ImagesFromStep(fragment, i);
      LastOrAppend(Visit(fragment.children[i]), ImagesFrom(fragment, i + 1), image);
      image := SelectChild(fragment.children[i], image);
      i := i + 1;
    }
  }

  /**
   * The `.some` callback of `getInlineImage`: an `img` child with an `inline`
   * attribute overwrites the carried image; a child that is not an `img` and
   * has children is searched with the carried image passed down.
   */
  method SelectChild(child: Node, carried: Option<Node>) returns (image: Option<Node>)
    ensures image == LastOr(Visit(child), carried)
    decreases child, 2
  {
    image := carried;
    if child.name == "img" {
      if |FilterByName(child.attrs, "inline")| > 0 {
        image := Some(child);
      }
    } else if |child.children| > 0 {
      image := GetInlineImage(child, carried);
    } else {
      assert Visit(child) == [];
    }
  }

  /** `c` is a node the walk reaches through `n`'s children without passing an `img`. */
  ghost predicate Shows(c: Node, x: Node)
    decreases c, 2
  {
    c == x || (c.name != "img" && Reaches(c, x))
  }

  /** `x` lies below `n`, and no node strictly between `n` and `x` is an `img`. */
  ghost predicate Reaches(n: Node, x: Node)
    decreases n, 1
  {
    exists i :: 0 <= i < |n.children| && Shows(n.children[i], x)
  }

  lemma {:induction false} VisitMembers(c: Node, x: Node)
    ensures x in Visit(c) <==> IsInlineImage(x) && Shows(c, x)
    decreases c, 1
  {
    if c.name != "img" {
      ImagesFromMembers(c, 0, x);
    }
  }

  lemma {:induction false} ImagesFromMembers(n: Node, i: nat, x: Node)
    requires i <= |n.children|
    ensures x in ImagesFrom(n, i) <==> IsInlineImage(x) && exists k :: i <= k < |n.children| && Shows(n.children[k], x)
    decreases n, 0, |n.children| - i
  {
    if i < |n.children| {
      VisitMembers(n.children[i], x);
      ImagesFromMembers(n, i + 1, x);
      ImagesFromStep(n, i);
    }
  }

  /**
   * The collected images are exactly the inline images below the fragment
   * that have no `img` above them: the children of an `img` are never searched.
   */
  lemma InlineImagesMembers(fragment: Node, x: Node)
    ensures x in InlineImages(fragment) <==> IsInlineImage(x) && Reaches(fragment, x)
  {
    ImagesFromMembers(fragment, 0, x);
  }

  /**
   * `getInlineImage` is documented as returning the first inline image; it
   * returns the last. With two inline images side by side it selects the second.
   */
  lemma SelectsLastNotFirst(a: Node, b: Node)
    requires IsInlineImage(a) && IsInlineImage(b) && a != b
    ensures var fragment := Node("#document-fragment", [], [a, b], 0, 0);
      InlineImages(fragment) == [a, b] && LastInlineImage(fragment) == Some(b)
  {
    var fragment := Node("#document-fragment", [], [a, b], 0, 0);
    assert ImagesFrom(fragment, 2) == [];
    assert ImagesFrom(fragment, 1) == [b];
    assert ImagesFrom(fragment, 0) == [a, b];
  }
}
