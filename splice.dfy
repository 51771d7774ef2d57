/** `replaceImageWithSVG`: the text splice that puts the optimised SVG where the image was. */
module Splice {
  import opened Js
  import opened Html

  /** The node's span lies inside `html`, as it does for a node parsed from `html`. */
  predicate SpanWithin(img: Node, html: string)
  {
    img.start <= img.end <= |html|
  }

  /**
   * `html.substring(0, start) + svg + html.substring(end)`. For a span inside
   * `html`, everything before and after the span is kept character for character and
   * `svg` takes the span's place.
   */
  function ReplaceImageWithSvg(html: string, img: Node, svg: string): (r: string)
    ensures SpanWithin(img, html) ==> |r| == |html| - (img.end - img.start) + |svg|
    ensures SpanWithin(img, html) ==> r[..img.start] == html[..img.start]
    ensures SpanWithin(img, html) ==> r[img.start..img.start + |svg|] == svg
    ensures SpanWithin(img, html) ==> r[img.start + |svg|..] == html[img.end..]
  {
    Substring(html, 0, img.start) + svg + Substring(html, img.end, |html|)
  }
}
