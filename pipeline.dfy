/**
 * One build pass over an HTML document, as plain functions: the source check
 * and optimisation of one image (`processOutputHtml`), one round
 * (`processImage`), the fixed number of rounds (`processImages`) and the
 * hook's choice of what to hand back. The parser, the file read and SVGO are
 * the parameters of an `Env`.
 */
module Pipeline {
  import opened Js
  import opened Html
  import opened TreeSearch
  import opened SvgoConfig
  import opened Splice

  /** What `fs.readFile(path.resolve(src), 'utf8', …)` delivers. */
  datatype ReadResult = Read(data: string) | ReadError(cause: string)

  /** What `svgo.optimize(data, …)` passes to its callback. */
  datatype SvgoResult = Optimised(data: string) | SvgoError(cause: string)

  /**
   * The outside world: the parse5 fragment parser, the file read (path
   * resolution included) and SVGO run with a plugin list.
   */
  datatype Env = Env(
    parse: string -> Node,
    load: string -> ReadResult,
    optimize: (string, seq<Config>) -> SvgoResult)

  /** Why a pass was rejected. */
  datatype Failure = ReadFailed(cause: string) | OptimizeFailed(cause: string)

  /** How a promise of the pass settles: resolved with HTML, or rejected. */
  datatype Outcome = Done(html: string) | Failed(failure: Failure)

  /** The outcome together with the shared default configuration left behind. */
  datatype Pass = Pass(outcome: Outcome, defaults: Config)

  /**
   * `processOutputHtml(html, img)`. An image without a usable `src` leaves the
   * HTML and the defaults alone. Otherwise the file is read and the user
   * object is merged into the defaults whether or not the read succeeded;
   * a read or optimiser error rejects, and success splices the optimised SVG
   * over the image's span.
   */
  function OutputHtml(env: Env, user: Config, defaults: Config, html: string, img: Node): (p: Pass)
    ensures SvgSource(img).None? ==> p == Pass(Done(html), defaults)
    ensures SvgSource(img).Some? ==> p.defaults == Assign(defaults, user)
    ensures p.outcome.Failed? <==>
      SvgSource(img).Some? &&
      (env.load(SvgSource(img).value).ReadError? ||
       env.optimize(env.load(SvgSource(img).value).data, PluginList(p.defaults)).SvgoError?)
    ensures p.outcome.Done? && SvgSource(img).Some? && SpanWithin(img, html) ==>
      p.outcome.html == html[..img.start]
                        + env.optimize(env.load(SvgSource(img).value).data, PluginList(p.defaults)).data
                        + html[img.end..]
  {
    match SvgSource(img)
    case None => Pass(Done(html), defaults)
    case Some(src) =>
      var merged := Assign(defaults, user);
      match env.load(src)
      case ReadError(cause) => Pass(Failed(ReadFailed(cause)), merged)
      case Read(data) =>
        match env.optimize(data, PluginList(merged))
        case SvgoError(cause) => Pass(Failed(OptimizeFailed(cause)), merged)
        case Optimised(svg) => Pass(Done(ReplaceImageWithSvg(html, img, svg)), merged)
  }

  /**
   * `processImage(html)`: re-parse the current HTML, take the image
   * `getInlineImage` selects, and process it; with no inline image the HTML
   * and the defaults are left as they are.
   */
  function ImageRound(env: Env, user: Config, defaults: Config, html: string): (p: Pass)
    ensures InlineImages(env.parse(html)) == [] ==> p == Pass(Done(html), defaults)
    ensures InlineImages(env.parse(html)) != [] ==>
      p == OutputHtml(env, user, defaults, html, InlineImages(env.parse(html))[|InlineImages(env.parse(html))| - 1])
  {
    match LastInlineImage(env.parse(html))
    case None => Pass(Done(html), defaults)
    case Some(img) => OutputHtml(env, user, defaults, html, img)
  }

  /**
   * A promise chain of `k` calls of `step`: each call is fed the defaults and
   * the HTML the previous call resolved with, and the first rejection settles
   * the chain.
   */
  function Chain(step: (Config, string) -> Pass, k: nat, defaults: Config, html: string): (p: Pass)
    ensures p.outcome.Failed? ==> k > 0
  {
    if k == 0 then Pass(Done(html), defaults)
    else
      var p := step(defaults, html);
      if p.outcome.Failed? then p else Chain(step, k - 1, p.defaults, p.outcome.html)
  }

  lemma ChainStep(step: (Config, string) -> Pass, k: nat, defaults: Config, html: string)
    requires k > 0
    ensures Chain(step, k, defaults, html)
         == var p := step(defaults, html);
            if p.outcome.Failed? then p else Chain(step, k - 1, p.defaults, p.outcome.html)
  {
  }

  /** `a + b` calls are `a` calls followed, unless they were rejected, by `b` more. */
  lemma {:induction false} ChainSplit(step: (Config, string) -> Pass, a: nat, b: nat, defaults: Config, html: string)
    ensures Chain(step, a + b, defaults, html)
         == var p := Chain(step, a, defaults, html);
            if p.outcome.Failed? then p else Chain(step, b, p.defaults, p.outcome.html)
    decreases a
  {
    if a > 0 {
      var p := step(defaults, html);
      ChainStep(step, a, defaults, html);
      ChainStep(step, a + b, defaults, html);
      assert a + b - 1 == (a - 1) + b;
      if p.outcome.Done? {
        ChainSplit(step, a - 1, b, p.defaults, p.outcome.html);
      }
    }
  }

  /** A call that rejects after `j` resolved ones rejects every chain longer than `j`. */
  lemma ChainFailAt(step: (Config, string) -> Pass, defaults: Config, html: string, j: nat, n: nat, before: Pass)
    requires j < n
    requires before == Chain(step, j, defaults, html) && before.outcome.Done?
    requires step(before.defaults, before.outcome.html).outcome.Failed?
    ensures Chain(step, n, defaults, html) == step(before.defaults, before.outcome.html)
  {
    var m := n - j;
    assert j + m == n;
    ChainStep(step, m, before.defaults, before.outcome.html);
    ChainSplit(step, j, m, defaults, html);
  }

  /** One round as the chain calls it: `processImage` on the current defaults and HTML. */
  function Step(env: Env, user: Config): (Config, string) -> Pass
  {
    (defaults: Config, html: string) => ImageRound(env, user, defaults, html)
  }

  /** `k` rounds in sequence, each fed the previous round's HTML; the first rejection ends them. */
  function Rounds(env: Env, user: Config, k: nat, defaults: Config, html: string): (p: Pass)
    ensures p.outcome.Failed? ==> k > 0
  {
    Chain(Step(env, user), k, defaults, html)
  }

  /** A document without inline images passes through any number of rounds unchanged. */
  lemma {:induction false} RoundsNoImages(env: Env, user: Config, k: nat, defaults: Config, html: string)
    requires InlineImages(env.parse(html)) == []
    ensures Rounds(env, user, k, defaults, html) == Pass(Done(html), defaults)
  {
    if k > 0 {
      RoundsNoImages(env, user, k - 1, defaults, html);
    }
  }

  lemma RoundsStep(env: Env, user: Config, k: nat, defaults: Config, html: string)
    requires k > 0
    ensures Rounds(env, user, k, defaults, html)
         == var p := ImageRound(env, user, defaults, html);
            if p.outcome.Failed? then p else Rounds(env, user, k - 1, p.defaults, p.outcome.html)
  {
    ChainStep(Step(env, user), k, defaults, html);
  }

  /** The number of rounds: the inline images in the document as first parsed. */
  function RoundCount(env: Env, html: string): (n: nat)
    ensures n == 0 <==> LastInlineImage(env.parse(html)).None?
  {
    |InlineImages(env.parse(html))|
  }

  /**
   * `processImages(html)`: no inline image resolves with the input; otherwise
   * exactly as many rounds as there were inline images at the start.
   */
  function ProcessImagesPass(env: Env, user: Config, defaults: Config, html: string): (p: Pass)
    ensures RoundCount(env, html) == 0 ==> p == Pass(Done(html), defaults)
  {
    var n := RoundCount(env, html);
    if n == 0 then Pass(Done(html), defaults) else Rounds(env, user, n, defaults, html)
  }

  /**
   * The hook keeps its own HTML when the pass rejects (`.catch`) or resolves
   * with a falsy (empty) string (`html || htmlPluginData.html`).
   */
  function HookResult(original: string, outcome: Outcome): (r: string)
    ensures r == original || (outcome.Done? && r == outcome.html)
    ensures outcome.Failed? ==> r == original
    ensures outcome.Done? && outcome.html == "" ==> r == original
    ensures outcome.Done? && outcome.html != "" ==> r == outcome.html
  {
    if outcome.Done? && outcome.html != "" then outcome.html else original
  }

  /** `a + b` rounds are `a` rounds followed, unless they were rejected, by `b` more. */
  lemma RoundsSplit(env: Env, user: Config, a: nat, b: nat, defaults: Config, html: string)
    ensures Rounds(env, user, a + b, defaults, html)
         == var p := Rounds(env, user, a, defaults, html);
            if p.outcome.Failed? then p else Rounds(env, user, b, p.defaults, p.outcome.html)
  {
    ChainSplit(Step(env, user), a, b, defaults, html);
  }

  /**
   * A rejection in any round rejects the whole pass, and the hook then hands
   * back the original document: no partially inlined document escapes.
   */
  lemma FailedRoundKeepsOriginal(env: Env, user: Config, defaults: Config, html: string,
                                 j: nat, before: Pass)
    requires j < RoundCount(env, html)
    requires before == Rounds(env, user, j, defaults, html) && before.outcome.Done?
    requires ImageRound(env, user, before.defaults, before.outcome.html).outcome.Failed?
    ensures ProcessImagesPass(env, user, defaults, html).outcome.Failed?
    ensures HookResult(html, ProcessImagesPass(env, user, defaults, html).outcome) == html
  {
    ChainFailAt(Step(env, user), defaults, html, j, RoundCount(env, html), before);
  }

  lemma RoundsFirstFails(env: Env, user: Config, k: nat, defaults: Config, html: string)
    requires k > 0 && ImageRound(env, user, defaults, html).outcome.Failed?
    ensures Rounds(env, user, k, defaults, html) == ImageRound(env, user, defaults, html)
  {
    ChainStep(Step(env, user), k, defaults, html);
  }

  /**
   * An inline image without a usable `src` is never removed: if it is the one
   * `getInlineImage` selects, every round selects it again and changes nothing.
   */
  lemma {:induction false} StuckOnUnusableSource(env: Env, user: Config, k: nat, defaults: Config, html: string)
    requires LastInlineImage(env.parse(html)).Some?
    requires SvgSource(LastInlineImage(env.parse(html)).value).None?
    ensures Rounds(env, user, k, defaults, html) == Pass(Done(html), defaults)
  {
    if k > 0 {
      StuckOnUnusableSource(env, user, k - 1, defaults, html);
    }
  }

  /** One round leaves the shared defaults as they were or merges the user object into them. */
  lemma ImageRoundDefaults(env: Env, user: Config, defaults: Config, html: string)
    ensures var p := ImageRound(env, user, defaults, html);
      p.defaults == defaults || p.defaults == Assign(defaults, user)
  {
  }

  /**
   * Within one build the shared defaults change at most once: every round that
   * merges writes the same user object, and a second merge changes nothing.
   */
  lemma {:induction false} RoundsDefaults(env: Env, user: Config, k: nat, defaults: Config, html: string)
    requires UniqueKeys(user)
    ensures var p := Rounds(env, user, k, defaults, html);
      p.defaults == defaults || p.defaults == Assign(defaults, user)
  {
    if k > 0 {
      var p := ImageRound(env, user, defaults, html);
      ImageRoundDefaults(env, user, defaults, html);
      RoundsStep(env, user, k, defaults, html);
      if p.outcome.Done? {
        RoundsDefaults(env, user, k - 1, p.defaults, p.outcome.html);
        if p.defaults != defaults {
          AssignIdempotent(defaults, user);
        }
      }
    }
  }
}
