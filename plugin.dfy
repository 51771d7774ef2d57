/**
 * The plugin object and the module-level state of its file: the shared
 * `svgoDefaultConfig` object, which `Object.assign` writes into, and
 * `userConfig`, which the hook sets on every build. Each method is proved
 * against the functions of `Pipeline`.
 */
module Plugin {
  import opened Js
  import opened Html
  import opened TreeSearch
  import opened SvgoConfig
  import opened Splice
  import opened Pipeline

  class InlineSvgPlugin {
    /** The parser, the file system and SVGO. */
    const env: Env
    /** `svgoDefaultConfig`: loaded once, then updated in place by every merge. */
    var defaults: Config
    /** `userConfig`: the override object chosen by the latest build. */
    var userConfig: Config

    constructor (env: Env, defaults: Config)
      ensures this.env == env && this.defaults == defaults && userConfig == []
    {
      this.env := env;
      this.defaults := defaults;
      userConfig := [];
    }

    /**
     * The `html-webpack-plugin-after-html-processing` handler: choose
     * `userConfig`, run the pass, and hand back its HTML, or the original
     * HTML when the pass rejected or resolved with an empty string.
     */
    method HandleHtml(html: string, svgoConfig: Value) returns (result: string)
      modifies this
      ensures userConfig == SelectUserConfig(svgoConfig)
      ensures var p := ProcessImagesPass(env, userConfig, old(defaults), html);
        defaults == p.defaults && result == HookResult(html, p.outcome)
    {
      userConfig := SelectUserConfig(svgoConfig);
      var outcome := ProcessImages(html);
      if outcome.Done? && outcome.html != "" {
        result := outcome.html;
      } else {
        result := html;
      }
    }

    /**
     * `processImages(html)`: count the inline images once; with none, resolve
     * with the input; otherwise run `processImage` that many times, each on
     * the previous result, stopping at the first rejection.
     */
    method ProcessImages(html: string) returns (outcome: Outcome)
      modifies this`defaults
      ensures Pass(outcome, defaults) == ProcessImagesPass(env, userConfig, old(defaults), html)
    {
      var fragment := env.parse(html);
      var images := GetInlineImages(fragment, []);
      if |images| == 0 {
        return Done(html);
      }
      outcome := ChainRounds(html, |images|);
    }

    /**
     * The promise chain of `processImages`: `processImage` on the input, then
     * on each result in turn, `rounds` calls in all, each one started only
     * after the previous one resolved; a rejection settles the chain at once.
     */
    method ChainRounds(html: string, rounds: nat) returns (outcome: Outcome)
      modifies this`defaults
      ensures Pass(outcome, defaults) == Rounds(env, userConfig, rounds, old(defaults), html)
    {
      ghost var goal := Rounds(env, userConfig, rounds, defaults, html);
      outcome := Done(html);
      var i := 0;
      while i < rounds
        invariant 0 <= i <= rounds && outcome.Done?
        invariant goal == Rounds(env, userConfig, rounds - i, defaults, outcome.html)
      {
        RoundsStep(env, userConfig, rounds - i, defaults, outcome.html);
        var next := ProcessImage(outcome.html);
        if next.Failed? {
          return next;
        }
        outcome := next;
        i := i + 1;
      }
    }

    /**
     * `processImage(html)`: parse the current HTML and process the image
     * `getInlineImage` selects; resolve with the input when there is none.
     */
    method ProcessImage(html: string) returns (outcome: Outcome)
      modifies this`defaults
      ensures Pass(outcome, defaults) == ImageRound(env, userConfig, old(defaults), html)
    {
      var fragment := env.parse(html);
      var image := GetInlineImage(fragment, None);
      if image.None? {
        return Done(html);
      }
      outcome := ProcessOutputHtml(html, image.value);
    }

    /**
     * `processOutputHtml(html, img)`: check `src`, read the file, merge the
     * user object into the shared defaults (also after a failed read, as the
     * rejection does not stop the callback), build the plugin list, optimise
     * and splice.
     */
    method ProcessOutputHtml(html: string, img: Node) returns (outcome: Outcome)
      modifies this`defaults
      ensures Pass(outcome, defaults) == OutputHtml(env, userConfig, old(defaults), html, img)
    {
      var srcAttr := FindAttr(img.attrs, "src");
      if srcAttr.None? {
        return Done(html);
      }
      var src := srcAttr.value.value;
      if src == "" || IndexOf(src, ".svg") == -1 {
        return Done(html);
      }
      var read := env.load(src);
      if read.ReadError? {
        outcome := Failed(ReadFailed(read.cause));
      }
      defaults := Assign(defaults, userConfig);
      if read.ReadError? {
        return;
      }
      var plugins := PluginList(defaults);
      var optimised := env.optimize(read.data, plugins);
      if optimised.SvgoError? {
        return Failed(OptimizeFailed(optimised.cause));
      }
      outcome := Done(ReplaceImageWithSvg(html, img, optimised.data));
    }
  }
}
