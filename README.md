# html-webpack-inline-svg-plugin, modelled in Dafny

The plugin hooks into html-webpack-plugin's `html-webpack-plugin-after-html-processing`
event. It finds every `img` element carrying an `inline` attribute in the generated
HTML, reads the SVG file its `src` names, runs it through SVGO with a plugin list
built from the default SVGO settings merged with the user's `svgoConfig`, and
splices the optimised SVG over the image's markup. This project models that core,
all of it in `index.js`, and proves what it does.

Modules:

- `Js` (`js.dfy`): JavaScript values, truthiness, lodash `isObject`, and the string
  built-ins `substring` (with clamping and swapping of its indices) and `indexOf`.
- `Html` (`html.dfy`): parse5 nodes with their attributes, children and
  `__location` offsets; `_.filter` / `_.find` on attributes; the `src` check.
- `TreeSearch` (`tree_search.dfy`): `getInlineImages` and `getInlineImage` as
  methods whose loops walk the children, proved against a recursive reference
  definition of the inline images of a tree.
- `SvgoConfig` (`svgo_config.dfy`): plain objects as ordered key/value lists,
  `Object.assign`, the `_.map` into one-key plugin objects, and the choice of
  `userConfig`.
- `Splice` (`splice.dfy`): `replaceImageWithSVG`.
- `Pipeline` (`pipeline.dfy`): one build pass as functions. This covers one image
  (`processOutputHtml`), one round (`processImage`), the fixed number of rounds
  (`processImages`) and the hook's fallback. The parser, the file read and SVGO
  are the function-valued fields of an `Env`.
- `Plugin` (`plugin.dfy`): class `InlineSvgPlugin`. Its field `defaults` stands
  for the module-level `svgoDefaultConfig` and its field `userConfig` for the
  module-level `userConfig`, as seen by one plugin object (see "Left out" for
  sharing between objects). Its methods perform the pass step by step, updating those fields,
  and each one is proved equal to its `Pipeline` function.

Behaviour of the code that its comments or documentation describe differently.
The model follows the code in each case:

- `getInlineImage` is documented as returning the first inline image
  (index.js:175). Its `.some` callback never returns `true`, and every match
  overwrites the carried image, so it returns the LAST inline image in document
  order. `TreeSearch.GetInlineImage` and `TreeSearch.SelectsLastNotFirst` prove this.
- `processImages` does not loop until no inline image remains. It counts the
  inline images once and runs exactly that many rounds. Each round re-parses the
  latest HTML and processes the last inline image.
- `Object.assign(svgoDefaultConfig, userConfig)` writes into the shared default
  object, so overrides from one build persist into the next.
- A failed file read rejects the pass, but nothing returns after the `reject`
  (index.js:233). The merge into the shared defaults still happens.

## Model

| member | source | states |
|---|---|---|
| `Js.Substring` | index.js:277 | for indices inside the string, the result is the characters between them, whichever index is larger |
| `Js.IndexOf` | index.js:229 | -1 exactly when the pattern does not occur; otherwise the position of its first occurrence |
| `Html.FilterByName` | index.js:153 | non-empty exactly when some attribute has the name; holds exactly the attributes with that name |
| `Html.FindAttr` | index.js:221 | absent exactly when no attribute has the name; otherwise the first attribute with that name |
| `Html.SvgSource` | index.js:221-229 | a source is used exactly when the first `src` attribute exists and contains ".svg" as a substring (an empty value never does); the source is that value |
| `TreeSearch.GetInlineImages` | index.js:143-171 | returns the accumulator followed by every inline image below the fragment, in depth-first document order |
| `TreeSearch.CollectChild` | index.js:149-165 | one `forEach` step appends exactly what the child contributes: itself if it is an inline `img`, nothing for another `img`, and its subtree's images otherwise |
| `TreeSearch.GetInlineImage` | index.js:180-207 | returns the last inline image in document order, or the carried value when there is none; starting from null, it returns null exactly when `getInlineImages` would return an empty list |
| `TreeSearch.SelectChild` | index.js:186-201 | one `.some` step leaves the carried image as the last image that the child contributes, or unchanged when the child contributes none |
| `TreeSearch.VisitMembers` | index.js:151-161 | a node is contributed by a child exactly when it is an inline image and is the child itself, or lies below a non-`img` child with no `img` in between |
| `TreeSearch.ImagesFromMembers` | index.js:147-167 | a node is collected from the children from position i on exactly when it is an inline image reached through one of those children |
| `TreeSearch.InlineImagesMembers` | index.js:143-171 | the collected nodes are exactly the inline images below the fragment with no `img` above them, so the children of an `img` are never searched |
| `TreeSearch.SelectsLastNotFirst` | index.js:174-207 | with two inline images side by side, both are collected in order and the second is the one selected |
| `SvgoConfig.Lookup` | index.js:235 | reading a key finds a value exactly when the key is present, and that value is stored under the key |
| `SvgoConfig.Put` | index.js:235 | setting a property keeps an existing key in its place and appends a new key at the end |
| `SvgoConfig.PutLookup` | index.js:235 | after setting a property, reading it gives the new value, and every other key reads as before |
| `SvgoConfig.PutUnique` | index.js:235 | setting a property never duplicates a key |
| `SvgoConfig.Assign` | index.js:235 | the defaults' keys stay at the front of the merged object, in their order; the values and the remaining keys are stated by `SvgoConfig.AssignLookup` and `SvgoConfig.AssignKeys` |
| `SvgoConfig.AssignLookup` | index.js:235 | after the merge, every user key has the user's value and every other key keeps the default's value |
| `SvgoConfig.AssignKeys` | index.js:235 | merged key order: the defaults' keys in their order, then the user's new keys in the user's order |
| `SvgoConfig.AssignUnique` | index.js:235 | the merged object has distinct keys |
| `SvgoConfig.OverridesPersist` | index.js:235 | the second build's merge starts from the first build's result: its own keys win, then the first build's, then the original defaults |
| `SvgoConfig.AssignIdempotent` | index.js:235 | merging the same user object into the shared defaults a second time changes nothing |
| `SvgoConfig.PluginList` | index.js:240 | one plugin entry per merged property, in order, each a one-key object holding that property |
| `SvgoConfig.PluginListRoundTrip` | index.js:240 | joining the plugin objects back together gives exactly the merged configuration |
| `SvgoConfig.SelectUserConfig` | index.js:32-36 | an object option is used as is; anything else, including a missing option, gives the empty object |
| `Splice.ReplaceImageWithSvg` | index.js:270-279 | for a span inside the HTML: the text before and after the span is kept exactly, the SVG fills the span, and the length changes by the SVG's length minus the span's |
| `Pipeline.OutputHtml` | index.js:217-260 | without a usable source: HTML and defaults unchanged; with one: defaults merged (also after a read error), rejected exactly when the read or SVGO fails, and otherwise the image's span is replaced by SVGO's output for the file's contents and the merged plugin list, the rest of the HTML kept |
| `Pipeline.ImageRound` | index.js:103-133 | with no inline image: HTML and defaults unchanged; otherwise the last inline image of the re-parsed HTML is the one processed |
| `Pipeline.ImageRoundDefaults` | index.js:103-133 | one round leaves the shared defaults as they were or merges the user object into them, nothing else |
| `Pipeline.Chain` | index.js:73-91 | a promise chain of calls, each fed what the previous one resolved with, settled by the first rejection; a rejection needs at least one call. Its properties are stated by `Pipeline.ChainSplit` and `Pipeline.ChainFailAt` |
| `Pipeline.ChainSplit` | index.js:77-91 | a + b chained calls equal a calls followed, unless one rejected, by b calls from where they stopped |
| `Pipeline.ChainFailAt` | index.js:79-89 | a call that rejects after j resolved ones is the result of every chain longer than j |
| `Pipeline.Rounds` | index.js:73-91 | the chain of `processImage` rounds, each on the previous round's HTML and defaults; a rejection needs at least one round. Its properties are stated by `Pipeline.RoundsSplit`, `Pipeline.RoundsNoImages`, `Pipeline.RoundsDefaults` and `Pipeline.FailedRoundKeepsOriginal` |
| `Pipeline.RoundCount` | index.js:69-71 | the count of inline images is zero exactly when `getInlineImage` finds none in the same document |
| `Pipeline.RoundsNoImages` | index.js:114-128 | a document without inline images passes through any number of rounds with its HTML and the defaults unchanged |
| `Pipeline.RoundsDefaults` | index.js:73-91 | within one build the shared defaults change at most once: they end as they began or merged with the user object once |
| `Pipeline.ProcessImagesPass` | index.js:61-95 | with no inline image: the input resolves unchanged and the defaults are untouched |
| `Pipeline.HookResult` | index.js:38-46 | the hook hands back either its own HTML or the pass's result; a rejection keeps its own HTML, an empty (falsy) result keeps its own HTML, and a non-empty result replaces it |
| `Pipeline.RoundsSplit` | index.js:73-91 | a + b chained rounds equal a rounds followed, unless one rejected, by b rounds from where they stopped |
| `Pipeline.RoundsFirstFails` | index.js:79-89 | a rejected round settles the chain: no later round changes the outcome |
| `Pipeline.FailedRoundKeepsOriginal` | index.js:38-95 | if any round within the count rejects, the whole pass rejects and the hook hands back the original HTML, never a partly inlined document |
| `Pipeline.StuckOnUnusableSource` | index.js:73-133 | when the selected image has no usable source, every number of rounds leaves the HTML and the defaults unchanged |
| `Plugin.InlineSvgPlugin.constructor` | index.js:10-16 | the plugin starts with the loaded defaults and no user configuration |
| `Plugin.InlineSvgPlugin.HandleHtml` | index.js:29-47 | sets `userConfig` from the option, runs the pass from the current shared defaults, keeps the merged defaults, and returns the hook's fallback result |
| `Plugin.InlineSvgPlugin.ProcessImages` | index.js:61-95 | the outcome and the new defaults are those of the pass: unchanged input for no inline image, otherwise as many rounds as there were inline images |
| `Plugin.InlineSvgPlugin.ChainRounds` | index.js:73-91 | running the rounds in sequence, each on the previous HTML and stopping at the first rejection, gives exactly the chained rounds |
| `Plugin.InlineSvgPlugin.ProcessImage` | index.js:103-133 | one round on the current defaults, selecting the last inline image of the re-parsed HTML |
| `Plugin.InlineSvgPlugin.ProcessOutputHtml` | index.js:217-260 | the outcome and the new shared defaults are those of `Pipeline.OutputHtml` on the old defaults |

## Left out

- Webpack wiring (`apply`, `compiler.plugin`, `compilation.plugin`, the `callback`): host plumbing. Only the hook body's choice of `userConfig` and its fallback are modelled.
- The parse5 parser: a parameter of `Env`. Any tree it returns is accepted, and the model makes no assumption that spans fall inside the parsed string. That parse5 turns an `<image>` start tag into `img` (section 13.2.6.4.7 of the WHATWG HTML Living Standard) is the parser's business.
- `fs.readFile` and `path.resolve`: a parameter of `Env` that maps a `src` to file contents or an error. The working directory is not modelled.
- SVGO: a parameter of `Env` that maps file contents and a plugin list to optimised data or an error. What SVGO does with the plugin options is not modelled.
- Pipeline.OutputHtml: after a failed read the code goes on to call SVGO with `undefined` data. The model stops after the merge, because the pass has already rejected and SVGO is outside the model.
- Promise and callback scheduling: the chain is modelled as a sequential loop that stops at the first rejection. After a rejection, the real chain's `.catch` handlers feed `undefined` to the remaining `.then` handlers. Whatever those later calls do is not modelled.
- The in-place `push` into the accumulator array of `getInlineImages`: modelled by threading a sequence value. The array is pushed to and then returned and reassigned, so no caller observes a difference. Aliasing is not modelled.
- The constructor's `assert.equal(options, undefined)`, the unused `chalk` import and the unused `outputHtml` variable: trivial or dead.
- Sharing between plugin objects: `svgoDefaultConfig` and `userConfig` are module-level in the source (index.js:10, 16), so every `HtmlWebpackInlineSVGPlugin` object in one process reads and writes the same two values. Each `InlineSvgPlugin` holds its own copy, so the model does not capture one object's merge being seen by another object.
- Files that change between builds: `env` is a constant field, so `load` gives the same contents for a path for the object's whole lifetime. The model does not capture watch-mode rebuilds in which a file's contents change between two builds; within a single pass this makes no difference.
- `string` stands for the sequence of UTF-16 code units that JavaScript's `substring`, `indexOf` and parse5's `__location` offsets count. Dafny's `char` is a Unicode scalar value, so astral characters (two code units in JavaScript) and lone surrogates are not represented faithfully.
- JavaScript numbers that are not integers, and arrays and functions as distinct kinds of value: all objects are key/value lists in iteration order. The special ordering JavaScript gives integer-like keys is not modelled.
- Splice.ReplaceImageWithSvg: states nothing for spans that do not lie inside the HTML. The body still clamps and swaps the indices as `substring` does.
- Pipeline.OutputHtml: the splice property is stated only for spans inside the HTML, because the parser is abstract.
- That the pass eventually removes every inline image is not claimed. It depends on the parser and on SVGO's output, and `Pipeline.StuckOnUnusableSource` shows it is false for an image without a usable source.
