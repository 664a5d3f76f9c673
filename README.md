# stylestats parser core, modelled in Dafny

This project models `lib/parser.js` of stylestats. That file gathers CSS
text from several sources and draws statistics from the joined stylesheet:

- the caller's literal fragments;
- local `.css` files;
- fetched documents, either CSS or HTML whose `<style>` texts are taken;
- the stylesheets those HTML documents link.

The model covers:

- `requestPromise`, the rule that decides whether one fetch succeeds;
- the `Parser` constructor, which keeps the `.css` paths among the files;
- `Parser.parse()`: the local reads, the first wave of requests, the argument guard,
  classification of each result as sniffed CSS, HTML or content-type CSS,
  the second wave of requests for linked stylesheets, the join and its UTF-8 size,
  the empty-stylesheet check, and the flattening of the parsed tree into
  rules, selectors, declarations and a media-query count.

Files and modules:

- `wrappers.dfy` (`Wrappers`): `Option` and `Result`.
- `strings.dfy` (`Strings`): JavaScript `indexOf`, and decimal rendering of a status code.
- `utf8.dfy` (`Utf8`): the UTF-8 byte length that `Buffer.byteLength` reports.
- `paths.dfy` (`Paths`): Node's POSIX `path.extname`, and the `.css` filter.
- `errors.dfy` (`Errors`): every way a run fails, with its message.
- `fetch.dfy` (`Fetch`): `requestPromise`'s status rule, and a `Promise.all` wave.
- `stylesheet.dfy` (`Stylesheet`): the tree `css.parse` returns, and the flattening loops.
- `parser.dfy` (`StyleParser`): the `Parser` class, the `Run` specification of
  `parse()`, and the lemmas about it.

`parse()` works by mutation, so `Parser` is a class. Its field `styles` is the
caller's fragment array, which `parse()` appends to in place. `parse()` is
split into loop methods (`PushLocalFiles`, `AbsorbResults`, `PushStyleTexts`,
`PushBodies`). Each is proved against a specification function, and `Parse`
ends in exactly the state and result that `Run` gives. The lemmas about `Run`
state what the source promises.

Everything `parse()` takes from outside its own logic is a parameter `Env`:

- the file system, as a map from path to text;
- the network, as a function from URL to a fetch outcome;
- `util.isCSS`;
- cheerio's two queries, as a function from body to the hrefs and style texts of a document;
- `url.resolve`;
- `css.parse`;
- the text JavaScript makes of a response object.

Quirks of the source that the model keeps as written:

- In the sniffed branch (line 103), the response object is pushed instead of its body, and
  `cssFiles` is not counted. The model pushes a `ResponseObject` fragment and joins it as
  `env.objectText` of the response.
- The argument guard (line 94) runs after the local stylesheets were pushed into `styles`.
  So remote URLs together with any local `.css` file never succeed (`UrlsExcludeLocalStylesheets`).
  Once every local read and every first-wave request has succeeded, such a run fails with
  "Argument is invalid" (`RunGuard`). Before that, a failed read or request is reported instead.
- `styles` is mutated in place. A second `parse()` on the same parser starts from the first run's text
  (`SecondParseFailsGuard`). A run that throws halfway leaves its earlier pushes in the buffer
  (`RunRejects`).
- A response without a `content-type` header makes `type.indexOf` throw a TypeError (`MissingContentType`).

## Model

| member | source | states |
|---|---|---|
| `Fetch.Settle` | lib/parser.js:16-23 | a fetch succeeds iff there is no transport error and the status is exactly 200; a transport error is passed on with its own message; any other status fails with "Status code is N" |
| `Fetch.FetchAll` | lib/parser.js:74-93 | a wave succeeds with one response per URL, in URL order, iff every request succeeds; otherwise it fails with the error of the first failing request |
| `Fetch.AwaitAll` | lib/parser.js:74-80 | issuing one request per URL and waiting for all of them yields exactly `FetchAll` |
| `Errors.Message` | lib/parser.js:20-22 | each failure carries the message the caller receives (see also lines 95, 131, 160 and 165); a status message is "Status code is " followed by decimal digits that read back to the status code |
| `Errors.StatusMessageNamesCode` | lib/parser.js:22 | two status messages are equal only when their status codes are equal |
| `Strings.DecimalRoundTrip` | lib/parser.js:22 | reading back the decimal text of a status code gives that code |
| `Strings.Decimal` | lib/parser.js:22 | a number is written as decimal digits with no leading zero |
| `Strings.IndexOf` | lib/parser.js:107 | `indexOf` returns the first index where the substring occurs, or -1 exactly when it occurs nowhere |
| `Paths.Extension` | lib/parser.js:43 | the extension is a suffix of the last path portion, shorter than it, made of one dot and no further dot, so it starts at the last dot; it is non-empty iff the portion is not ".." and has a dot after its first character |
| `Paths.ExtName` | lib/parser.js:43 | `path.extname` of a POSIX path is empty or one dot followed by no further dot, and never holds a separator |
| `Paths.IsCssPath` | lib/parser.js:43-47 | a path counts as a stylesheet iff its last portion, ignoring trailing slashes, is at least five characters long and ends in ".css" |
| `Paths.CssPaths` | lib/parser.js:42-51 | the constructor keeps at most the given paths, and each kept path has extension ".css" |
| `Paths.CssPathsMembers` | lib/parser.js:42-51 | a path is kept iff it is among the files and has extension ".css"; other paths are dropped without error |
| `Paths.CssPathsAppend` | lib/parser.js:42-51 | filtering commutes with concatenation, so kept paths stay in their original order |
| `StyleParser.Parser.constructor` | lib/parser.js:34-52 | the parser keeps urls, files and styles as given, and its `cssFiles` is exactly the `.css` filter of `files` |
| `Utf8.ByteLength` | lib/parser.js:152 | the UTF-8 size lies between one and four bytes per character |
| `Utf8.ByteLengthAppend` | lib/parser.js:151-152 | the size of a concatenation is the sum of the sizes of its parts |
| `Utf8.ByteLengthAscii` | lib/parser.js:152 | the size equals the character count iff every character is ASCII |
| `StyleParser.JoinAll` | lib/parser.js:151 | `join('')` concatenates the text of each buffer entry in buffer order; its properties are stated by `JoinAllAppend` and `JoinedSize` |
| `StyleParser.JoinAllAppend` | lib/parser.js:151 | joining a buffer made of two parts gives the two joins, concatenated |
| `StyleParser.JoinedSize` | lib/parser.js:151-152 | `cssSize` adds up the sizes of the buffer's parts, whatever source each part came from |
| `StyleParser.ReadLocal` | lib/parser.js:84-89 | local reads yield each stylesheet's contents in path order, up to the first unreadable path, which is reported |
| `StyleParser.ReadLocalStops` | lib/parser.js:86 | once a file cannot be read, no later file is read |
| `StyleParser.Parser.PushLocalFiles` | lib/parser.js:84-89 | the buffer grows by the local contents in path order; an unreadable path stops the loop and is returned |
| `StyleParser.Classify` | lib/parser.js:102-135 | the sniff wins first; next, a content type containing "html" means HTML even if it also contains "css"; next, one lacking "css" is unsupported; otherwise the result is CSS; a missing header is its own case |
| `StyleParser.AbsorbOneAccepts` | lib/parser.js:102-135 | an accepted result appends its contribution. A sniffed result adds the response object and leaves `cssFiles` unchanged. An HTML result adds its link count to `cssFiles` and its style count to `styleElements`, queues one resolved request per link, and appends its style texts. A CSS result adds 1 to `cssFiles` and appends its body |
| `StyleParser.ResolveAll` | lib/parser.js:118-124 | each link is resolved against the href of the response it was found in, one per link, in document order |
| `StyleParser.ResolveLinks` | lib/parser.js:118-124 | the loop over links yields exactly `ResolveAll` |
| `StyleParser.AbsorbOne` | lib/parser.js:102-135 | one result throws iff it is not accepted (unsupported or without content type), with that rejection; an accepted one only appends to the buffer and the link requests and only raises the counters |
| `StyleParser.AbsorbAll` | lib/parser.js:101-137 | the loop over the first-tier results only ever extends the buffer and the link requests, also when it throws halfway |
| `StyleParser.AbsorbAllStops` | lib/parser.js:101-137 | after a result is rejected, later results change nothing |
| `StyleParser.AbsorbAllGathers` | lib/parser.js:101-137 | when all results are accepted, the buffer gains each result's contribution in result order, and the counters and link requests add up over all results |
| `StyleParser.AbsorbAllRejects` | lib/parser.js:130-131 | the first rejected result fails the loop with its error, and the buffer keeps what the results before it contributed |
| `StyleParser.Parser.PushStyleTexts` | lib/parser.js:126-129 | style texts are appended in document order |
| `StyleParser.Parser.AbsorbResults` | lib/parser.js:101-137 | the loop over first-tier results leaves the buffer, counters, link requests and failure that `AbsorbAll` gives |
| `StyleParser.Parser.PushBodies` | lib/parser.js:144-148 | linked bodies are appended in link order |
| `StyleParser.Extract` | lib/parser.js:151-192 | a syntax error fails with "Error: " plus the parser's message. An empty top-level list fails with "Rule is not found.". Otherwise the statistics carry the joined text, its UTF-8 size, the two counters, the flattened rules with the media-query count, and the selectors and declarations of those rules |
| `StyleParser.NoRuleNodesNoStatistics` | lib/parser.js:164-180 | a non-empty stylesheet made only of comments and other at-rules does not fail; it yields no rules, selectors, declarations or media queries |
| `StyleParser.Run` | lib/parser.js:58-196 | the whole of `parse()` on a buffer: it only appends to the caller's buffer, and successful statistics describe the join of the buffer it leaves |
| `StyleParser.Resume` | lib/parser.js:97-192 | the part of `parse()` after the argument guard never fails with "Argument is invalid", keeps the buffer it starts from as a prefix, and its statistics describe the final buffer |
| `StyleParser.RunGuard` | lib/parser.js:94-96 | after successful reads and fetches, a run fails with "Argument is invalid" iff urls and the original files are both non-empty and the buffer is non-empty after the local merge |
| `StyleParser.UrlsExcludeLocalStylesheets` | lib/parser.js:84-96 | a run with remote URLs and at least one local stylesheet never succeeds |
| `StyleParser.RunBadStatus` | lib/parser.js:17-23 | a non-200 first-tier response fails the run with its status code, nothing is parsed, and the buffer holds only the caller's and the local text |
| `StyleParser.RunAccepts` | lib/parser.js:101-137 | in a successful run every first-tier result was accepted |
| `StyleParser.RunSucceeds` | lib/parser.js:139-152 | a successful run's buffer is the first-tier buffer plus the linked bodies, and its result is what `Extract` makes of that buffer's join |
| `StyleParser.RunAssembles` | lib/parser.js:84-148 | a successful run's buffer is the caller's fragments, then the local contents, then the first-tier contributions in URL order, then the linked bodies in discovery order; exactly one second-tier request is made per discovered link |
| `StyleParser.RunStatistics` | lib/parser.js:113-152 | in a successful run `cssString` is the join of the final buffer and `cssSize` its UTF-8 size; `cssFiles` and `styleElements` add up what the first-tier results revealed |
| `StyleParser.RunRejects` | lib/parser.js:130-131 | a rejected first-tier result fails the run, and the buffer keeps the contributions of the results before it |
| `StyleParser.SecondParseFailsGuard` | lib/parser.js:86-96 | a second `parse()` on a parser given URLs and files, whose first run left text in the buffer, fails the argument guard |
| `StyleParser.Parser.Parse` | lib/parser.js:58-196 | `parse()` leaves the buffer and returns the result that `Run` specifies |
| `Stylesheet.Flatten` | lib/parser.js:169-180 | the flattening loop yields exactly `FlatRules`, which holds only `rule` nodes, and counts exactly the top-level media nodes |
| `Stylesheet.FlatRules` | lib/parser.js:169-180 | the rules `parse()` collects: each top-level rule, and the rule children of each top-level media node, in tree order; its properties are stated by `Flatten`, `FlatRulesMembers`, `FlatRulesAppend` and `FlatRulesCount` |
| `Stylesheet.MediaCount` | lib/parser.js:172-173 | the media-query count is at most the number of top-level nodes |
| `Stylesheet.FlatRulesMembers` | lib/parser.js:169-180 | a node is flattened iff it is a rule at the top level, or a direct child of a top-level media node; nothing deeper |
| `Stylesheet.FlatRulesAppend` | lib/parser.js:169-180 | flattening commutes with concatenation, so tree order is kept |
| `Stylesheet.FlatRulesCount` | lib/parser.js:169-180 | with N top-level rules, and media nodes holding M plain rules in all, exactly N + M rules are flattened |
| `Stylesheet.NoRulesWithoutRuleOrMedia` | lib/parser.js:169-180 | a top level of comments and other at-rules flattens to nothing, with no media query |
| `Stylesheet.Collect` | lib/parser.js:183-192 | the collection loop yields exactly the selector and declaration lists of the flattened rules |
| `Stylesheet.Selectors` | lib/parser.js:183-186 | every selector of every rule, in rule order; its properties are stated by `SelectorsMembers` and `Collect` |
| `Stylesheet.Declarations` | lib/parser.js:183-192 | the declaration-typed children of every rule, in rule order; its properties are stated by `DeclarationsMembers` and `Collect` |
| `Stylesheet.SelectorsMembers` | lib/parser.js:184-186 | a selector is listed iff some flattened rule declares it |
| `Stylesheet.DeclarationsMembers` | lib/parser.js:187-191 | a node is listed iff it is a declaration of some flattened rule; comments are skipped |
| `Stylesheet.MediaThenRuleExample` | lib/parser.js:169-192 | `@media screen { .a {…} }` then `.b {…}` yields two rules, one media query, and selectors ".a" then ".b" |

## Left out

- Network I/O, `request`, and the scheduling of the two `Promise.all` waves (lib/parser.js:15-25, 75-80, 91-95, 139-143).
  A fetch is an outcome given by `env.net`, so one URL always yields the same outcome.
  When several requests of a wave fail, the source rejects with whichever failure settles first.
  The model picks the first failure in URL order.
- Requests issued before a failure is known are not modelled. This covers the first wave when a local file cannot be read,
  and the second-tier requests of earlier HTML results when a later result is rejected.
- The shared `requestOptions` object that both waves mutate (lib/parser.js:76-78, 121-122) is not modelled. It is transport configuration only.
- A local-file read error is thrown synchronously by `parse()` instead of rejecting its promise.
  The model returns it as an error result, like every other failure.
- The file system is a map from path to text. Every unreadable path is reported as missing,
  with Node's ENOENT message. Byte decoding is not modelled.
- HTML parsing by cheerio is not modelled: a document is only its link hrefs and style texts.
  A `link` without `href` (which makes `url.resolve` throw) is not modelled.
- `url.resolve`, `css.parse` (its grammar and its error objects), and `util.isCSS` are parameters.
  lib/util.js is not part of this model.
- The string that `join('')` makes of a sniffed response object is a parameter (`objectText`).
  The model does not claim what Node prints for it.
- `Paths.ExtName` follows POSIX paths only; Windows separators are not modelled.
- JavaScript strings may hold lone surrogates. Dafny characters are Unicode scalar values, so the three bytes a lone surrogate costs are not modelled.
- The `options` constructor argument is not modelled, beyond the request options above.
- Aliasing: the caller's array and `this.styles` are the same object in the source. The model has only the field.
- Node kinds, positions and the other fields `css.parse` attaches are not modelled; a node is `Rule`, `Media` or `Other`.
- The message of `MissingContentType` is the one current V8 versions produce; older versions word it differently.
