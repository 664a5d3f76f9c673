/** The `Parser` class of lib/parser.js: the constructor's `.css` filter
    and `parse()`, which gathers CSS text from the caller's fragments, local
    files, fetched documents and the stylesheets they link, joins it, and
    draws statistics from the parsed tree.

    Everything `parse()` consults outside its own logic is a parameter
    (`Env`): the file system, the network, the `isCSS` sniff, cheerio's
    queries, `url.resolve`, `css.parse`, and the text JavaScript produces
    when it turns a response object into a string. */
module StyleParser {
  import opened Wrappers
  import opened Strings
  import opened Utf8
  import opened Paths
  import opened Errors
  import opened Fetch
  import opened Stylesheet

  /** What cheerio's queries find in an HTML document: the `href` of every
      `link[rel=stylesheet]` and the text of every `style`, in document order. */
  datatype Document = Document(links: seq<string>, styleTexts: seq<string>)

  /** An entry of `this.styles`: CSS text, or (in the sniffed branch) the
      response object itself. */
  datatype Fragment = Text(text: string) | ResponseObject(response: Response)

  /** The collaborators of `parse()`. */
  datatype Env = Env(
    fs: map<string, string>,                       // readable files and their UTF-8 text
    net: string -> FetchOutcome,                   // the outcome of requesting a URL
    isCss: Response -> bool,                       // util.isCSS
    load: string -> Document,                      // cheerio.load and its two queries
    resolve: (string, string) -> string,           // url.resolve(base, relative)
    parseCss: string -> Result<seq<Node>, string>, // css.parse: top-level nodes, or its error message
    objectText: Response -> string)                // String(response), as Array.prototype.join uses it

  /** The object `parse()` resolves with. */
  datatype Stats = Stats(
    cssString: string,
    cssSize: nat,
    styleElements: nat,
    mediaQueries: nat,
    cssFiles: nat,
    rules: seq<Node>,
    selectors: seq<string>,
    declarations: seq<Decl>)

  /** The end of one `parse()`: the `styles` buffer as it was left, and the
      statistics or the error. */
  datatype Outcome = Outcome(styles: seq<Fragment>, result: Result<Stats, Error>)

  /* ---------- Building blocks of the buffer ---------- */

  function Texts(xs: seq<string>): (r: seq<Fragment>)
    ensures |r| == |xs|
    ensures forall i :: 0 <= i < |xs| ==> r[i] == Text(xs[i])
    decreases |xs|
  {
    if xs == [] then [] else Texts(xs[..|xs| - 1]) + [Text(xs[|xs| - 1])]
  }

  /** The bodies of the second-tier responses, as buffer entries. */
  function Bodies(rs: seq<Response>): (r: seq<Fragment>)
    ensures |r| == |rs|
    ensures forall i :: 0 <= i < |rs| ==> r[i] == Text(rs[i].body)
    decreases |rs|
  {
    if rs == [] then [] else Bodies(rs[..|rs| - 1]) + [Text(rs[|rs| - 1].body)]
  }

  /** Each link of a document resolved against the document's own href. */
  function ResolveAll(resolve: (string, string) -> string, base: string, hrefs: seq<string>): (r: seq<string>)
    ensures |r| == |hrefs|
    ensures forall i :: 0 <= i < |hrefs| ==> r[i] == resolve(base, hrefs[i])
    decreases |hrefs|
  {
    if hrefs == [] then [] else ResolveAll(resolve, base, hrefs[..|hrefs| - 1]) + [resolve(base, hrefs[|hrefs| - 1])]
  }

  /** What `join('')` makes of one entry. */
  function FragmentText(f: Fragment, objectText: Response -> string): string
  {
    match f
    case Text(s) => s
    case ResponseObject(r) => objectText(r)
  }

  /** `styles.join('')`. */
  function JoinAll(frags: seq<Fragment>, objectText: Response -> string): string
    decreases |frags|
  {
    if frags == [] then "" else JoinAll(frags[..|frags| - 1], objectText) + FragmentText(frags[|frags| - 1], objectText)
  }

  /** Joining commutes with concatenation of buffers. */
  lemma {:induction false} JoinAllAppend(a: seq<Fragment>, b: seq<Fragment>, objectText: Response -> string)
    ensures JoinAll(a + b, objectText) == JoinAll(a, objectText) + JoinAll(b, objectText)
    decreases |b|
  {
    if b == [] {
      assert a + b == a;
      assert JoinAll(a, objectText) + JoinAll(b, objectText) == JoinAll(a, objectText);
    } else {
      var b' := b[..|b| - 1];
      JoinAllAppend(a, b', objectText);
      assert (a + b)[..|a + b| - 1] == a + b[..|b| - 1];
      assert (JoinAll(a, objectText) + JoinAll(b', objectText)) + FragmentText(b[|b| - 1], objectText) == JoinAll(a, objectText) + (JoinAll(b', objectText) + FragmentText(b[|b| - 1], objectText));
    }
  }

  /** The byte size of the joined buffer is the sum of the sizes of its
      parts, whichever source each part came from. */
  lemma JoinedSize(a: seq<Fragment>, b: seq<Fragment>, objectText: Response -> string)
    ensures ByteLength(JoinAll(a + b, objectText)) ==
            ByteLength(JoinAll(a, objectText)) + ByteLength(JoinAll(b, objectText))
  {
    JoinAllAppend(a, b, objectText);
    ByteLengthAppend(JoinAll(a, objectText), JoinAll(b, objectText));
  }

  /* ---------- Local stylesheets (lines 84-89) ---------- */

  /** The contents read, and the first path that could not be read. */
  datatype LocalRead = LocalRead(contents: seq<string>, missing: Option<string>)

  /** `fs.readFileSync` over the stylesheet paths in order: contents of the
      readable prefix, stopping at the first unreadable path. */
  function ReadLocal(fs: map<string, string>, paths: seq<string>): (r: LocalRead)
    ensures |r.contents| <= |paths|
    ensures forall i :: 0 <= i < |r.contents| ==> paths[i] in fs && r.contents[i] == fs[paths[i]]
    ensures r.missing.None? <==> |r.contents| == |paths|
    ensures r.missing.Some? ==> r.missing.value == paths[|r.contents|] && paths[|r.contents|] !in fs
    decreases |paths|
  {
    if paths == [] then LocalRead([], None)
    else
      var before := ReadLocal(fs, paths[..|paths| - 1]);
      var last := paths[|paths| - 1];
      if before.missing.Some? then before
      else if last in fs then LocalRead(before.contents + [fs[last]], None)
      else LocalRead(before.contents, Some(last))
  }

  /** Reading stops for good at the first unreadable path. */
  lemma {:induction false} ReadLocalStops(fs: map<string, string>, paths: seq<string>, n: nat)
    requires n <= |paths| && ReadLocal(fs, paths[..n]).missing.Some?
    ensures ReadLocal(fs, paths) == ReadLocal(fs, paths[..n])
    decreases |paths|
  {
    if n < |paths| {
      var init := paths[..|paths| - 1];
      assert init[..n] == paths[..n];
      ReadLocalStops(fs, init, n);
    } else {
      assert paths[..n] == paths;
    }
  }

  /* ---------- First-tier results (lines 101-137) ---------- */

  /** How a first-tier result is handled. */
  datatype Kind = SniffedCss | Html | CssContentType | Unsupported | NoContentType

  /** The classification of lines 102-135: the sniff first, then an "html"
      content type, then a content type without "css", else CSS. */
  function Classify(sniffed: bool, contentType: Option<string>): (k: Kind)
    ensures k == SniffedCss <==> sniffed
    ensures k == NoContentType <==> !sniffed && contentType.None?
    ensures k == Html <==> !sniffed && contentType.Some? && Contains(contentType.value, "html")
    ensures k == Unsupported <==> !sniffed && contentType.Some? &&
                                  !Contains(contentType.value, "html") && !Contains(contentType.value, "css")
    ensures k == CssContentType <==> !sniffed && contentType.Some? &&
                                     !Contains(contentType.value, "html") && Contains(contentType.value, "css")
  {
    if sniffed then SniffedCss
    else
      match contentType
      case None => NoContentType
      case Some(t) =>
        if IndexOf(t, "html") > -1 then Html
        else if IndexOf(t, "css") == -1 then Unsupported
        else CssContentType
  }

  function KindOf(r: Response, env: Env): Kind
  {
    Classify(env.isCss(r), r.contentType)
  }

  /** A result `parse()` accepts. */
  predicate Supported(r: Response, env: Env)
  {
    KindOf(r, env) != Unsupported && KindOf(r, env) != NoContentType
  }

  /** The error a result that is not accepted raises. */
  function Rejection(r: Response, env: Env): Error
  {
    if KindOf(r, env) == NoContentType then MissingContentType else UnsupportedContentType
  }

  /** The running state of the loop over first-tier results: the buffer,
      the two counters, and the second-tier requests made so far. */
  datatype Tally = Tally(styles: seq<Fragment>, cssFiles: nat, styleElements: nat, links: seq<string>)

  /** The loop state after some results, and the error that stopped it. */
  datatype Absorbed = Absorbed(tally: Tally, failure: Option<Error>)

  /** One iteration of the loop of lines 101-137: a result that is not
      accepted throws its rejection; an accepted one only appends to the
      buffer and the link requests and only raises the counters. */
  function AbsorbOne(t: Tally, r: Response, env: Env): (o: Result<Tally, Error>)
    ensures o.Err? <==> !Supported(r, env)
    ensures o.Err? ==> o.error == Rejection(r, env)
    ensures o.Ok? ==> t.styles <= o.value.styles && t.links <= o.value.links &&
                      t.cssFiles <= o.value.cssFiles && t.styleElements <= o.value.styleElements
  {
    match KindOf(r, env)
    case SniffedCss => Ok(t.(styles := t.styles + [ResponseObject(r)]))
    case Html =>
      var doc := env.load(r.body);
      Ok(Tally(t.styles + Texts(doc.styleTexts),
               t.cssFiles + |doc.links|,
               t.styleElements + |doc.styleTexts|,
               t.links + ResolveAll(env.resolve, r.href, doc.links)))
    case CssContentType => Ok(t.(styles := t.styles + [Text(r.body)], cssFiles := t.cssFiles + 1))
    case Unsupported => Err(UnsupportedContentType)
    case NoContentType => Err(MissingContentType)
  }

  /** The loop of lines 101-137 over `results`; a throw leaves what earlier
      iterations pushed in place, so the buffer and the link requests only
      ever grow. */
  function AbsorbAll(t: Tally, results: seq<Response>, env: Env): (a: Absorbed)
    ensures t.styles <= a.tally.styles && t.links <= a.tally.links
    decreases |results|
  {
    if results == [] then Absorbed(t, None)
    else
      var before := AbsorbAll(t, results[..|results| - 1], env);
      if before.failure.Some? then before
      else
        match AbsorbOne(before.tally, results[|results| - 1], env)
        case Ok(next) => Absorbed(next, None)
        case Err(e) => Absorbed(before.tally, Some(e))
  }

  /** Once a result is rejected, later results change nothing. */
  lemma {:induction false} AbsorbAllStops(t: Tally, results: seq<Response>, env: Env, n: nat)
    requires n <= |results| && AbsorbAll(t, results[..n], env).failure.Some?
    ensures AbsorbAll(t, results, env) == AbsorbAll(t, results[..n], env)
    decreases |results|
  {
    if n < |results| {
      var init := results[..|results| - 1];
      assert init[..n] == results[..n];
      AbsorbAllStops(t, init, env, n);
    } else {
      assert results[..n] == results;
    }
  }

  /** One more iteration of the loop, when no earlier result was rejected. */
  lemma AbsorbAllStep(t: Tally, results: seq<Response>, env: Env, k: nat)
    requires k < |results| && AbsorbAll(t, results[..k], env).failure.None?
    ensures var before := AbsorbAll(t, results[..k], env).tally;
            AbsorbAll(t, results[..k + 1], env) ==
              match AbsorbOne(before, results[k], env)
              case Ok(next) => Absorbed(next, None)
              case Err(e) => Absorbed(before, Some(e))
  {
    assert results[..k + 1][..k] == results[..k];
  }

  /* ---------- What the results contribute, result by result ---------- */

  /** The buffer entries one accepted result adds: the response object when
      sniffed, the style texts of an HTML document, the body of CSS. */
  function Contribution(r: Response, env: Env): seq<Fragment>
  {
    match KindOf(r, env)
    case SniffedCss => [ResponseObject(r)]
    case Html => Texts(env.load(r.body).styleTexts)
    case CssContentType => [Text(r.body)]
    case _ => []
  }

  /** Stylesheets a result reveals: its links when HTML, itself when served as CSS. */
  function CssFilesFound(r: Response, env: Env): nat
  {
    match KindOf(r, env)
    case Html => |env.load(r.body).links|
    case CssContentType => 1
    case _ => 0
  }

  function StyleElementsFound(r: Response, env: Env): nat
  {
    if KindOf(r, env) == Html then |env.load(r.body).styleTexts| else 0
  }

  /** The second-tier requests a result causes. */
  function LinksFound(r: Response, env: Env): seq<string>
  {
    if KindOf(r, env) == Html then ResolveAll(env.resolve, r.href, env.load(r.body).links) else []
  }

  function Contributions(rs: seq<Response>, env: Env): seq<Fragment>
    decreases |rs|
  {
    if rs == [] then [] else Contributions(rs[..|rs| - 1], env) + Contribution(rs[|rs| - 1], env)
  }

  function CssFileCount(rs: seq<Response>, env: Env): nat
    decreases |rs|
  {
    if rs == [] then 0 else CssFileCount(rs[..|rs| - 1], env) + CssFilesFound(rs[|rs| - 1], env)
  }

  function StyleElementCount(rs: seq<Response>, env: Env): nat
    decreases |rs|
  {
    if rs == [] then 0 else StyleElementCount(rs[..|rs| - 1], env) + StyleElementsFound(rs[|rs| - 1], env)
  }

  function LinkRequests(rs: seq<Response>, env: Env): seq<string>
    decreases |rs|
  {
    if rs == [] then [] else LinkRequests(rs[..|rs| - 1], env) + LinksFound(rs[|rs| - 1], env)
  }

  /** The loop state after accepting every result of `rs`. */
  function Gathered(t: Tally, rs: seq<Response>, env: Env): Tally
  {
    Tally(t.styles + Contributions(rs, env),
          t.cssFiles + CssFileCount(rs, env),
          t.styleElements + StyleElementCount(rs, env),
          t.links + LinkRequests(rs, env))
  }

  /** When every result is accepted, the loop appends each result's
      contribution in result order and adds up the counters. */
  lemma {:induction false} AbsorbAllGathers(t: Tally, rs: seq<Response>, env: Env)
    requires forall i :: 0 <= i < |rs| ==> Supported(rs[i], env)
    ensures AbsorbAll(t, rs, env) == Absorbed(Gathered(t, rs, env), None)
    decreases |rs|
  {
    if rs != [] {
      var init, last := rs[..|rs| - 1], rs[|rs| - 1];
      AbsorbAllGathers(t, init, env);
      var g := Gathered(t, init, env);
      AbsorbOneAccepts(g, last, env);
      GatheredStep(t, rs, env);
    } else {
      assert t.styles + [] == t.styles && t.links + [] == t.links;
    }
  }

  /** An accepted result adds its own contribution and counts. */
  lemma AbsorbOneAccepts(g: Tally, r: Response, env: Env)
    requires Supported(r, env)
    ensures AbsorbOne(g, r, env) ==
              Ok(Tally(g.styles + Contribution(r, env), g.cssFiles + CssFilesFound(r, env),
                       g.styleElements + StyleElementsFound(r, env), g.links + LinksFound(r, env)))
  {
    if KindOf(r, env) != Html {
      assert g.links + [] == g.links;
    }
  }

  lemma GatheredStep(t: Tally, rs: seq<Response>, env: Env)
    requires rs != []
    ensures var g := Gathered(t, rs[..|rs| - 1], env);
            var r := rs[|rs| - 1];
            Gathered(t, rs, env) ==
              Tally(g.styles + Contribution(r, env), g.cssFiles + CssFilesFound(r, env),
                    g.styleElements + StyleElementsFound(r, env), g.links + LinksFound(r, env))
  {
    var init, r := rs[..|rs| - 1], rs[|rs| - 1];
    assert Contributions(rs, env) == Contributions(init, env) + Contribution(r, env);
    assert t.styles + Contributions(rs, env) == (t.styles + Contributions(init, env)) + Contribution(r, env);
    assert LinkRequests(rs, env) == LinkRequests(init, env) + LinksFound(r, env);
    assert t.links + LinkRequests(rs, env) == (t.links + LinkRequests(init, env)) + LinksFound(r, env);
  }

  /** The first rejected result stops the loop with its error; the buffer
      keeps what the results before it contributed. */
  lemma AbsorbAllRejects(t: Tally, rs: seq<Response>, env: Env, k: nat)
    requires k < |rs| && !Supported(rs[k], env)
    requires forall i :: 0 <= i < k ==> Supported(rs[i], env)
    ensures AbsorbAll(t, rs, env) == Absorbed(Gathered(t, rs[..k], env), Some(Rejection(rs[k], env)))
  {
    AbsorbAllGathers(t, rs[..k], env);
    assert rs[..k + 1][..k] == rs[..k];
    AbsorbAllStops(t, rs, env, k + 1);
  }

  /* ---------- Join, parse and statistics (lines 150-193) ---------- */

  /** Lines 151-192 from the joined text on: parse it, refuse an empty
      stylesheet, flatten and count. */
  function Extract(cssString: string, t: Tally, parseCss: string -> Result<seq<Node>, string>): (r: Result<Stats, Error>)
    ensures parseCss(cssString).Err? ==> r == Err(CssSyntax(parseCss(cssString).error))
    ensures parseCss(cssString) == Ok([]) ==> r == Err(RuleNotFound)
    ensures r.Ok? <==> parseCss(cssString).Ok? && parseCss(cssString).value != []
    ensures r.Ok? ==> r.value.cssString == cssString && r.value.cssSize == ByteLength(cssString)
    ensures r.Ok? ==> r.value.cssFiles == t.cssFiles && r.value.styleElements == t.styleElements
    ensures r.Ok? ==> var nodes := parseCss(cssString).value;
                      r.value.rules == FlatRules(nodes) && r.value.mediaQueries == MediaCount(nodes) &&
                      r.value.selectors == Selectors(r.value.rules) &&
                      r.value.declarations == Declarations(r.value.rules)
  {
    match parseCss(cssString)
    case Err(m) => Err(CssSyntax(m))
    case Ok(nodes) =>
      if nodes == [] then Err(RuleNotFound)
      else
        var rules := FlatRules(nodes);
        Ok(Stats(cssString, ByteLength(cssString), t.styleElements, MediaCount(nodes), t.cssFiles,
                 rules, Selectors(rules), Declarations(rules)))
  }

  /** A stylesheet of comments and other at-rules only is not an error: it
      yields no rule, selector, declaration or media query. */
  lemma NoRuleNodesNoStatistics(cssString: string, t: Tally, parseCss: string -> Result<seq<Node>, string>)
    requires parseCss(cssString).Ok? && parseCss(cssString).value != []
    requires forall i :: 0 <= i < |parseCss(cssString).value| ==> parseCss(cssString).value[i].Other?
    ensures Extract(cssString, t, parseCss).Ok?
    ensures var s := Extract(cssString, t, parseCss).value;
            s.rules == [] && s.selectors == [] && s.declarations == [] && s.mediaQueries == 0
  {
    NoRulesWithoutRuleOrMedia(parseCss(cssString).value);
  }

  /* ---------- One run of parse() ---------- */

  /** The whole of `parse()` on `styles`, as specification. `parse()` only
      ever appends to the caller's buffer, and statistics describe the
      buffer it leaves behind. */
  function Run(urls: seq<string>, files: seq<string>, styles: seq<Fragment>, env: Env): (o: Outcome)
    ensures styles <= o.styles
    ensures o.result.Ok? ==> o.result.value.cssString == JoinAll(o.styles, env.objectText)
  {
    var local := ReadLocal(env.fs, CssPaths(files));
    var merged := styles + Texts(local.contents);
    if local.missing.Some? then Outcome(merged, Err(Filesystem(local.missing.value)))
    else
      match FetchAll(env.net, urls)
      case Err(e) => Outcome(merged, Err(e))
      case Ok(results) =>
        if |urls| > 0 && |files| > 0 && |merged| > 0 then Outcome(merged, Err(InvalidArgument))
        else Resume(merged, results, env)
  }

  /** `parse()` past the argument guard (lines 97-192): the loop over the
      first-tier results, the second wave, then the join and the statistics.
      Nothing after the guard fails with "Argument is invalid", and the
      buffer reached at the guard is kept as a prefix. */
  function Resume(merged: seq<Fragment>, results: seq<Response>, env: Env): (o: Outcome)
    ensures merged <= o.styles
    ensures o.result != Err(InvalidArgument)
    ensures o.result.Ok? ==> o.result.value.cssString == JoinAll(o.styles, env.objectText)
  {
    var absorbed := AbsorbAll(Tally(merged, 0, 0, []), results, env);
    AbsorbAllFailure(Tally(merged, 0, 0, []), results, env);
    var t := absorbed.tally;
    if absorbed.failure.Some? then Outcome(t.styles, Err(absorbed.failure.value))
    else
      match FetchAll(env.net, t.links)
      case Err(e) => Outcome(t.styles, Err(e))
      case Ok(linked) =>
        var all := t.styles + Bodies(linked);
        Outcome(all, Extract(JoinAll(all, env.objectText), t, env.parseCss))
  }

  /** The stylesheet contents in `files`, read in order, when all are readable. */
  function LocalContents(files: seq<string>, env: Env): seq<string>
  {
    ReadLocal(env.fs, CssPaths(files)).contents
  }

  /** The argument guard fires exactly when urls and files are both given
      and the buffer is non-empty after the local stylesheets were pushed:
      it looks at the original `files`, but at the merged `styles`. */
  lemma RunGuard(urls: seq<string>, files: seq<string>, styles: seq<Fragment>, env: Env)
    requires ReadLocal(env.fs, CssPaths(files)).missing.None?
    requires FetchAll(env.net, urls).Ok?
    ensures Run(urls, files, styles, env).result == Err(InvalidArgument) <==>
              |urls| > 0 && |files| > 0 && (|styles| > 0 || |CssPaths(files)| > 0)
  {
    var local := ReadLocal(env.fs, CssPaths(files));
    assert |styles + Texts(local.contents)| == |styles| + |CssPaths(files)|;
  }

  /** The loop over results only fails with a content-type error. */
  lemma {:induction false} AbsorbAllFailure(t: Tally, rs: seq<Response>, env: Env)
    ensures AbsorbAll(t, rs, env).failure.Some? ==>
              AbsorbAll(t, rs, env).failure.value in {UnsupportedContentType, MissingContentType}
    decreases |rs|
  {
    if rs != [] {
      AbsorbAllFailure(t, rs[..|rs| - 1], env);
    }
  }

  /** Remote URLs can never be combined with local stylesheets: the local
      text is already in the buffer when the guard runs. */
  lemma UrlsExcludeLocalStylesheets(urls: seq<string>, files: seq<string>, styles: seq<Fragment>, env: Env)
    requires |urls| > 0 && CssPaths(files) != []
    ensures !Run(urls, files, styles, env).result.Ok?
  {
    var local := ReadLocal(env.fs, CssPaths(files));
    if local.missing.None? && FetchAll(env.net, urls).Ok? {
      RunGuard(urls, files, styles, env);
    }
  }

  /** A first-tier response whose status is not 200 (the first failing one
      in URL order) fails the run with "Status code is N"; nothing is parsed
      and the buffer holds only the caller's and the local text. */
  lemma RunBadStatus(urls: seq<string>, files: seq<string>, styles: seq<Fragment>, env: Env, i: nat)
    requires ReadLocal(env.fs, CssPaths(files)).missing.None?
    requires i < |urls| && env.net(urls[i]).Received? && env.net(urls[i]).response.statusCode != 200
    requires forall j :: 0 <= j < i ==> Settle(env.net(urls[j])).Ok?
    ensures Run(urls, files, styles, env) ==
              Outcome(styles + Texts(LocalContents(files, env)), Err(BadStatus(env.net(urls[i]).response.statusCode)))
  {
    FetchAllFirstFailure(env.net, urls, i);
  }

  /** The tally a successful run reaches after the first-tier results. */
  function FirstTierTally(urls: seq<string>, files: seq<string>, styles: seq<Fragment>, env: Env): Tally
    requires FetchAll(env.net, urls).Ok?
  {
    Gathered(Tally(styles + Texts(LocalContents(files, env)), 0, 0, []), FetchAll(env.net, urls).value, env)
  }

  /** A successful run ends with the buffer extended by the linked bodies,
      and with what `Extract` makes of its join. */
  lemma RunSucceeds(urls: seq<string>, files: seq<string>, styles: seq<Fragment>, env: Env)
    requires Run(urls, files, styles, env).result.Ok?
    ensures FetchAll(env.net, urls).Ok?
    ensures var t := FirstTierTally(urls, files, styles, env);
            FetchAll(env.net, t.links).Ok? &&
            var all := t.styles + Bodies(FetchAll(env.net, t.links).value);
            Run(urls, files, styles, env) == Outcome(all, Extract(JoinAll(all, env.objectText), t, env.parseCss))
  {
    var local := ReadLocal(env.fs, CssPaths(files));
    assert local.missing.None?;
    var results := FetchAll(env.net, urls).value;
    var t0 := Tally(styles + Texts(local.contents), 0, 0, []);
    RunAccepts(urls, files, styles, env);
    AbsorbAllGathers(t0, results, env);
  }

  /** A successful run: the buffer is the caller's fragments, then the
      local stylesheets, then the first-tier contributions in URL order,
      then the linked bodies in discovery order, with exactly one
      second-tier request per discovered link. */
  lemma RunAssembles(urls: seq<string>, files: seq<string>, styles: seq<Fragment>, env: Env)
    requires Run(urls, files, styles, env).result.Ok?
    ensures FetchAll(env.net, urls).Ok?
    ensures var results := FetchAll(env.net, urls).value;
            var linked := FetchAll(env.net, LinkRequests(results, env));
            linked.Ok? && |linked.value| == |LinkRequests(results, env)| &&
            Run(urls, files, styles, env).styles ==
              styles + Texts(LocalContents(files, env)) + Contributions(results, env) + Bodies(linked.value)
  {
    RunSucceeds(urls, files, styles, env);
    var t := FirstTierTally(urls, files, styles, env);
    assert t.links == LinkRequests(FetchAll(env.net, urls).value, env);
  }

  /** A successful run's statistics: `cssString` is the join of the final
      buffer and `cssSize` its UTF-8 size; `cssFiles` and `styleElements`
      add up what the first-tier results revealed. */
  lemma RunStatistics(urls: seq<string>, files: seq<string>, styles: seq<Fragment>, env: Env)
    requires Run(urls, files, styles, env).result.Ok?
    ensures FetchAll(env.net, urls).Ok?
    ensures var results := FetchAll(env.net, urls).value;
            var out := Run(urls, files, styles, env);
            out.result.value.cssString == JoinAll(out.styles, env.objectText) &&
            out.result.value.cssSize == ByteLength(out.result.value.cssString) &&
            out.result.value.cssFiles == CssFileCount(results, env) &&
            out.result.value.styleElements == StyleElementCount(results, env)
  {
    RunSucceeds(urls, files, styles, env);
  }

  /** In a successful run every first-tier result was accepted. */
  lemma RunAccepts(urls: seq<string>, files: seq<string>, styles: seq<Fragment>, env: Env)
    requires Run(urls, files, styles, env).result.Ok?
    ensures FetchAll(env.net, urls).Ok?
    ensures forall i :: 0 <= i < |FetchAll(env.net, urls).value| ==> Supported(FetchAll(env.net, urls).value[i], env)
  {
    var results := FetchAll(env.net, urls).value;
    if exists k :: 0 <= k < |results| && !Supported(results[k], env) {
      var k := FirstRejected(results, env);
      var merged := styles + Texts(LocalContents(files, env));
      AbsorbAllRejects(Tally(merged, 0, 0, []), results, env, k);
      assert false;
    }
  }

  /** The first index of a result that is not accepted. */
  function FirstRejected(rs: seq<Response>, env: Env): (k: nat)
    requires exists k :: 0 <= k < |rs| && !Supported(rs[k], env)
    ensures k < |rs| && !Supported(rs[k], env)
    ensures forall i :: 0 <= i < k ==> Supported(rs[i], env)
    decreases |rs|
  {
    if !Supported(rs[0], env) then 0
    else
      assert exists k :: 0 <= k < |rs[1..]| && !Supported(rs[1..][k], env) by {
        var k :| 0 <= k < |rs| && !Supported(rs[k], env);
        assert rs[1..][k - 1] == rs[k];
      }
      FirstRejected(rs[1..], env) + 1
  }

  /** A rejected first-tier result fails the run, and the buffer keeps the
      contributions of the results before it. */
  lemma RunRejects(urls: seq<string>, files: seq<string>, styles: seq<Fragment>, env: Env, k: nat)
    requires ReadLocal(env.fs, CssPaths(files)).missing.None?
    requires FetchAll(env.net, urls).Ok?
    requires !(|urls| > 0 && |files| > 0 && (|styles| > 0 || |CssPaths(files)| > 0))
    requires var rs := FetchAll(env.net, urls).value;
             k < |rs| && !Supported(rs[k], env) && forall i :: 0 <= i < k ==> Supported(rs[i], env)
    ensures var rs := FetchAll(env.net, urls).value;
            Run(urls, files, styles, env) ==
              Outcome(styles + Texts(LocalContents(files, env)) + Contributions(rs[..k], env), Err(Rejection(rs[k], env)))
  {
    var merged := styles + Texts(LocalContents(files, env));
    AbsorbAllRejects(Tally(merged, 0, 0, []), FetchAll(env.net, urls).value, env, k);
  }

  /** `parse()` appends to the caller's buffer in place, so a second call on
      the same parser starts from the first call's text: with urls and files
      both given, it fails the argument guard. */
  lemma SecondParseFailsGuard(urls: seq<string>, files: seq<string>, styles: seq<Fragment>, env: Env)
    requires |urls| > 0 && |files| > 0
    requires Run(urls, files, styles, env).result.Ok? && Run(urls, files, styles, env).styles != []
    ensures Run(urls, files, Run(urls, files, styles, env).styles, env).result == Err(InvalidArgument)
  {
    RunGuard(urls, files, Run(urls, files, styles, env).styles, env);
  }

  /** Lines 118-124: the absolute URL of each link, in document order. */
  method ResolveLinks(resolve: (string, string) -> string, base: string, hrefs: seq<string>)
    returns (resolved: seq<string>)
    ensures resolved == ResolveAll(resolve, base, hrefs)
  {
    resolved := [];
    for j := 0 to |hrefs|
      invariant resolved == ResolveAll(resolve, base, hrefs[..j])
    {
      assert hrefs[..j + 1][..j] == hrefs[..j];
      resolved := resolved + [resolve(base, hrefs[j])];
    }
    assert hrefs[..|hrefs|] == hrefs;
  }

  /* ---------- The class ---------- */

  class Parser {
    const urls: seq<string>
    const files: seq<string>
    /** The stylesheet paths among `files`, chosen by the constructor. */
    const cssFiles: seq<string>
    /** The caller's fragment array, which `parse()` appends to. */
    var styles: seq<Fragment>

    ghost predicate Valid()
    {
      cssFiles == CssPaths(files)
    }

    /** Lines 34-52: keep the arguments and pick the `.css` files. */
    constructor (urls: seq<string>, files: seq<string>, styles: seq<string>)
      ensures this.urls == urls && this.files == files && this.styles == Texts(styles)
      ensures Valid()
    {
      this.urls := urls;
      this.files := files;
      this.styles := Texts(styles);
      var kept := [];
      for i := 0 to |files|
        invariant kept == CssPaths(files[..i])
      {
        assert files[..i + 1][..i] == files[..i];
        if ExtName(files[i]) == ".css" {
          kept := kept + [files[i]];
        }
      }
      assert files[..|files|] == files;
      this.cssFiles := kept;
    }

    /** Lines 84-89: push the text of every local stylesheet; a file that
        cannot be read stops the loop (readFileSync throws). */
    method PushLocalFiles(fs: map<string, string>) returns (missing: Option<string>)
      modifies this
      ensures styles == old(styles) + Texts(ReadLocal(fs, cssFiles).contents)
      ensures missing == ReadLocal(fs, cssFiles).missing
    {
      for i := 0 to |cssFiles|
        invariant ReadLocal(fs, cssFiles[..i]).missing.None?
        invariant styles == old(styles) + Texts(ReadLocal(fs, cssFiles[..i]).contents)
      {
        assert cssFiles[..i + 1][..i] == cssFiles[..i];
        if cssFiles[i] !in fs {
          ReadLocalStops(fs, cssFiles, i + 1);
          return Some(cssFiles[i]);
        }
        styles := styles + [Text(fs[cssFiles[i]])];
      }
      assert cssFiles[..|cssFiles|] == cssFiles;
      missing := None;
    }

    /** Lines 127-129: push the text of every style element. */
    method PushStyleTexts(texts: seq<string>)
      modifies this
      ensures styles == old(styles) + Texts(texts)
    {
      for j := 0 to |texts|
        invariant styles == old(styles) + Texts(texts[..j])
      {
        assert texts[..j + 1][..j] == texts[..j];
        styles := styles + [Text(texts[j])];
      }
      assert texts[..|texts|] == texts;
    }

    /** Lines 144-148: push the body of every linked stylesheet. */
    method PushBodies(linked: seq<Response>)
      modifies this
      ensures styles == old(styles) + Bodies(linked)
    {
      for m := 0 to |linked|
        invariant styles == old(styles) + Bodies(linked[..m])
      {
        assert linked[..m + 1][..m] == linked[..m];
        styles := styles + [Text(linked[m].body)];
      }
      assert linked[..|linked|] == linked;
    }

    /** Lines 101-137: classify each first-tier result, pushing its CSS
        text, counting what it reveals and collecting the link requests; a
        rejected result throws and leaves earlier pushes in place. */
    method AbsorbResults(results: seq<Response>, env: Env)
      returns (cssFileCount: nat, styleElements: nat, links: seq<string>, failure: Option<Error>)
      modifies this
      ensures AbsorbAll(Tally(old(styles), 0, 0, []), results, env) ==
                Absorbed(Tally(styles, cssFileCount, styleElements, links), failure)
    {
      ghost var t0 := Tally(styles, 0, 0, []);
      cssFileCount, styleElements, links := 0, 0, [];
      for k := 0 to |results|
        invariant AbsorbAll(t0, results[..k], env) ==
                    Absorbed(Tally(styles, cssFileCount, styleElements, links), None)
      {
        AbsorbAllStep(t0, results, env, k);
        var r := results[k];
        if env.isCss(r) {
          styles := styles + [ResponseObject(r)];
        } else if r.contentType.None? {
          AbsorbAllStops(t0, results, env, k + 1);
          return cssFileCount, styleElements, links, Some(MissingContentType);
        } else if IndexOf(r.contentType.value, "html") > -1 {
          var doc := env.load(r.body);
          cssFileCount := cssFileCount + |doc.links|;
          styleElements := styleElements + |doc.styleTexts|;
          var resolved := ResolveLinks(env.resolve, r.href, doc.links);
          links := links + resolved;
          PushStyleTexts(doc.styleTexts);
        } else if IndexOf(r.contentType.value, "css") == -1 {
          AbsorbAllStops(t0, results, env, k + 1);
          return cssFileCount, styleElements, links, Some(UnsupportedContentType);
        } else {
          cssFileCount := cssFileCount + 1;
          styles := styles + [Text(r.body)];
        }
      }
      assert results[..|results|] == results;
      failure := None;
    }

    /** Lines 58-196. */
    method Parse(env: Env) returns (result: Result<Stats, Error>)
      requires Valid()
      modifies this
      ensures styles == Run(urls, files, old(styles), env).styles
      ensures result == Run(urls, files, old(styles), env).result
    {
      var missing := PushLocalFiles(env.fs);
      if missing.Some? {
        return Err(Filesystem(missing.value));
      }
      var first := AwaitAll(env.net, urls);
      if first.Err? {
        return Err(first.error);
      }
      if |urls| > 0 && |files| > 0 && |styles| > 0 {
        return Err(InvalidArgument);
      }

      var cssFileCount, styleElements, links, failure := AbsorbResults(first.value, env);
      if failure.Some? {
        return Err(failure.value);
      }
      if |links| > 0 {
        var second := AwaitAll(env.net, links);
        if second.Err? {
          return Err(second.error);
        }
        PushBodies(second.value);
      } else {
        assert styles + Bodies([]) == styles;
      }

      var cssString := JoinAll(styles, env.objectText);
      var cssSize := ByteLength(cssString);
      match env.parseCss(cssString)
      case Err(m) =>
        return Err(CssSyntax(m));
      case Ok(nodes) =>
        if |nodes| == 0 {
          return Err(RuleNotFound);
        }
        var rules, mediaQueries := Flatten(nodes);
        var selectors, declarations := Collect(rules);
        result := Ok(Stats(cssString, cssSize, styleElements, mediaQueries, cssFileCount,
                           rules, selectors, declarations));
    }
  }
}
