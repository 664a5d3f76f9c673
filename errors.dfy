/** The ways one run of the parser can fail, with the message each carries. */
module Errors {
  import opened Strings

  datatype Error =
    | Transport(message: string)          // the request library's own error, passed through
    | BadStatus(code: nat)                // a response whose status code is not 200
    | Filesystem(path: string)            // a local stylesheet that cannot be read
    | InvalidArgument                     // urls, files and styles all non-empty
    | UnsupportedContentType              // neither sniffed as CSS nor an html/css content type
    | MissingContentType                  // no content-type header: `type.indexOf` on undefined
    | CssSyntax(message: string)          // css.parse rejected the joined text
    | RuleNotFound                        // the stylesheet parsed to no top-level node

  /** The `message` of the rejection the caller receives. A status message
      is "Status code is " followed by the code in decimal, which reads back
      to the code. */
  function Message(e: Error): (r: string)
    ensures e.BadStatus? ==>
              |r| > 15 && r[..15] == "Status code is " && IsDigits(r[15..]) && DecimalValue(r[15..]) == e.code
  {
    match e
    case Transport(m) => m
    case BadStatus(code) =>
      var digits := Decimal(code);
      DecimalRoundTrip(code);
      assert ("Status code is " + digits)[15..] == digits;
      "Status code is " + digits
    case Filesystem(p) => "ENOENT: no such file or directory, open '" + p + "'"
    case InvalidArgument => "Argument is invalid"
    case UnsupportedContentType => "Content type is not HTML or CSS!"
    case MissingContentType => "Cannot read properties of undefined (reading 'indexOf')"
    // `new Error(error)` stringifies the caught Error, which prefixes its name
    case CssSyntax(m) => "Error: " + m
    case RuleNotFound => "Rule is not found."
  }

  /** The status message names the status code unambiguously. */
  lemma StatusMessageNamesCode(m: nat, n: nat)
    requires Message(BadStatus(m)) == Message(BadStatus(n))
    ensures m == n
  {
    var prefix := "Status code is ";
    assert Message(BadStatus(m))[|prefix|..] == Decimal(m);
    assert Message(BadStatus(n))[|prefix|..] == Decimal(n);
    DecimalInjective(m, n);
  }
}
