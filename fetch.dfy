/** `requestPromise` (lib/parser.js:14-26) and the `Promise.all` wave of
    requests built on it. One retrieval is an outcome given by the
    environment: a transport error, or a response. */
module Fetch {
  import opened Wrappers
  import opened Strings
  import opened Errors

  /** What the request library hands back: the status code, the
      `content-type` header when present, the body, and the href of the
      request after redirects (`response.request.href`). */
  datatype Response = Response(statusCode: nat, contentType: Option<string>, body: string, href: string)

  /** The arguments of the request callback: an error, or a response. */
  datatype FetchOutcome = Failed(message: string) | Received(response: Response)

  /** The status rule of `requestPromise`: resolve with the response only
      when there is no error and the status is exactly 200; reject with the
      transport error itself, or else with "Status code is N". */
  function Settle(o: FetchOutcome): (r: Result<Response, Error>)
    ensures r.Ok? <==> o.Received? && o.response.statusCode == 200
    ensures r.Ok? ==> r.value == o.response
    ensures o.Failed? ==> r.Err? && Message(r.error) == o.message
    ensures o.Received? && r.Err? ==>
      Message(r.error) == "Status code is " + Decimal(o.response.statusCode)
    ensures r.Err? ==> r.error.Transport? || r.error.BadStatus?
  {
    match o
    case Failed(m) => Err(Transport(m))
    case Received(resp) => if resp.statusCode == 200 then Ok(resp) else Err(BadStatus(resp.statusCode))
  }

  /** `Promise.all` over one request per locator: every response in locator
      order, or the rejection of the first request (in locator order) that
      fails. */
  function FetchAll(net: string -> FetchOutcome, locs: seq<string>): (r: Result<seq<Response>, Error>)
    ensures r.Ok? ==> |r.value| == |locs|
    ensures r.Ok? ==> forall i :: 0 <= i < |locs| ==> Settle(net(locs[i])) == Ok(r.value[i])
    ensures r.Err? ==>
              exists i :: 0 <= i < |locs| && Settle(net(locs[i])) == Err(r.error) &&
                          forall j :: 0 <= j < i ==> Settle(net(locs[j])).Ok?
    ensures r.Err? ==> r.error.Transport? || r.error.BadStatus?
    decreases |locs|
  {
    if locs == [] then Ok([])
    else
      var init := locs[..|locs| - 1];
      assert forall i :: 0 <= i < |init| ==> init[i] == locs[i];
      match FetchAll(net, init)
      case Err(e) => Err(e)
      case Ok(rs) =>
        match Settle(net(locs[|locs| - 1]))
        case Err(e) => Err(e)
        case Ok(resp) => Ok(rs + [resp])
  }

  /** The wave settles with the error of its first failing request. */
  lemma FetchAllFirstFailure(net: string -> FetchOutcome, locs: seq<string>, i: nat)
    requires i < |locs| && Settle(net(locs[i])).Err?
    requires forall j :: 0 <= j < i ==> Settle(net(locs[j])).Ok?
    ensures FetchAll(net, locs) == Err(Settle(net(locs[i])).error)
  {
  }

  /** Issue one request per locator and wait for all of them. */
  method AwaitAll(net: string -> FetchOutcome, locs: seq<string>) returns (r: Result<seq<Response>, Error>)
    ensures r == FetchAll(net, locs)
  {
    var responses := [];
    for i := 0 to |locs|
      invariant FetchAll(net, locs[..i]) == Ok(responses)
    {
      assert locs[..i + 1][..i] == locs[..i];
      var settled := Settle(net(locs[i]));
      if settled.Err? {
        forall j | 0 <= j < i
          ensures Settle(net(locs[j])).Ok?
        {
          assert locs[..i][j] == locs[j];
        }
        FetchAllFirstFailure(net, locs, i);
        return Err(settled.error);
      }
      responses := responses + [settled.value];
    }
    assert locs[..|locs|] == locs;
    r := Ok(responses);
  }
}
