/** The relay's request handler for `/:chainId/<rest>`: look up the chain, shuffle
    its stored RPC list in place, keep the `https` URLs as candidates, forward
    the request to every candidate, and answer with the first non-null result
    popped from the END of the result list. Each attempt's outcome is supplied
    already resolved: None where the upstream call threw. */
module Relay {
  import opened Wrappers
  import opened JsBuiltins
  import opened Shuffle
  import opened Registry

  /** An upstream (axios) response: status and payload. */
  datatype UpstreamResponse = UpstreamResponse(status: int, data: string)

  /** What the relay sends back: its own `{message}` object or an upstream payload. */
  datatype Body = Message(message: string) | Forwarded(data: string)

  datatype Reply = Reply(status: int, body: Body)

  const ChainNotFound := Reply(404, Message("Chain not found"))
  const NoValidRpcs := Reply(404, Message("No valid RPCs found"))
  const AllRpcsFailed := Reply(500, Message("All RPCs failed"))

  predicate IsHttps(url: string) {
    StartsWith(url, "https")
  }

  /** `rpc.filter(theRpc => theRpc.startsWith("https"))` */
  function Candidates(urls: seq<string>): (c: seq<string>)
    ensures |c| <= |urls|
    ensures forall k :: 0 <= k < |c| ==> IsHttps(c[k]) && c[k] in urls
    ensures forall u :: u in urls && IsHttps(u) ==> u in c
  {
    if urls == [] then []
    else (if IsHttps(urls[0]) then [urls[0]] else []) + Candidates(urls[1..])
  }

  /** The filter keeps the relative order: it distributes over concatenation. */
  lemma {:induction false} CandidatesOfConcat(a: seq<string>, b: seq<string>)
    ensures Candidates(a + b) == Candidates(a) + Candidates(b)
  {
    if a == [] {
      assert a + b == b;
    } else {
      assert (a + b)[1..] == a[1..] + b;
      CandidatesOfConcat(a[1..], b);
    }
  }

  /** Each https URL is kept as often as it occurs; every other URL is dropped. */
  lemma {:induction false} CandidatesCount(urls: seq<string>, u: string)
    ensures multiset(Candidates(urls))[u] == if IsHttps(u) then multiset(urls)[u] else 0
  {
    if urls != [] {
      assert urls == [urls[0]] + urls[1..];
      CandidatesCount(urls[1..], u);
    }
  }

  /** Reordering the list does not change how many candidates it yields. */
  lemma CandidatesOfPermutation(a: seq<string>, b: seq<string>)
    requires multiset(a) == multiset(b)
    ensures multiset(Candidates(a)) == multiset(Candidates(b))
    ensures |Candidates(a)| == |Candidates(b)|
  {
    forall u ensures multiset(Candidates(a))[u] == multiset(Candidates(b))[u] {
      CandidatesCount(a, u);
      CandidatesCount(b, u);
    }
    assert multiset(Candidates(a)) == multiset(Candidates(b));
    assert |multiset(Candidates(a))| == |Candidates(a)|;
    assert |multiset(Candidates(b))| == |Candidates(b)|;
  }

  /** The reference for the drain: the non-null result nearest the end of the list. */
  function LastSuccess(results: seq<Option<UpstreamResponse>>): (r: Option<UpstreamResponse>)
    ensures r.None? <==> forall k :: 0 <= k < |results| ==> results[k].None?
    ensures r.Some? ==> r in results
  {
    if results == [] then None
    else if results[|results| - 1].Some? then results[|results| - 1]
    else LastSuccess(results[..|results| - 1])
  }

  /** The last success is the element at the highest index holding a result. */
  lemma {:induction false} LastSuccessIsLast(results: seq<Option<UpstreamResponse>>, at: int)
    requires 0 <= at < |results| && results[at].Some?
    requires forall k :: at < k < |results| ==> results[k].None?
    ensures LastSuccess(results) == results[at]
    decreases |results|
  {
    if at < |results| - 1 {
      LastSuccessIsLast(results[..|results| - 1], at);
    }
  }

  /** `while (results.length) { result = await results.pop(); if (!result) continue; ... }`:
      the winner is the non-null result with the HIGHEST index, not the fastest. */
  method Drain(results: seq<Option<UpstreamResponse>>) returns (winner: Option<UpstreamResponse>, ghost at: int)
    ensures winner.None? <==> forall k :: 0 <= k < |results| ==> results[k].None?
    ensures winner.Some? ==> 0 <= at < |results| && results[at] == winner
    ensures winner.Some? ==> forall k :: at < k < |results| ==> results[k].None?
    ensures winner == LastSuccess(results)
  {
    var pending := results;
    while |pending| > 0
      invariant pending == results[..|pending|]
      invariant forall k :: |pending| <= k < |results| ==> results[k].None?
    {
      var result := pending[|pending| - 1];
      pending := pending[..|pending| - 1];
      if result.Some? {
        LastSuccessIsLast(results, |pending|);
        return result, |pending|;
      }
    }
    return None, -1;
  }

  /** The upstream call results the source's oracle must supply: draws that fit
      the chain's list and one outcome per candidate. */
  predicate OracleFits(chains: seq<Chain>, chainId: string, picks: seq<int>, outcomes: seq<Option<UpstreamResponse>>) {
    match FindChain(chains, chainId)
    case None => true
    case Some(k) =>
      match chains[k].rpc
      case None => true
      case Some(urls) => ValidPicks(picks, |urls|) && |outcomes| == |Candidates(urls)|
  }

  /** The reply is the upstream result at position `at`, and no later position succeeded. */
  ghost predicate WonBy(outcomes: seq<Option<UpstreamResponse>>, reply: Reply) {
    exists at :: 0 <= at < |outcomes| && outcomes[at].Some?
      && reply == Reply(outcomes[at].value.status, Forwarded(outcomes[at].value.data))
      && forall k :: at < k < |outcomes| ==> outcomes[k].None?
  }

  /** The handler. `requestPath` is `req.path`, `picks` the shuffle's draws,
      `outcomes[t]` the result of forwarding to candidate `t`. `attempted` lists
      the URLs the handler sends requests to. */
  method Handle(app: AppData, chainId: string, requestPath: string, picks: seq<int>,
                outcomes: seq<Option<UpstreamResponse>>)
    returns (reply: Reply, attempted: seq<string>)
    requires OracleFits(app.chains, chainId, picks, outcomes)
    modifies app
    ensures app.host == old(app.host) && app.port == old(app.port)
    ensures FindChain(old(app.chains), chainId).None? ==>
              reply == ChainNotFound && attempted == [] && app.chains == old(app.chains)
    ensures match FindChain(old(app.chains), chainId)
      case None => true
      case Some(k) =>
        match old(app.chains)[k].rpc
        case None => reply == NoValidRpcs && attempted == [] && app.chains == old(app.chains)
        case Some(urls) =>
          var shuffled := Shuffled(urls, picks);
          var candidates := Candidates(shuffled);
          var path := ReplaceFirst(requestPath, "/" + chainId, "");
          && app.chains == old(app.chains)[k := old(app.chains)[k].(rpc := Some(shuffled))]
          && multiset(shuffled) == multiset(urls)
          && |attempted| == |candidates| == |outcomes|
          && (forall t :: 0 <= t < |attempted| ==> attempted[t] == candidates[t] + path)
          && (forall t :: 0 <= t < |attempted| ==> IsHttps(attempted[t]))
          && (reply == AllRpcsFailed <==> forall t :: 0 <= t < |outcomes| ==> outcomes[t].None?)
          && (reply != AllRpcsFailed ==> WonBy(outcomes, reply))
  {
    var path := ReplaceFirst(requestPath, "/" + chainId, "");
    var found := FindChain(app.chains, chainId);
    if found.None? {
      return ChainNotFound, [];
    }
    var k := found.value;
    if app.chains[k].rpc.None? {
      return NoValidRpcs, [];
    }
    var urls := app.chains[k].rpc.value;
    // the list object stored in the registry, shuffled in place
    var rpc := new string[|urls|](i requires 0 <= i < |urls| => urls[i]);
    assert rpc[..] == urls;
    ShuffleInPlace(rpc, picks);
    ShuffledPermutes(urls, picks);
    app.chains := app.chains[k := app.chains[k].(rpc := Some(rpc[..]))];
    var candidates := Candidates(rpc[..]);
    CandidatesOfPermutation(rpc[..], urls);
    attempted := seq(|candidates|, t requires 0 <= t < |candidates| => candidates[t] + path);
    AttemptsAreHttps(candidates, path, attempted);
    var winner;
    ghost var at;
    winner, at := Drain(outcomes);
    if winner.Some? {
      reply := Reply(winner.value.status, Forwarded(winner.value.data));
      WinnerWins(outcomes, at);
    } else {
      reply := AllRpcsFailed;
    }
  }

  /** Appending the forwarded path to an https candidate keeps it https. */
  lemma AttemptsAreHttps(candidates: seq<string>, path: string, attempted: seq<string>)
    requires forall k :: 0 <= k < |candidates| ==> IsHttps(candidates[k])
    requires |attempted| == |candidates|
    requires forall t :: 0 <= t < |attempted| ==> attempted[t] == candidates[t] + path
    ensures forall t :: 0 <= t < |attempted| ==> IsHttps(attempted[t])
  {
    forall t | 0 <= t < |attempted| ensures IsHttps(attempted[t]) {
      assert attempted[t][..5] == candidates[t][..5];
    }
  }

  /** The result Drain picks is the one the reply forwards. */
  lemma WinnerWins(outcomes: seq<Option<UpstreamResponse>>, at: int)
    requires 0 <= at < |outcomes| && outcomes[at].Some?
    requires forall k :: at < k < |outcomes| ==> outcomes[k].None?
    ensures WonBy(outcomes, Reply(outcomes[at].value.status, Forwarded(outcomes[at].value.data)))
  {
  }

  /** For a request to `/<chainId><rest>` the forwarding path is `rest`: the
      first occurrence of `/<chainId>` is the route prefix itself. */
  lemma ForwardedPathIsRest(chainId: string, rest: string)
    ensures ReplaceFirst("/" + chainId + rest, "/" + chainId, "") == rest
  {
    var s, pat := "/" + chainId + rest, "/" + chainId;
    assert s[..|pat|] == pat;
    assert OccursAt(s, pat, 0);
    assert s[|pat|..] == rest;
  }

  /** An empty list, or one without an https URL, is truthy in JavaScript: it
      passes the "No valid RPCs found" check, no request is sent, and the reply
      is 500 "All RPCs failed". */
  lemma NoHttpsMeansNoCandidates(urls: seq<string>, picks: seq<int>)
    requires ValidPicks(picks, |urls|)
    requires forall u :: u in urls ==> !IsHttps(u)
    ensures Candidates(Shuffled(urls, picks)) == []
  {
    ShuffledPermutes(urls, picks);
    var s := Shuffled(urls, picks);
    forall u ensures multiset(Candidates(s))[u] == 0 {
      CandidatesCount(s, u);
    }
    assert multiset(Candidates(s)) == multiset{};
  }
}
