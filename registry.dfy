/** The chain registry (`appData.chains` plus the server bind settings) and the
    edits the interactive config editor makes to it. */
module Registry {
  import opened Wrappers
  import opened JsBuiltins
  import opened Labels

  /** One entry of `appData.chains`. `rpc` is None when the field is absent or
      holds a falsy value; an empty list is `Some([])`, which JavaScript treats
      as truthy. */
  datatype Chain = Chain(chainId: string, name: string, rpc: Option<seq<string>>)

  /** The editor's list label for a chain. */
  function ChainLabel(c: Chain): string {
    Label(c.name, c.chainId)
  }

  /** `chains.find(c => c.chainId == chainId)`, as the index of the record found. */
  function FindChain(chains: seq<Chain>, chainId: string): (r: Option<nat>)
    ensures r.None? <==> forall k :: 0 <= k < |chains| ==> chains[k].chainId != chainId
    ensures r.Some? ==> r.value < |chains| && chains[r.value].chainId == chainId
    ensures r.Some? ==> forall k :: 0 <= k < r.value ==> chains[k].chainId != chainId
  {
    if chains == [] then None
    else if chains[0].chainId == chainId then Some(0)
    else
      match FindChain(chains[1..], chainId)
      case None => None
      case Some(k) => Some(k + 1)
  }

  /** Appending a chain never changes which record an already present ID
      resolves to: a second chain with an ID already in use is unreachable. The
      new chain answers its ID only when no earlier record holds it. */
  lemma {:induction false} FindChainAfterAppend(chains: seq<Chain>, c: Chain, chainId: string)
    ensures FindChain(chains + [c], chainId) ==
      if FindChain(chains, chainId).Some? then FindChain(chains, chainId)
      else if c.chainId == chainId then Some(|chains|)
      else None
  {
    if chains == [] {
      assert [c][1..] == [];
    } else {
      assert (chains + [c])[1..] == chains[1..] + [c];
      FindChainAfterAppend(chains[1..], c, chainId);
    }
  }

  /** Replacing a record by one with the same ID (a new RPC list or a new name)
      leaves every lookup unchanged. */
  lemma {:induction false} LookupIgnoresOtherFields(chains: seq<Chain>, k: nat, c: Chain, chainId: string)
    requires k < |chains| && c.chainId == chains[k].chainId
    ensures FindChain(chains[k := c], chainId) == FindChain(chains, chainId)
  {
    if k > 0 {
      assert chains[k := c][1..] == chains[1..][k - 1 := c];
      LookupIgnoresOtherFields(chains[1..], k - 1, c, chainId);
    }
  }

  /** The chain an Edit Chain action applies to: the ID is read back from the
      chosen label and looked up. None where the source throws (no digits in
      the label, or no chain with the extracted ID). */
  function SelectChain(chains: seq<Chain>, choice: string): (r: Option<nat>)
    ensures r.Some? ==> r.value < |chains| && ChainIdOfLabel(choice) == Some(chains[r.value].chainId)
    ensures r.Some? ==> forall k :: 0 <= k < r.value ==> chains[k].chainId != chains[r.value].chainId
    ensures ChainIdOfLabel(choice).Some? && r.None? ==>
              forall k :: 0 <= k < |chains| ==> chains[k].chainId != ChainIdOfLabel(choice).value
  {
    match ChainIdOfLabel(choice)
    case None => None
    case Some(chainId) => FindChain(chains, chainId)
  }

  /** Choosing a chain's own label selects that chain whenever its ID is a
      non-empty digit string and no earlier record holds the same ID. */
  lemma SelectChainRoundTrip(chains: seq<Chain>, k: nat)
    requires k < |chains| && chains[k].chainId != [] && AllDigits(chains[k].chainId)
    requires forall i :: 0 <= i < k ==> chains[i].chainId != chains[k].chainId
    ensures SelectChain(chains, ChainLabel(chains[k])) == Some(k)
  {
    var id := chains[k].chainId;
    LabelRoundTrip(chains[k].name, id);
    assert ChainIdOfLabel(ChainLabel(chains[k])) == Some(id);
    var r := FindChain(chains, id);
    assert r.Some? by { assert chains[k].chainId == id; }
    assert r.value == k;
  }

  /** Remove RPC: `rpc.splice(rpc.indexOf(url), 1)` deletes the first
      occurrence of `url` and keeps the others in order; for a URL not in the
      list `indexOf` yields -1 and the LAST entry goes. */
  lemma RemoveUrlDeletesFirstOccurrence(rpc: seq<string>, url: string)
    ensures url in rpc ==> var i := IndexOf(rpc, url);
      && 0 <= i && rpc[i] == url && url !in rpc[..i]
      && SpliceOne(rpc, i) == rpc[..i] + rpc[i + 1..]
      && multiset(SpliceOne(rpc, i)) == multiset(rpc) - multiset{url}
    ensures url !in rpc && rpc != [] ==> SpliceOne(rpc, IndexOf(rpc, url)) == rpc[..|rpc| - 1]
  {
    var i := IndexOf(rpc, url);
    if url in rpc {
      var before, after := rpc[..i], rpc[i + 1..];
      assert SpliceOne(rpc, i) == before + after;
      assert rpc == before + [url] + after;
      calc {
        multiset(rpc);
        multiset(before) + multiset{url} + multiset(after);
        multiset(before + after) + multiset{url};
      }
    }
  }

  /** Remove Chain as written:
      `chains.splice(chains.indexOf(chains.find(c => c.chainId == id)), 1)` with
      the ID read back from the chosen label. When no chain has that ID,
      `indexOf(undefined)` is -1 and the last chain is removed. None where the
      label holds no digit and the source throws. */
  function RemoveChainByLabel(chains: seq<Chain>, choice: string): (r: Option<seq<Chain>>)
    ensures r.None? <==> ChainIdOfLabel(choice).None?
    ensures r.Some? && SelectChain(chains, choice).Some? ==>
              var k := SelectChain(chains, choice).value; r.value == chains[..k] + chains[k + 1..]
    ensures r.Some? && SelectChain(chains, choice).None? ==>
              r.value == if chains == [] then [] else chains[..|chains| - 1]
  {
    if ChainIdOfLabel(choice).None? then None
    else
      // `indexOf` of the record `find` returned is the index `find` stopped at
      var at := match SelectChain(chains, choice) { case Some(k) => k case None => -1 };
      Some(SpliceOne(chains, at))
  }

  /** Removing the chosen chain itself: the intended effect of Remove Chain. */
  function RemoveChainAt(chains: seq<Chain>, k: nat): (r: seq<Chain>)
    requires k < |chains|
    ensures |r| == |chains| - 1
    ensures forall i :: 0 <= i < k ==> r[i] == chains[i]
    ensures forall i :: k <= i < |r| ==> r[i] == chains[i + 1]
    ensures multiset(r) + multiset{chains[k]} == multiset(chains)
  {
    assert chains == chains[..k] + [chains[k]] + chains[k + 1..];
    chains[..k] + chains[k + 1..]
  }

  /** For a chain whose ID is a digit string and not shared with an earlier
      record, Remove Chain as written removes exactly the chosen chain. */
  lemma RemoveChainByLabelRemovesChosen(chains: seq<Chain>, k: nat)
    requires k < |chains| && chains[k].chainId != [] && AllDigits(chains[k].chainId)
    requires forall i :: 0 <= i < k ==> chains[i].chainId != chains[k].chainId
    ensures RemoveChainByLabel(chains, ChainLabel(chains[k])) == Some(RemoveChainAt(chains, k))
  {
    SelectChainRoundTrip(chains, k);
  }

  /** A chain whose ID is not a digit string but whose name holds a number:
      choosing it in Remove Chain removes a different chain. */
  lemma WrongChainRemoved()
    ensures var chains := [Chain("abc", "Chain 5", Some([])), Chain("7", "X", Some([]))];
      && RemoveChainByLabel(chains, ChainLabel(chains[0])) == Some([chains[0]])
      && RemoveChainAt(chains, 0) == [chains[1]]
  {
    var chains := [Chain("abc", "Chain 5", Some([])), Chain("7", "X", Some([]))];
    var choice := ChainLabel(chains[0]);
    assert choice == "Chain 5 (abc)";
    IdReadFromNameDigits();
    assert chains[0].chainId != "5" && chains[1].chainId != "5";
    assert SelectChain(chains, choice).None?;
    assert chains[..|chains| - 1] == [chains[0]];
  }

  /** The label `Chain 5 (abc)` yields the ID "5". */
  lemma IdReadFromNameDigits()
    ensures ChainIdOfLabel("Chain 5 (abc)") == Some("5")
  {
    var choice := "Chain 5 (abc)";
    assert |choice| == 13 && IsDigit(choice[6]);
    assert forall i :: 0 <= i < 13 && i != 6 ==> !IsDigit(choice[i]);
    var (b, e) := LastDigitRun(choice).value;
    assert IsDigit(choice[b]) && IsDigit(choice[e - 1]);
    assert b == 6 && e == 7;
    assert choice[b..e] == "5";
    NoBracketInDigits("5");
  }

  /** The persisted configuration the relay reads and the editor rewrites. */
  class AppData {
    var chains: seq<Chain>
    var host: string
    /** The editor stores the port as the text typed at its prompt. */
    var port: string

    constructor (chains: seq<Chain>, host: string, port: string)
      ensures this.chains == chains && this.host == host && this.port == port
    {
      this.chains := chains;
      this.host := host;
      this.port := port;
    }

    /** Add Chain: `chains.push({chainId, name, rpc})`; the manual branch passes
        `Some([])`, the chainlist.org branch whatever list that service returned. */
    method AddChain(chainId: string, name: string, rpc: Option<seq<string>>)
      modifies this
      ensures chains == old(chains) + [Chain(chainId, name, rpc)]
      ensures host == old(host) && port == old(port)
    {
      chains := chains + [Chain(chainId, name, rpc)];
    }

    /** Edit Chain / Add RPC: `chain.rpc.push(url)`. `ok` is false where the
        source throws (chain not found, or its `rpc` missing); then nothing changes. */
    method AddRpc(choice: string, url: string) returns (ok: bool)
      modifies this
      ensures var k := SelectChain(old(chains), choice);
        ok == (k.Some? && old(chains)[k.value].rpc.Some?)
      ensures ok ==> var k := SelectChain(old(chains), choice).value;
        chains == old(chains)[k := old(chains)[k].(rpc := Some(old(chains)[k].rpc.value + [url]))]
      ensures !ok ==> chains == old(chains)
      ensures host == old(host) && port == old(port)
    {
      var k := SelectChain(chains, choice);
      ok := k.Some? && chains[k.value].rpc.Some?;
      if ok {
        var c := chains[k.value];
        chains := chains[k.value := c.(rpc := Some(c.rpc.value + [url]))];
      }
    }

    /** Edit Chain / Remove RPC: `chain.rpc.splice(chain.rpc.indexOf(url), 1)`
        (see RemoveUrlDeletesFirstOccurrence). `ok` is false where the source throws. */
    method RemoveRpc(choice: string, url: string) returns (ok: bool)
      modifies this
      ensures var k := SelectChain(old(chains), choice);
        ok == (k.Some? && old(chains)[k.value].rpc.Some?)
      ensures ok ==> var k := SelectChain(old(chains), choice).value;
        var rpc := old(chains)[k].rpc.value;
        chains == old(chains)[k := old(chains)[k].(rpc := Some(SpliceOne(rpc, IndexOf(rpc, url))))]
      ensures !ok ==> chains == old(chains)
      ensures host == old(host) && port == old(port)
    {
      var k := SelectChain(chains, choice);
      ok := k.Some? && chains[k.value].rpc.Some?;
      if ok {
        var c := chains[k.value];
        var rpc := c.rpc.value;
        chains := chains[k.value := c.(rpc := Some(SpliceOne(rpc, IndexOf(rpc, url))))];
      }
    }

    /** Edit Chain / Change Chain ID: `chain.chainId = newId`. */
    method SetChainId(choice: string, newId: string) returns (ok: bool)
      modifies this
      ensures ok == SelectChain(old(chains), choice).Some?
      ensures ok ==> var k := SelectChain(old(chains), choice).value;
        chains == old(chains)[k := old(chains)[k].(chainId := newId)]
      ensures !ok ==> chains == old(chains)
      ensures host == old(host) && port == old(port)
    {
      var k := SelectChain(chains, choice);
      ok := k.Some?;
      if ok {
        chains := chains[k.value := chains[k.value].(chainId := newId)];
      }
    }

    /** Edit Chain / Change Name: `chain.name = newName`. */
    method SetName(choice: string, newName: string) returns (ok: bool)
      modifies this
      ensures ok == SelectChain(old(chains), choice).Some?
      ensures ok ==> var k := SelectChain(old(chains), choice).value;
        chains == old(chains)[k := old(chains)[k].(name := newName)]
      ensures !ok ==> chains == old(chains)
      ensures host == old(host) && port == old(port)
    {
      var k := SelectChain(chains, choice);
      ok := k.Some?;
      if ok {
        chains := chains[k.value := chains[k.value].(name := newName)];
      }
    }

    /** Remove Chain, as written (see RemoveChainByLabel). `ok` is false where
        the source throws. */
    method RemoveChain(choice: string) returns (ok: bool)
      modifies this
      ensures match RemoveChainByLabel(old(chains), choice)
        case None => !ok && chains == old(chains)
        case Some(rest) => ok && chains == rest
      ensures host == old(host) && port == old(port)
    {
      match RemoveChainByLabel(chains, choice)
      case None =>
        ok := false;
      case Some(rest) =>
        ok := true;
        chains := rest;
    }

    /** Modify Server / Change host. */
    method SetHost(newHost: string)
      modifies this
      ensures host == newHost && chains == old(chains) && port == old(port)
    {
      host := newHost;
    }

    /** Modify Server / Change port. */
    method SetPort(newPort: string)
      modifies this
      ensures port == newPort && chains == old(chains) && host == old(host)
    {
      port := newPort;
    }
  }
}
