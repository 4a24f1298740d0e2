# RPCRelay dispatch and registry editor, modelled in Dafny

RPCRelay is a small HTTP relay. A request to `/<chainId>/<rest>` is forwarded
to the RPC endpoints configured for that blockchain network. The relay answers
with an upstream response, or with one of three error replies. The same program
also has an interactive editor that changes the stored chain registry.

This project models two parts of `src/index.ts`:

- **The request handler** (`Relay.Handle`):
  - look up the chain record by ID;
  - tell "no such chain" apart from "record without an `rpc` list";
  - shuffle the stored `rpc` list in place with Fisher–Yates (`Shuffle.ShuffleInPlace`);
  - keep the URLs that start with `https` (`Relay.Candidates`);
  - strip the route prefix from the request path (`JsBuiltins.ReplaceFirst`);
  - drain the per-candidate results with `pop()` (`Relay.Drain`), so the
    highest-index success wins;
  - otherwise answer the 500 "All RPCs failed" reply.
- **The config editor's registry edits** (`Registry.AppData`): Add Chain, Add
  RPC, Remove RPC, Change Chain ID, Change Name, Remove Chain, Change host and
  Change port. Each edit first reads the chain ID back from the chosen label
  `name (chainId)`. The regular expression `"\([0-9]+\)"` is written as a
  string literal, so it matches `([0-9]+)`: a capture group, not literal
  brackets. The ID taken is therefore the last maximal digit run
  (`Labels.ChainIdOfLabel`).

Inputs that the program gets from the outside world are parameters of the model:

- the draws of `Math.random`, as a sequence `picks` of indices `j` with `0 <= j <= i`;
- the result of each upstream call, with None where axios threw;
- the values typed or chosen at the editor's prompts;
- the data fetched from chainlist.org.

Behaviours of the code that are easy to miss, each stated in the model:

- An empty `rpc` list is truthy in JavaScript. It therefore does not get the
  404 "No valid RPCs found" reply. No request is sent and the reply is 500
  "All RPCs failed" (`Relay.NoHttpsMeansNoCandidates`, `Relay.Handle`).
- The shuffle works on the list stored in the registry, not on a copy, so
  every request permanently reorders it (`Relay.Handle` ensures the new
  registry state).
- The list is shuffled first and filtered afterwards.
- The winner is not the fastest response. It is the non-null result with the
  highest candidate index (`Relay.Drain`).
- Chain IDs are not kept unique. Add Chain appends even when the ID is already
  in use, and the new record is then unreachable by the relay
  (`Registry.FindChainAfterAppend`).

Modules: `Wrappers` (Option), `JsBuiltins` (the JavaScript library functions
used), `Labels`, `Registry`, `Shuffle`, `Relay`.

## Model

| member | source | states |
|---|---|---|
| `JsBuiltins.IndexOfText` | src/index.ts:56 | the search behind `String.replace`: the result is -1 exactly when the pattern occurs nowhere, and otherwise the position of its first occurrence |
| `JsBuiltins.ReplaceFirst` | src/index.ts:56 | only the first occurrence of the pattern is replaced; without an occurrence the string is unchanged |
| `JsBuiltins.IndexOf` | src/index.ts:251 | `Array.indexOf`: -1 exactly when the element is absent, and otherwise an index holding it with no earlier copy |
| `JsBuiltins.SpliceOne` | src/index.ts:262 | `splice(start, 1)`: removes the element at `start`; a negative start counts from the end and is clamped at 0; a start past the end removes nothing |
| `Labels.LastDigitRun` | src/index.ts:114 | the last match of the global `[0-9]+`: a non-empty run of digits, not preceded by a digit, with no digit after it; None exactly when the text holds no digit |
| `Labels.ChainIdOfLabel` | src/index.ts:245 | `[...choice.match(regex)].pop().replace('(', '').replace(')', '')` gives a non-empty digit string; None (the source throws) exactly when the label holds no digit. `Labels.ChainIdIsLastDigitRun` states which digit string it is |
| `Labels.ChainIdIsLastDigitRun` | src/index.ts:245 | the ID read back is exactly the text of the last maximal digit run, the element `.pop()` takes from the matches of the global `([0-9]+)`, and it exists exactly when that run does |
| `Labels.NoBracketInDigits` | src/index.ts:245 | the two `replace` calls leave a digit run unchanged |
| `Labels.LabelRoundTrip` | src/index.ts:156 | for the label `name (chainId)` of a chain whose ID is a non-empty digit string, the ID read back is that ID, whatever the name holds |
| `Shuffle.Swap` | src/index.ts:73 | the destructuring swap exchanges positions `i` and `j` and leaves every other position alone |
| `Shuffle.ShuffleInPlace` | src/index.ts:71-74 | the loop leaves the array equal to `Shuffled` of its old contents under the given draws |
| `Shuffle.ShuffledPermutes` | src/index.ts:69-74 | for any draws with `0 <= j <= i`, the shuffled list has the same length and the same multiset of URLs |
| `Shuffle.ShuffleDownPermutes` | src/index.ts:71-74 | every tail of the loop preserves length and multiset |
| `Shuffle.ShuffleDownKeepsAbove` | src/index.ts:71-74 | later iterations never touch positions above the loop index |
| `Shuffle.ShuffledLast` | src/index.ts:72-73 | the first draw decides the last slot for good: it ends up holding the URL that stood at index `picks[0]` |
| `Shuffle.ShuffleDownOnPrefix` | src/index.ts:71-74 | below the last slot, the loop acts as it would on the shorter list with the first draw dropped |
| `Shuffle.ShuffleReachesEveryOrder` | src/index.ts:71-74 | every permutation of the list is produced by some admissible sequence of draws |
| `Registry.FindChain` | src/index.ts:57 | `find` by `chainId`: None exactly when no record has the ID, and otherwise the first record with it |
| `Registry.FindChainAfterAppend` | src/index.ts:231-241 | after Add Chain, an ID already present still resolves to the old record; the new record answers its ID only when no earlier record holds it |
| `Registry.LookupIgnoresOtherFields` | src/index.ts:69 | replacing a record's `rpc` list (the shuffle, Add/Remove RPC) or its name changes no lookup |
| `Registry.SelectChain` | src/index.ts:245 | the record an Edit Chain action applies to has the ID read back from the label, and it is the FIRST such record, as `find` returns; None when no record has that ID |
| `Registry.SelectChainRoundTrip` | src/index.ts:156 | choosing a chain's own label selects that chain, when its ID is a non-empty digit string not held by an earlier record |
| `Registry.RemoveUrlDeletesFirstOccurrence` | src/index.ts:251 | Remove RPC deletes the first occurrence of the URL, keeps the rest in order and removes exactly one copy from the multiset; for an absent URL it drops the last entry |
| `Registry.RemoveChainByLabel` | src/index.ts:262 | Remove Chain as written: removes the selected record when one matches, and otherwise removes the LAST record; the source throws when the label holds no digit |
| `Registry.RemoveChainAt` | src/index.ts:262 | corrected Remove Chain: removes exactly the chosen record and keeps the others in order |
| `Registry.RemoveChainByLabelRemovesChosen` | src/index.ts:262 | for an all-digit ID not held by an earlier record, Remove Chain as written equals removing the chosen chain |
| `Registry.WrongChainRemoved` | src/index.ts:262 | for the chains `abc` (named "Chain 5") and `7`, choosing "Chain 5 (abc)" removes chain `7` |
| `Registry.IdReadFromNameDigits` | src/index.ts:262 | the label "Chain 5 (abc)" yields the ID "5" |
| `Registry.AppData.constructor` | src/index.ts:45 | the registry starts with the given chains and server settings |
| `Registry.AppData.AddChain` | src/index.ts:226-243 | the new record is appended and nothing else changes |
| `Registry.AppData.AddRpc` | src/index.ts:247-249 | succeeds exactly when the label selects a record that has a list; the URL is then appended to that record's list only; otherwise nothing changes |
| `Registry.AppData.RemoveRpc` | src/index.ts:250-252 | succeeds exactly when the label selects a record that has a list; that list becomes `splice(indexOf(url), 1)` of itself; otherwise nothing changes |
| `Registry.AppData.SetChainId` | src/index.ts:253-255 | succeeds exactly when the label selects a record; only that record's ID changes |
| `Registry.AppData.SetName` | src/index.ts:256-258 | succeeds exactly when the label selects a record; only that record's name changes |
| `Registry.AppData.RemoveChain` | src/index.ts:261-263 | the chain list becomes `RemoveChainByLabel` of the old one; it is unchanged when the source throws |
| `Registry.AppData.SetHost` | src/index.ts:266-268 | only the host changes |
| `Registry.AppData.SetPort` | src/index.ts:269-271 | only the port changes |
| `Relay.Candidates` | src/index.ts:75 | `rpc.filter(theRpc => theRpc.startsWith("https"))`: every candidate starts with `https` and comes from the list, and every https URL of the list is a candidate |
| `Relay.CandidatesOfConcat` | src/index.ts:75 | `filter` keeps relative order: filtering `a + b` gives the filtered `a` followed by the filtered `b` |
| `Relay.CandidatesCount` | src/index.ts:75 | `filter` keeps each URL starting with `https` as many times as it occurs in the list and drops every other URL |
| `Relay.CandidatesOfPermutation` | src/index.ts:69-75 | the shuffle at lines 70-73 does not change which URLs the `filter` at line 75 keeps: a reordered list yields the same candidates, counted with repetition, and the same number of them |
| `Relay.LastSuccess` | src/index.ts:92-99 | the reference for the drain: None exactly when every result is null, otherwise one of the results |
| `Relay.LastSuccessIsLast` | src/index.ts:92-99 | when position `at` holds a result and every later position is null, the reference picks the result at `at` |
| `Relay.Drain` | src/index.ts:92-99 | the `while (results.length) { pop(); if (!result) continue; ... }` loop returns None exactly when every result is null; otherwise it returns the non-null result at the highest index, which is `Relay.LastSuccess` |
| `Relay.Handle` | src/index.ts:54-103 | unknown chain: 404 "Chain not found", nothing sent, nothing changed. Record without `rpc`: 404 "No valid RPCs found", nothing sent. Otherwise the stored list is replaced by its shuffle, a permutation. The URLs attempted are exactly the https entries of the shuffled list, in order, each followed by the stripped path, so no non-https URL is ever sent to. The reply is 500 "All RPCs failed" exactly when every attempt failed; otherwise it is the status and data, unchanged, of the highest-index success |
| `Relay.ForwardedPathIsRest` | src/index.ts:56 | `req.path.replace(`/${chainId}`, '')` applied to a path `/<chainId><rest>` gives `rest`: the first occurrence of `/<chainId>` is the route prefix, so the suffix forwarded to each candidate is the rest of the path |
| `Relay.NoHttpsMeansNoCandidates` | src/index.ts:63-75 | the `?.rpc` check at line 63 passes for any array, even an empty one. When no entry starts with `https`, the shuffled list yields no candidate at line 75, so no request is sent and the reply is the 500, not the 404 |

## Left out

- Express wiring is not modelled: routing, `app.listen`, JSON body parsing and the start-up banner (src/index.ts:50-52, 105-110) are transport. So is the forwarded request's method, body and fixed headers (src/index.ts:77-87): the model records only the URL attempted.
- Concurrency and timing are not modelled: the axios promises, the 1000 ms timeout and the TLS agent (src/index.ts:20-23, 80). Each attempt's outcome is an input, and only its index matters to the pop loop.
- Whether an upstream non-2xx status yields a response or a thrown error depends on axios and is not modelled; each outcome is given.
- `Math.random` is replaced by the `picks` oracle. The oracle must fit the list's length, and the handler takes exactly one outcome per candidate (`Relay.OracleFits`). How evenly the permutations are distributed is not modelled; `Shuffle.ShuffleReachesEveryOrder` shows only that each one can occur.
- yargs command parsing, the config file path, reading and writing the file (src/index.ts:25-46, 275) are I/O. The `_.merge` with `default-config.js` (src/index.ts:45) is not modelled either: default-config.js is not part of this model.
- The inquirer prompts, the redo loop and the chainlist.org fetch (src/index.ts:113-228, 276-278) are interactive UI and network. Their answers become parameters.
- When the editor throws (no digit in the label, no chain found, or a missing `rpc` list), the process ends before the file is written. The model reports `ok == false` with the registry unchanged.
- Registry.AppData.SetChainId: the source assigns `prompt.chainId`, but in the Edit Chain flow no question asks for it (its `when` at src/index.ts:133 requires Add Chain). The value written is therefore `undefined`. The model takes the new ID as a parameter.
- Registry.AppData.SetName: likewise, `prompt.name` is only asked for in Add Chain (src/index.ts:149), so the source writes `undefined`. The model takes the new name as a parameter.
- Registry.AppData.SetPort: the port is held as the text typed at the prompt. A numeric port coming from the defaults is not distinguished.
- Chain IDs are compared with loose `==`. The model holds every ID as a string, so a number stored in the file and compared with the request's string ID is not modelled.
- Relay.Handle: `req.params.chainId` is percent-decoded while `req.path` is not. The model takes both as given, so a path with encoded characters is not related to its ID.
- An `rpc` field holding a truthy value that is not a list is not modelled. The field is either absent/falsy (None) or a list of strings.
- Relay.Handle: records are held by value in `AppData.chains`. The handler copies the stored list into an array, shuffles that array in place and stores it back. This reaches the same registry state as swapping in the shared JavaScript array, because no other record refers to that list. Aliasing between records is not modelled.
- Upstream payloads are opaque strings. The relay's own `{message}` objects are a separate constructor, so an upstream body that happens to look like one is not confused with it.

## Findings

| source | as written | input that shows it | evidently intended | confidence | as-written member | corrected member |
|---|---|---|---|---|---|---|
| src/index.ts:262 | Remove Chain reads the ID back from the label as its last digit run and removes `indexOf(find(...))`. If no chain has the ID read, that index is -1 and `splice(-1, 1)` removes the last chain | chains `abc` (named "Chain 5") and `7`; choose "Chain 5 (abc)": the ID read is "5", no chain matches, and chain `7` is removed | remove the chain that was chosen | not executed | `Registry.WrongChainRemoved` | `Registry.RemoveChainAt` |
