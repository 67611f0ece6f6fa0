# A verified model of the chain simulator's own logic

The chain simulator wraps a blockchain node and a proxy that live in other repositories. What it
adds itself is modelled here in Dafny and proved correct for all inputs, all answers of the chain
and all interleavings:

* **Validator keys.** The add-keys endpoint reads base64 of hex (`Base64`, `Base64Scanner`,
  `Base16`, `KeyCodec`); the wallet file is printed the other way round (`Pem`, `ProxyConfigs`).
  Base64 and base16 follow sections 4 and 8 of RFC 4648, the file follows section 2 of RFC 7468,
  and the decoders follow Go's standard library where it is laxer: CR and LF are skipped anywhere,
  unused bits before the padding are not checked, hex digits may have either case.
* **The facade's loops over a chain that may answer anything.** `ChainModel` holds the chain as a
  value and an `Environment` of arbitrary functions for the calls on it. `EpochLoop`,
  `TransactionLoop` and `StateOverwrite` say what the loops compute; the classes in
  `SimulatorFacade` and `Endpoints` are the methods in the form of the source, proved against them.
* **Everything at once.** `GeneratorModel` is the automatic generator's goroutine as a step machine,
  `ConcurrentSystem` lets it interleave with any number of requests and with all other traffic on a
  chain that nothing locks, `OutdatedReports` and `ConcurrentOverwrites` say what that does to
  transaction and overwriting requests, and `BlocksGenerator` is the class of the source.
* **Configuration.** `Overrides` selects and merges the override files; `ObserverPorts` and `Decimal`
  read ports and numbers; `Text` has the string functions they use.

What the documentation promises about the chain is not proved, since the chain is elsewhere. It is
stated as contract predicates in `ChainModel` (`ForceRaises`, `CountsBlocks`, `TruthfulPolls`,
`NeverRegresses`, `KeepsAccounts`), each theorem names the contracts it uses. Four more predicates
(`NeverFails`, `NeverRefuses`, `PollsOnlyLook`, `LeavesToOthers`) single out well-behaved chains for the
corollaries and witnesses. `ContractsAreSatisfiable` shows that one environment meets them all. The status requests of the
proxy are folded into the chain handle. Errors of the chain are texts passed on unchanged.

Where the code does not do what one might expect, the code is kept and the exact condition is proved:

* `RequestedEpochReachedIff`: a successful epoch request leaves the chain at or past the requested
  number exactly when that is below 2^32, because the number is narrowed; 2^32 itself becomes zero.
* `StaleExactly`, `StaleIffBudgetSettles`, `AnswerByBudget`: after its last block the transaction loop does
  not look again. On a chain whose calls succeed and whose polls tell the truth, the answer is wrong
  for exactly one budget, the number of the block that settles the transaction. With other traffic
  (`PendingCanBeOutdatedIff`) it can be wrong exactly if the chain can be kept from answering for as many
  rounds as the request has budget. `OutdatedOfOneIff` and `OutdatedByOthersIff` say what that comes to
  on well-behaved chains: exactly that the transaction was not settled when the request came in.
* `SetOverwritesIff`: an overwriting request removes and sets in separate calls. Its set leaves exactly the
  listed states exactly if they cover what the listed accounts hold by then; `UndisturbedOverwrites` shows
  that they hold nothing if nobody brings a removed account back, `OverlappingOverwritesMerge` that two
  overlapping requests can be laid over each other.
* `DefaultIsSelectedIff`: the documentation says the default override file is added automatically; it is
  not when some listed file merely contains its name.
* `BlockTimeIsExactIff`, `PeriodIsPositiveIff`, `GeneratesIff`: the constructor accepts block times whose period
  in nanoseconds wraps; for exactly those that wrap to zero or below the goroutine panics and
  never generates.
* `NeedNotEnd`, `EndsIff`: forcing epochs need not end on a chain whose epoch does not rise; it ends exactly if
  some round sees the target reached or fails.
* `CallCanStartAfterClose`, `CallCanStartIff`: `Close` only signals. A block call can start after it exactly if the goroutine has not
  exited; with no further tick, exactly if moreover a tick was waiting. `CallsAfter` and
  `CloseEndsInEveryRun` bound what can still happen.

`dafny verify dfyconfig.toml` checks the whole project.

## Model

| member | source | states |
|---|---|---|
| Bytes.StripConcat | pkg/facade/simulatorFacade.go:106 | skipping newlines works piece by piece, wherever the text is cut |
| Bytes.CrAndLfAreSkipped | pkg/facade/simulatorFacade.go:106 | octets 13 and 10 are skipped wherever they stand |
| Bytes.OthersAreKept | pkg/facade/simulatorFacade.go:106 | every other octet is kept |
| Base16.DecodesExactlyWellFormed | pkg/facade/simulatorFacade.go:111-114 | hex text is accepted iff it has even length and only hex digits of either case, and gives half as many bytes |
| Base16.EncodeAfterDecode | pkg/facade/simulatorFacade.go:111 | printing the bytes read gives the text in lower case |
| Base16.DecodeAfterEncode | pkg/facade/simulatorFacade.go:111 | the hex text of a key, in any mixture of cases, reads back as the key |
| Base16.SameKeyIffSameLower | pkg/facade/simulatorFacade.go:111 | two accepted hex texts are the same key iff they differ only in case |
| Base16.DigitsAreTable | pkg/facade/simulatorFacade.go:111 | the digits printed are those of table 5 of RFC 4648 in lower case; both cases are read with the same value |
| Base16.OnlyTableDigits | pkg/facade/simulatorFacade.go:111 | no other octet is read as a digit |
| Base16.InvalidByteExactly | pkg/facade/simulatorFacade.go:111-114 | an octet is reported as invalid iff it is the first that is no digit |
| Base16.OddLengthExactly | pkg/facade/simulatorFacade.go:111-114 | the length is reported as odd iff it is and all octets are digits |
| Base64.AlphabetIsTable | pkg/facade/simulatorFacade.go:106 | the symbols are those of table 1 of RFC 4648 |
| Base64.SplitKeepsNumber | pkg/facade/simulatorFacade.go:106 | four six-bit groups and three bytes are the same 24-bit number |
| Base64.DecodesExactlyWellFormed | pkg/facade/simulatorFacade.go:106-109 | base64 text is accepted iff it has the right length, alphabet and padding at every position |
| Base64.DecodeAfterEncode | pkg/facade/simulatorFacade.go:106 | every byte sequence survives encoding and decoding |
| Base64.DecodeIgnoresNewlines | pkg/facade/simulatorFacade.go:106 | newlines put anywhere into an encoding do not change what is read |
| Base64.EncodeAfterDecode | pkg/facade/simulatorFacade.go:106 | re-encoding what was read gives the text with its unused bits cleared |
| Base64.CanonicalIffZeroPadBits | pkg/facade/simulatorFacade.go:106 | the text comes back symbol for symbol iff its unused bits are zero |
| Base64.SameBytesIffSameCleared | pkg/facade/simulatorFacade.go:106 | two accepted texts carry the same bytes iff they differ only in unused bits |
| Base64.NotInjective | pkg/facade/simulatorFacade.go:106 | two different accepted texts that read the same |
| Base64Scanner.DecodeString | pkg/facade/simulatorFacade.go:106 | one pass over the raw text, skipping newlines on the way, agrees with stripping them first, on every input |
| KeyCodec.KeysPointwise | pkg/facade/simulatorFacade.go:104-117 | a list of keys comes out iff each entry decodes to the key at its own position |
| KeyCodec.FirstBadEntry | pkg/facade/simulatorFacade.go:107-114 | the error names an entry iff it is the first that does not decode, with that entry's own error |
| KeyCodec.KeyErrorsExactly | pkg/facade/simulatorFacade.go:106-114 | an entry fails as base64 iff its text is ill-formed base64, and as hex, with which error, iff that is how the hex text it encodes fails |
| KeyCodec.CrAndLfMakeNoDifference | pkg/facade/simulatorFacade.go:106 | octets 13 and 10 anywhere in an entry change neither key nor error |
| KeyCodec.AcceptsExactlyWellFormed | pkg/facade/simulatorFacade.go:105-119 | a list is accepted iff every entry, newlines and unused bits aside, is the base64 encoding of well-formed hex text |
| KeyCodec.KeyRoundTrip | pkg/facade/simulatorFacade.go:106-111 | hex in either case, then base64 with newlines anywhere, reads back as the key |
| KeyCodec.KeysRoundTrip | pkg/facade/simulatorFacade.go:103-120 | the same for whole lists: same keys, same order, same length |
| KeyCodec.KeysNormalForm | pkg/facade/simulatorFacade.go:103-120 | reading, printing canonically and reading again changes nothing |
| KeyCodec.CanonicalIff | pkg/facade/simulatorFacade.go:105-117 | an accepted entry, newlines aside, is the canonical one iff its unused bits are zero and its hex is lower case |
| KeyCodec.SameKeyIff | pkg/facade/simulatorFacade.go:105-117 | two accepted entries are the same key iff their hex texts differ only in case |
| Pem.WrapOnlyAddsNewlines | pkg/proxy/configs/configs.go:89 | cutting the body into lines changes nothing a reader that skips newlines can see |
| Pem.WrapColumns | pkg/proxy/configs/configs.go:89 | octet 10 stands exactly at every 65th place and at the end, so that lines have 64 columns |
| Pem.BlockText | pkg/proxy/configs/configs.go:84-89 | the markers, the label with the address, and the body between them, as they stand in the file |
| Pem.BodyDecodesLikeHex | pkg/proxy/configs/configs.go:84-89 | a block body fed to the add-keys decoding gives what its private-key text gives, for any text, errors included |
| Pem.ReadAfterPrint | pkg/proxy/configs/configs.go:83-93 | an independent reader gives the blocks of the file back iff no wallet address holds a line feed |
| Pem.FileRoundTrip | pkg/proxy/configs/configs.go:83-93 | the keys printed into the file are the keys read from it, in order |
| ProxyConfigs.GeneratePemFromInitialAddress | pkg/proxy/configs/configs.go:77-96 | the file grows by one block per wallet in some order of the map; on a write error by whole blocks and a cut one |
| ProxyConfigs.OrderDoesNotMatter | pkg/proxy/configs/configs.go:83-93 | for every two map orders the files read back as the same bag of keys |
| ProxyConfigs.BuildObservers | pkg/proxy/configs/configs.go:55-62 | every shard has an observer and there are no more, each synced and at "http://" and the interface of its own shard, in some order of the map |
| ProxyConfigs.ObserversInAnyOrder | pkg/proxy/configs/configs.go:56-62 | the observers are the same bag in every order |
| ProxyConfigs.AddressParts | pkg/proxy/configs/configs.go:59 | the observer address splits at its colons like the interface, after one more part |
| ProxyConfigs.AddressKeepsPort | pkg/proxy/configs/configs.go:59 | a port is the one the observers endpoint reports for the shard iff it is what the third of three parts of the observer address reads as |
| Orders.PickPermuted | pkg/proxy/configs/configs.go:83 | what a loop over a map collects is the same bag in every order |
| ChainModel.ContractsAreSatisfiable | pkg/facade/interface.go:10-29 | one environment meets every contract |
| ChainModel.PassedIff | pkg/facade/simulatorFacade.go:84 | a removal error is skipped iff its message holds "account was not found" at some position |
| EpochLoop.SucceedsExactly | pkg/facade/simulatorFacade.go:143-152 | success after k changes iff round k is the first that sees the target reached |
| EpochLoop.FailsExactly | pkg/facade/simulatorFacade.go:143-147 | the error of call k+1 is returned iff that is the first failing call, and exactly k+1 calls were made |
| EpochLoop.StillGoing | pkg/facade/simulatorFacade.go:143-150 | the loop passes n rounds iff all of them succeed below the target |
| EpochLoop.NeedNotEnd | pkg/facade/simulatorFacade.go:143-150 | a chain whose epoch does not rise keeps the loop going for ever |
| EpochLoop.EndsIff | pkg/facade/simulatorFacade.go:143-150 | on any chain the call ends iff some round sees the target reached or fails |
| EpochLoop.SuccessReachesTarget | pkg/facade/simulatorFacade.go:138-152 | on any chain, a call that ends without error started below its target and left the chain at or past it |
| EpochLoop.Terminates | pkg/facade/simulatorFacade.go:143-152 | when every success raises the epoch, at most target minus start changes are made, and success means the target is reached |
| EpochLoop.RaisingEnds | pkg/facade/simulatorFacade.go:133-153 | such a chain always ends the call, within the distance to the target |
| EpochLoop.UnitSteps | pkg/facade/simulatorFacade.go:143-152 | when every success is one epoch, success ends exactly at the target after exactly the distance |
| EpochLoop.ForcesOnlyBelowTarget | pkg/facade/simulatorFacade.go:138-144 | no change is forced at or past the target, and the too-low error is returned iff the chain started there |
| EpochLoop.FuelDoesNotMatter | pkg/facade/simulatorFacade.go:143-150 | the cut-off of the specification never changes a finished run |
| TransactionLoop.SucceedsExactly | pkg/facade/simulatorFacade.go:182-190 | nil after exactly k blocks iff k is below the budget and round k is the first to see a final status, all earlier rounds having passed |
| TransactionLoop.PendingExactly | pkg/facade/simulatorFacade.go:182-198 | the pending error iff the whole budget went into rounds that saw it pending, with exactly that many blocks |
| TransactionLoop.FailsExactly | pkg/facade/simulatorFacade.go:183-195 | a chain error after k blocks iff round k is the first that fails, in its poll or in its block |
| TransactionLoop.BudgetSplits | pkg/facade/simulatorFacade.go:180-199 | a budget of n+m is a budget of n and, only if still pending, one of m: same chain, same blocks, same result |
| TransactionLoop.LargerBudget | pkg/facade/simulatorFacade.go:182-190 | a larger budget changes nothing about a success |
| TransactionLoop.HeightGrows | pkg/facade/simulatorFacade.go:192 | without a failed generation the height grows by exactly the blocks counted |
| TransactionLoop.SuccessMeansSettled | pkg/facade/simulatorFacade.go:188-190 | nil means the transaction is no longer pending |
| TransactionLoop.StaleExactly | pkg/facade/simulatorFacade.go:182-198 | on any chain, the pending report is stale iff every round of the budget saw the transaction pending and the chain they led to has it settled |
| TransactionLoop.StaleIffBudgetSettles | pkg/facade/simulatorFacade.go:182-198 | with truthful polls and calls that succeed, iff the budget ends with the very block that settles it |
| TransactionLoop.AnswerByBudget | pkg/facade/simulatorFacade.go:180-199 | if block k settles it: a larger budget gives nil after k blocks, any other the pending report, wrong for k only |
| TransactionLoop.PendingMayBeStale | pkg/facade/simulatorFacade.go:182-198 | for every unsettled transaction and every positive budget there is a chain that makes the report stale |
| StateOverwrite.RemovalPassesExactly | pkg/facade/simulatorFacade.go:81-88 | the removal phase passes iff no call answers an error other than not-found, and then every removal was called, in order |
| StateOverwrite.RemovalFailsExactly | pkg/facade/simulatorFacade.go:80-100 | the whole call fails with exactly the removals up to element k made, no set and no block, iff k answers the first error whose message does not hold "account was not found" |
| StateOverwrite.SettingFailsExactly | pkg/facade/simulatorFacade.go:90-93 | it fails with all removals and the set made, and no block, iff all removals passed and the set failed so |
| StateOverwrite.OverwriteSucceedsExactly | pkg/facade/simulatorFacade.go:80-100 | it succeeds iff all removals pass, the set succeeds and, unless switched off, the block; these are then the calls made |
| StateOverwrite.OverwriteAccounts | pkg/facade/simulatorFacade.go:80-97 | the accounts are the listed states applied to what is left after erasing all listed addresses, duplicates included |
| StateOverwrite.OverwriteForgetsThePast | pkg/facade/simulatorFacade.go:79-100 | the result does not depend on what the listed accounts held |
| StateOverwrite.OverwriteIsSetOnErased | pkg/facade/simulatorFacade.go:79-100 | overwriting is plain setting on the chain with the listed accounts erased |
| StateOverwrite.OverwriteKeepsOthers | pkg/facade/simulatorFacade.go:81-93 | accounts that are not listed keep their value |
| StateOverwrite.OverwriteIsIdempotent | pkg/facade/simulatorFacade.go:80-97 | a second identical call leaves the accounts of the first |
| StateOverwrite.GenerateComesLast | pkg/facade/simulatorFacade.go:95-99 | the generating call is the noGenerate call followed, if it succeeded, by one block |
| StateOverwrite.SetRemembersThePast | pkg/facade/simulatorFacade.go:65-77 | plain setting keeps an old key the request does not give |
| SimulatorFacade.Facade.GenerateBlocks | pkg/facade/simulatorFacade.go:48-53 | a count that is not positive is refused without a call; otherwise the chain's own answer |
| SimulatorFacade.Facade.SetStateMultiple | pkg/facade/simulatorFacade.go:66-77 | the error, the chain and the recorded calls are those of the specified run |
| SimulatorFacade.Facade.SetStateMultipleOverwrite | pkg/facade/simulatorFacade.go:80-100 | the error, the chain and the recorded calls are those of the specified run |
| SimulatorFacade.Facade.AddValidatorKeys | pkg/facade/simulatorFacade.go:103-120 | the simulator is called, once and with all keys, iff every entry decodes; else not at all, with the first bad entry's error |
| SimulatorFacade.Facade.ForceChangeOfEpoch | pkg/facade/simulatorFacade.go:133-153 | whenever it ends: the specified error, chain and number of forced changes |
| SimulatorFacade.Facade.GenerateBlocksUntilTransactionIsProcessed | pkg/facade/simulatorFacade.go:180-199 | the error and the chain are those of the specified run; the block calls are those counted, and one more iff it is a block that failed |
| SimulatorFacade.Facade.GetObserversInfo | pkg/facade/simulatorFacade.go:156-177 | in every map order: success iff every interface has a port, with the same shards and exactly those ports; else an error that names a bad shard and what is wrong with it |
| SimulatorFacade.PrintedPortsAreReported | pkg/facade/simulatorFacade.go:156-177 | interfaces printed as host, colon and port, with colon-free hosts, are answered with exactly those ports |
| ObserverPorts.PortRoundTrip | pkg/facade/simulatorFacade.go:161-169 | "host:port" gives the port iff the host holds no colon |
| ObserverPorts.PortFailsExactly | pkg/facade/simulatorFacade.go:162-169 | each error is returned iff there is not one single colon, or what follows it is no 64-bit number |
| ObserverPorts.SlicingAgrees | cmd/chainsimulator/main.go:238-244 | for every interface of localhost, dropping ten characters does not panic and reads the same port, or fails, as splitting at the colon |
| ObserverPorts.SlicingPanicsIff | cmd/chainsimulator/main.go:240 | slicing panics iff the text has less than ten characters |
| Decimal.AtoiAfterItoa | pkg/proxy/api/endpoints.go:124 | the decimal text of an integer parses to it iff it fits in 64 bits |
| Decimal.AtoiExactly | pkg/proxy/api/endpoints.go:124 | a text parses to a number iff it is an optional sign, any zeros and the digits of the number, which fits in 64 bits |
| Decimal.DecimalPlaces | pkg/proxy/api/endpoints.go:124 | the digits are the usual ten, and one more decimal place is one more of them |
| Endpoints.EndpointsProcessor.ForceEpochChange | pkg/proxy/api/endpoints.go:103-131 | a text that is no number is refused without touching the chain; otherwise the facade runs on the narrowed number |
| Endpoints.EndpointsProcessor.GenerateBlocks | pkg/proxy/api/endpoints.go:133-153 | no number, not positive, or exactly that many blocks asked of the chain |
| Endpoints.EndpointsProcessor.GenerateBlocksUntilTransactionProcessed | pkg/proxy/api/endpoints.go:177-188 | the loop runs with the given budget, or twenty when none or no number is given |
| Endpoints.NarrowingKeepsIff | pkg/proxy/api/endpoints.go:110-130 | the facade is asked for the requested number iff it is an unsigned 32-bit number |
| Integers.NarrowingTakesWholeTurns | pkg/proxy/api/endpoints.go:110 | narrowing takes away whole turns of 2^32 |
| Endpoints.RequestRunsNarrowed | pkg/proxy/api/endpoints.go:103-131 | the request for a number runs the facade on the one unsigned 32-bit number that differs from it by whole turns of 2^32 |
| Endpoints.BadRequestIff | pkg/proxy/api/endpoints.go:104-127 | the request is refused, and the chain untouched, iff the text is neither empty nor a number |
| Endpoints.RequestedEpochReachedIff | pkg/proxy/api/endpoints.go:103-131 | on any chain, a successful request leaves it at or past the number in the request iff that is below 2^32 |
| Endpoints.NarrowedToZero | pkg/proxy/api/endpoints.go:110 | asking for epoch 2^32 forces one change and succeeds |
| Endpoints.ArgumentsOfRequest | pkg/proxy/api/endpoints.go:118-131 | any text that is a number is that number, as target and as budget; left out it is zero for the target, and no number is twenty for the budget |
| Endpoints.BudgetHolds | pkg/proxy/api/endpoints.go:177-188 | no more blocks than the budget, and fewer on success |
| GeneratorModel.ConservedAlways | pkg/process/blocksGenerator.go:47-63 | in every reachable state: ticks fired = calls started + waiting (0 or 1) + dropped, at most one call under way, no exit without Close |
| GeneratorModel.StateRecordsRun | pkg/process/blocksGenerator.go:47-68 | the state counts the ticks, the calls, and the calls that succeeded and failed, and it is closed iff Close was called |
| GeneratorModel.PotentialIsConserved | pkg/process/blocksGenerator.go:51-62 | every move of the goroutine is paid for: two per tick not dropped |
| GeneratorModel.ServesWaitingTick | pkg/process/blocksGenerator.go:53-57 | unless closed, in every run a waiting tick has started a call by the second move of the goroutine, which has a move until then |
| GeneratorModel.CancelledIsNeverStuck | pkg/process/blocksGenerator.go:58-60 | after Close there is a next move until the exit, a panic at the start aside, and from the select the exit itself |
| GeneratorModel.CloseEndsTheGoroutine | pkg/process/blocksGenerator.go:58-68 | after Close at most four moves and two per tick still firing, never blocked before the exit |
| GeneratorModel.CallsAfter | pkg/process/blocksGenerator.go:50-68 | block calls after any moment, Close included, are at most the ticks after it and the one that waited |
| GeneratorModel.NothingAfterExit | pkg/process/blocksGenerator.go:58-60 | after the exit nothing is started, whatever still fires |
| GeneratorModel.CallCanStartIff | pkg/process/blocksGenerator.go:50-63 | from any reachable state a call can start iff the goroutine has not exited and the ticker takes its period; with no further tick, iff moreover one waits |
| GeneratorModel.CallCanStartAfterClose | cmd/chainsimulator/main.go:287-289 | after Close a block call can start iff the goroutine had not exited; with no further tick, iff moreover one waited |
| GeneratorModel.CrashesIff | pkg/process/blocksGenerator.go:50 | a run ends in the panic of the ticker iff the goroutine began with a period that is not positive |
| ConcurrentSystem.ReturnsAreTrueEverAfter | pkg/facade/simulatorFacade.go:133-199 | over every interleaving, what a returned epoch or transaction request says is true at its return and ever after |
| ConcurrentSystem.SafeAlways | pkg/process/blocksGenerator.go:47-63 | the invariant behind it holds in every state of every run, with the conservation of ticks |
| ConcurrentSystem.CallsAreBounded | pkg/facade/simulatorFacade.go:80-199 | over every interleaving, on any chain, no more blocks than the budget and no more removals than states; on one whose forced epochs rise, no more forced changes than the target lay above the epoch first read |
| ConcurrentSystem.RequestsTerminate | pkg/facade/simulatorFacade.go:80-199 | over every interleaving, on any chain, a transaction request ends within 2 * max + 1 steps of its own and an overwriting one within three more than its states; on a chain whose forced epochs rise, an epoch request within 2 * target + 2; none waits for another |
| ConcurrentSystem.AloneAwaits | pkg/facade/simulatorFacade.go:180-199 | without interference the small steps of a transaction request compute exactly the specified loop |
| ConcurrentSystem.AloneForceChange | pkg/facade/simulatorFacade.go:133-153 | without interference the small steps of an epoch request compute exactly the specified loop |
| OutdatedReports.PendingCanBeOutdatedIff | pkg/facade/simulatorFacade.go:182-198 | on a chain that never goes back, some interleaving makes the pending report outdated iff, for every round of the budget, other traffic can get the poll to answer pending and the block to succeed |
| OutdatedReports.PendingCanBeOutdated | pkg/facade/simulatorFacade.go:182-198 | on any chain, from any point of the loop: where that can be, a run that does it |
| OutdatedReports.AllPassHoldsOut | pkg/facade/simulatorFacade.go:182-196 | it can wherever the rounds of the budget all pass with nobody else about |
| OutdatedReports.OutdatedOfOneIff | pkg/facade/simulatorFacade.go:182-198 | with a budget of one and calls that succeed and tell the truth: iff the transaction was not settled when the request came in |
| OutdatedReports.OutdatedByOthersIff | pkg/facade/simulatorFacade.go:182-198 | with any budget, where calls succeed and tell the truth and neither polls nor blocks settle the transaction: iff there is no budget or the transaction was not settled when the request came in |
| OutdatedReports.SettledIsNeverReportedPending | pkg/facade/simulatorFacade.go:182-198 | over every interleaving, a request with a budget that finds the transaction settled never reports it pending |
| ConcurrentOverwrites.AloneOverwrites | pkg/facade/simulatorFacade.go:80-100 | without interference the small steps of an overwriting request compute exactly the specified call |
| ConcurrentOverwrites.SetOverwritesIff | pkg/facade/simulatorFacade.go:90-93 | the set leaves exactly the listed states iff they cover what the listed accounts hold at that moment |
| ConcurrentOverwrites.ListedOfDistinct | pkg/facade/simulatorFacade.go:90 | where no address is listed twice, the listed state of an address is the one given for it |
| ConcurrentOverwrites.UndisturbedOverwrites | pkg/facade/simulatorFacade.go:80-93 | over every interleaving in which nobody brings back an account between its removal and the set, a set that succeeds leaves exactly the listed states |
| ConcurrentOverwrites.OverlappingOverwritesMerge | pkg/facade/simulatorFacade.go:80-93 | for any two overlapping requests, an interleaving in which both succeed and the second list is laid over the first, so that it overwrites iff it covers it |
| ConcurrentSystem.GeneratorRunsInside | pkg/process/blocksGenerator.go:47-63 | whatever interleaves, the moves of the generator are a run of the generator by itself |
| ConcurrentSystem.CloseEndsInEveryRun | pkg/process/blocksGenerator.go:58-68 | over every interleaving, after Close: calls at most the ticks after it and one that waited, moves bounded, never blocked before the exit |
| ConcurrentSystem.CallCanStartIff | pkg/process/blocksGenerator.go:50-63 | on any chain, some interleaving starts another block call iff the goroutine has not exited and the ticker takes its period; with no further tick, iff moreover one waits |
| BlocksGenerator.BlockTimeIsExactIff | pkg/process/blocksGenerator.go:32-37 | the period is the configured one iff it is at most 9223372036854 ms, and is then positive for every accepted value |
| BlocksGenerator.PeriodIsPositiveIff | pkg/process/blocksGenerator.go:32-50 | the ticker takes the period iff the nanoseconds leave a remainder by 2^64 strictly between 0 and 2^63 |
| BlocksGenerator.GeneratesIff | pkg/process/blocksGenerator.go:28-63 | the goroutine of a generator with that block time can ever start a block iff that is so |
| BlocksGenerator.AcceptedPeriodCanBeNegative | pkg/process/blocksGenerator.go:32-50 | accepted block times with a negative period, a zero one, and a positive one that has wrapped |
| BlocksGenerator.BlocksGenerator.New | pkg/process/blocksGenerator.go:28-45 | refuses a missing simulator, then a block time below one; otherwise a freshly launched generator with the wrapped period |
| BlocksGenerator.BlocksGenerator.Close | pkg/process/blocksGenerator.go:66-68 | only the cancellation flag changes |
| BlocksGenerator.BlocksGenerator.GenerateBlocks | pkg/process/blocksGenerator.go:47-63 | under every schedule the chain and the generator end where the step machine does, the panic of the ticker included |
| BlocksGenerator.PlayIsARun | pkg/process/blocksGenerator.go:47-63 | every schedule of the goroutine is a run of the interleaved system |
| Text.JoinAfterSplit | cmd/chainsimulator/main.go:371 | joining the parts gives the flag back |
| Text.PartsHaveNoSeparator | cmd/chainsimulator/main.go:371 | no part holds a separator, and there is one more part than separators |
| Text.SplitAfterJoin | cmd/chainsimulator/main.go:371 | splitting a joined list gives the list back when no element holds the separator |
| Overrides.DetermineOverrideConfigFiles | cmd/chainsimulator/main.go:370-380 | the search loop returns the specified selection |
| Overrides.SelectedNamesDefault | cmd/chainsimulator/main.go:373-379 | some selected file always names the default file |
| Overrides.SelectedKeepsListed | cmd/chainsimulator/main.go:371-379 | the listed files come last in their order, and at most one is added |
| Overrides.SelectionIsIdempotent | cmd/chainsimulator/main.go:370-380 | selecting again from the joined selection changes nothing |
| Overrides.NamesDefaultIff | cmd/chainsimulator/main.go:374 | a file counts as the default one iff its name holds "nodeOverrideDefault.toml" at some position |
| Overrides.DefaultIsSelectedIff | cmd/chainsimulator/main.go:373-379 | "./config/nodeOverrideDefault.toml" is selected iff it is listed or no listed file counts as it |
| Overrides.DefaultCanBeLeftOut | cmd/chainsimulator/main.go:374 | a flag value that keeps the default file out |
| Overrides.ReadAll | config/overrideConfigsHandler.go:16-29 | all overrides of all files in order, or nothing and the error |
| Overrides.MergeIsHomomorphic | config/overrideConfigsHandler.go:18-28 | reading two lists of files is reading one after the other |
| Overrides.MergedOfOne | config/overrideConfigsHandler.go:19-25 | reading one file is what the file holds, or its error |
| Overrides.MergeFailsExactly | config/overrideConfigsHandler.go:21-23 | an error is returned iff it is that of the first file that does not load |
| Overrides.InForceOfConcat | config/overrideConfigsHandler.go:25 | applying a merged list is applying its parts in turn |
| Overrides.InForceOfOne | config/overrideConfigsHandler.go:25 | one override is in force for its file and path only |
| Overrides.LastFileWins | config/overrideConfigsHandler.go:18-28 | for each file and path the last file naming it decides |
| Overrides.DefaultIsWeakest | cmd/chainsimulator/main.go:379 | an automatically added default file decides nothing a listed file names |

## Left out

- SimulatorFacade.Facade.ForceChangeOfEpoch: a call that never returns is outside the method, because a Dafny method must end; `EpochLoop.EndsIff` says on which chains that is, `StillGoing` what happens there.
- Endpoints.EndpointsProcessor.ForceEpochChange: the same, for the same reason.
- BlocksGenerator.BlocksGenerator.GenerateBlocks: the goroutine of the generator never returns until closed, so its method runs under any finite schedule.
- SimulatorFacade.Facade.AddValidatorKeys: the error carries the index and the kind of failure, not the byte offset inside base64 text.
- The chain itself (block processing, epoch trigger, account trie, transaction status) and the proxy: in other repositories, represented by the contracts.
- That no block is generated after `simulator.Close()`: not true of the code, see `CallCanStartAfterClose`.
- What ends up on disk: the wallet file is opened without truncation, so the model speaks of the bytes written.
- The fields `CreateProxyConfigs` assigns one by one, the nil checks of the facade's constructor, one-line delegations, and the narrowing to int32 of the generate-until-epoch endpoint: only easy members.
- Missing (nil) elements inside a state list; a request with one panics.
- HTTP routing, JSON binding and responses, the log route, flags, git, file copying, temporary directories, the logger, real time.
- The values of overrides are texts here; the source leaves them untyped.
