# CRADLE

CRADLE is a local proxy for Thinknode, a service that stores immutable objects and runs
calculations. This project models its logic in Dafny and proves properties of the model.

- **Calculation requests** (`Requests`, `RequestForms`, `Resolvers`, `ResolverLoops`,
  `Agreement`, `Completeness`, `Depth`, `Termination`, `ValueLaws`, `Postings`, `RewritingLaws`).
  Thinknode is a content-addressed store whose ids denote values. A request has a value in an
  environment of requests. One resolver computes the value here, the other posts shallow
  calculations and returns an id; each may hand requests to the other. Both agree with the value,
  and with each other, and both end on acyclic environments.
- **Submission of lets** (`LetSubmission`, `LetSubmissionRuns`, `LetSubmissionExact`,
  `LetSubmissionLexical`). A nest of lets is submitted variable by variable, with ids substituted
  for variables.
- **Searches over graphs** (`Paths`, `TextOrder`, `CalculationSearch`, `CalculationSearchLaws`,
  `Types`, `TypeGraph`, `TypeCache`, `TypeOwners`, `TypeInterleavings`, `TypeDiamond`,
  `TypeSearch`, `DeepCopy`, `ReferencePaths`, `VisitLaws`, `DeepCopyRuns`, `DeepCopier`).
  Depth-first searches with marks and caches, over cyclic named types, calculations, and objects
  that refer to objects.
- **Supervisor and providers** (`Supervisor`, `SupervisorSafety`, `SupervisorRace`,
  `SupervisorRuns`, `ProviderQueue`, `ProviderRefinement`). State machines whose steps are single
  accesses of two threads, of the providers, and of the connection between them.
- **Codecs and hashing** (`HashidsSpec`, `HashidsCodec`, `HashidsLaws`, `Hashids`, `HashidsHex`,
  `Bits`, `BigEndians`, `Sha256Spec`, `Sha256Constants`, `Sha256Bits`, `Sha256Block`,
  `Sha256Length`, `Sha256`, `Sha256Run`, `UrlSyntax`, `UrlTypes`, `UrlParsing`, `UrlRoundTrip`,
  `UrlCodes`, `UrlStrings`, `UrlParser`, `MessageFormat`, `MessageLayout`, `MessageStreams`,
  `Base64`, `Base64Buffers`).
- **Calculation statuses** (`Status`), with exact reals for progress.

Modules whose code works in loops on mutable state are pairs: functions that say what is
computed, with the lemmas about them, and methods or classes that compute it in the program's own
form. What such functions share with what they are compared to is said once more without them:
value by value, position by position, character by character or bit by bit (the modules whose names
end in `Laws`, `Bits`, `Constants`, `Layout` or `Strings`, and `Postings`).

## Where the code does not keep its promise

- `type_contains_references` also caches answers for inner types that were cut short by the set of
  visited types. A structure with a reference and an array of the same references leaves `false`
  for the array; a deep copy of such an object then misses what the array refers to
  (`TypeCache.CacheGoesWrong`, `DeepCopyRuns.ExampleMisses`). The answer left for an inner type that
  carries references is right if the type owns a reference type, that is, if it leads to one that
  is reached only through it (`TypeOwners.QueryOwnersRight`). With the tasks in any order that
  is exact: it is right in every order iff the type owns one (`TypeInterleavings.RightInEveryOrderIff`).
  With one part searched after the other it is not exact (`TypeDiamond.RightAlthoughNothingOwned`).
  Types are untangled if every inner type that carries references and that two of them share owns
  a reference type in each; then all queries and deep copies are right (`TypeOwners.UntangledQueryRight`,
  `DeepCopyRuns.DeepCopyExact`).
- `substitute_variables` does not look at item indices and property fields, so variables there are
  lost: the main id denotes the value iff nothing that is needed has any there
  (`LetSubmissionExact.SubmissionExact`, `LetSubmissionRuns.IndexVariableIsLost`).
- Ids are looked up where a binding is made, environments where a variable is used. Submission
  always means the request with each right-hand side written out where it is bound
  (`LetSubmissionLexical.SubmissionIsLexical`). That is what evaluation in environments gives unless
  a name is bound again at or after a needed right-hand side that uses it
  (`LetSubmissionExact.SubmissionMeans`); then the two may differ
  (`LetSubmissionRuns.ShadowingChangesMeaning`), and need not.
- The message thread may handle a lost connection as a failure of the current call although the
  calculation thread handles it as its own failed transmission. A later call may then return the
  value of an earlier one (`SupervisorRace.ThirdCallReturnsTheSecondValue`). Steady runs are those
  without such a step: the message thread gives the call up while the calculation thread recovers
  from a failed transmission, or gives it up before the transmission is written and then the write
  fails or another provider is accepted first. If no transmission fails, a run is steady however
  the threads interleave (`SupervisorRuns.UnfailingRunsAreSafe`).
- A failed transmission has moved the arguments away: the call is repeated without arguments, and
  returns the value for none (`SupervisorRuns.ArgumentsAreLost`).

## What is assumed

- Ids are collision-free, and for termination the id of a calculation is not among those that
  the ids inside it lead to, as with hashes of contents. Functions of apps give the same results
  locally and in Thinknode, and generated requests are closed.
- Hashids alphabets have no duplicates and no NUL, characters have non-negative codes, and the
  string decoded is not empty (`parts[0]` of nothing is undefined in the program).
- Named types do not refer to themselves through names alone, and references between objects are
  acyclic, as hashes of contents are; the program would wait for itself otherwise.
- MessagePack and the functions of apps, lambdas, type coercion and decoding of requests are
  parameters.
- A piece given to the hasher has fewer than 2^63 bytes.

## Model

| member | source | states |
|---|---|---|
| `Completeness.ResolversAgree` | src/cradle/websocket/calculations.cpp:91-375 | the id from the remote resolver denotes exactly the values that the local resolver computes, for every mix of hosts, lets, variables, lambdas and generated requests, in the store left behind and in every later one |
| `Completeness.ResolversFind` | src/cradle/websocket/calculations.cpp:91-375 | a request that has a value in its environment is resolved by both resolvers: the local one returns that value, the id of the remote one denotes it |
| `Termination.ResolversEnd` | src/cradle/websocket/calculations.cpp:91-375 | on acyclic environments and stores, for requests without generated ones, some depth is enough for either resolver to return a result or to fail, and a greater depth changes nothing; a request handed to the other resolver is not handed back, which is part of the measure |
| `Termination.FailureMeansNoValue` | src/cradle/websocket/calculations.cpp:91-375 | a resolver that ends without a result was given a request without a value |
| `Depth.LocalDeeper` | src/cradle/websocket/calculations.cpp:91-231 | a run of the local resolver that has ended, well or not, ends in the same way at every greater depth |
| `Agreement.LocalSound` | src/cradle/websocket/calculations.cpp:91-231 | whatever the local resolver returns is the value of the request in its environment, in the store left behind and in every later one |
| `ValueLaws.ItemLaw` | src/cradle/websocket/calculations.cpp:172-180 | an item request has a value iff the list has an array as value and the index a number from 0 to below its length, and then it is the item at that index, coerced |
| `ValueLaws.PropertyLaw` | src/cradle/websocket/calculations.cpp:192-200 | a property request has the entry of the map under the name, coerced |
| `ValueLaws.ObjectLaw` | src/cradle/websocket/calculations.cpp:181-191 | an object has the map with exactly the given names and their values, coerced |
| `ValueLaws.ArrayLaw` | src/cradle/websocket/calculations.cpp:158-171 | an array has the values of its items, each coerced, in order |
| `ValueLaws.FunctionLaw` | src/cradle/websocket/calculations.cpp:140-157 | a function has what the function of the app gives for the values of its arguments, in order |
| `ValueLaws.LambdaLaw` | src/cradle/websocket/calculations.cpp:116-124 | a lambda has what it gives for the values of its arguments, in order |
| `ValueLaws.CastLaw` | src/cradle/websocket/calculations.cpp:220-224 | a cast has the value of what is cast, coerced |
| `ValueLaws.LetLaw` | src/cradle/websocket/calculations.cpp:201-209 | a let has the value of its body where each name has its last binding, and other names what they had |
| `ValueLaws.VariableLaw` | src/cradle/websocket/calculations.cpp:210-212 | a variable has the value of its request in the environment where it is used |
| `ValueLaws.MetaLaw` | src/cradle/websocket/calculations.cpp:213-219 | a meta request has the value of the request that its generator generates, coerced |
| `ValueLaws.ReferenceLaw` | src/cradle/websocket/calculations.cpp:111-115 | a value has itself; a reference has the data under its id, or the value of the calculation there, which sees no environment |
| `Resolvers.RemoteGrows` | src/cradle/websocket/calculations.cpp:233-375 | posting only ever adds to the store, under ids that hold what they are the ids of |
| `Agreement.RemoteSound` | src/cradle/websocket/calculations.cpp:233-375 | the posted id denotes exactly the value of the request, for shallow posts, posted values, and requests handed to the local resolver |
| `Postings.RemotePosts` | src/cradle/websocket/calculations.cpp:275-368 | the id returned for a lambda and for a function that asks to run here is that of data; for every other node and for a meta request that of a calculation of the same kind, with references for parts, no host, and level 4 where none is asked for; for a reference the id itself |
| `Postings.LocalLeavesStore` | src/cradle/websocket/calculations.cpp:109-231 | the local resolver posts nothing unless some function asks for Thinknode |
| `Postings.ThinknodeFunctionPosted` | src/cradle/websocket/calculations.cpp:125-138 | a function that asks for Thinknode is posted there even if its value is wanted here |
| `Postings.LocalFunctionNeverPosted` | src/cradle/websocket/calculations.cpp:285-295 | if every call of a function asks to run here, no run of either resolver adds a calculation of that function |
| `Postings.PostedLevels` | src/cradle/thinknode/calc.cpp:31-41 | every function calculation that a run adds has the level that some call of the function in the request asks for, and 4 if that call asks for none |
| `Completeness.GenericFormResolvesAlike` | src/cradle/websocket/calculations.cpp:397-456 | a request and its generic form, with Thinknode as host of every function, resolve to the same: what either resolves to, the other resolves to in the store left behind |
| `RequestForms.RewritingKeepsMeaning` | src/cradle/thinknode/calc.cpp:17-90 | filling in the default level (and asking for Thinknode as host) changes no value, although item indices and property fields are not descended into |
| `RewritingLaws.SanitizeFillsLevels` | src/cradle/thinknode/calc.cpp:17-90 | kind by kind: level 4 for every function that asks for none, item indices and property fields as they were |
| `RewritingLaws.AsGenericFillsHosts` | src/cradle/websocket/calculations.cpp:397-456 | kind by kind: Thinknode as host of every function, in item indices and property fields too |
| `Completeness.RemotePostsShallow` | src/cradle/websocket/calculations.cpp:233-375 | every calculation in the store after a remote resolution has only references as children and is no let and no variable, if that held before |
| `ResolverLoops.Resolver.ResolveToValue` | src/cradle/websocket/calculations.cpp:91-231 | the loops over arguments, items and bindings compute the value and the store of the local resolver |
| `ResolverLoops.Resolver.ResolveToObject` | src/cradle/websocket/calculations.cpp:233-375 | the same for the remote resolver: one post for each calculation, after its children |
| `ResolverLoops.Resolver.Extend` | src/cradle/websocket/calculations.cpp:201-209 | the bindings of a let are assigned to a copy of the environment in order |
| `LetSubmissionLexical.SubmissionIsLexical` | src/cradle/thinknode/calc.cpp:416-497 | whatever the names and positions of variables, the main id of a successful submission denotes exactly the value of the request with every right-hand side written out where it is bound |
| `LetSubmissionLexical.SubmittedIffWrittenOut` | src/cradle/thinknode/calc.cpp:340-414 | a real submission succeeds iff the request can be written out |
| `LetSubmissionExact.SubmissionMeans` | src/cradle/thinknode/calc.cpp:416-497 | if what is needed is closed in item indices and property fields, and no name is bound again at or after a needed right-hand side that uses it, the main id denotes what environment-based evaluation of the nest of lets gives |
| `LetSubmissionExact.SubmissionExact` | src/cradle/thinknode/calc.cpp:340-497 | for a nest with a value in which no such name is bound again: the main id denotes the value iff the innermost request and every right-hand side it needs, directly or through others, mention no variable in item indices and property fields; otherwise it denotes nothing |
| `LetSubmissionExact.MainValueMeansNeeded` | src/cradle/thinknode/calc.cpp:364-383 | if the main id of any submission denotes a value, what is needed mentions no variable in item indices and property fields |
| `LetSubmissionExact.DistinctNotRebound` | src/cradle/thinknode/calc.cpp:436-459 | distinct names are not bound again |
| `LetSubmission.SubstituteMeans` | src/cradle/thinknode/calc.cpp:340-414 | substitution turns evaluation in an environment into evaluation without one, in both directions |
| `RewritingLaws.SubstituteReplaces` | src/cradle/thinknode/calc.cpp:340-414 | kind by kind: every variable replaced, item indices and property fields as they were |
| `RewritingLaws.SubstituteIff` | src/cradle/thinknode/calc.cpp:387-405 | substitution succeeds iff there is such a request: no let, no lambda and no variable without substitution is in its way |
| `RewritingLaws.SubmitPosts` | src/cradle/thinknode/calc.cpp:88-114 | a reference is not submitted and stands for itself; any other request is submitted with default levels, a dry run adds nothing |
| `LetSubmission.SubmitThinknodeLetCalc` | src/cradle/thinknode/calc.cpp:416-497 | the two nested loops over levels and variables compute the submission |
| `LetSubmission.SubmitVariables` | src/cradle/thinknode/calc.cpp:436-480 | the loop over the variables of one level: stops at the first one that gives no id |
| `LetSubmissionRuns.SubmissionSucceeds` | src/cradle/thinknode/calc.cpp:340-414 | a real submission throws iff some right-hand side or the innermost request uses a variable not bound before it, or contains a let |
| `LetSubmissionRuns.DryRunIff` | src/cradle/thinknode/calc.cpp:444-455 | a dry run changes nothing and returns information iff the real run would post nothing new, and then the same information |
| `LetSubmissionRuns.DryRunAfterRealRun` | src/cradle/thinknode/calc.cpp:416-497 | after a real submission, a dry run in any later store finds the same information |
| `LetSubmissionRuns.EveryIdReportedOnce` | src/cradle/thinknode/calc.cpp:461-480 | each variable contributes its one id to exactly one of the reported and other ids, in traversal order |
| `RewritingLaws.ReportedByName` | src/cradle/thinknode/calc.cpp:459-472 | a reported variable is reported with its id and the name of its function, or an error text if it is no function |
| `RewritingLaws.OthersUnreported` | src/cradle/thinknode/calc.cpp:473-477 | the other ids are those of the variables that are not reported |
| `LetSubmissionRuns.SubstitutionKeepsValueIff` | src/cradle/thinknode/calc.cpp:364-383 | one substitution by ids that have the values of their variables keeps the value of a request that has one iff no item index and no property field mentions a variable |
| `LetSubmissionRuns.IndexVariableIsLost` | src/cradle/thinknode/calc.cpp:364-369 | a variable in an item index stays in the posted calculation, which then has no value although the request has one |
| `LetSubmissionRuns.ShadowingChangesMeaning` | src/cradle/thinknode/calc.cpp:436-459 | a request that binds a name again after a right-hand side that uses it, whose submission means one thing and whose evaluation in environments gives another |
| `HashidsCodec.HashidsRoundTrip` | src/third-party/hashids.cpp:28-291 | for every duplicate-free alphabet that is accepted, every salt and minimum length, and every non-empty list of 64-bit numbers: decoding undoes encoding, and the encoded length is the maximum of the natural length and the minimum |
| `HashidsCodec.ConfigurePartitions` | src/third-party/hashids.cpp:28-85 | construction succeeds iff at least 16 characters are left, and then alphabet, separators and guards are disjoint, duplicate-free and non-empty, and are together the given alphabet |
| `HashidsLaws.PartsOfAlphabet` | src/third-party/hashids.cpp:28-85 | the default separators that the alphabet has, in their order, shuffled; as many more characters as make a 3.5th of the others; the rest shuffled, of which a 12th are guards |
| `HashidsLaws.EncodedCharacters` | src/third-party/hashids.h:72-121 | the characters of an encoding: the lottery character by the sum over the numbers, the digits of each number in the alphabet of its place, between them the separators by number, first character and place |
| `HashidsSpec.ShufflePermutes` | src/third-party/hashids.cpp:111-143 | reordering is a permutation |
| `HashidsLaws.ShuffleSwaps` | src/third-party/hashids.cpp:111-135 | the swaps in closed form: the last position left is swapped with the salt character of the turn, its place and the sum of the salt characters so far, modulo that position |
| `HashidsSpec.SaltTruncationIsHarmless` | src/third-party/hashids.cpp:281-285 | reordering by the salt cut to the length of the alphabet is reordering by the whole salt |
| `HashidsSpec.UndigitsDigits` | src/third-party/hashids.cpp:145-205 | _unhash undoes _hash for every 64-bit number |
| `HashidsSpec.SplitJoined` | src/third-party/hashids.cpp:236-256 | splitting at separators gives back the pieces that were joined |
| `HashidsSpec.PadWraps` | src/third-party/hashids.cpp:206-234 | padding reaches the minimum length exactly, wraps the guarded body in characters of the alphabet and never cuts into it |
| `HashidsSpec.SplitPadded` | src/third-party/hashids.cpp:259-272 | splitting a padded string at the guards finds the body in the part that decode takes |
| `Hashids.Reorder` | src/third-party/hashids.cpp:111-135 | the in-place swaps compute the permutation |
| `Hashids.Construct` | src/third-party/hashids.cpp:28-85 | the constructor computes the partition, or rejects the alphabet |
| `Hashids.Hash` | src/third-party/hashids.cpp:145-155 | the do-while loop computes the digits |
| `Hashids.EnsureLength` | src/third-party/hashids.cpp:206-234 | the guards and the padding loop compute the padded string |
| `Hashids.SplitOn` | src/third-party/hashids.cpp:236-256 | the loop over the characters computes the parts |
| `Hashids.EncodeNumbers` | src/third-party/hashids.h:72-121 | the loop that reorders the alphabet on the fly computes the encoding |
| `Hashids.DecodeNumbers` | src/third-party/hashids.cpp:258-291 | the loop over the parts computes the decoding |
| `HashidsHex.HexRoundTrip` | src/third-party/hashids.cpp:157-192 | decodeHex undoes encodeHex: it returns the lower-cased hexadecimal digits of the input, if there are any |
| `HashidsHex.BlockText` | src/third-party/hashids.cpp:157-178 | the number of a block is written, in hexadecimal, as its digits behind a one |
| `HashidsHex.EncodeHex` | src/third-party/hashids.cpp:157-178 | blocks of twelve digits after a leading 1 are encoded, other characters are skipped |
| `HashidsHex.DecodeHex` | src/third-party/hashids.cpp:180-192 | the digits of each number without its leading 1 are appended |
| `SupervisorRuns.UnfailingRunsAreSafe` | src/cradle/thinknode/supervisor.cpp:277-572 | in every interleaving of calculation thread, message thread and providers in which no transmission fails: FUNCTION messages sent minus answers received is 0 or 1, a value returned is the function of the app applied to the call's own name and arguments, and the final check of the state never fails |
| `SupervisorRuns.CallsEndAsTheAppDecides` | src/cradle/thinknode/supervisor.cpp:359-572 | in every steady run in which no call is given up for a lost connection, a call returns the value that the app gives, or fails because the app gives none |
| `SupervisorRuns.WaitingCallsAreOwed` | src/cradle/thinknode/supervisor.cpp:359-572 | where no connection is lost and no transmission fails, a call that waits is never forgotten: its provider is registering or being sent the request, its request is with the provider, its answer on the way back, or its result in the mailbox or about to be put there |
| `SupervisorSafety.SteadyRunsAreSafe` | src/cradle/thinknode/supervisor.cpp:277-572 | the same in every steady run, where transmissions may fail: a value returned is that of the call's own arguments iff no transmission of the call has failed or the app makes no difference between them and none |
| `SupervisorRuns.ArgumentsAreLost` | src/cradle/thinknode/supervisor.cpp:366-371 | for any arguments, a steady run in which a call returns the value of the function of the app for no arguments |
| `SupervisorSafety.StepKeeps` | src/cradle/thinknode/supervisor.cpp:359-572 | every step but those by which both threads handle the same lost connection keeps the invariant that ties state, request, mailbox, connection and both threads together |
| `SupervisorSafety.ProviderKeeps` | src/cradle/thinknode/provider.cpp:205-248 | no step of a provider adds, loses or changes an invocation or its answer |
| `SupervisorRace.ThirdCallReturnsTheSecondValue` | src/cradle/thinknode/supervisor.cpp:434-456 | without the restriction there is a run in which a call returns the value of the call before it: a lost connection is handled by both threads while a transmission fails |
| `ProviderQueue.MonitorForwards` | src/cradle/thinknode/provider.cpp:60-203 | in every interleaving the messages forwarded are those posted, in order; the monitor loop is left iff the one result or failure has been forwarded, and it is the last; each ping read is answered once with its code |
| `ProviderQueue.StepKeeps` | src/cradle/thinknode/provider.cpp:92-203 | every step of calculation thread, monitor loop and incoming pings keeps the invariant |
| `ProviderRefinement.ProviderRunsShow` | src/cradle/thinknode/provider.cpp:92-248 | in every run of the threads inside a provider, each step is, as the supervisor sees it, nothing, one step of a provider of the protocol, or a ping that arrives |
| `TypeGraph.SearchExactly` | src/cradle/websocket/server.cpp:545-572 | from any marks and any cache, the search answers whether an unmarked path that stops at cached types leads to a reference or to an answer true, and throws iff such a path leads to an unresolved name |
| `TypeCache.ColdQueryExact` | src/cradle/websocket/server.cpp:461-572 | from nothing, the answer is true iff a reference type is reachable, on cyclic named types too, and it throws iff an unresolved name is |
| `TypeCache.TrueIsSound` | src/cradle/websocket/server.cpp:545-572 | from any marks and any sound cache, true is right |
| `TypeOwners.QueryOwnersRight` | src/cradle/websocket/server.cpp:545-572 | if the cache is right below a type, the answer for it is right, and so is each answer left for a type that carries no references or owns a reference type: one that the type asked about reaches only through it |
| `TypeOwners.OwnersKeepAccurate` | src/cradle/websocket/server.cpp:545-572 | a query for a type in which every type that carries references owns one leaves an accurate cache accurate |
| `TypeInterleavings.RightInEveryOrderIff` | src/cradle/websocket/server.cpp:485-572 | with the tasks in any order: every order leaves the right answer for an inner type that carries references iff it owns a reference type |
| `TypeInterleavings.FoundInParts` | src/cradle/websocket/server.cpp:485-572 | the answer of an entered type in such an order is the or of those of the parts that were entered from it |
| `TypeDiamond.RightAlthoughNothingOwned` | src/cradle/websocket/server.cpp:485-541 | with the parts one after the other, in whatever order, an inner type can be answered right although it owns nothing |
| `TypeCache.QueryRight` | src/cradle/websocket/server.cpp:545-572 | with an accurate cache every answer is right |
| `TypeCache.FalseKeepsAccurate` | src/cradle/websocket/server.cpp:545-572 | an answer false leaves an accurate cache accurate |
| `TypeCache.CacheGoesWrong` | src/cradle/websocket/server.cpp:561-571 | an answer true may leave a wrong false for an inner type whose reference was already marked |
| `TypeOwners.UntangledQueryRight` | src/cradle/websocket/server.cpp:545-572 | queries, in any sequence, are all answered right for untangled types: an inner type that carries references and that two of them share owns a reference type in each |
| `TypeSearch.Searcher.ContainsReferences` | src/cradle/websocket/server.cpp:545-572 | the search that marks and caches in place computes the specified answer, marks and cache |
| `TypeSearch.Searcher.ContainsInAny` | src/cradle/websocket/server.cpp:491-541 | the answers for parts, all of them started, are combined by or |
| `DeepCopy.VisitsCarried` | src/cradle/websocket/server.cpp:574-682 | if no reference type is reachable from the type, the visit of any value whatever visits nothing |
| `VisitLaws.VisitsMentioned` | src/cradle/websocket/server.cpp:574-682 | the visitor is called with exactly the strings at which a path of steps through type and value ends in a reference: array items, map keys and values, the type behind a name, an optional value under some, fields that are there, the member that the tag of a union names |
| `VisitLaws.VisitOkIffInShape` | src/cradle/websocket/server.cpp:574-682 | the visit succeeds iff every position on such a path has the shape that its type asks for, and no chain of names is endless |
| `VisitLaws.CarriesIffMentioned` | src/cradle/websocket/server.cpp:485-543 | a type carries references, as the search for them understands it, iff some value of the type mentions one |
| `DeepCopyRuns.DeepCopyExact` | src/cradle/websocket/server.cpp:694-772 | for untangled, resolvable object types, after any earlier copies: a deep copy succeeds iff every object that the object needs, by references at positions of values, directly or through others, is there and in shape, and then the destination has gained exactly these |
| `DeepCopyRuns.CopyGrows` | src/cradle/websocket/server.cpp:694-772 | for all types, and every order of the references: only reached objects are copied, and a failure has a reached object as its reason |
| `DeepCopyRuns.CopyCompletes` | src/cradle/websocket/server.cpp:694-772 | a deep copy, whether it succeeds or fails, leaves every copied object and all its references in the destination, and cached answers from which later copies are right |
| `DeepCopyRuns.DeepCopyMisses` | src/cradle/websocket/server.cpp:720-739 | for tangled types a deep copy succeeds without an object that is reachable |
| `DeepCopyRuns.ExampleMisses` | src/cradle/websocket/server.cpp:720-739 | a concrete store of three objects on which that happens, for every order |
| `DeepCopier.Copier.DeeplyCopy` | src/cradle/websocket/server.cpp:694-772 | the copy that updates destination, record and cache in place computes the specified outcome |
| `CalculationSearch.SearchCalculation` | src/cradle/thinknode/calc.cpp:603-625 | returns, in ascending order and each once, exactly the ids that the followed positions lead to and whose function name contains the text; fails iff they lead to a let, a variable or a malformed id, in a shallow store iff to a malformed id; terminates on shared and cyclic references |
| `CalculationSearchLaws.ServiceByTwoDigits` | src/cradle/thinknode/utilities.cpp:86-115 | the service of an id by the two hexadecimal digits at positions 9 and 10, for all seven services, and which pairs of digits are of no service |
| `CalculationSearchLaws.ServiceByOneDigit` | src/cradle/thinknode/utilities.cpp:86-115 | the service of an id with one digit there |
| `CalculationSearchLaws.NoServiceWithoutDigit` | src/cradle/thinknode/utilities.cpp:86-115 | an id with no digit there has no service |
| `CalculationSearchLaws.DependenciesAre` | src/cradle/thinknode/calc.cpp:536-595 | a calculation depends on the ids of calculations at its followed positions, kind by kind, without item indices and property fields |
| `CalculationSearchLaws.BadAre` | src/cradle/thinknode/calc.cpp:536-595 | the search fails at a let or a variable, and where a followed position mentions an id without a service |
| `CalculationSearchLaws.MatchesAre` | src/cradle/thinknode/calc.cpp:553-558 | a match is a function calculation whose name is some text, the text searched for, and some text |
| `TextOrder.LessIsLexicographic` | src/cradle/thinknode/calc.cpp:610-623 | matches are in the order of their first different characters, shorter ones first |
| `CalculationSearch.Searcher.Search` | src/cradle/thinknode/calc.cpp:499-601 | one call explores exactly what is reachable from its id and records for each id whether it matches; missing calculations do not |
| `CalculationSearch.PostedIsSearchable` | src/cradle/thinknode/calc.cpp:548-600 | over a store that the remote resolver has made out of a shallow one, a search fails iff the followed positions lead to a calculation that mentions a malformed id: it meets no let and no variable |
| `CalculationSearch.ShallowIsSearchable` | src/cradle/thinknode/calc.cpp:548-600 | the same over every store of shallow calculations |
| `Paths.ExploredExactly` | src/cradle/thinknode/calc.cpp:499-601 | a depth-first search that marks what it enters has entered exactly the nodes that an unmarked path leads to |
| `Sha256Block.HashBlock` | src/third-party/picosha2.h:129-184 | the block function with 64-bit sums and late masking computes the one of FIPS 180-4, section 6.2.2, and keeps every word below 2^32 |
| `Sha256Constants.ConstantsAreCubeRoots` | src/third-party/picosha2.h:56-67 | each round constant has the first 32 bits of the fractional part of the cube root of the prime at its place |
| `Sha256Constants.InitialIsSquareRoots` | src/third-party/picosha2.h:69-77 | the initial digest has the first 32 bits of the fractional parts of the square roots of the first eight primes |
| `Sha256Bits.ChBit` | src/third-party/picosha2.h:79-83 | each bit of x chooses between those of y and z |
| `Sha256Bits.MajBit` | src/third-party/picosha2.h:85-89 | each bit is that of at least two of the three |
| `Sha256Bits.RotRBit` | src/third-party/picosha2.h:91-96 | bit i of the rotation by n is bit i + n modulo 32 |
| `Sha256Bits.BigSigmaBits` | src/third-party/picosha2.h:98-108 | each bit is the sum of three bits: 2, 13 and 22, or 6, 11 and 25 places further up |
| `Sha256Bits.SmallSigmaBits` | src/third-party/picosha2.h:117-127 | the same with 7, 18 and a shift by 3, or 17, 19 and a shift by 10 |
| `Sha256Block.RoundNarrow` | src/third-party/picosha2.h:159-171 | the wide sums of one round, masked late, are the sums modulo 2^32 |
| `Sha256Block.RotNarrow` | src/third-party/picosha2.h:91-96 | shifting both ways in 64 bits and masking rotates a 32-bit word |
| `Sha256Block.ChNarrow` | src/third-party/picosha2.h:79-83 | the 64-bit complement brings in no high bits |
| `Sha256Block.MaskedIsAnd` | src/third-party/picosha2.h:50-54 | masking a word with 0xffffffff takes its remainder modulo 2^32 |
| `Sha256Block.MessageSchedule` | src/third-party/picosha2.h:135-149 | loading the block and the loop to 64 words compute the message schedule |
| `Sha256Length.AddToDataLength` | src/third-party/picosha2.h:310-328 | four 16-bit digits with carries count bytes modulo 2^64 |
| `Sha256Length.Low16IsAnd` | src/third-party/picosha2.h:317-322 | masking with 65535 takes the remainder modulo 2^16 |
| `Sha256Length.WriteDataBitLength` | src/third-party/picosha2.h:329-355 | the bytes written are eight times the count, modulo 2^64, big-endian |
| `Sha256.EndingPads` | src/third-party/picosha2.h:271-293 | both ways to finish append what section 5.1.1 of FIPS 180-4 asks for |
| `Sha256.Hasher.Process` | src/third-party/picosha2.h:256-269 | whole blocks of all bytes seen are in the digest, fewer than 64 bytes are in the buffer |
| `Sha256.Hasher.Finish` | src/third-party/picosha2.h:271-293 | the digest is that of the padded message of all bytes seen |
| `Sha256Run.HashPieces` | src/third-party/picosha2.h:378-393 | however a message is cut into pieces, the result is its hash by FIPS 180-4 |
| `Sha256Run.HashBuffered` | src/third-party/picosha2.h:395-424 | so is the result of reading through a buffer of any size |
| `Sha256Run.HashBytes` | src/third-party/picosha2.h:295-307 | the bytes of the digest, shifted out word by word |
| `Sha256Spec.PadInjective` | src/third-party/picosha2.h:271-293 | different messages of fewer than 2^64 bits have different padded forms |
| `UrlRoundTrip.PrintParse` | src/cradle/thinknode/iss.cpp:282-511 | parsing a printed type gives the type without array sizes, descriptions and omissible flags iff no component is empty or contains a slash |
| `UrlParsing.ParseBack` | src/cradle/thinknode/iss.cpp:377-488 | parsing consumes exactly the components of the printed type, and leaves any suffix |
| `UrlRoundTrip.FillTemplate` | src/cradle/thinknode/iss.cpp:274-280 | filling the template of any type gives the string of the type with every name filled |
| `UrlRoundTrip.FillIsWithAccount` | src/cradle/thinknode/iss.cpp:274-280 | if no name contains a brace, that is the string of the type with missing accounts filled in |
| `UrlTypes.TemplateIsJoin` | src/cradle/thinknode/iss.cpp:282-357 | the printed string is its components with slashes between them |
| `UrlStrings.StructureString` | src/cradle/thinknode/iss.cpp:334-344 | the string of a structure: its code, the number of fields, and each name with the string of its type |
| `UrlStrings.UnionString` | src/cradle/thinknode/iss.cpp:345-355 | the same for the members of a union |
| `UrlStrings.WrappedStrings` | src/cradle/thinknode/iss.cpp:287-331 | the strings of arrays, optional types and references: the code, and the string of the type inside |
| `UrlStrings.MapString` | src/cradle/thinknode/iss.cpp:313-317 | the string of a map: key before value |
| `UrlStrings.NamedString` | src/cradle/thinknode/iss.cpp:318-322 | a named type has its account or the placeholder, the app, and the name |
| `UrlStrings.ThinknodePlaceholder` | src/cradle/thinknode/iss.cpp:318-322 | the placeholder of the program is {account} in braces |
| `UrlStrings.ErasedIsBare` | src/cradle/thinknode/iss.cpp:377-488 | what parsing keeps, kind by kind: no array sizes, no omissible flags, empty descriptions, the placeholder for a missing account |
| `UrlStrings.AssignReplaces` | src/cradle/thinknode/iss.cpp:459-470 | a field of the same name replaces the one before; the map stays in key order |
| `UrlCodes.ThinknodeTypes` | src/cradle/thinknode/iss.cpp:282-511 | both laws for the sixteen type codes and the placeholder of the program |
| `UrlParser.TokenRange.ParseType` | src/cradle/thinknode/iss.cpp:377-488 | the parser that consumes a token range in place, with counted loops, computes the specified result |
| `UrlParser.ParseUrlType` | src/cradle/thinknode/iss.cpp:493-511 | a whole string is parsed iff nothing is left over |
| `UrlSyntax.SplitJoin` | src/cradle/thinknode/iss.cpp:498-500 | splitting joined components gives them back |
| `MessageFormat.SupervisorRoundTrip` | src/cradle/thinknode/ipc.cpp:10-50 | a supervisor message that can be written reads back iff its ping code has 32 bytes; every argument starts where the length before it says |
| `MessageFormat.ProviderRoundTrip` | src/cradle/thinknode/ipc.cpp:52-105 | a provider message that can be written reads back iff its id or ping code has 32 bytes and its protocol is 0 |
| `MessageFormat.MessagesSurvive` | src/cradle/thinknode/ipc.cpp:10-248 | in both directions a message survives framing iff it can be written, is readable, and its body has fewer than 2^64 bytes |
| `MessageFormat.FramesRoundTrip` | src/cradle/thinknode/messages.h:47-94 | messages written back to back read back as the same messages |
| `MessageFormat.FrameRoundTrip` | src/cradle/thinknode/messages.cpp:5-32 | the header of 12 bytes round-trips, and a message is read with exactly its body |
| `MessageFormat.PrefixNotRead` | src/cradle/thinknode/messages.h:47-73 | nothing is read from a frame that has not arrived completely |
| `MessageLayout.FunctionLayout` | src/cradle/thinknode/ipc.cpp:163-181 | the bytes of a call: version, 0, code 1, 0, the length in eight bytes; the name behind one byte of length, the count in two bytes, each argument behind eight bytes of length; it can be written iff the numbers fit |
| `MessageLayout.PingLayout` | src/cradle/thinknode/ipc.h:17-26 | a ping is code 5 and a pong code 6, with the ping code as body |
| `MessageLayout.RegistrationLayout` | src/cradle/thinknode/ipc.cpp:200-204 | a registration is code 0: protocol 0 in two bytes, and the id |
| `MessageLayout.ProgressLayout` | src/cradle/thinknode/ipc.cpp:209-214 | progress is code 2: four bytes of a float, and the message behind two bytes of length |
| `MessageLayout.ResultLayout` | src/cradle/thinknode/ipc.cpp:215-219 | a result is code 3 and the packed value |
| `MessageLayout.FailureLayout` | src/cradle/thinknode/ipc.cpp:220-225 | a failure is code 4: its code behind one byte of length, its message behind two |
| `MessageLayout.BigEndianAt` | src/cradle/typing/io/raw_memory_io.h:158-164 | integers are written most significant byte first |
| `MessageStreams.SupervisorBodySize` | src/cradle/thinknode/ipc.cpp:234-240 | the counted size of a body is the number of bytes that are written |
| `MessageStreams.ProviderBodySize` | src/cradle/thinknode/ipc.cpp:242-248 | the same for provider messages |
| `MessageStreams.SerializeFunction` | src/cradle/thinknode/ipc.cpp:163-181 | the writer appends name, count and length-prefixed arguments, or fails on a length that does not fit |
| `MessageStreams.WriteSupervisorMessage` | src/cradle/thinknode/messages.h:75-94 | writing appends the frame; a message that cannot be serialized leaves the socket as it is |
| `MessageStreams.WriteProviderMessage` | src/cradle/thinknode/messages.h:75-94 | the same for provider messages |
| `MessageStreams.ReadSupervisorMessage` | src/cradle/thinknode/messages.h:47-73 | reading with a cursor returns the next message and leaves what follows it |
| `MessageStreams.ReadProviderMessage` | src/cradle/thinknode/messages.h:47-73 | the same for provider messages |
| `MessageStreams.ReadProviderBody` | src/cradle/thinknode/ipc.cpp:52-105 | the reads of a provider message body, one after the other, compute the specified message |
| `MessageStreams.Reader.ReadArguments` | src/cradle/thinknode/ipc.cpp:24-36 | the argument loop advances over each argument by its length and leaves the cursor behind the last |
| `Base64.RoundTrip` | src/cradle/inner/encodings/base64.cpp:26-164 | for any 64 distinct digits without NUL and padding outside them, decoding undoes encoding |
| `Base64.StringRoundTrip` | src/cradle/inner/encodings/base64.cpp:70-81 | also when the encoded string ends before its NUL padding |
| `Base64.BytesOfCodes` | src/cradle/inner/encodings/base64.cpp:92-164 | four numbers of six bits give the three bytes back that were packed into them (section 4 of RFC 4648) |
| `Base64Buffers.Encode` | src/cradle/inner/encodings/base64.cpp:26-68 | writes the encoding and a NUL, never past the encoded length, and leaves what is behind them as it was |
| `Base64Buffers.EncodeString` | src/cradle/inner/encodings/base64.cpp:70-81 | the string form computes the encoding up to its first NUL, which decodes to the source |
| `Base64Buffers.Decode` | src/cradle/inner/encodings/base64.cpp:92-164 | fails iff the string cannot be decoded; writes the decoded bytes and leaves what is behind them as it was, and never writes past the decoded length |
| `Base64.LengthsMatch` | src/cradle/inner/encodings/base64.cpp:14-24 | the advertised lengths are exact for whole groups |
| `Base64Buffers.ReverseMapping` | src/cradle/inner/encodings/base64.cpp:101-105 | the table of 256 entries maps each digit to its number and other characters to 0xff |
| `Base64.StandardSetsRoundTrip` | src/cradle/inner/encodings/base64.h:39-57 | so for the padded MIME set and for the URL-friendly set without padding |
| `Base64.StandardDigits` | src/cradle/inner/encodings/base64.h:39-57 | the digits of the two sets, in their order, and their padding |
| `Status.ClimbReachesTheTop` | src/cradle/thinknode/calc.cpp:138-204 | asking for the next status climbs strictly, ends with the only terminal status, and takes at most 203 changes from progress between 0 and 1 |
| `Status.OneChangeLess` | src/cradle/thinknode/calc.cpp:166-193 | each step uses up exactly one of the changes left; none are left iff there is no next status |
| `Status.ClimbFromWaiting` | src/cradle/thinknode/calc.cpp:138-204 | from waiting: pending, ready, then every whole percent of calculating and of uploading, and completed; from generating: ready |
| `Status.NextWholePercent` | src/cradle/thinknode/calc.cpp:165-171 | the next progress is the least whole percent above, with a tolerance of a ten-thousandth |
| `Status.LongPoll` | src/cradle/thinknode/calc.cpp:266-297 | if each poll returns at least the status asked for, the statuses yielded climb strictly, and only the last is terminal |

## Left out

- Termination.ResolversEnd: leaves out generated requests, which may generate requests without end, and environments in which one name is bound to values of conflicting heights in different lets. On cyclic environments the resolvers do not end; results are stated for every depth that suffices.
- Concurrency of `when_all`: subtasks are taken one after the other (in any order for the references of an object); coroutine scheduling is not modelled.
- The caches for posted calculations, resolved values and named types: a repeated post is idempotent because ids are those of contents.
- The ISS object that Thinknode makes for a posted calculation: the id of the calculation names its result.
- SupervisorSafety.SteadyRunsAreSafe: covers steady runs; `SupervisorRace.ThirdCallReturnsTheSecondValue` shows why, and `SupervisorRuns.UnfailingRunsAreSafe` needs no such condition. A failing pull, start or stop of a container aborts the call and starts no provider, and the TERMINATED state at shutdown is not modelled. The program never sends a PING, so providers answer pings only in `ProviderQueue` and `ProviderRefinement`.
- The fields of the supervisor and the queue of the provider are components of a state that steps replace, because two threads change them: locks, condition variables and the memory model are only in the choice of what one step is.
- HashidsCodec.HashidsRoundTrip: does not model overflow of the 32-bit sums in `_reorder` and `encode`, because it needs salts or lists of tens of millions of elements; sizes fit an int.
- CalculationSearch.SearchCalculation: the only error of retrieving a calculation is 404; other errors would leave an empty request. Signs, blanks and prefixes that `stoul` accepts in an id are taken as malformed.
- UrlRoundTrip.PrintParse: counts are strings of decimal digits; the signs that `lexical_cast` accepts are taken as malformed, and an account that contains a dollar sign is not a format of `regex_replace`.
- TypeGraph.SearchExactly: the parts of a type are searched one after the other, as the first suspension-free run of the tasks does; `TypeInterleavings` has them in any order, without unresolved names and as sequences of entered types.
- MessageFormat.SupervisorRoundTrip: an argument length beyond the end of the body makes reading fail, where the program reads past its buffer.
- ProviderQueue.MonitorForwards: the socket does not fail and no FUNCTION arrives during a calculation, which `SupervisorSafety.SteadyRunsAreSafe` excludes.
- Base64 of file and string sources: only the byte forms.
- Floating-point rounding of progress, its two digits in the query string, and progress below 0.
- `deeply_copy_calculation`, tree differences, the cache, blob files, HTTP, Docker, sockets and the message dispatch of the server: input and output, or without a further hard property.
