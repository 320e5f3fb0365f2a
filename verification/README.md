# Lars: routing, load balancing and the reactor under them

A Dafny model of the Lars service discovery system, with proofs.

- **Load balancer of the agent** (`health`, `balance`, `reconcile`, `schedule`, `load_balance`, `route_lb`):
  for each (modid, cmdid) a map of hosts and two queues, idle and overloaded. Results reported by callers
  move hosts between the queues, answers of the DNS service add and remove them, and overloaded hosts are
  probed now and then. The queues exist twice: as values with pure functions, about which the laws are
  proved, and as classes changed in place, whose methods are proved to do what the functions say.
- **Route service** (`route_index`, `subscriptions`, `dns_service`, `publisher`, `answer_size` and the other `dns_` files): a route
  table indexed in two buffers, subscriptions, pending pushes and push tasks. The classes show what each
  callback does on its own; the protocol (`dns_protocol`) interleaves their smallest steps with edits of the
  database in every possible order, the publisher's loop and each callback are proved to refine its steps, and
  the output buffers it assumes are proved to be those of the reactor (`dns_transport`).
- **Reactor** (`buf_pool`, `reactor_buf`, `framing`, `sessions`, `event_loop`, `threads`, `tcp_conn`, `server`, `server_runs`): pooled
  blocks on free lists, growable byte queues over them, length-prefixed messages, event interest, and the
  queues that hand work to threads.
- `packing` has the 64-bit keys all of them use, `division` a little arithmetic, `wrappers` an option type.

`dafny verify dfyconfig.toml` checks everything.

## Where the code and its comments differ

The model follows the code. Where a comment or the surrounding design promises something else, both
variants are modelled (`datatype Build = AsWritten | AsDocumented` in `balance.dfy`), the failing input is a
lemma, and the condition under which the code keeps the promise is another.

- `load_balance.cpp:123` announces that dropped hosts leave the map; line 148 frees the host and leaves the
  entry. The two queues partition the map exactly on the runs in which no answer drops a known host.
- `load_balance.cpp:64` picks an idle host again after the choice between probe and idle host was made. As
  written an overloaded host is never returned while any host is idle.
- `_access_cnt` (`load_balance.h:55`) is never initialised. The model starts it at any value and proves where
  it goes from there.
- `init_err_cnt` (`host_info.cpp:18`) is not among the settings the program declares. It is a setting here.
- `route_lb.cpp:26-30`: for a balancer that still waits for its hosts the message says RET_NOEXIST while
  the function returns RET_SUCC.
- A client can miss a route update in nine ways, each a lemma with a run: an edit gets the version number that the
  publisher has read last (the scripts under `base/sql` take the time in seconds; edits that share a version not
  read yet are harmless), or one below that of an unread edit; an edit writes no change row for a module together
  with its version; an edit falls between building the first index and `dns_route.cpp:281`; the table query
  fails; the change query fails; a publish falls between a push task's read and the erase at
  `subscribe.cpp:86`, which is outside the lock; `send_message` refuses a push (`subscribe.cpp:82`) or an answer
  (`dns_service.cpp:80`), whose result nobody looks at; the client does not survive the message; the low half
  of the module is negative. The first eight are the rules of `dns_protocol.dfy`, and runs that obey them lose no
  update of modules with a non-negative low half. For a step that breaks a rule `dns_safety.dfy` and
  `dns_delivery.dfy` say exactly when it does harm. A pending entry of a closed connection (`subscribe.cpp:97`) is
  inherited by the next connection with the same descriptor.
- `send_message` does not know the limit of 65527 bytes that every receiver enforces (`tcp_conn.cpp:74`,
  `tcp_client.cpp:136`); an answer of that size takes more than 2729 hosts.
- An edit in the protocol changes table, version and change rows in one transaction. The repository's own
  scripts do not: `dns_route_drop.sql:3-4` and `dns_route_insert.sql` write no change row at all, and
  `lars_dns/test/test.sql:5-8` writes it in a statement of its own behind the version.
- `tcp_conn.cpp:155` takes a refused message's header back by popping at the front, which undoes it only
  if nothing was queued before. Otherwise the next use of the output buffer aborts.
- A message without a body aborts the receiver if it is the last thing in the buffer (`tcp_conn.cpp:88-99`).
- The pool does not count the head block of each list (`buf_pool.cpp:38,52`).

## Model

| member | source | states |
|---|---|---|
| Packing.PackValue | Lars/lars_dns/src/dns_route.cpp:189 | `((uint64_t)hi << 32) + lo` of two ints is the two 32-bit halves side by side, with one borrowed from the high half when the low int is negative |
| Packing.PackInjective | Lars/lars_dns/src/dns_route.cpp:100 | no two pairs of ints share a key, signs included |
| Packing.PackUnsigned | Lars/lars_lb_agent/src/load_balance.cpp:104 | an ip stored unsigned and the same ip stored signed give one key |
| Packing.UnpackPack | Lars/lars_dns/src/subscribe.cpp:57-58 | unpacking gives the pair back if and only if the low half is not negative; otherwise the high half comes back one too small |
| Packing.RepackIff | Lars/lars_dns/src/subscribe.cpp:57-65 | a key unpacked for a push and packed again by get_hosts is the same key if and only if its low half is not negative |
| Health.CountersRefineHistory | Lars/lars_lb_agent/src/load_balance.cpp:164-184 | after any history of reports each of the six counters, field by field, is the number of successes or failures, or the trailing run of them, since the host last changed queue, plus the initial success or error count of its side |
| Health.SinceFlipMeaning | Lars/lars_lb_agent/src/load_balance.cpp:186-257 | what counts as since the last change of queue: the results behind the last report that changed the flag, found by looking at the flag before and after each report |
| Health.OccurrencesMeaning | Lars/lars_lb_agent/src/load_balance.cpp:164-184 | the number of successes or failures counted in a history is their multiplicity in it, and the two add up to its length |
| Health.FlipsExactly | Lars/lars_lb_agent/src/load_balance.cpp:186-257 | after any history, one more failure moves an idle host to overload if and only if, counting it, the failures since the last flip exceed err_rate times (init_succ_cnt + results since the flip) or the trailing run of failures reaches contin_err_limit; the mirror statement, with succ_rate, init_err_cnt and contin_succ_limit, for a success of an overloaded host; no other report changes the flag |
| Health.StreakMeaning | Lars/lars_lb_agent/src/load_balance.cpp:170-183 | the streak counters are the lengths of the trailing runs, and at most one of them is not zero |
| Health.AlwaysWithinThresholds | Lars/lars_lb_agent/src/load_balance.cpp:186-257 | with sane settings, after every report an idle host is at or below its error rate and below its streak limit, and an overloaded host mirrors that |
| Health.WithinThresholdsIff | Lars/lars_lb_agent/src/load_balance.cpp:186-257 | that guarantee holds for all histories if and only if both rates are non-negative and both streak limits positive |
| Health.FreshHostFlip | Lars/lars_lb_agent/src/load_balance.cpp:192-223 | a fresh idle host that only fails moves at exactly the least n that reaches the streak limit or exceeds err_rate times (init_succ_cnt + n) |
| Health.OverloadedHostFlip | Lars/lars_lb_agent/src/load_balance.cpp:227-256 | the mirror statement for a host that just went to overload and then only succeeds |
| Health.FailuresAlwaysFlip | Lars/lars_lb_agent/src/load_balance.cpp:205-207 | from any counters of an idle host, a run of contin_err_limit failures contains the flip |
| Health.SuccessesAlwaysFlip | Lars/lars_lb_agent/src/load_balance.cpp:239-241 | from any counters of an overloaded host, a run of contin_succ_limit successes contains the flip |
| Balance.ChooseKeepsWf | Lars/lars_lb_agent/src/load_balance.cpp:22-69 | a choice changes no host and never returns one that is not in the map or was freed |
| Balance.ReportKeepsWf | Lars/lars_lb_agent/src/load_balance.cpp:154-260 | a report leaves the set of hosts alone and keeps each host in the queue its flag says |
| Balance.ReportMoves | Lars/lars_lb_agent/src/load_balance.cpp:209-257 | a report changes the counters of the addressed host only; if its flag flips the host leaves its queue and goes to the end of the other one, and otherwise both queues stay as they are |
| Balance.InsertAllHosts | Lars/lars_lb_agent/src/load_balance.cpp:99-121 | an answer adds the unknown addresses with fresh counters, each under the key packed from its own ip and port, and leaves every known host alone, duplicates included |
| Balance.DocumentedRunsKeepPartition | Lars/lars_lb_agent/src/load_balance.cpp:5-305 | with the erase the comment at line 123 announces: over every run of get_host, report and update the behaviour is defined and the two duplicate-free, disjoint queues hold exactly the hosts of the map, each where its flag says |
| Balance.WrittenRunsKeepPartition | Lars/lars_lb_agent/src/load_balance.cpp:5-305 | the same for the program as written, on runs whose answers drop no known host |
| Balance.WrittenPartitionIff | Lars/lars_lb_agent/src/load_balance.cpp:125-149 | as written, a run keeps the partition if and only if no answer in it drops a known host |
| Balance.DanglingForever | Lars/lars_lb_agent/src/load_balance.cpp:133-149 | as written, an entry that points to a freed host stays for good, whatever the later events: what was freed while queued stays so, and the queues are never a partition again |
| Balance.SecondUpdateDefinedIff | Lars/lars_lb_agent/src/load_balance.cpp:133-149 | as written, the same answer can be applied twice without freeing a host twice if and only if it drops nothing |
| Balance.AlternatingAnswersEmptyTheQueues | Lars/lars_lb_agent/src/load_balance.cpp:125-149 | as written, answers A, B, A leave both queues empty beside a non-empty map, and the choice that is then due takes the front of an empty list |
| Reconcile.UpdateReconciles | Lars/lars_lb_agent/src/load_balance.cpp:90-150 | after an answer: survivors keep counters, flag, queue and relative order, newcomers are appended to idle in the order of the answer, each once and with the ip and port of its key; the keys are exactly those of the answer (documented) or also the old ones (as written) |
| Reconcile.UpdateTwice | Lars/lars_lb_agent/src/load_balance.cpp:90-150 | a second update with the same answer changes nothing (documented erase) |
| Reconcile.StatusReportsEachHostOnce | Lars/lars_lb_agent/src/load_balance.cpp:264-305 | commit reports every live host exactly once: entry i has the port of its host, an ip that is the host's read as a signed number, its real success count, its real error count and the flag of its own record |
| Reconcile.StatusOfRun | Lars/lars_lb_agent/src/load_balance.cpp:154-305 | over every run of choices, reports and answers: for each host in the queues commit gives under the host's own address exactly the numbers of successes and of failures that were reported for this host since it last changed queue |
| Schedule.RoundRobin | Lars/lars_lb_agent/src/load_balance.cpp:40-47 | with no overloaded host choice number i returns host i modulo n of the starting list, so any n consecutive choices are all hosts once; the list after k choices is the rotation by k |
| Schedule.ProbePick | Lars/lars_lb_agent/src/load_balance.cpp:22-69 | with all hosts overloaded (as written), or overloaded hosts and line 64 dropped: a probe returns the next overloaded host in turn, any other choice the next idle one or none |
| Schedule.OneProbePerPeriod | Lars/lars_lb_agent/src/load_balance.cpp:28-38 | any probe_num + 1 consecutive choices that reach the first probe contain exactly one |
| Schedule.ProbesGoRound | Lars/lars_lb_agent/src/load_balance.cpp:28-38 | the first probe comes when the access counter has reached probe_num, and then every choice number probe_num + 1; probe number j falls on overloaded host j modulo their number |
| Schedule.EachProbedOnce | Lars/lars_lb_agent/src/load_balance.cpp:22-69 | over m (probe_num + 1) choices that reach the first probe, each of the m overloaded hosts is returned by exactly one choice (all hosts overloaded, or line 64 dropped) |
| Schedule.OnlyProbesSucceed | Lars/lars_lb_agent/src/load_balance.cpp:25-39 | with every host overloaded a choice succeeds if and only if it is a probe |
| Schedule.AccessRange | Lars/lars_lb_agent/src/load_balance.cpp:28-38 | once the first probe has passed, the access counter stays in [0, probe_num] whatever it started from, in either build and for all queues with an overloaded host |
| Schedule.OverloadedReturnedIff | Lars/lars_lb_agent/src/load_balance.cpp:49-65 | as written, with line 64, an overloaded host is returned if and only if no host is idle and a probe is due |
| Schedule.MixedPick | Lars/lars_lb_agent/src/load_balance.cpp:49-65 | as written, the exact host every choice returns while both queues are non-empty |
| Schedule.EvenIdleStarves | Lars/lars_lb_agent/src/load_balance.cpp:58-64 | as written, with an even number of idle hosts every choice before the first probe falls on an odd position of the idle list, so half of the hosts are not returned before that probe (which turns the list once, so that the halves change places) |
| LoadBalancing.HostInfo.SetIdle | Lars/lars_lb_agent/src/host_info.cpp:4-13 | the counters of a host that becomes idle, all seven fields |
| LoadBalancing.HostInfo.SetOverload | Lars/lars_lb_agent/src/host_info.cpp:15-24 | the counters of a host that becomes overloaded, all seven fields |
| LoadBalancing.LoadBalance.constructor | Lars/lars_lb_agent/include/load_balance.h:25-27 | an empty balancer whose access counter is whatever the memory held |
| LoadBalancing.LoadBalance.GetHostFromList | Lars/lars_lb_agent/src/load_balance.cpp:5-19 | the first host is returned and the list is turned by one |
| LoadBalancing.LoadBalance.ChoiceOneHost | Lars/lars_lb_agent/src/load_balance.cpp:22-69 | objects, map and lists change exactly as the specification Choose says, and the host returned is the one stored last in the answer |
| LoadBalancing.LoadBalance.Pull | Lars/lars_lb_agent/src/load_balance.cpp:73-87 | the request carries the balancer's own pair and the balancer is marked as waiting; nothing else changes |
| LoadBalancing.LoadBalance.Update | Lars/lars_lb_agent/src/load_balance.cpp:90-150 | the heap of host objects refines Update; new host objects are fresh, old ones stay in the map |
| LoadBalancing.LoadBalance.DeleteAll | Lars/lars_lb_agent/src/load_balance.cpp:132-149 | the hosts to delete leave the queue their flag names, and the map keeps them |
| LoadBalancing.LoadBalance.Report | Lars/lars_lb_agent/src/load_balance.cpp:154-260 | the heap of host objects refines ReportTo, whose counters, flips and moves are CountersRefineHistory, FlipsExactly and ReportMoves; no other host changes |
| LoadBalancing.LoadBalance.Commit | Lars/lars_lb_agent/src/load_balance.cpp:264-305 | something is sent if and only if the map is not empty, and it is Status of the queues, whose entries are spelled out in StatusReportsEachHostOnce and StatusOfRun |
| RouteBalancing.RouteLb.GetHost | Lars/lars_lb_agent/src/route_lb.cpp:13-63 | a new key creates an empty waiting balancer and sends one request; a waiting one answers RET_NOEXIST in the message but returns RET_SUCC; any other one makes one choice; all other keys are untouched; the assertion of line 28 holds in every reachable state |
| RouteBalancing.RouteLb.UpdateHost | Lars/lars_lb_agent/src/route_lb.cpp:66-92 | an empty answer removes the balancer, another one updates it, an unknown key is ignored; all other balancers are untouched |
| RouteBalancing.RouteLb.ReportHost | Lars/lars_lb_agent/src/route_lb.cpp:96-117 | the result is counted for the addressed balancer only, and its whole status is sent unless it has no host |
| RouteIndex.GroupAgreesWithTable | Lars/lars_dns/src/dns_route.cpp:160-200 | the index built from the rows answers every module as a plain filter of the rows does, and lists no module without rows |
| RouteIndex.Route.constructor | Lars/lars_dns/src/dns_route.cpp:16-95 | the first index is the grouping of the table and the two buffers are distinct |
| RouteIndex.Route.GetHosts | Lars/lars_dns/src/dns_route.cpp:97-114 | a reader gets the data buffer's entry, or nothing for an unknown module |
| RouteIndex.Route.LoadVersion | Lars/lars_dns/src/dns_route.cpp:116-158 | -1 and no change on a failed query or a missing row, 0 for the known version, 1 and the new version otherwise |
| RouteIndex.Route.LoadRouteData | Lars/lars_dns/src/dns_route.cpp:160-200 | the temp buffer becomes the grouping of one whole snapshot, or empty on failure; the data buffer, which readers use, is untouched |
| RouteIndex.Route.Swap | Lars/lars_dns/src/dns_route.cpp:203-209 | the two buffers change places and stay distinct |
| RouteIndex.Route.LoadChanges | Lars/lars_dns/src/dns_route.cpp:213-249 | appends exactly the modules of the change rows up to the current version, in order |
| RouteIndex.KeptCount | Lars/lars_dns/src/dns_route.cpp:253-271 | a change row survives the deletion, as often as it stands in the table, if and only if it is of a later version |
| RouteIndex.UpToInOrder | Lars/lars_dns/src/dns_route.cpp:213-249 | the modules announced at a version come in the order of their rows |
| RouteIndex.PassLosesNothingIff | Lars/lars_dns/src/dns_route.cpp:213-271 | a pass reads the change rows and deletes them with a second query: every recorded change is announced or kept, exactly as often as it was recorded, if and only if all rows written between the two queries are of later versions |
| Subscriptions.PublishedEntries | Lars/lars_dns/src/subscribe.cpp:121-140 | a module is pending for a connection after a publish if and only if it was before, or it is among the changes and the connection stands under it in the subscription index; no empty entry is created |
| Subscriptions.SubscribeList.Subscribe | Lars/lars_dns/src/subscribe.cpp:17-23 | adds one connection under one module and changes no other pair |
| Subscriptions.SubscribeList.UnSubscribe | Lars/lars_dns/src/subscribe.cpp:25-36 | removes this one pair, and the module with its last connection |
| Subscriptions.SubscribeList.Publish | Lars/lars_dns/src/subscribe.cpp:121-140 | the nested loops compute Published of the old pending index, for changes with repetitions too; the subscription index stays |
| Subscriptions.SubscribeList.MakePublishMap | Lars/lars_dns/src/subscribe.cpp:93-114 | a copy of the entries of exactly the online connections; the pending index stays |
| DnsSafety.StepKeeps | Lars/lars_dns/src/dns_route.cpp:276-326 | every single step of publisher, request callbacks, push tasks, connections and database editors that obeys the eight named rules keeps the invariant, whatever it interleaves with |
| DnsSafety.RunKeeps | Lars/lars_dns/src/dns_route.cpp:276-326 | so does every run |
| DnsSafety.NoLostUpdate | Lars/lars_dns/src/dns_route.cpp:289-308 | no lost route update: at every moment of a run that obeys the rules each subscribed client (module with non-negative low half) takes in the table's current route, or one of the steps that will tell it is under way: an unread change row, a publish, a queued push, a callback before its read or its send |
| DnsSafety.QuietMeansUpToDate | Lars/lars_dns/src/dns_service.cpp:35-82 | whenever the service comes to rest in such a run, every client knows the current route of every module it asked for |
| DnsSafety.RequestKeeps | Lars/lars_dns/src/dns_service.cpp:46-61 | subscribing before reading leaves no window |
| DnsSafety.SwapKeeps | Lars/lars_dns/src/dns_route.cpp:294-297 | swapping before publishing leaves no window |
| DnsSafety.LossKeepsIff | Lars/lars_dns/src/subscribe.cpp:82-86 | a push or an answer that is lost, because send_message refuses it or because its client does not survive it or an earlier one, keeps the guarantee if and only if the module is owed a newer change, the client happens to hold its current route, or another push of it is still to come |
| DnsSafety.EditKeepsIff | Lars/lars_dns/src/dns_route.cpp:284-308 | an edit of any kind at any moment, whatever its version and rows, keeps the guarantee if and only if each module has a row that will still be read, or had none unread and is not changed, or had some that the edit overtakes and is caught up with anyway |
| DnsSafety.ChangeRowsKeepIff | Lars/lars_dns/src/dns_route.cpp:213-249 | an edit with a readable version keeps the guarantee if and only if every module it changes has a change row of its own or an older one that will be read |
| DnsSafety.ReusedVersionKeepsIff | Lars/lars_dns/src/dns_route.cpp:146-150 | an edit under the version read last, with nothing unread, keeps the guarantee if and only if it changes nothing |
| DnsSafety.BootEditKeepsIff | Lars/lars_dns/src/dns_route.cpp:281 | an edit before the change table is cleared keeps it if and only if it changes nothing |
| DnsSafety.FailedLoadKeepsIff | Lars/lars_dns/src/dns_route.cpp:294-298 | a failed table query keeps it if and only if the index is current anyway for each module of the pass that no later pass will load |
| DnsSafety.FailedChangesKeepIff | Lars/lars_dns/src/dns_route.cpp:301-308 | a failed change query keeps it if and only if each client that should have been told has the route already, is about to read it, or has a push of it coming |
| DnsCounterexamples.SameVersionIsLost | Lars/lars_dns/src/dns_route.cpp:146-150 | a run in which only the rule on versions is broken, by an edit under the version read last, ends at rest with an outdated client |
| DnsCounterexamples.OvertakenRowIsLost | Lars/lars_dns/src/dns_route.cpp:213-223 | the same for an edit under a version below that of an unread one, whose change row is then not read |
| DnsCounterexamples.OversizedAnswerIsLost | Lars/lars_reactor/src/tcp_client.cpp:136-140 | the same for a push above 65527 bytes, or of none at the end of a read, which its client does not survive |
| DnsCounterexamples.MissingChangeRowIsLost | Lars/base/sql/dns_route_drop.sql:3-4 | the same for an edit that writes no change row with its version, as the scripts that fill and empty the table do |
| DnsCounterexamples.RefusedPushIsLost | Lars/lars_dns/src/subscribe.cpp:80-86 | the same for a push that finds the client's output buffer full (262144 unread answers): its result is not looked at and the entry is erased |
| DnsCounterexamples.EditAtBootIsLost | Lars/lars_dns/src/dns_route.cpp:281 | the same for an edit between building the first index and the deletion of all change rows |
| DnsCounterexamples.FailedLoadIsLost | Lars/lars_dns/src/dns_route.cpp:294-308 | the same for a failed table query: the change is announced and forgotten all the same |
| DnsCounterexamples.FailedChangesIsLost | Lars/lars_dns/src/dns_route.cpp:213-223 | the same for a failed change query |
| DnsCounterexamples.CollisionIsLost | Lars/lars_dns/src/subscribe.cpp:86 | the same for a publish between a push task's read and its erase, which is outside the lock |
| DnsCounterexamples.NegativeModuleIsLost | Lars/lars_dns/src/subscribe.cpp:57-65 | with all rules obeyed, a module with a negative low half is pushed under another key and its client stays outdated |
| DnsCounterexamples.ReusedDescriptorIsStuck | Lars/lars_dns/src/subscribe.cpp:97-109 | with all rules obeyed, a new connection on the descriptor of a closed one inherits its pending entry, and no push task is queued for it |
| DnsDelivery.SubscriptionsMirrorConnections | Lars/lars_dns/src/dns_service.cpp:12-31 | in every run a connection stands in the subscription index under exactly the modules of its own set, the index has no empty set, and a closed descriptor stands nowhere |
| DnsDelivery.StepKeepsDelivery | Lars/lars_dns/src/subscribe.cpp:39-89 | a pending entry of a connected client keeps a push task on its way to the client's own thread |
| DnsDelivery.OpenKeepsDeliveryIff | Lars/lars_dns/src/subscribe.cpp:97-109 | opening a connection keeps that guarantee if and only if its descriptor has no pending entry or a task is on its way anyway |
| DnsDelivery.NoStuckPush | Lars/lars_dns/src/subscribe.cpp:39-144 | in every run with clean opens no push is stuck, and at rest nothing is pending for a connected client |
| DnsDelivery.PublishKeepsIff | Lars/lars_dns/src/subscribe.cpp:121-144 | publishing keeps the guarantee of no lost update if and only if each affected client with a push under way has the module still to be read, holds its current route, or is owed a newer change |
| DnsMessages.PushTaskSendsEachOnce | Lars/lars_dns/src/subscribe.cpp:39-89 | whatever publisher, editors and other threads do between its steps, a push task sends exactly one message for each module pending at its start for each connection of its own loop, no other message, and at no earlier point a message twice |
| DnsMessages.StepCounts | Lars/lars_dns/src/subscribe.cpp:53-88 | each step sends a message if and only if it lowers by one what the task still owes |
| DnsMessages.NoMoreThanPublished | Lars/lars_dns/src/subscribe.cpp:39-144 | over every run: the messages about a module sent to a client, and those still on their way, are at most those on their way at the start and one for each publish that concerned the two; without a publish they are equal |
| DnsMessages.RoundServesEachClientOnce | Lars/lars_dns/src/subscribe.cpp:39-89 | in any interleaving without a publish: once the thread of a client that stays connected has started a push task and runs none, the client was sent exactly one message for each pending module, by however many tasks, and nothing is pending for it |
| DnsMessages.OnePublishOneMessage | Lars/lars_dns/src/subscribe.cpp:39-144 | one publish and the round after it: a client with nothing pending before is sent exactly one message for each changed module it subscribes to, none for any other, and nothing is left pending |
| AnswerSizes.FatalAnswers | Lars/base/proto/lars.pb.cpp:871-897 | an encoded answer is fatal to its receiver if and only if it exceeds 65527 bytes, or is the one for module (0, 0) without hosts and ends a read; up to 2729 hosts it never is too long, above 10921 with ip and port it always is |
| AnswerSizes.AnswerSizeIsLength | Lars/base/proto/lars.pb.cpp:871-897 | the size computed for an answer is the length of its encoding byte by byte: tags, varints of seven bits a byte, negative numbers extended to 64 bits, hosts embedded with their lengths |
| AnswerSizes.VarintRoundTrip | Lars/base/proto/lars.pb.cpp:871-897 | a varint can be read back, and only its last byte is without the top bit |
| AnswerSizes.SizeIgnoresOrder | Lars/base/proto/lars.pb.cpp:879-884 | the size of an answer does not depend on the order of its hosts |
| Publishing.Publisher.Start | Lars/lars_dns/src/dns_route.cpp:280-281 | the start of the publisher thread is the protocol's boot step, with or without a failing query |
| Publishing.Publisher.Poll | Lars/lars_dns/src/dns_route.cpp:284-321 | one pass of the polling loop over the real objects refines the publisher's steps of the protocol, for every combination of failing queries; every thread gets one more push task if and only if a new version was found; the load time moves only with a successful load |
| Publishing.Publisher.Load | Lars/lars_dns/src/dns_route.cpp:294-298 | a successful load becomes the map readers see and the old one the buffer; a failed one leaves the readers' map alone |
| Publishing.Publisher.Announce | Lars/lars_dns/src/dns_route.cpp:301-308 | pending index, push tasks and change rows after a new version; what is pending is so when the tasks are sent |
| Publishing.Publisher.Check | Lars/lars_dns/src/dns_route.cpp:284-321 | every shared object after one pass, for each combination of failing queries; readers get the new index before it is announced, and what is announced is pending before the tasks are sent |
| Publishing.PassRuns | Lars/lars_dns/src/dns_route.cpp:284-321 | the steps of a pass can be taken one after the other and amount to: new version, swapped indexes, published changes, one task per thread, old rows deleted |
| DnsService.AnswerMatchesTable | Lars/lars_dns/src/dns_service.cpp:60-75 | for every table the answer to a request holds exactly the addresses of the rows with that pair of ids, an address with a negative port as packing leaves it |
| DnsService.AnswerIsRightIff | Lars/lars_dns/src/dns_service.cpp:60-75 | the answer names no unlisted address if and only if with each listed address of a negative port the one below it is listed; it leaves none out if and only if the one above it is |
| DnsService.HostRoundTrip | Lars/lars_dns/src/dns_service.cpp:69-72 | a host key gives back its ip and port if and only if the port is not negative |
| DnsService.Connection.ClearSubscribe | Lars/lars_dns/src/dns_service.cpp:18-31 | a closing connection leaves the index exactly as if each of its modules had been given up, and no other connection is touched |
| DnsService.Service.GetRequest | Lars/lars_dns/src/dns_service.cpp:35-82 | exactly one answer is sent, from the index as it is; the connection is subscribed in both places unless it was already or has no set; when the index is read the subscription is in place |
| DnsService.Service.PushChangeTask | Lars/lars_dns/src/subscribe.cpp:39-89 | run undisturbed: each online connection gets exactly one message per pending module with the hosts of the repacked key, its entry is erased, and nobody else is touched; descriptors without a connection, such as the thread's eventfd, are passed over |
| DnsService.PushedMessages | Lars/lars_dns/src/subscribe.cpp:57-83 | message i of a push names ids that pack to the repacked i-th key and carries the hosts the index has for that key; for a key packed from a pair with a non-negative low half it names this very pair |
| DnsRefinement.RequestRun | Lars/lars_dns/src/dns_service.cpp:35-82 | the protocol's steps Request, Fetch and Reply in a row can be taken and amount to: subscribed, and sent the route of the index |
| DnsRefinement.AnswerRequest | Lars/lars_dns/src/dns_service.cpp:35-82 | get_request over the objects takes exactly these steps, whatever the size of the answer |
| DnsRefinement.CloseConnection | Lars/lars_dns/src/dns_service.cpp:18-31 | the hook of a closing connection and its removal are the step Close |
| DnsRefinement.TaskRun | Lars/lars_dns/src/subscribe.cpp:39-89 | a push task's steps for its pending pairs, in any order of them, can be taken as long as no message meets a broken buffer, and amount to: each pair sent, every entry of the thread's connections erased |
| DnsRefinement.RunPushTask | Lars/lars_dns/src/subscribe.cpp:39-89 | push_change_task over the objects takes exactly these steps for some order of the pairs, and each connection is sent one message for each of its own pairs in that order, with the ids that pack to the repacked module and the hosts the index has for it |
| DnsTransport.AfterSendIsSendMessage | Lars/lars_reactor/src/tcp_conn.cpp:132-166 | a send in the protocol is send_message on the output buffer it stands for, for every message of the length given: as many bytes are queued, the buffer is broken exactly if it is left with its window off the front, and the client is told something exactly if the message is taken and the client survives it |
| DnsTransport.SendOn | Lars/lars_reactor/src/tcp_conn.cpp:132-166 | send_message on a connection object whose output buffer is what the protocol's connection says leaves it what AfterSend says |
| DnsTransport.WriteOn | Lars/lars_reactor/src/tcp_conn.cpp:106-130 | do_write on such an object takes the protocol's step Write for exactly the bytes that Flush takes, or closes the connection |
| BufferPool.IoBuf.Adjust | Lars/lars_reactor/src/io_buf.cpp:16-24 | the window moves to the front and holds the same bytes |
| BufferPool.IoBuf.Copy | Lars/lars_reactor/src/io_buf.cpp:26-30 | the window of the other block, from the front |
| BufferPool.IoBuf.Pop | Lars/lars_reactor/src/io_buf.cpp:32-35 | the window loses its first bytes |
| BufferPool.SizeClassIsSmallestFit | Lars/lars_reactor/src/buf_pool.cpp:66-90 | the class chosen is the smallest of the seven sizes that holds the request |
| BufferPool.TrueUsageBound | Lars/lars_reactor/src/buf_pool.cpp:35-55 | true usage exceeds the accounted one by one block of each size, 13652 KB, and so stays below the limit plus that |
| BufferPool.BufPool.constructor | Lars/lars_reactor/src/buf_pool.cpp:22-32 | the pool the program starts with: 5001, 1001, 501, 201, 51, 21 and 11 blocks, all free, on acyclic disjoint lists |
| BufferPool.BufPool.MakeIoBufList | Lars/lars_reactor/src/buf_pool.cpp:35-55 | one list of num + 1 fresh blocks that share no memory; num of them are accounted for |
| BufferPool.BufPool.AllocBuf | Lars/lars_reactor/src/buf_pool.cpp:64-124 | null above 8 MB; the process exits if and only if the list of the smallest fitting size is empty and the accounted memory with one more such block would reach 5 GB; otherwise the caller becomes the only holder of an empty block of the smallest fitting size, lists stay acyclic, and created blocks stay the sum of free and held ones |
| BufferPool.BufPool.Revert | Lars/lars_reactor/src/buf_pool.cpp:127-141 | the block goes to the front of the list of its size, which exists, and is held no more; nothing is created or lost |
| ReactorBuffer.ReactorBuf.Apart | Lars/lars_reactor/src/reactor_buf.cpp:6-35 | two buffers of one pool never share memory |
| ReactorBuffer.ReactorBuf.Pop | Lars/lars_reactor/src/reactor_buf.cpp:18-27 | fails its assertion if and only if there is no block or too few bytes; otherwise the queue loses its first bytes, and the block goes back with the last one |
| ReactorBuffer.ReactorBuf.RoomMeans | Lars/lars_reactor/src/reactor_buf.cpp:116-144 | a request for room aborts if and only if the window is not at the front; it exits if and only if a block is needed, none of the smallest fitting size is free, and the pool has reached its limit; otherwise it is refused if and only if the sum exceeds 8 MB |
| ReactorBuffer.ReactorBuf.SendData | Lars/lars_reactor/src/reactor_buf.cpp:116-150 | appends all bytes or none, across first allocation, growing and copying, and exits if and only if the pool is exhausted for the block it needs; blocks of other buffers are untouched, and how the next request will end is known |
| ReactorBuffer.ReactorBuf.ReadData | Lars/lars_reactor/src/reactor_buf.cpp:39-98 | each answer of read has its outcome: the announced bytes are appended, fewer fail the assertion, after a count of zero the up to 4096 bytes that came are appended or, exactly if they do not fit behind the queue, written past the block; end of stream, errors, missing counts and lack of room append nothing |
| ReactorBuffer.ReactorBuf.Write2fd | Lars/lars_reactor/src/reactor_buf.cpp:153-177 | fails its assertion if and only if there is no block or the window is not at the front; otherwise the queue loses exactly what was written and starts at the front again |
| ReactorBuffer.ReactorBuf.Peek | Lars/lars_reactor/src/reactor_buf.cpp:102-105 | the bytes a caller sees are the first of the queue |
| Framing.DecodeEncode | Lars/lars_reactor/src/tcp_conn.cpp:141-149 | a header field read back is the int that was written |
| Framing.LowestByteFirst | Lars/lars_reactor/src/tcp_conn.cpp:141-149 | a header field lies lowest byte first: the four bytes weigh 1, 256, 65536 and 16777216 |
| Framing.FrameLayout | Lars/lars_reactor/src/tcp_conn.cpp:132-150 | a frame is eight bytes longer than its body: first the id, then the length of the body, then the body |
| Framing.EncodeDecode | Lars/lars_reactor/src/tcp_conn.cpp:73 | and four bytes read as an int and written again are the same bytes |
| Framing.StreamConcat | Lars/lars_reactor/src/tcp_conn.cpp:132-150 | the stream of two rows of messages is one stream after the other |
| Framing.ParseKeepsBytes | Lars/lars_reactor/src/tcp_conn.cpp:70-101 | for all bytes: the messages dispatched and the bytes kept are the bytes received; nothing is lost or made up |
| Framing.ParseAppend | Lars/lars_reactor/src/tcp_conn.cpp:70-102 | a pass over more bytes does what a pass over the first ones does and then a pass over what that one kept and the new ones |
| Framing.ResidueBound | Lars/lars_reactor/src/tcp_conn.cpp:74-85 | what a pass keeps is less than 65535 bytes |
| Framing.ParseFrame | Lars/lars_reactor/src/tcp_conn.cpp:73-100 | a frame is dispatched as the message it was made of; with an empty body as the last thing in the buffer it is dispatched and the program aborts |
| Framing.ParsePart | Lars/lars_reactor/src/tcp_conn.cpp:79-83 | a proper part of a frame is kept and nothing is dispatched |
| Framing.ParseOversized | Lars/lars_reactor/src/tcp_conn.cpp:74-78 | a body above the limit closes the connection as soon as its header is complete |
| Framing.EndingMeans | Lars/lars_reactor/src/tcp_conn.cpp:70-101 | for all bytes, where a pass ends: at a header whose length is negative or above 65527, in want of the rest of a header or a body, or at a message without a body at the end; with ParseKeepsBytes that leaves one result |
| Framing.FatalMeans | Lars/lars_reactor/src/tcp_conn.cpp:70-101 | a receiver goes on to what follows a message if and only if the message is not fatal, and otherwise ends as the case says |
| Sessions.CuttingDoesNotMatter | Lars/lars_reactor/src/tcp_conn.cpp:56-103 | however the bytes were cut into reads, an open connection has done what one pass over all of them would do |
| Sessions.OpenSession | Lars/lars_reactor/src/tcp_conn.cpp:56-103 | for any peer and any bytes: dispatched messages and residue are the bytes received, and the residue is below 65535 |
| Sessions.SessionOfStream | Lars/lars_reactor/src/tcp_conn.cpp:88-99 | for messages within the limit, bodies empty or not: the connection survives if and only if no read ends right behind a message without a body; then exactly the messages that arrived are dispatched, in order |
| Sessions.EndsInEmptyMeans | Lars/lars_reactor/src/tcp_conn.cpp:88-99 | that condition spelled out over the message boundaries |
| Sessions.RoundTrip | Lars/lars_reactor/src/tcp_conn.cpp:56-166 | for bodies of 1 to 65527 bytes and any cutting: always a prefix dispatched and a proper part of the next frame kept; all of them and nothing kept once every byte arrived |
| Sessions.OversizedCloses | Lars/lars_reactor/src/tcp_conn.cpp:74-78 | the messages before an oversized one are dispatched, and the connection is closed when its header is complete |
| Sessions.SentIsDispatched | Lars/lars_reactor/src/tcp_conn.cpp:56-166 | from the sender's record (accepted = written + queued) and the receiver's (one pass over what was received): the receiver has dispatched the first accepted messages, and all of them when all arrived |
| EventLoops.WithdrawUndoesRegister | Lars/lars_reactor/src/event_loop.cpp:87-164 | registering another flag for a descriptor and withdrawing it leaves its interest and every other descriptor as before |
| EventLoops.RegisterKeepsWiredIff | Lars/lars_reactor/src/event_loop.cpp:102-112 | a registration leaves a callback for every watched flag if and only if it does not ask for both directions at once (or a write callback was there) |
| EventLoops.AlwaysServed | Lars/lars_reactor/src/event_loop.cpp:38-79 | over every history of requests with one direction each, whatever epoll reports for a descriptor is served by the callback registered for it, never by a null pointer; a hang-up or error alone goes to the read callback, failing that to the write callback, and without either takes the descriptor out |
| EventLoops.LatestReader | Lars/lars_reactor/src/event_loop.cpp:102-112 | who is called for what arrives is whoever registered for it last, through any later requests but another registration for reading, a withdrawal of it, and the removal |
| EventLoops.LatestWriter | Lars/lars_reactor/src/event_loop.cpp:102-112 | the same for room to write |
| EventLoops.BatchRuns | Lars/lars_reactor/src/event_loop.cpp:43-76 | while callbacks take no descriptor but their own out of the loop, as connections do, the assertion of line 46 holds and a callback is called at every turn of every batch |
| EventLoops.BatchServedIff | Lars/lars_reactor/src/event_loop.cpp:43-76 | a batch is served to its end if and only if no callback removes a descriptor whose turn in the batch is still to come (interest withdrawn from none, none registered again) |
| EventLoops.LoopRuns | Lars/lars_reactor/src/event_loop.cpp:38-79 | over every run of rounds, each a batch and then tasks that may ask for anything, the loop never fails the assertion and never calls a null pointer |
| EventLoops.EventLoop.AddIoEvent | Lars/lars_reactor/src/event_loop.cpp:87-128 | map, set of watched descriptors and kernel stay in agreement if and only if epoll_ctl has memory or the descriptor was already watched for the mask |
| EventLoops.EventLoop.DelIoEvent | Lars/lars_reactor/src/event_loop.cpp:132-142 | all three forget the descriptor |
| EventLoops.EventLoop.DelIoEventMask | Lars/lars_reactor/src/event_loop.cpp:145-164 | the mask is withdrawn, and with its last flag the descriptor; the records stay in agreement if and only if epoll_ctl has memory or need not be asked to change anything |
| EventLoops.EventLoop.ExecuteReadyTasks | Lars/lars_reactor/src/event_loop.cpp:20-34 | every ready task runs once, in order, and none is left |
| Threads.ThreadQueue.Send | Lars/lars_reactor/include/thread_queue.h:35-51 | the task is last in the queue, and the eventfd is readable and in step |
| Threads.ThreadQueue.Recv | Lars/lars_reactor/include/thread_queue.h:54-67 | everything queued is handed over and the queue is the caller's old one; the counter stays in step if and only if that one was empty |
| Threads.EverythingArrives | Lars/lars_reactor/include/thread_queue.h:35-67 | over every interleaving of senders and receivers with empty queues: the batches received and then the queue are what was sent, in order, and the eventfd counter equals the queue length (up to its maximum) |
| Threads.InStepIff | Lars/lars_reactor/include/thread_queue.h:54-67 | the counter stays in step at every moment if and only if every receiver brings an empty queue |
| Threads.OneMore | Lars/lars_reactor/src/thread_pool.cpp:25-53 | connections and tasks in a queue keep their own orders |
| Threads.DealTaskMessage | Lars/lars_reactor/src/thread_pool.cpp:16-55 | the whole queue is taken; its connections are opened and its tasks become ready, each in order |
| Threads.ThreadPool.GetThread | Lars/lars_reactor/src/thread_pool.cpp:113-120 | the queue the round-robin counter picks, and the counter's next value |
| Threads.NextIndex | Lars/lars_reactor/src/thread_pool.cpp:113-120 | the k-th call picks thread k modulo their number |
| Threads.ThreadPool.SendTask | Lars/lars_reactor/src/thread_pool.cpp:122-138 | one message, the same, at the end of every thread's queue |
| Threads.StepKeeps | Lars/lars_reactor/src/thread_pool.cpp:16-138 | each step of acceptor, poster and threads keeps the account of every thread: run + ready + queued = given |
| Threads.NothingTwice | Lars/lars_reactor/src/thread_pool.cpp:16-138 | at any moment of any interleaving no thread has run a task twice or out of order |
| Threads.EverybodyDoesEverythingOnce | Lars/lars_reactor/src/thread_pool.cpp:16-138 | once a thread has nothing left to do it has run every posted task once, in order, and opened exactly its share of the accepted connections |
| Threads.EveryNthIs | Lars/lars_reactor/src/thread_pool.cpp:113-120 | that share: its j-th connection is the accepted connection i + j n |
| TcpConnection.TcpConn.constructor | Lars/lars_reactor/src/tcp_conn.cpp:31-54 | a new connection is in good order and watched for reading only |
| TcpConnection.LiveMeans | Lars/lars_reactor/src/tcp_conn.cpp:8-190 | what good order comes to: accepted is written and queued, one pass over what arrived gives what was dispatched and what is kept, both windows are at the front, and the kernel watches for reading always and for writing exactly while something is queued, with this connection as the callback |
| TcpConnection.TcpConn.QueueFrame | Lars/lars_reactor/src/tcp_conn.cpp:146-158 | a frame is queued whole or refused; a refusal over the body leaves the queue as it was if and only if it was empty, and otherwise without its first eight bytes and with its window off the front |
| TcpConnection.TcpConn.SendMessage | Lars/lars_reactor/src/tcp_conn.cpp:132-166 | refused if and only if 8 + msglen + queued exceeds 8 MB; aborts if and only if the window is off the front; exits if and only if the pool is exhausted for the header's block or then for the body's; an accepted message is appended as one frame; after a refusal the connection is in good order if and only if it left no trace; watched for writing if and only if something is queued; blocks and registrations of other connections are kept |
| TcpConnection.TcpConn.Drain | Lars/lars_reactor/src/tcp_conn.cpp:108-121 | for every sequence of write results: exactly the bytes taken leave the queue, in order |
| TcpConnection.FlushMeans | Lars/lars_reactor/src/tcp_conn.cpp:108-121 | what Flush takes is the queue or all the room found before the first call that finds none, whichever is less; it fails if and only if that call found an error while something was left |
| TcpConnection.TcpConn.DoWrite | Lars/lars_reactor/src/tcp_conn.cpp:106-130 | written + queued stays the stream of accepted messages; an error closes the connection; otherwise it is watched for writing if and only if something is left, and still for reading; blocks and registrations of other connections are kept |
| TcpConnection.TcpConn.Dispatch | Lars/lars_reactor/src/tcp_conn.cpp:70-101 | the loop over the pooled buffer dispatches and ends as Parse says, in all three endings, while the callbacks send messages back on the same connection, which its output buffer takes as AnswersTo says |
| TcpConnection.TcpConn.DoRead | Lars/lars_reactor/src/tcp_conn.cpp:56-103 | the complete case distinction of one read event with callbacks that reply on their own connection, each as it likes at its place in the read; one that stays open has head 0, fewer than 65535 bytes, has dispatched what one pass over everything received would, and is in good order if and only if no reply was refused with a trace; blocks and registrations of other connections are kept |
| TcpConnection.TcpConn.SendAll | Lars/lars_reactor/src/tcp_conn.cpp:132-166 | a row of messages sent one after the other, results ignored: taken, refused or aborted as AnswersTo says |
| TcpConnection.AnswersConcat | Lars/lars_reactor/src/tcp_conn.cpp:132-166 | sending one row of messages after another is sending both in one row |
| TcpConnection.AllAnswersTaken | Lars/lars_reactor/src/tcp_conn.cpp:132-166 | messages whose frames fit into 8 MB beside the queue are all taken, in order |
| TcpConnection.TcpConn.CleanConn | Lars/lars_reactor/src/tcp_conn.cpp:169-189 | the loop forgets the descriptor and both blocks are back in the pool; blocks and registrations of other connections are kept |
| TcpConnection.EndToEnd | Lars/lars_reactor/src/tcp_conn.cpp:56-166 | two connections in good order at the two ends of a faithful stream: the receiver has dispatched a prefix of what the sender accepted, and all of it once nothing is queued or in transit |
| TcpServers.AcceptAmong | Lars/lars_reactor/src/tcp_conn.cpp:31-54 | a new connection, among any others of the same pool: it is live, and all of them are what they were |
| TcpServers.SendAmong | Lars/lars_reactor/src/tcp_conn.cpp:132-166 | sending on one connection: its whole record after an acceptance, a refusal without a trace and one that leaves a trace, and every other connection of the pool and the loop keeps its order and its record |
| TcpServers.WriteAmong | Lars/lars_reactor/src/tcp_conn.cpp:106-130 | writing: a live connection is closed over an error, or stays live with the bytes Flush takes moved from the front of its queue to what is written, and nothing else changed; a jammed one aborts the program; the others as before |
| TcpServers.ReadAmong | Lars/lars_reactor/src/tcp_conn.cpp:56-103 | a read event with all its callbacks and replies: closed over exactly the named cases; otherwise its whole record: what arrived is received, what one pass over the kept and the new bytes finds is dispatched, the rest kept, the replies accepted and queued as AnswersTo says; live unless a reply leaves a trace; the others as before |
| TcpServers.TcpServer.constructor | Lars/lars_reactor/src/tcp_server.cpp:22 | a server without connections over loops that watch only the program's own descriptors |
| TcpServers.TcpServer.Accept | Lars/lars_reactor/src/tcp_server.cpp:41-48 | a connection on a descriptor not in use joins in good order with an empty record; the loops watch connections and the program's own descriptors only, and the count is the number of connections |
| TcpServers.TcpServer.Send | Lars/lars_reactor/src/tcp_conn.cpp:132-166 | send_message on a connection of a server: when it aborts, exits, takes or refuses, what becomes of its record in each case, and that the server stays in order |
| TcpServers.TcpServer.Write | Lars/lars_reactor/src/tcp_conn.cpp:106-130 | a writable descriptor: the connection leaves the server if and only if the flush fails, and otherwise has exactly what Flush takes moved from its queue to what is written |
| TcpServers.TcpServer.Read | Lars/lars_reactor/src/tcp_conn.cpp:56-103 | a readable descriptor: the connection leaves the server if and only if the read or a header fails, and otherwise has received, dispatched, kept, accepted and queued exactly what one pass and its replies come to; it stays live if and only if it was and no reply was refused with a trace |
| TcpServers.TcpServer.DecreaseConn | Lars/lars_reactor/src/tcp_server.cpp:50-57 | a closed connection leaves the server and all else is what it was |
| TcpServers.TcpServer.Handle | Lars/lars_reactor/src/tcp_server.cpp:22-57 | what each event makes of the connection it is about, spelled out: a new live record for an accept; the message accepted and its frame queued, or refused, for a send; the bytes Flush takes written, or the connection gone, for a writable descriptor; bytes received, messages dispatched, rest kept and replies accepted, or the connection gone, for a readable one; an event on a connection that is not open does nothing, and no event touches another connection |
| TcpServers.TcpServer.Serve | Lars/lars_reactor/src/tcp_server.cpp:22-57 | over every run of accepts, sends, writes and reads until one ends the program: the states between the events are related one by one by the effect of the event between them, from the first state to the last; every open connection is live or jammed, the count is right, the loops watch nothing else; only an event on an open connection ends the run, a write exactly on a jammed one |
| TcpServerRuns.LifeOfConnection | Lars/lars_reactor/src/tcp_server.cpp:22-57 | for every connection open after any part of a run there is the moment it was opened, the start or an accept with an empty record: since then it was open all the time, received exactly the bytes that arrived on its descriptor, accepted exactly the messages sent on it and not refused, and wrote as many bytes as its descriptor took |
| TcpServerRuns.AccountStays | Lars/lars_reactor/src/tcp_conn.cpp:56-166 | from any moment at which the account of a connection balances, it balances after any further events: dispatched and kept is what one pass over everything received finds, and while the connection is live, written and queued is the stream of everything accepted |
| TcpServerRuns.ServedExactly | Lars/lars_reactor/src/tcp_server.cpp:22-57 | a server that starts empty: whatever happens, each open connection has dispatched exactly the messages in the bytes that arrived since its accept and keeps the rest; if it is live, the bytes its descriptor took and those still queued are the frames of the messages taken for it since then, in order |

## Left out

- Balance.DocumentedRunsKeepPartition: speaks of the variant with the erase; the program as written is covered by WrittenPartitionIff.
- Reconcile.UpdateTwice: speaks of the variant with the erase; as written a second application is covered by SecondUpdateDefinedIff.
- Schedule.ProbePick: for mixed queues it speaks of the variant without line 64; as written the schedule is MixedPick.
- Health.AlwaysWithinThresholds: rates are real numbers, so rounding of the double division is not modelled.
- RouteIndex.Route.LoadChanges: the query passes the size of its buffer instead of the length of its text; what the server makes of the bytes behind the text is the parameter ok.
- ReactorBuffer.ReactorBuf.ReadData: what happens after a write past the end of a block is undefined and not modelled; such a read ends in Overrun.
- TcpConnection.TcpConn.DoWrite: epoll_ctl is taken to succeed in connections; its failure is modelled in EventLoops.EventLoop.AddIoEvent.
- TcpConnection.TcpConn.DoRead: callbacks reply on their own connection; sending on another one from a callback is TcpServers.SendAmong and not shown inside the read. Exits are exact for the read itself; that one comes from a reply is said, not which reply it is.
- TcpServers.ReadAmong: of a queue that a refused reply leaves with its window off the front only the length is said; nothing reads it any more, because its next use aborts.
- TcpServers.TcpServer.Serve: says nothing after an abort, an exit or an overrun, which end the run.
- TcpServers.TcpServer.Accept: the limit on the number of connections is checked in do_accept before and is not part of it.
- DnsService.Service.GetRequest: the outbox of a connection holds the calls of send_message; what becomes of them is TcpConnection.TcpConn.SendMessage.
- DnsMessages.NoMoreThanPublished: counts calls of send_message; which of them are taken is DnsTransport.AfterSendIsSendMessage and TcpConnection.TcpConn.SendMessage.
- EventLoops.BatchServedIff: a descriptor removed before its turn and registered again for another direction is left out; BatchRuns covers every batch in which none is removed by others.
- TcpConnection.TcpConn.CleanConn: the close hook is not called here; it is DnsService.Connection.ClearSubscribe.
- Threads.DealTaskMessage: the connections are returned as descriptors; opening them is TcpConnection.TcpConn.constructor.
- DnsRefinement.RunPushTask: runs without interference; its interleaving is in the protocol files.
- Publishing.Publisher.Poll: one pass of the loop; sleep is left out, and in the protocol a reload may happen at any poll.
- LoadBalancing.LoadBalance.ChoiceOneHost: taking the front of an empty list is undefined and excluded; Balance.WrittenPartitionIff and Balance.DocumentedRunsKeepPartition say when it cannot come to that.
- LoadBalancing.LoadBalance.Update: freeing a host twice is undefined and excluded; Balance.SecondUpdateDefinedIff says when it would happen.
- LoadBalancing.LoadBalance.Report: counting on a freed host is undefined and excluded, as above.
- 32-bit wrap-around of the call counters, the access counter and the byte counts: they are unbounded.
- Sockets, epoll_wait, eventfd and MySQL as such: their answers are parameters. Interrupted calls are retried by the program and not shown.
- Threads and the memory model: steps are atomic at the grain of one lock or one read of shared data.
- Header fields lie lowest byte first, as on the machines the program targets.
- tcp_client, which keeps old buffers over a reconnection and otherwise repeats tcp_conn; the UDP server and client; lars_api; the reporter.
- The connection limit of do_accept, which is checked and updated on different threads and is not an invariant.
- Protobuf encoding: the protocol allows any length for a message; AnswerSizes.AnswerSizeIsLength has the real encoding of a route answer, without its decoder.
- Configuration files, printing and main functions.
