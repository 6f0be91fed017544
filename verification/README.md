# Verification of LAPAS: home cleanup rules and the user API

LAPAS keeps the home folders of a LAN party's guests in two layers and cleans both before every login; a small
server registers the guests and keeps every machine's user list up to date. This project models the two programs
with the most intricate logic and proves what they promise.

**The cleanup (`bin/keepEngine`).** A `.keep` file is an ordered list of rules, and a later rule overrules every
earlier one that matches the same path. The engine does not scan the list. It grows a tree of segment patterns in
place, answers a path by a walk that overwrites a shared result, and lets one bit of that result, `descend`, decide
between removing a whole folder and going inside it.

| file | what it holds |
|---|---|
| `Glob.dfy` | the rewriting of a segment pattern to a regular expression, the meaning of that expression, the glob language |
| `GlobExact.dfy` | when the two agree, compared by the shortest segments they accept |
| `RuleText.dfy` | the grammar of rule lines and files, the enforced `.keep` rule |
| `DecisionTree.dfy` | the walk and the tree rewriting on values, and the ordered rule list as the reference |
| `RuleOrder.dfy` | tree and rule list agree: actions, `descend`, finality |
| `InnerStars.dfy` | rules with `**` before their end, which the code does not honour: the exact condition |
| `Aborts.dfy` | which rule files make lookups abort, and on which paths |
| `DecisionGraph.dfy` | the mutable graph, its methods proved against `DecisionTree` |
| `FolderTree.dfy` | folder trees, the file system calls, what survives |
| `Cleanup.dfy` | the recursive traversal, and the whole run from file text to surviving entries |
| `HonouredRules.dfy` | which rules the cleanup of every folder honours, and what holds of `.keep` behind any file |

**The API (`bin/lapas_api_proto`, `bin/lapas_api_server`, `bin/lapas_api_client`).**

| file | what it holds |
|---|---|
| `Wire.dfy` | the encoding of every type built from integers, text, time, `Result`, `Option`, `Vec` and structs |
| `Protocol.dfy` | the 17 packets, their tags and fields, packet streams |
| `ByteStreams.dfy` | encoders and decoders on mutable streams, proved against the two modules above |
| `PacketBytes.dfy` | the bytes of every packet, written out |
| `Utf8.dfy` | which bytes are text |
| `Framing.dfy` | several tasks writing to one socket under a lock: a state machine over all interleavings |
| `FramingProgress.dfy` | every call to send can be brought to its end |
| `Users.dfy` | the user index: registration and listings |
| `Server.dfy` | the request handler of a connection and the shared state |
| `Conversation.dfy` | the handler sent anything, and a command-line client with the server |
| `Transcripts.dfy` | what each reply of a connection holds, and that every request can be answered |
| `CacheSync.dfy` | subscribe, snapshot, notify: any number of daemons with the server, as a state machine |
| `CatchUp.dfy` | that machine comes to rest: quiet states are reached, and reconnections bring the list |
| `Daemon.dfy` | the daemon's packet handling, and how daemon and handler carry out the steps of that machine |
| `Delivery.dfy` | the message queues of the two machines above are what framing puts on the wire |
| `Wrappers.dfy` | datatypes and sequence facts used throughout |

How to read the results. Where a promise of the source holds only under a condition, the condition is proved to be
the exact one: `GlobExact.MatchingExact`, `InnerStars.StarsLastExact`, `Aborts.AbortsExactly`,
`HonouredRules.HonouredExactly`, `Wire.RoundTripExact`, `Protocol.PacketRoundTrip`, `CacheSync.UnaskedExact` and
`CacheSync.QuietAgrees`. Four places where the code does less than its comments or documentation say:

- A rule with `**` before its last segment is not honoured. The loop over offsets in `MultiSegmentNode` is bounded by
  the number of children and not by the number of path segments (`bin/keepEngine/src/decisiongraph.rs:119`); with at
  least two children more than the path has segments it runs past the end of the path and aborts. The rule file
  promises that every later rule overrules (`res/lapas/guest/mnt/homeBase/.keep:27`); this is proved for all rules with
  `**` at the end only, and shown to fail for every other rule: in the lookup, and in what a cleanup leaves, where only
  two kinds of such rules make no difference: those that begin with `.keep`, which the enforced rule overrules, and
  those with an empty segment (two slashes in a row, or one at either end), which match no entry.
- A pattern that spells the placeholder `@KEEPENGINEGLOBSTAR@`, alone or with the help of a star, is rewritten
  wrongly, and every such pattern matches some segment it should not or misses one it should match.
- A broadcast channel of capacity one makes a forwarder end when two notifications arrive before it reads the first.
  When all is quiet again nothing but a reconnection changes the daemon's list any more (`CacheSync.LagLasts`), and
  the list may be old (`CacheSync.LagIsStale`); a reconnection always brings the present one
  (`CatchUp.ReconnectRecovers`).
- A registration whose index cannot be written is kept in memory and not announced, so connected daemons are not told
  (`CacheSync.WriteFailsIsStale`).

Conventions. The graph as a whole is only a vector of children, so it is held as one more `Node` whose own pattern is
never looked at. Text of the API is held as bytes with the validity rules of section 4 of RFC 3629. Machine integers
are written out: lengths are cut to 32 or 64 bits where the source casts, and the next user id wraps at 2^64. Nothing
was executed.

## Model

| member | source | states |
|---|---|---|
| Glob.RewritingExact | bin/keepEngine/src/decisiongraph.rs:143-147 | replacing stars by the placeholder, escaping, and replacing back gives the character-by-character translation if and only if no literal `@` begins a placeholder |
| Glob.AcceptsGlob | bin/keepEngine/src/decisiongraph.rs:145-149 | the translated expression accepts exactly the strings in which each star stands for a run of non-slash characters |
| Glob.MatcherIsGlob | bin/keepEngine/src/decisiongraph.rs:139-149 | for patterns without such a clash `is_match` decides the glob language: a lone star needs a character, any other star may be empty |
| Glob.ClashExample | bin/keepEngine/src/decisiongraph.rs:145-146 | the placeholder itself, used as a pattern, matches the empty segment although the glob does not |
| Glob.DefaultMatchesAll | bin/keepEngine/src/decisiongraph.rs:209-221 | the built-in node, a single-segment node with the text `**`, matches every segment |
| Glob.RegexTexts | bin/keepEngine/src/decisiongraph.rs:143-148 | the texts handed to the regular expression engine, written out: `^[^/]+$` for a lone star, and for any other pattern without a clash each character escaped and each star as `[^/]*` between the anchors |
| Glob.EscapedCharacter | bin/keepEngine/src/decisiongraph.rs:145 | the characters that get a backslash are named one by one |
| GlobExact.MatcherIsScan | bin/keepEngine/src/decisiongraph.rs:143-149 | for every pattern but the lone star, with clashes or not, `is_match` accepts what the text between the two replacements spells when each placeholder in it, read from the left, is a star |
| GlobExact.ShortestAccepted | bin/keepEngine/src/decisiongraph.rs:143-149 | the text between the replacements without its placeholders is accepted, nothing shorter is, and nothing else of its length (every pattern but the lone star) |
| GlobExact.MatchingExact | bin/keepEngine/src/decisiongraph.rs:139-149 | `is_match` decides the glob language on all segments if and only if the pattern has no clash |
| RuleText.SplitExact | bin/keepEngine/src/decisiongraph.rs:245 | splitting at slashes yields exactly the slash-free parts whose join is the text |
| RuleText.ParseRuleExact | bin/keepEngine/src/decisiongraph.rs:223-256 | a line is read as a rule if and only if it spells that rule with the two actions in either order |
| RuleText.SkippedLine | bin/keepEngine/src/main.rs:26 | a comment, or a line of white space only, makes no difference wherever it stands in the file |
| RuleText.AsciiWhite | bin/keepEngine/src/main.rs:26 | among the ASCII characters white space is the space and the five control characters from tab to carriage return |
| RuleText.ReadLineExactly | bin/keepEngine/src/main.rs:24-29 | every other line adds exactly the valid rule it spells, and is an error if and only if it spells none |
| RuleText.KeepRuleText | bin/keepEngine/src/main.rs:32 | the line added behind every file is the rule base:keep user:delete for `.keep` |
| RuleText.KeepLineText | bin/keepEngine/src/main.rs:32 | that line, character by character |
| RuleText.KeepRuleEnforced | bin/keepEngine/src/main.rs:31-32 | behind any rules, `.keep` and all below it is kept in base and deleted in user, and all other paths are decided as before |
| RuleOrder.GrowAct | bin/keepEngine/src/decisiongraph.rs:293-333 | adding a rule to any graph built from rules yields exactly its actions on the paths it matches and changes nothing on the others |
| RuleOrder.GrowChain | bin/keepEngine/src/decisiongraph.rs:305-331 | after adding a rule, to any tree at all, the branches are the beginnings of that rule and the old branches it is not a beginning of |
| RuleOrder.GrowRightmost | bin/keepEngine/src/decisiongraph.rs:310-322 | the rightmost branch spells the new rule with its actions at the end, and nodes without actions keep having children |
| RuleOrder.BuildAct | bin/keepEngine/src/decisiongraph.rs:261-274 | the walk over the whole graph always sets actions, those of the last matching rule, so the Keep/Keep start value is never returned |
| RuleOrder.ReachesIffDescends | bin/keepEngine/src/decisiongraph.rs:183-193 | an inner node is met at the end of the path if and only if some rule goes on below the path and no later rule equals or begins it |
| RuleOrder.LastRuleWins | bin/keepEngine/src/decisiongraph.rs:261-274 | for all rule lists with `**` at the end of rules only and all paths, a lookup does not abort, returns the last matching rule's actions and reports `descend` exactly |
| RuleOrder.LastMatchDecides | bin/keepEngine/src/decisiongraph.rs:261-274 | the actions found are those of the rule that matches and has no matching rule behind it |
| RuleOrder.UnmatchedByDefault | bin/keepEngine/src/decisiongraph.rs:209-220 | where no rule matches, the base layer loses the path and the user layer keeps it |
| RuleOrder.NoDescendIsFinal | bin/keepEngine/src/decisiongraph.rs:175-194 | when `descend` is false, every longer path gets the same answer |
| DecisionTree.LookupShapedAll | bin/keepEngine/src/decisiongraph.rs:175-194 | on graphs built from rules the overwriting walk is total and leaves the actions set last and the disjunction of the `descend` bits |
| InnerStars.StarsLastExact | bin/keepEngine/src/decisiongraph.rs:109-125 | a rule is honoured behind every plain rule list on every path if and only if `**` stands in it at the end only |
| InnerStars.InnerStarIgnored | bin/keepEngine/src/decisiongraph.rs:118-123 | behind a plain `**` rule, a rule with an inner `**` has no effect on any path |
| InnerStars.PathForMatches | bin/keepEngine/src/decisiongraph.rs:118-123 | every rule matches some path, so an ignored rule is a broken promise |
| Aborts.MultiAborts | bin/keepEngine/src/decisiongraph.rs:119-121 | a `**` node with a single-segment node among its children, and no further such node below them, aborts the lookup of a path if and only if it has at least two children more than the path has segments |
| Aborts.InnerStarAborts | bin/keepEngine/src/decisiongraph.rs:119-121 | a `**` rule and behind it `**/s` for n different names abort exactly the paths of at most n - 2 segments |
| Aborts.AbortsExactly | bin/keepEngine/src/decisiongraph.rs:109-125 | for every rule list, the lookup of some path aborts if and only if in the graph a chain of single-segment nodes leads to a `**` node with at least three children |
| Aborts.BuildRegular | bin/keepEngine/src/decisiongraph.rs:276-333 | in every graph built from rules only `**` nodes are of the other kind, and of two or more children of a node not all are |
| DecisionGraph.Node.SingleGetAction | bin/keepEngine/src/decisiongraph.rs:175-194 | the method on the mutable node computes the walk on its tree, aborting exactly when that does |
| DecisionGraph.Node.MultiGetAction | bin/keepEngine/src/decisiongraph.rs:109-125 | the same for `**` nodes |
| DecisionGraph.Node.TryOffsets | bin/keepEngine/src/decisiongraph.rs:119-123 | the loop over offsets with the bound as written |
| DecisionGraph.Node.GetActionOfChildren | bin/keepEngine/src/decisiongraph.rs:190-192 | the children are asked in order and overwrite one result |
| DecisionGraph.Node.Retain | bin/keepEngine/src/decisiongraph.rs:305-309 | exactly the children with the pattern go, the others keep their order |
| DecisionGraph.Node.PushNew | bin/keepEngine/src/decisiongraph.rs:276-291 | a node is appended unless the segment has a double star beside other characters, and then nothing changes |
| DecisionGraph.Node.AppendUnlessLast | bin/keepEngine/src/decisiongraph.rs:310-322 | an inner segment reuses the last child only |
| DecisionGraph.Node.AddBelowAll | bin/keepEngine/src/decisiongraph.rs:324-331 | every child with the pattern grows by the rest of the rule, the others stay |
| DecisionGraph.Node.TraverseAdd | bin/keepEngine/src/decisiongraph.rs:294-333 | succeeds if and only if all segments are valid, and then the tree is the grown one |
| DecisionGraph.DecisionGraph.constructor | bin/keepEngine/src/decisiongraph.rs:209-222 | the graph starts with the built-in rule |
| DecisionGraph.DecisionGraph.AddRuleFromStr | bin/keepEngine/src/decisiongraph.rs:223-259 | a line that does not parse changes nothing, one that does grows the graph by its rule |
| DecisionGraph.DecisionGraph.GetAction | bin/keepEngine/src/decisiongraph.rs:261-274 | the lookup of a path text, from the fallback, over all children |
| DecisionGraph.IsBlank | bin/keepEngine/src/main.rs:26 | a line trims to nothing if and only if it has white space only |
| DecisionGraph.ParseRules | bin/keepEngine/src/main.rs:18-35 | the graph stands for the file's rules in order and the enforced rule behind them, or the first bad line is reported |
| FolderTree.FileTree.RemoveDir | bin/keepEngine/src/main.rs:63 | an attempt on a folder that is not empty changes nothing |
| FolderTree.FileTree.RemoveDirAll | bin/keepEngine/src/main.rs:68 | the folder and all below it goes, nothing else |
| FolderTree.RemovalExact | bin/keepEngine/src/main.rs:58-64 | removal is tried and succeeds exactly on the folders in which nothing survives and that are not kept |
| FolderTree.TakenWhole | bin/keepEngine/src/main.rs:65-80 | files, and folders that are not looked into, go or stay with all below them |
| FolderTree.SettledIsSteady | bin/keepEngine/src/main.rs:47-80 | whatever the lookups answer, what decides about an entry is the first folder above it that is not looked into |
| Cleanup.ShapedIsSteady | bin/keepEngine/src/decisiongraph.rs:175-194 | graphs from plain rules give what the traversal relies on: no lookup aborts, and not descending decides for everything below |
| Cleanup.CleanEntry | bin/keepEngine/src/main.rs:46-81 | for every graph, one entry and all below it is reduced to what survives; the emptiness result and the reported deletions are exact; a dry run changes nothing and reports the same; it aborts exactly when a lookup it comes to aborts, and then has removed nothing that survives |
| Cleanup.Traverse | bin/keepEngine/src/main.rs:43-83 | the same for all entries of a folder, in whatever order they are listed |
| Cleanup.CleanedByRules | bin/keepEngine/src/main.rs:43-83 | with `**` at the end of rules only, a cleanup comes to its end and leaves exactly the entries kept by their last matching rule and the folders above such entries |
| Cleanup.WithoutRules | bin/keepEngine/src/main.rs:43-83 | without any rules, base cleanup of every folder tree leaves exactly what begins with `.keep`, and user cleanup exactly the rest |
| Cleanup.RemainsByMode | bin/keepEngine/src/main.rs:52-55 | what remains is told in base mode by the base actions of the last matching rules and in user mode by their user actions |
| Cleanup.Run | bin/keepEngine/src/main.rs:110-114 | from the lines of any file to the surviving entries, aborted runs included; a file that does not parse touches nothing; what a plain file leaves is told for each layer by the actions its rules have for that layer |
| Cleanup.KeepFileEnforced | bin/keepEngine/src/main.rs:31-32 | `.keep` and all below it survives base cleanup and never survives user cleanup |
| Cleanup.CleanupIdempotent | bin/keepEngine/src/main.rs:43-83 | cleaning a second time changes nothing |
| Cleanup.EmptyIsReported | bin/keepEngine/src/main.rs:44-82 | a folder that ends up empty is reported empty, so every folder that must go is tried |
| HonouredRules.HonouredExactly | bin/keepEngine/src/main.rs:43-83 | a last rule is honoured by the cleanup of every folder tree, behind every plain file, for all actions and both modes, if and only if `**` stands in it at the end only, it begins with `.keep`, or it has an empty segment |
| HonouredRules.SplitGivesSegments | bin/keepEngine/src/decisiongraph.rs:245 | what `HonouredExactly` asks of a rule's segments holds of all that splitting a text can give |
| HonouredRules.KeepOverrules | bin/keepEngine/src/main.rs:31-32 | a longer rule that begins with `.keep` leaves no trace in the graph behind the enforced rule |
| HonouredRules.CoversBefore | bin/keepEngine/src/decisiongraph.rs:175-194 | a rule with an empty segment leaves the actions of every lookup of an entry as they were and takes no `descend` away |
| HonouredRules.KeepFileAlways | bin/keepEngine/src/main.rs:31-32 | behind any rules at all, base cleanup leaves `.keep` and all below it alone even if it aborts, and user cleanup that comes to its end leaves none of it |
| Wire.RoundTrip | bin/lapas_api_proto/src/proto.rs:64-173 | decoding an encoding with anything behind it gives the value and leaves exactly what was behind, for every nested type |
| Wire.RoundTripExact | bin/lapas_api_proto/src/proto.rs:165-173 | this holds if and only if every text is below 2^32 bytes and every vector below 2^64 entries |
| Wire.DecodedSound | bin/lapas_api_proto/src/proto.rs:64-173 | whatever is decoded has its type, fits, and re-encodes to the consumed bytes unless it holds a point in time |
| Wire.Extends | bin/lapas_api_proto/src/proto.rs:64-173 | further bytes can change the result of a decoding only if it ended for lack of bytes |
| Wire.LawfulClockExists | bin/lapas_api_proto/src/proto.rs:176-192 | what is asked of the text form of points in time can be met: some clock reads back every instant it writes |
| Utf8.TextExactly | bin/lapas_api_proto/src/proto.rs:150-164 | bytes are accepted as text if and only if they are the encodings of Unicode scalar values, one after the other |
| Protocol.FromFieldsOfPacket | bin/lapas_api_proto/src/lib.rs:11-66 | tag and fields determine each of the 17 packets |
| Protocol.PacketOfFields | bin/lapas_api_proto/src/lib.rs:11-66 | fields of the declared types make a packet with that tag and those fields |
| Protocol.DeclaredAtTag | bin/lapas_api_proto/src/proto.rs:235-250 | of the tests made in the order of declaration a packet passes exactly one, at the place that is its tag |
| Protocol.PacketRoundTrip | bin/lapas_api_proto/src/proto.rs:217-250 | a packet followed by any bytes decodes to itself and these bytes if and only if its lengths fit |
| Protocol.PacketCanonical | bin/lapas_api_proto/src/proto.rs:217-250 | every byte string that decodes to a packet without points in time is that packet's encoding |
| Protocol.TimelessExactly | bin/lapas_api_proto/src/models.rs:54-61 | only a shadow list with entries holds points in time |
| Protocol.PrefixIsShort | bin/lapas_api_proto/src/proto.rs:217-234 | a strict prefix of an encoding is neither a packet nor a protocol error |
| Protocol.StreamReceived | bin/lapas_api_server/src/api_services/mod.rs:39-41 | packets sent one after the other are received as exactly these packets |
| PacketBytes.EncodedAsLaidOut | bin/lapas_api_proto/src/lib.rs:11-66 | the bytes of each of the 17 packets, tag by tag and field by field in their order, written out down to single bytes |
| PacketBytes.HandshakeBytes | bin/lapas_api_proto/src/lib.rs:8-16 | a client's first eight bytes are seven zeros and a six |
| PacketBytes.OptionBytes | bin/lapas_api_proto/src/proto.rs:94-118 | an absent optional value is a zero byte, a present one stands behind a one |
| ByteStreams.Writer.WriteVal | bin/lapas_api_proto/src/models.rs:71-77 | writing a value appends exactly its encoding |
| ByteStreams.Writer.WriteEach | bin/lapas_api_proto/src/proto.rs:136-145 | the loop over a vector's entries appends their encodings in order |
| ByteStreams.Writer.WritePacket | bin/lapas_api_proto/src/proto.rs:235-250 | trying the declared packets in turn and counting the failed matches, the packet that matches is written with its place as its tag, which is its encoding |
| ByteStreams.Reader.ReadText | bin/lapas_api_proto/src/proto.rs:150-164 | reading a string consumes what the decoding consumes or fails as it does |
| ByteStreams.Reader.ReadTagged | bin/lapas_api_proto/src/proto.rs:65-76 | the same for the types that begin with a tag byte |
| ByteStreams.Reader.ReadEach | bin/lapas_api_proto/src/proto.rs:126-135 | the same for the loop that pushes a vector's entries |
| ByteStreams.Reader.ReadVal | bin/lapas_api_proto/src/models.rs:63-70 | the same for every type |
| ByteStreams.Reader.ReadPacket | bin/lapas_api_proto/src/proto.rs:217-234 | comparing the tag with a counter selects the packet declared at that place |
| Framing.InvStep | bin/lapas_api_server/src/api_services/mod.rs:22-29 | every lock operation, write and failure keeps each sender's order and, unless bytes are written after a failed write tore a packet, the wire a sequence of whole packets and at most one part |
| Framing.PeerSeesWholePackets | bin/lapas_api_server/src/api_services/mod.rs:25-29 | in every interleaving of the senders, with writes stopping or failing anywhere, the peer decodes exactly the packets that are completely on the wire, as long as no bytes follow a torn packet |
| Framing.SendersKeepTheirOrder | bin/lapas_api_server/src/api_services/notification.rs:26-38 | each sender's finished packets are its calls in order without gaps; when it is idle none is missing, or just the one it failed with |
| Framing.TornIsMisread | bin/lapas_api_server/src/api_services/mod.rs:25-29 | a refused registration torn behind its tag and followed by a ping is read as a granted one, so the hypothesis on torn packets is needed |
| FramingProgress.CallEnds | bin/lapas_api_server/src/api_services/mod.rs:25-29 | from every reachable state with the socket open, lock operations and writes that succeed bring any sender's call to its end, with all it asked for on the wire and nothing torn |
| FramingProgress.ShutDown | bin/lapas_api_server/src/api_services/mod.rs:22-24 | whenever nobody holds the lock the socket can be closed, which changes nothing else |
| FramingProgress.ClosedBetweenPackets | bin/lapas_api_server/src/api_services/mod.rs:22-24 | unless a failed write tore a packet before, closing leaves whole packets only on the wire, then and ever after |
| FramingProgress.ClosedForGood | bin/lapas_api_server/src/api_services/mod.rs:22-24 | in every run a closed socket stays closed and nothing more is written to it |
| Users.UserIndex.NameTaken | bin/lapas_api_server/src/api_services/user.rs:104-108 | the search finds a user of that name if and only if there is one |
| Users.UserIndex.AddUser | bin/lapas_api_server/src/api_services/user.rs:96-132 | the first applicable rejection is returned and changes nothing; otherwise one user with the next id, the name, the hash and the two times is appended, also when the index cannot be written |
| Users.AfterAllNumbered | bin/lapas_api_server/src/api_services/user.rs:32-39 | after any registrations from the default index, names differ, the k-th id is 10000+k and the next id 10000 plus the number of users |
| Users.IdsDiffer | bin/lapas_api_server/src/api_services/user.rs:118-127 | ids are pairwise different if and only if there are no more than 2^64 users |
| Users.AcceptedExactly | bin/lapas_api_server/src/api_services/user.rs:99-115 | a registration is accepted if and only if it is well formed and no earlier well-formed one asked for the name |
| Users.ListingsExactly | bin/lapas_api_server/src/api_services/user.rs:118-158 | after any registrations the listings are the accepted ones in order: ids from 10000 on, wrapping at 2^64, the shadow listing with name, hash and time of the update, the public one with the name |
| Users.UserIndex.PasswdList | bin/lapas_api_server/src/api_services/user.rs:134-144 | the public listing holds id and name of each user and nothing else |
| Users.UserIndex.ShadowList | bin/lapas_api_server/src/api_services/user.rs:146-158 | the shadow listing holds id, name, hash and time of the update of each user |
| Users.ListingsGrow | bin/lapas_api_server/src/api_services/user.rs:134-158 | listings grow at the end by at most one entry, and the public one is the shadow one without hashes and times |
| Server.State.AddUser | bin/lapas_api_server/src/state.rs:84-91 | the notification follows the change, and only when the registration succeeded |
| Server.ClientHandler.HandleRequest | bin/lapas_api_server/src/api_server.rs:36-121 | one request: authentication first, then exactly one response of its kind, the users and the notifications as specified |
| Server.ClientHandler.Handle | bin/lapas_api_server/src/api_server.rs:18-34 | one packet in any phase of a connection, the handshake included |
| Server.HandshakeAnswer | bin/lapas_api_server/src/api_server.rs:18-34 | only a handshake of version 6 opens a connection; another version is told so, another packet gets no answer, and both end the connection |
| Server.WrongPasswordAnswer | bin/lapas_api_server/src/api_server.rs:42-48 | each of the four packets with a wrong password gets an error of its own kind, ends the connection, changes no users and notifies nobody |
| Server.ListAnswers | bin/lapas_api_server/src/api_server.rs:100-118 | both lists are answered with exactly the users as they are, entry by entry, and change nothing |
| Server.RegisterAnswer | bin/lapas_api_server/src/api_server.rs:81-91 | a registration with the right password is turned down for the first reason that applies, with no effect, or appends one user and is announced if the index could be written |
| Server.OtherAnswers | bin/lapas_api_server/src/api_server.rs:75-98 | the two remaining requests with the right password report success or the error met, and only a created mapping is announced |
| Server.NoAnswer | bin/lapas_api_server/src/api_server.rs:120 | anything else gets no answer and has no effect on users and notifications |
| Server.ListChangesAreAnnounced | bin/lapas_api_server/src/state.rs:84-91 | a packet changes the shadow list not at all, or by one entry at the end with a notification exactly when the index reached the disk |
| Conversation.TranscriptOrder | bin/lapas_api_server/src/api_server.rs:59-123 | nothing is served before a handshake with the right version; then every request gets one response of the matching type, in order, up to the first wrong password |
| Conversation.ClientIsAnsweredInOrder | bin/lapas_api_client/src/main.rs:8-20 | in every run a client that never subscribes gets its responses in order and never meets an unexpected one |
| Transcripts.RequestsByName | bin/lapas_api_server/src/api_server.rs:68-121 | the packets that are answered are the list request without a password and the four that carry one |
| Transcripts.AnswersByName | bin/lapas_api_server/src/api_server.rs:75-118 | which response belongs to which request, for all five |
| Transcripts.TranscriptExists | bin/lapas_api_server/src/api_server.rs:59-123 | whatever is sent, with whatever users and outside world at each time, there is a transcript of it, so that what is proved of all transcripts covers every connection |
| Transcripts.ReplyContents | bin/lapas_api_server/src/api_server.rs:59-123 | the reply paired with request k holds the list of exactly the users at the time, or the error if the password is wrong, whichever of the five requests it is |
| Transcripts.GrantedMeansAccepted | bin/lapas_api_server/src/api_server.rs:42-48 | in every transcript a granted request of the four kinds carried a password that the server accepts |
| Transcripts.EveryClientEnds | bin/lapas_api_client/src/main.rs:8-20 | from every reachable state some steps bring a client to its end: done, incompatible, or cut off |
| Transcripts.AllAnswered | bin/lapas_api_client/src/main.rs:8-20 | from every reachable state of a client with the right version and accepted passwords some steps bring a response to each of its requests, whatever the users and the outside world are |
| CacheSync.InvStep | bin/lapas_api_client/src/daemon.rs:136-169 | every step keeps: unless the receiver lagged or a registration since the last request went unannounced, the cache is going to hold the server's list, or something that makes the daemon ask again is under way |
| CacheSync.UnaskedExact | bin/lapas_api_client/src/daemon.rs:139-160 | in every run, whatever the opening order, lags and failures, a daemon with no request under way holds exactly the server's list without the users appended since its last request was handled, so it agrees if and only if there are none |
| CacheSync.QuietAgrees | bin/lapas_api_client/src/daemon.rs:139-160 | a daemon with nothing under way whose receiver has not lagged agrees with the server if and only if no registration since its last request ended unannounced |
| CacheSync.LagLasts | bin/lapas_api_server/src/api_services/notification.rs:14-31 | from a quiet connection whose receiver has lagged no steps but a reconnection change the cache, and an old one stays old |
| CacheSync.CachesOnlyGrow | bin/lapas_api_client/src/daemon.rs:109-133 | over any number of reconnections every cache is a prefix of the server's list and never loses an entry |
| CacheSync.FetchBeforeListenIsStale | bin/lapas_api_client/src/daemon.rs:139-142 | with the two opening packets exchanged, a run ends quietly with an old list |
| CacheSync.LagIsStale | bin/lapas_api_server/src/api_services/notification.rs:14-31 | two registrations before the forwarder reads once leave a daemon on an old list |
| CacheSync.WriteFailsIsStale | bin/lapas_api_server/src/state.rs:84-91 | one registration that cannot be written ends quietly with an old list although nothing lagged |
| CatchUp.QuietIsReached | bin/lapas_api_client/src/daemon.rs:136-169 | from every reachable state, once a registration in progress has ended one way or the other, deliveries alone lead to a quiet connection |
| CatchUp.CatchesUp | bin/lapas_api_client/src/daemon.rs:136-169 | from every reachable state in which no registration is going on, a daemon that has not lagged and missed no announcement comes to hold the list by deliveries alone |
| CatchUp.ReconnectRecovers | bin/lapas_api_client/src/daemon.rs:126-133 | from every reachable state, whatever lagged or failed before and however a registration in progress ends, a reconnection and deliveries bring the present list |
| Daemon.Daemon.Open | bin/lapas_api_client/src/daemon.rs:136-142 | the subscription is sent before the first request for the list |
| Daemon.Daemon.Tick | bin/lapas_api_client/src/daemon.rs:146-148 | the timer sends a ping, which is the pinging step of the state machine on every connection |
| Daemon.Daemon.Handle | bin/lapas_api_client/src/daemon.rs:149-166 | handling a packet replaces the cache, asks again or does nothing, which is the receiving step of the state machine on every connection with this packet in front; only a refused list ends the connection |
| Daemon.Daemon.AnswerLocal | bin/lapas_api_client/src/daemon.rs:55-77 | the local service gives names and ids to anyone and the whole list to the password holder, from the first list found |
| Daemon.GetUsers | bin/lapas_api_client/src/daemon.rs:21-37 | up to fifty looks at the cache return the first list found, or the empty one |
| Daemon.LocalListIsPrefix | bin/lapas_api_client/src/daemon.rs:21-37 | whenever the looks are taken in a run, the list handed out is a prefix of the server's and begins with what was cached at the start |
| Daemon.ServingIsModelled | bin/lapas_api_server/src/api_server.rs:59-118 | whatever a daemon sends, the handler carries out exactly the steps of the state machine: subscribing, taking the snapshot and later sending it, or ignoring a ping, and changes and announces nothing |
| Daemon.HandlingIsModelled | bin/lapas_api_server/src/state.rs:84-100 | whatever packet the server handles, its effect on the list and the notifications is nothing, a host-mapping notice, or the push of a registration followed by its notification or failed write |
| Daemon.SentByDaemon | bin/lapas_api_client/src/daemon.rs:136-148 | every packet the daemon sends with the right password is one that `ServingIsModelled` covers |
| Delivery.OnWireStep | bin/lapas_api_server/src/api_services/mod.rs:25-29 | the packets on the wire grow by one whole packet with the write that completes it, and by nothing else |
| Delivery.SendingIsModelled | bin/lapas_api_server/src/api_services/notification.rs:19-31 | the sending steps of the daemon machine are the writes that complete the snapshot, notification or ping in hand; no other write, lock operation or failure changes the queue |
| Delivery.SomethingToSend | bin/lapas_api_server/src/api_services/notification.rs:28-36 | whenever the daemon machine can take a sending step there is a packet in hand, and it is what the step sends |
| Delivery.ReceivingIsModelled | bin/lapas_api_client/src/daemon.rs:148-149 | what a daemon decodes next from the bytes is the front of the queue, and it waits when the queue is empty |
| Delivery.SoleSender | bin/lapas_api_server/src/api_services/mod.rs:25-29 | with one sender only, the wire holds what it asked to send, in that order |
| Delivery.ClientDecodesAnswers | bin/lapas_api_server/src/api_server.rs:49-123 | end to end: a client decodes from the bytes the handshake response and then, at place k + 1, a response to request k |

## Left out

- Cleanup.Run: for files with `**` before the end of a rule it says what remains through the answers of the lookups and not through the rules, because such rules are not honoured (`HonouredRules.HonouredExactly`).
- The graph left behind by a line that fails: the failure ends the program, so only that the graph stays a tree is proved.
- Real file systems: symbolic links, permissions and read errors; names are valid text. Folder contents change only through the cleanup itself.
- The regular expression engine beyond the three forms the rewriting produces, the graph drawings, and command-line parsing.
- Reading a file into lines.
- Signed, floating point and 16-bit integers of the codec: no packet uses them.
- Points in time: their text form is a parameter of which only "reading what was written gives the same instant" is used; instants outside the years 0 to 9999, which section 5.6 of RFC 3339 cannot write, and leap seconds are not modelled.
- ByteStreams.Reader.ReadText: reads as many bytes as the length says, because the capacity that the source reads by is taken to be the length asked for.
- Framing.PeerSeesWholePackets: asks that no bytes were written behind a packet torn by a failed write, because the source only releases the lock then and leaves it to the socket to fail from there on (`Framing.TornIsMisread`).
- The TCP stack, whose write calls may take any part of the remaining bytes, and fairness of the lock.
- The daemon's `select!` cancelling a half-read packet: whole packets are delivered in `CacheSync`.
- CacheSync.QuietAgrees: does not model a wrong password in the daemon's configuration, because the server then closes every connection at its first request.
- Daemon.Daemon.AnswerLocal: does not model the local socket and its handshake, nor the tenth of a second between two looks at the cache, because only what is seen at each look matters.
- Remounting and cache flushing on the daemon's other notifications.
- Conversation.ClientIsAnsweredInOrder: does not model subscribing clients, because these read packets in a loop and not as responses.
- The file of the user index: reading it back when the server starts again; the index grows from the first one.
- Password hashing, salts and the password check: a parameter; the wording of error messages is one as well.
- DNS files, the configuration reader and the name service hooks: library calls and plain lookups.
- Installer scripts, wine and umu managers, mount and boot scripts.
