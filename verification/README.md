# RepoWolf in Dafny

RepoWolf is a broker between an untrusted Git or issue client and a provider process or HTTP API. This project models
the parts of it whose correctness is hard to see in the code, and proves what they are for. Every statement is about all
inputs, all interleavings or all provider behaviours.

- **The receive-pack gate** (`Text`, `Utf8`, `PktLine`, `Capabilities`, `PushPolicy`, `RefRules`, `ReceiveMachine`,
  `ReceiveGrammar`, `ReceiveInverse`, `ReceiveParse`, `ReceiveRules`, `ReceiveParser`, `ClientFrames`, `ReceiveSession`). The specification is a machine
  over packets, read off a byte source with a budget. It is proved sound and complete for an independent grammar of push
  requests, with shallow lines, commands, signed certificates and push options. The stateful parser is proved to compute
  it, and a push is proved to reach the provider only after acceptance and only as the client sent it. The `Rules` modules
  restate what the shared predicates mean with the protocol's own literals.
- **Issue edits on Gitea** (`IssueModel`, `IssuePlan`, `IssueEdit`). Plans are related to a reference effect of each
  write; execution runs against a provider whose every answer is arbitrary and which logs every call with its raw answer. Beside it
  stands the issue that a provider doing what it is told would hold, and whether every answer so far was that one's.
- **Processes and streams** (`ProcessCleanup`, `InputPipe`, `BoundedReaders`, `Chunks`, `Terminals`, `SendPump`,
  `OutputCopy`). The
  concurrent parts are state machines whose steps are sections under one lock, channel hand-overs or atomic operations;
  a run is any sequence of steps, and a step that is not enabled does nothing.
- **Server admission and limits** (`Shutdown`, `Concurrency`), in the same style.
- **Configuration** (`YamlGraph`, `YamlMerge`, `YamlRules`, `PolicyIndex`). YAML documents are finite graphs that may be cyclic.

Conventions. Bytes are characters with that code. Reads, writes, contexts, clocks and provider answers are arbitrary
values chosen anew at each call. Go maps are walked in an arbitrary order. Errors are datatypes and not message texts.
`dafny verify dfyconfig.toml` checks the project.

The standards behind the constants are Git's gitprotocol-common(5) ("pkt-line Format"), gitprotocol-pack(5) ("Reference
Update Request and Packfile Transfer", "Push Certificate"), git-check-ref-format(1), and the "Merge Key
Language-Independent Type for YAML Version 1.1".

Two results about the code.

- The terminal a session ends with is not valid for every exit code: a positive multiple of 2^32 becomes zero by the
  conversion to int32. `Terminals.TerminalValidIff` gives the exact condition and `Terminals.TerminalCanBeInvalid` an
  input. It is an input of the function `finish`: on Linux a process's exit code (internal/runner/stream.go:308-317) is at
  most 255, so no session reaches it.
- The command-count limit of the push parser is dead in the service, as its comment says
  (`ReceiveParse.CommandBoundUnreachable`).

## Model

| member | source | states |
|---|---|---|
| `PktLine.ParsePacketLength` | internal/gitproto/pktline.go:67-86 | the loop over four hex digits yields the base-16 value, or nothing if any digit is bad |
| `PktLine.HeaderRoundTrip` | internal/gitproto/pktline.go:67-86 | every length below 65536, printed as a pkt-line header, is read back as itself |
| `PktLine.ReadBack` | internal/gitproto/pktline.go:24-61 | a packet standing at the cursor and within the byte budget is read, and the cursor moves to its end |
| `PktLine.ReadIsPacket` | internal/gitproto/pktline.go:24-61 | whatever the reader returns is the packet that the consumed bytes spell |
| `PktLine.EncodeDecodes` | internal/gitproto/pktline.go:24-86 | Git's encoding of a packet list spells exactly that list |
| `PktLine.DecodesEncodable` | internal/gitproto/pktline.go:24-86 | bytes that spell a packet list only ever spell one whose packets fit the length field |
| `ReceiveRules.HexDigitIs` | internal/gitproto/pktline.go:72-84 | a byte is worth d exactly when it is the d-th of the sixteen hexadecimal digits, in either case |
| `ReceiveRules.EncodedPacket` | internal/gitproto/pktline.go:24-86 | a flush is four zeros and a line its length with the header, in four digits, and its text |
| `ReceiveRules.BadLengths` | internal/gitproto/pktline.go:33-41 | lengths from one to three and above 65520 are refused |
| `Utf8.EncodedIsValid` | internal/gitproto/validate.go:104-107 | the encoding of any code points is valid UTF-8 |
| `Utf8.ValidIsEncoded` | internal/gitproto/validate.go:104-107 | conversely, every byte string that passes the test is the encoding of code points |
| `Utf8.SpaceIsWhite` | internal/gitproto/validate.go:58-61 | a command is cut before a code point exactly when Unicode calls it white space |
| `Capabilities.ParseCapabilities` | internal/gitproto/capabilities.go:21-43 | the loop over space-separated tokens computes the specified capability map or refuses |
| `Capabilities.PrintParse` | internal/gitproto/capabilities.go:21-43 | every list of distinct well-formed tokens, printed, parses to the map it denotes |
| `Capabilities.ParsePrint` | internal/gitproto/capabilities.go:21-43 | conversely, every accepted text is the printing of such a token list, and the map is what that list denotes |
| `Capabilities.ValidateRequested` | internal/gitproto/capabilities.go:53-78 | accepts exactly the requests in which every capability is one the server advertised in a compatible form |
| `ReceiveRules.TokenIs` | internal/gitproto/capabilities.go:25-42 | a capability is a printable name, or a name, an equals sign and a printable value; none may be empty |
| `ReceiveRules.NegotiatedIff` | internal/gitproto/capabilities.go:53-78 | a request is negotiated exactly when everything in it is advertised with the same value, save agent and session-id, which both sides must give, and push-cert and object-format, which need a value |
| `ReceiveRules.AgentNeverMatters` | internal/gitproto/capabilities.go:55-69 | what a client calls itself or its session never changes the verdict |
| `ReceiveRules.WidthOfFormat` | internal/gitproto/validate.go:28-45 | a negotiated request without object format, or with sha1 or sha256, always has a width, and any other format has none |
| `PushPolicy.ValidatePush` | internal/policy/push.go:19-42 | the loops report the first applicable denial, with count before order of updates |
| `PushPolicy.PushDenialIff` | internal/policy/push.go:19-42 | no denial if and only if the push is within the update limit and each update is well-formed, off the deny list and no forbidden deletion |
| `RefRules.ObjectIDIff` | internal/policy/push.go:44-54 | an object id is forty or sixty-four hexadecimal digits |
| `RefRules.NullIff` | internal/policy/push.go:56-58 | the ids taken for deletions are forty or sixty-four zeros and no other |
| `RefRules.DeletionDeniedIff` | internal/policy/push.go:27-40 | an otherwise valid update off the deny list is denied exactly when it puts a null id and deletions are denied |
| `RefRules.AllowedKeepsRefs` | internal/policy/push.go:37-39 | where deletions are denied no allowed push deletes anything |
| `RefRules.PolicyRefIff` | internal/policy/push.go:60-75 | position by position, a ref is well formed exactly when git-check-ref-format(1) says so; a pushed one must be valid UTF-8 besides |
| `RefRules.DeniableRefIff` | internal/config/validate.go:346-361 | the deny list takes what policy takes, and besides it refs with an inner component ending in .lock |
| `PushPolicy.GrammarsAgree` | internal/gitproto/validate.go:104-122 | every ref the push parser accepts is also a ref for the policy and for the configured deny list, and has at least six bytes |
| `PushPolicy.ParsedNeverMalformed` | internal/policy/push.go:19-75 | updates that came out of the parser are denied only for their number, a denied ref or a denied deletion |
| `ReceiveMachine.FeedAppend` | internal/gitproto/receive.go:67-115 | feeding one packet list and then another is feeding their concatenation |
| `ReceiveMachine.DoneIsLast` | internal/gitproto/receive.go:67-115 | a packet list that finishes the request finishes it with its last packet |
| `ReceiveGrammar.GrammarComplete` | internal/gitproto/receive.go:67-130 | the packet machine accepts the packets of every well-formed request, unsigned or signed, and holds exactly its updates, capabilities and width |
| `ReceiveInverse.GrammarSound` | internal/gitproto/signature.go:8-57 | conversely, every packet list the machine accepts is the packet list of a well-formed request that the lemma constructs |
| `ReceiveParse.ParseSound` | internal/gitproto/receive.go:29-130 | whatever parses is a prefix of the input within the byte budget that spells a well-formed, allowed request, and the returned updates are its commands in order |
| `ReceiveParse.NegotiatedWidth` | internal/gitproto/validate.go:28-86 | the object id width is 64 exactly when sha256 was requested and 40 otherwise; every shallow and object id has it; refs are pairwise distinct |
| `ReceiveRules.DeletionNeedsCapability` | internal/gitproto/validate.go:54-78 | the command that puts a null id is refused without the server's delete-refs and taken with it |
| `ReceiveRules.UpdateNeedsNothing` | internal/gitproto/validate.go:54-78 | a command that puts any other id is taken whatever the server allows |
| `ReceiveRules.NoControls` | internal/gitproto/certificate_validate.go:57-67 | no certificate text, push option, ref or capability that is accepted holds a control byte |
| `ReceiveRules.CertificateLineIff` | internal/gitproto/certificate_validate.go:69-71 | a certificate line is a text without line feed, carriage return or NUL, and its line feed |
| `ReceiveRules.PushOptionIff` | internal/gitproto/certificate.go:167-177 | push options are non-empty printable ASCII |
| `ReceiveRules.PgpSignatureEnds` | internal/gitproto/certificate.go:152-165 | the PGP signature envelope and the line that ends it |
| `ReceiveRules.PgpMessageEnds` | internal/gitproto/certificate.go:152-165 | the PGP message envelope and the line that ends it |
| `ReceiveRules.SshSignatureEnds` | internal/gitproto/certificate.go:152-165 | the SSH signature envelope and the line that ends it |
| `ReceiveRules.SignedMessageEnds` | internal/gitproto/certificate.go:152-165 | the signed message envelope and the line that ends it |
| `ReceiveRules.OnlyFourSignatures` | internal/gitproto/certificate.go:152-165 | nothing else opens an envelope |
| `ReceiveRules.PusherComplete` | internal/gitproto/certificate_validate.go:20-55 | a name, an address in angle brackets, a decimal time and a signed four-digit zone make a pusher |
| `ReceiveRules.PusherSound` | internal/gitproto/certificate_validate.go:20-55 | conversely, every accepted pusher is made of these |
| `ReceiveRules.UnsignedPackets` | internal/gitproto/receive.go:67-130 | the packets of an unsigned push of one ref, with their literal texts |
| `ReceiveRules.SignedPackets` | internal/gitproto/certificate.go:9-78 | the packets of a signed push of one ref, with their literal texts |
| `ReceiveParse.ParseComplete` | internal/gitproto/receive.go:29-130 | parsing any wire form of a well-formed allowed request within budget, before any tail, returns that request and leaves the tail |
| `ReceiveParse.RoundTrip` | internal/gitproto/pktline.go:24-86 | the same for Git's own pkt-line encoding of the request |
| `ReceiveParse.TruncatedFails` | internal/gitproto/pktline.go:24-61 | every strict prefix of a request's wire form is refused, allowed by policy or not |
| `ReceiveParse.RunExtends` | internal/gitproto/receive.go:67-83 | bytes after an accepted request do not influence the result |
| `ReceiveParse.DeniedMeansPolicy` | internal/policy/push.go:19-42 | a request that parses and is denied is denied for its number of updates, a denied ref or a denied deletion |
| `ReceiveParse.CommandBoundUnreachable` | internal/gitservice/receive.go:66-73 | with a command limit not below the byte limit the command-count error never occurs: every accepted command has used at least 92 bytes of budget |
| `ReceiveParser.PacketReader.ReadExact` | internal/gitproto/pktline.go:52-61 | fills the buffer within the budget and records the bytes, or fails as the source fails |
| `ReceiveParser.PacketReader.Read` | internal/gitproto/pktline.go:24-50 | the stateful reader does what the packet specification says at its cursor, and `raw` stays exactly the consumed bytes |
| `ReceiveParser.Parser.AddShallow` | internal/gitproto/validate.go:11-26 | the parser's fields change as the specification's shallow step changes the state, or it refuses with the same fault |
| `ReceiveParser.Parser.NegotiateObjectIDWidth` | internal/gitproto/validate.go:28-52 | sets the width the specification negotiates, or refuses |
| `ReceiveParser.Parser.AddCommand` | internal/gitproto/validate.go:54-78 | appends the decoded update and marks its ref, exactly when the specification accepts the line |
| `ReceiveParser.Parser.ParsePushOptions` | internal/gitproto/certificate.go:92-128 | reads the push-option section as the specification does and compares it with the certificate's |
| `ReceiveParser.Parser.ParseCertificateHeaders` | internal/gitproto/certificate.go:41-78 | reads the certificate headers as the specification does |
| `ReceiveParser.Parser.ParseCertificateBody` | internal/gitproto/signature.go:8-57 | the command and signature-envelope loop agrees with the specification's run over the same bytes |
| `ReceiveParser.Parser.ParseCertificate` | internal/gitproto/certificate.go:9-39 | the certificate branch agrees with the specification's run |
| `ReceiveParser.Parser.ParseRequest` | internal/gitproto/receive.go:85-115 | the choice between unsigned commands and certificate agrees with the specification's run |
| `ReceiveParser.Parser.Parse` | internal/gitproto/receive.go:67-83 | the whole stateful parse agrees with the specification's run from the first byte |
| `ReceiveParser.ParseReceivePack` | internal/gitproto/receive.go:29-54 | the imperative parser returns exactly the specified result of the bytes its reader can deliver, and has consumed exactly the prefix when it succeeds |
| `ClientFrames.DeliverableIsPayload` | internal/gitservice/receive.go:208-234 | what the client reader can deliver is a prefix of the concatenated data payloads, all of it at an orderly end |
| `ClientFrames.FramingIrrelevant` | internal/gitservice/receive.go:208-234 | within the chunk and total limits, frames cut in any way deliver their concatenation |
| `ClientFrames.WithinLimit` | internal/gitservice/receive.go:208-234 | no stream delivers more than the limit |
| `ClientFrames.OverLimit` | internal/gitservice/receive.go:224-227 | frames that go over the limit end in the limit error at the first that does not fit, and exactly those before it are delivered |
| `ClientFrames.AcceptIff` | internal/gitservice/frame.go:16-43 | a frame is accepted exactly when it is the opening one, or data within the chunk limit on an open stream; a refusal is for ever, with its own fault |
| `ClientFrames.BadFrameEnds` | internal/gitservice/receive.go:208-234 | the first bad frame ends the stream with its fault after everything before it |
| `ClientFrames.ClientDataReader.Read` | internal/gitservice/receive.go:208-234 | returns the next bytes of what the stream can deliver, for any buffer size, keeping the rest |
| `ReceiveSession.WriteValidatedInput` | internal/gitservice/receive.go:147-159 | provider input grows by a prefix of stored prefix plus rest of stream, and is counted and closed; unless a write failed it grows by all of it, and the error then is exactly the fault that ended the stream, if any |
| `ReceiveSession.ReceivePack` | internal/gitservice/receive.go:62-110 | provider input stays empty unless the request parses and policy allows it; afterwards it is a prefix of what the client sent, and all of it unless a write to the provider failed |
| `ReceiveSession.Push` | internal/gitservice/receive.go:62-110 | from raw frames: the provider gets at most the byte limit; a byte there implies a parsed, allowed request at the head of the client's payload; and for such a request on an orderly stream with no failed write, it gets the whole payload and no error is reported |
| `ReceiveSession.CutsAgree` | internal/gitservice/receive.go:208-234 | two clients that send the same bytes in differently cut frames get the same parse result |
| `ReceiveSession.RefusalTerminal` | internal/gitservice/receive.go:137-145 | the client of a refused push is told its limit, its deadline or its cancellation exactly when those ended it, and an invalid request otherwise, always with exit code one |
| `IssueModel.NormalizeIssue` | internal/provider/gitea/issue_normalize.go:25-80 | the checks and loops compute the specified normal form or refuse |
| `IssueModel.NormalFormNormalized` | internal/provider/gitea/issue_normalize.go:25-80 | a normalized issue has sound strings and times, unique assignees, and unique label names with unique positive ids |
| `IssueModel.NormalizedIsAsked` | internal/provider/gitea/issue_normalize.go:25-80 | a normalized issue is no pull request, is of the asked repository, is open exactly when the provider said open, and repeats the provider's fields, names and ids |
| `IssuePlan.SatisfiedIff` | internal/provider/gitea/issue_edit_plan.go:81-125 | the satisfaction test says that title and body are as asked and that assignees and labels are the sets their modes ask for |
| `IssuePlan.PlanIssueEdit` | internal/provider/gitea/issue_edit_plan.go:127-202 | the collecting and sorting code yields the specified plan whatever order maps are walked in |
| `IssuePlan.PlanEmptyIff` | internal/provider/gitea/issue_edit_plan.go:127-206 | a plan is empty if and only if the issue satisfies the intent |
| `IssuePlan.PlanCorrect` | internal/provider/gitea/issue_edit_plan.go:127-202 | applying a plan's writes to the issue it was made from, with catalogues that agree with the provider, yields exactly the wanted issue: what the intent does not mention is unchanged |
| `IssuePlan.WantedSatisfies` | internal/provider/gitea/issue_edit_plan.go:81-125 | the wanted issue satisfies the intent |
| `IssuePlan.PlanMinimal` | internal/provider/gitea/issue_edit_plan.go:127-202 | nothing is written that is not needed: only present assignees and labels are taken away and only absent ones added |
| `IssuePlan.OpsOrder` | internal/provider/gitea/issue_edit.go:90-167 | the writes come as text, leaving assignees, joining assignees, new labels, old labels |
| `IssuePlan.PlanExists` | internal/provider/gitea/issue_edit_plan.go:168-201 | with the catalogue collected before the first write, planning cannot fail for the first or any later normalized issue |
| `IssueEdit.Provider.InvokeWrite` | internal/provider/gitea/write_outcome.go:11-24 | a context error means the context has ended and nothing was invoked; without an error the provider's raw answer is no error and shows the effect of the write; any other answer is an unknown outcome |
| `IssueEdit.Validate` | internal/provider/gitea/issue_edit.go:90-183 | the validation callbacks accept a reply exactly when it shows the effect: index, title and body as sent, assignees present or absent, ids among the labels |
| `IssueEdit.Provider.ResolveLabelIDs` | internal/provider/gitea/issue_create.go:14-66 | each id is the one that the raw pages, complete and in order, give the name; against a faithful provider it succeeds exactly when there are at most a thousand labels and all names are among them |
| `IssueEdit.Provider.CollectCatalog` | internal/provider/gitea/issue_edit_catalog.go:9-57 | a collected catalogue has an id for every label the intent may have to add, on this or any later issue; against a faithful provider the ids are its own, and collecting succeeds exactly when the edit is possible |
| `IssueEdit.Provider.ExecutePlan` | internal/provider/gitea/issue_edit.go:90-167 | the writes invoked are the plan's in order, to this issue, up to the first whose raw answer does not show its effect; against a faithful provider their effect is that of the plan |
| `IssueEdit.Provider.ReadIssue` | internal/provider/gitea/issue_mutation.go:34-57 | an issue is the normal form of the last raw answer, and an error is what that answer calls for |
| `IssueEdit.ResolveFailure` | internal/provider/gitea/issue_edit.go:69-88 | a failed execution is reported truthfully, after re-reading the issue where the outcome is unknown |
| `IssueEdit.Correct` | internal/provider/gitea/issue_edit.go:43-67 | re-read, at most one corrective plan, re-read: each outcome is truthful and the writes are those of the two plans; when the issue already is the wanted one nothing more is written |
| `IssueEdit.EditIssue` | internal/provider/gitea/issue_edit.go:17-67 | against any provider, by its raw answers: success means the last issue read satisfies the intent, partial that some write was confirmed and none is in doubt, unknown that exactly the last write is unconfirmed, and every other error except the size limit that nothing was written; against a faithful provider with a live context, the issue becomes exactly the wanted one if the edit is possible, and nothing is written if not |
| `IssueEdit.FaithfulConfirms` | internal/provider/gitea/issue_edit.go:90-183 | an answer that shows the issue as it is after a write passes the validation of that write |
| `IssueEdit.FaithfulAnswerExists` | internal/provider/gitea/issue_normalize.go:25-80 | every issue with sound strings and listed users and labels has an answer that normalizes to it |
| `IssueModel.DirectoryInverse` | internal/provider/gitea/issue_create.go:18-54 | in a listing that passes the checks, ids and names determine each other |
| `ProcessCleanup.ProcessAuthority.TerminateGroup` | internal/runner/process_linux.go:48-64 | exactly the first caller sends the kill and sets the reason; a reason, once there, stays, and the only late one is an output overflow; a retired group is sent nothing |
| `ProcessCleanup.ProcessAuthority.RetireAndReap` | internal/runner/process_linux.go:72-86 | whether or not anybody terminated it before, the group has been sent one kill and then reaped, and the reason is kept |
| `ProcessCleanup.NothingLater` | internal/runner/stream.go:63-71 | once the runner is closing and no start is under way, no run starts another process |
| `ProcessCleanup.StepInv` | internal/runner/stream.go:27-89 | every atomic step of starts, waits, terminations and cleanup keeps the invariant |
| `ProcessCleanup.CleanupBarrier` | internal/runner/stream.go:27-89 | in every interleaving of any number of Cleanup calls, when one has returned every process ever started was killed once and reaped, and no later step starts another |
| `ProcessCleanup.KilledOnceBeforeReaping` | internal/runner/process_linux.go:48-86 | each group gets at most one SIGKILL, before it is reaped and never after |
| `ProcessCleanup.ReasonIsFinal` | internal/runner/process_linux.go:48-70 | a termination reason, once set, never changes |
| `ProcessCleanup.CanReturn` | internal/runner/stream.go:27-61 | from every reachable state some run brings every begun Cleanup to its return |
| `ProcessCleanup.RefusedOnlyWhenClosing` | internal/runner/stream.go:63-71 | a start is refused only once a Cleanup has begun |
| `InputPipe.Budget.Reserve` | internal/runner/input.go:61-69 | admits a size exactly when it fits the rest of the budget, and changes nothing otherwise |
| `InputPipe.WithinBudget` | internal/runner/input.go:25-74 | in every interleaving of Write, Close and prefix sending: counted bytes are at most the bytes on the pipe, those at most the reserved, those at most the limit |
| `InputPipe.PrefixThenWrites` | internal/runner/input.go:36-59 | the pipe holds the prefix once and first, then the admitted values in lock order, each contiguous, and no stream byte before the whole prefix |
| `InputPipe.RefusedChangesNothing` | internal/runner/input.go:45-69 | a write is refused exactly when it does not fit, and then neither budget nor pipe changes |
| `InputPipe.SuccessIsWhole` | internal/runner/input.go:45-59 | a Write that returns without error has put its whole value on the pipe |
| `InputPipe.QuietCount` | internal/runner/input.go:36-59 | whenever no raw write is under way the count equals the bytes on the pipe |
| `InputPipe.ErrorHasCause` | internal/runner/input.go:45-59 | unless a raw write fails, only calls refused for the budget report an error |
| `InputPipe.CanReturn` | internal/runner/input.go:36-74 | from every reachable state some run brings every call to its end |
| `BoundedReaders.BoundedResponseBody.Read` | internal/providerhttp/response.go:36-92 | each read delivers the next bytes within the limit and uses up the source; the terminal error, once set, is returned by every later read, and is the limit or what the contexts make of the source's end |
| `BoundedReaders.BoundedResponseBody.ReadAll` | internal/providerhttp/response.go:36-105 | for every sequence of buffer sizes and underlying reads: the delivered bytes are a prefix of the source cut at the limit; enough reads with room reach the end, and then all of it was delivered, ending in the source's own end or in the limit error if it is longer |
| `BoundedReaders.LimitedReader.Read` | internal/runner/output.go:17-41 | the same step for process output, where overflow also kills the process |
| `BoundedReaders.LimitedReader.ReadAll` | internal/runner/output.go:17-41 | the same for every sequence of reads up to the first error, which enough reads reach; the process is killed exactly when the limit error is reported |
| `BoundedReaders.StderrCapture.Drain` | internal/runner/output.go:53-78 | reads to the end, keeps the source cut at the limit, and kills exactly when the source is longer |
| `BoundedReaders.EndedContextWins` | internal/providerhttp/response.go:113-124 | a caller that cancelled, or whose deadline was shorter, is told its own error; then the operation's end is told, its deadline as a timeout; the source's error only while both live |
| `Terminals.ServerFrameState.Accept` | internal/client/gitssh/frame.go:15-34 | the stateful machine steps as specified and reports completion exactly when it accepts a terminal |
| `Terminals.AcceptsIff` | internal/client/gitssh/frame.go:15-53 | the accepted sequences are those of chunks within the limit followed by at most one valid terminal and nothing more |
| `Terminals.TerminalValidIff` | internal/gitservice/upload.go:231-247 | the terminal built at the end of a session is valid unless a positive exit code is a multiple of 2^32, which truncation turns into zero |
| `Terminals.TerminalCanBeInvalid` | internal/gitservice/upload.go:231-247 | such an exit code does give an invalid terminal |
| `Terminals.TerminalTellsExit` | internal/gitservice/upload.go:221-294 | for 32-bit exit codes the terminal is valid, says completed exactly when there was no error and exit code zero, and carries a positive exit code unchanged |
| `Terminals.MostUrgentIsTold` | internal/gitservice/upload.go:277-294 | an error is told as the most urgent category of what it wraps: denial, invalid request, limit, deadline, provider failure, and unavailability for anything else |
| `Terminals.ValidTerminalsAreMade` | internal/client/gitssh/frame.go:36-53 | a terminal is valid when its category is known and its code is zero exactly for completion, and every valid 32-bit one is made by some error or none |
| `SendPump.StepInv` | internal/gitservice/send.go:46-99 | every atomic step of pump, session and cancellation keeps the line of frames in order |
| `SendPump.ClientAcceptsEveryRun` | internal/gitservice/send.go:46-99 | in every interleaving stream.Send calls never overlap, what reached the client is a prefix of the provider's output and then at most one terminal, and the client's frame machine accepts it |
| `SendPump.CompletedMeansAll` | internal/gitservice/upload.go:152-261 | a client that is told the operation completed has the provider's whole output |
| `SendPump.NothingAfterTerminal` | internal/gitservice/send.go:92-99 | after a terminal has reached the client nothing more does |
| `SendPump.FinalReportIsTrue` | internal/gitservice/send.go:73-99 | when the final send reports success a valid terminal is the last frame the client has received |
| `SendPump.FailureHasCause` | internal/gitservice/send.go:46-90 | a request answered with a failure was sent and failed, or its context had ended |
| `SendPump.CalmNeverFails` | internal/gitservice/send.go:46-99 | in a run without cancellation, failed send, failed output or invalid terminal, no send is reported as failed and neither chunks nor terminal are given up |
| `SendPump.CalmSessionIsComplete` | internal/gitservice/upload.go:152-261 | such a session, finished without a cause, has delivered every chunk in order and then completion |
| `SendPump.CanComplete` | internal/gitservice/send.go:46-99 | from every state of an undisturbed session some undisturbed run brings it to its successful end |
| `OutputCopy.SendBytes` | internal/gitservice/receive.go:168-183 | the chunks are the data from its start on, none empty or over the chunk size, and all of it unless a send failed, which is reported exactly then |
| `OutputCopy.CopyOutputToFrames` | internal/gitservice/copy.go:68-91 | for any read sizes the chunks are the output bytes in order, counted, and all of them unless a send failed; the outcome is the failed send or how the output ended |
| `Shutdown.StepInv` | internal/server/interceptor.go:64-85 | every atomic step of admission, completion and shutdown keeps the invariant |
| `Shutdown.NoLaterAdmission` | internal/server/lifecycle.go:53-71 | once the cancel snapshot is taken no run admits another request |
| `Shutdown.NothingEscapes` | internal/server/lifecycle.go:34-71 | when forced cancellation has returned, every admitted request has finished or been cancelled, although the stopping flag is set without the lock |
| `Shutdown.IncompleteIffInFlight` | internal/server/lifecycle.go:60-98 | an incomplete audit is reported if and only if some request was in flight when the snapshot was taken |
| `Shutdown.NothingWithoutCause` | internal/server/interceptor.go:64-85 | only a stopping server refuses a request, and a running one is cancelled only as part of the snapshot |
| `Shutdown.CanAdmit` | internal/server/interceptor.go:64-85 | while the server is not stopping every request that has arrived can be admitted |
| `Shutdown.CanReturn` | internal/server/lifecycle.go:34-71 | once the server is stopping the forced cancellation can always come to its return |
| `Shutdown.CancelActive` | internal/server/lifecycle.go:60-71 | the two loops cancel exactly the active requests, in any map order, and report whether there were any |
| `Concurrency.AdmittedIff` | internal/server/concurrency.go:24-32 | in every interleaving a request is admitted exactly when fewer than its principal's limit are running |
| `Concurrency.ConcurrencyLimits.Release` | internal/server/concurrency.go:34-41 | one less is counted, for this principal alone, and a counter that reaches zero is dropped, so that limits stay kept |
| `Concurrency.ReleaseUndoesAcquire` | internal/server/concurrency.go:24-41 | releasing after a successful acquisition restores the counters, entry by entry |
| `Concurrency.Accounting` | internal/server/concurrency.go:24-108 | in every interleaving each counter is the number of that principal's running requests, positive and within its limit; their sum is within the held leases, and those within the global limit |
| `Concurrency.LeasedIff` | internal/server/concurrency.go:43-62 | a lease is given exactly while fewer than the limit are held |
| `Concurrency.CanDrain` | internal/server/concurrency.go:34-62 | from every reachable state some run lets every request go, and then no lease is held and no counter is left |
| `Concurrency.TotalSet` | internal/server/concurrency.go:24-41 | setting one principal's counter changes the sum over all principals by the difference |
| `YamlGraph.Walk.DuplicateKeyPath` | internal/config/decode.go:264-297 | on every finite node graph the walk ends, succeeds if and only if no cycle and no duplicate-key mapping is reachable, reports a fault that is there, and restores its active set |
| `YamlGraph.CleanUp` | internal/config/decode.go:264-297 | a node is clean when it is new on its path, repeats no key and points only to nodes clean beyond it |
| `YamlGraph.CleanDown` | internal/config/decode.go:264-297 | whatever a clean node points to is clean and never leads back |
| `YamlMerge.CandidatesMean` | internal/config/decode.go:193-238 | the order in which entries are met, first one winning, gives the recursive merge-key meaning: own keys first, earlier merges win |
| `YamlMerge.Collector.Collect` | internal/config/decode.go:193-238 | on a walked graph no cycle is reported, and exactly the entries with new keys are added, in order |
| `YamlMerge.ResolveEffectiveMapping` | internal/config/decode.go:187-191 | the collected entries have unique keys and are the merge-key meaning |
| `YamlMerge.EffectiveMappingValue` | internal/config/decode.go:240-247 | finds the value the entries give the field |
| `YamlMerge.IsNullNode` | internal/config/decode.go:253-258 | the unguarded alias loop ends on a walked graph and says whether the chain's end is null |
| `YamlMerge.RejectNullProviderFields` | internal/config/decode.go:150-180 | refuses exactly when some provider, after merging, has a null tokenEnv or caFile |
| `YamlMerge.RejectDuplicateKeys` | internal/config/decode.go:128-148 | accepts a document exactly when it is free of cycles, duplicate keys and null provider fields, and names a fault that is there otherwise |
| `YamlRules.OwnKeyWins` | internal/config/decode.go:218-228 | a key the mapping states itself has its own value, whatever is merged |
| `YamlRules.MergeBringsIn` | internal/config/decode.go:229-236 | a plain << brings in every entry of what it points to that the mapping does not state itself |
| `YamlRules.MergedSequence` | internal/config/decode.go:206-213 | merging a sequence gives a key the value of the first mapping that has it |
| `YamlRules.InheritedNullRefused` | internal/config/decode.go:150-180 | a document with a provider that inherits a null field by merge has that null field |
| `PolicyIndex.AsciiEqualFold` | internal/policy/authorize.go:81-101 | true exactly for two ASCII strings equal up to ASCII case |
| `PolicyIndex.New` | internal/policy/snapshot.go:35-65 | builds the index of a configuration whose references are defined and refuses every other, whatever the map order |
| `PolicyIndex.Resolve` | internal/policy/authorize.go:38-66 | resolves exactly when one granted repository matches and its grant has the capability; the answer does not depend on the map order |
| `PolicyIndex.ResolveSelector` | internal/policy/authorize.go:24-29 | what is resolved has each kind, host and port the selector gives, and its owner and name: exactly on GitHub, up to ASCII case on Gitea |
| `PolicyIndex.ResolveGit` | internal/policy/authorize.go:31-36 | the same for Git: the user, or git on GitHub when none is given, the host up to case, the port and the slug |
| `PolicyIndex.IndexRefinesSearch` | internal/policy/authorize.go:38-66 | for validated grants the index gives what a direct search of the configured grants gives |
| `PolicyIndex.ValidateCapabilities` | internal/config/validate.go:242-262 | accepts exactly non-empty lists of distinct known capabilities in which git:write comes with git:read |
| `PolicyIndex.ValidateGrants` | internal/config/validate.go:225-237 | accepts exactly grant lists over configured repositories, each granted once, with proper capabilities |
| `PolicyIndex.SlugKeysAgree` | internal/config/validate.go:199-199 | two valid Gitea repositories have the same slug key exactly when owner and name are equal up to case |
| `PolicyIndex.ValidateGiteaCollisions` | internal/config/validate.go:191-206 | passes exactly when no two Gitea repositories are equal up to case |
| `PolicyIndex.GiteaSelectorUnique` | internal/policy/authorize.go:103-117 | in a collision-free configuration a selector with owner and name matches at most one Gitea repository |
| `PolicyIndex.GiteaGitSelectorUnique` | internal/policy/authorize.go:68-79 | the same for a Git SSH selector |
| `PolicyIndex.GiteaGrantResolvable` | internal/policy/authorize.go:38-66 | in a validated configuration every granted Gitea repository is the only match of its own owner and name, in any spelling of their case |
| `PolicyIndex.GitHubSelectorUnique` | internal/policy/authorize.go:103-117 | a selector with owner and name matches GitHub repositories of exactly that owner and name |
| `PolicyIndex.GitHubGitSelectorUnique` | internal/policy/authorize.go:68-79 | the same for a Git SSH selector |
| `PolicyIndex.GitHubGrantResolvable` | internal/policy/authorize.go:38-66 | a granted GitHub repository is the only match of its full selector exactly when no other granted one has the same kind, host, port, owner and name |
| `PolicyIndex.GitHubGitGrantResolvable` | internal/policy/authorize.go:38-79 | user, host, port and slug find a granted GitHub repository unless another granted one answers to them too |
| `PolicyIndex.BlankMatches` | internal/policy/authorize.go:103-117 | leaving a field out of a selector never loses a match, and the blank selector matches everything |
| `PolicyIndex.BlankMatchesGit` | internal/policy/authorize.go:68-79 | a Git selector without a port is for any port, and one without a user is for git on GitHub only |

## Left out

- `ParseAdvertisement`: it uses the same packet reader; the advertised capabilities enter as an arbitrary map.
- TLS, tokens, digests, regular-expression and URL libraries, system calls, temporary directories, clocks: library
  behaviour; regular expressions appear as character predicates where a grammar matters.
- Liveness: nothing is said about when a step happens. What is proved is what holds whenever it does, and that from every
  reachable state some run comes to the end.
- The GitHub adapter, the `gh` and `tea` command lines, comment, review and pull request loaders, renderers: mostly flat
  case splits.
- Audit event contents and status texts.
- Upload-pack's client input (internal/gitservice/copy.go:41-66): the simpler half of the relay that a push does after its gate.
- ReceiveParser.Parser.AddCommand: called only once the width is negotiated, so the zero-width case of `setOIDWidth` is not reached and not modelled.
- IssueModel.NormalizeIssue: whether a protobuf timestamp can hold a time is given with the time, not computed.
- IssueEdit.EditIssue: the request is taken after `normalizeEditIntent`, which checks it and never asks for a label set to be replaced; its checks are not modelled.
- IssueEdit.Correct: starts where the first plan has been carried out; its precondition is what `EditIssue` has established by then.
- ProcessCleanup.CleanupBarrier: how a wait classifies its errors is not modelled, only that it ends after reaping.
- InputPipe.WithinBudget: the raw pipe is a byte sequence that takes any part of a write; closing it is an event without effect on bytes already taken.
- SendPump.ClientAcceptsEveryRun: a stream.Send that returns no error is taken as received by the client, which is the transport's promise.
- SendPump.CompletedMeansAll: which errors a session joins into its cause is arbitrary, except that a failed send gives some cause.
- BoundedReaders.BoundedResponseBody.ReadAll: contexts are live throughout; `Read` itself also covers contexts that have ended.
- BoundedReaders.LimitedReader.ReadAll: goes up to the first error, because a read after the limit error can report the source's own end (internal/runner/output.go:18-27).
- BoundedReaders.RawReader.Read: an underlying reader that delivers nothing forever is excluded, since draining it would not end.
- Shutdown.CancelActive: the loops on their own; how they interleave with requests is in `Shutdown.NothingEscapes`.
- PolicyIndex.ValidateGiteaCollisions: which colliding pair is named in the error depends on the sorted order, which is not modelled.
- PolicyIndex.Resolve: copying the deny list of the resolved repository is value equality here; aliasing is not modelled.
