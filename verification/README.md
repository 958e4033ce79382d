# Robofleet: verified cores

A Dafny model of the algorithmic cores of the Robofleet orchestrator and agent runtime, and proofs of what they
promise. `dafny verify dfyconfig.toml` checks all files together. Code that the repository writes as loops over
mutable state is written here as methods with loops, most of them on a class with the same fields; each is proved equal
to a specification function, and the promises are lemmas about that function. Code that is expressions and branches is
written as functions.

| files | what they model |
|---|---|
| `Text`, `Option` | Python strings (white space, `strip`, `split`, `splitlines`, joining) and missing values |
| `MarkdownLines`, `LinePatterns`, `JoinedLines` | the reflow script's regular expressions as recognisers, what each accepts, and how joined lines are classified when read again |
| `Reflow`, `ReflowProofs`, `ReflowNormalForm` | the reflow scanner, content preservation, and its normal form |
| `Placeholders` | making template placeholders optional |
| `FailureChain`, `ToolLoop`, `RestartLoop` | an agent run: the exceptions behind a failure, the tool-rejection breaker, sessions, restarts and the usage report |
| `Base64Url`, `AgentToken` | agent tokens |
| `A2AMatrix`, `A2APairs` | who may message whom, routing hints, the switchboard's pair list |
| `GrokStream`, `GrokTurn` | assembling stream events into chunks and closing a turn |
| `QuickContext`, `QuickContextProofs` | splitting machine markers from human text |
| `TranscriptUsage` | de-duplicated token totals |
| `ProxyHops` | finding the client behind named proxy hops |
| `VaultDirs`, `VaultAssets` | ingest folders kept apart from reserved ones; the never-overwriting asset merge and the paged rebuild |
| `DocsAccess` | documentation access, decided and enumerated |

## Where the code and its documentation differ

The model follows the code. In each case below the exact condition under which the documented promise holds is proved,
together with an input on which it fails.

- Reflow is not idempotent on every text. An item that is only a marker loses the space that made it an item
  (scripts/reflow_md.py:50 and 110) and may be joined by a second run. `IdempotentIffNoLooseMarker` gives the exact
  condition, `OneRunIsNotAlwaysEnough` an input (`" * "`), `SecondRunSettles` shows that two runs always suffice. The
  token guard at lines 188-190 never fires (`TokensPreserved`).
- A Grok turn "always ends with a `turn_end` chunk" (robofleet/agent_sdk/grok_cli_session.py:233) exactly when it closes
  itself, or its stream had an `end` and no event after the last one shows anything (`EndsWithTurnEnd`;
  `TextAfterEnd` is an input that fails). A turn that is interrupted does not close itself: the start of the process,
  reading a line (one longer than the reader's buffer, say) or capturing the usage (an updates line that is JSON and no
  object) may raise an exception that `send` does not handle. A turn emits a `turn_end` at all exactly when nothing
  interrupts it or its stream had an `end` before (`TurnCloses`, `InterruptedBeforeEnd`).
- The same sentence goes on that a non-zero exit yields an `error` chunk first. Once the stream had an `end`, or the
  deadline passed, the exit code and the error output change nothing (`ExitCodeIsIgnored`); `FailedExitShowsNoError` is
  an input without an error.
- "A single bad line must never lose the whole count" (robofleet/agent_sdk/transcript_usage.py:67-68): it does exactly
  when the line cannot be decoded for another reason than its value or type (nested too deeply, say), or is JSON but no
  object, or a count is infinite, or its id cannot be hashed (`SumTranscriptUsage`, `OneLineLosesTheCount`).
- "A crashed run still spent tokens: report them" (robofleet/agent/adk_entry.py:505-507): nothing is reported when the
  session ends by an exception that is no `Exception`, or when something behind the failure is no exception, so that
  walking its causes raises (`ReportedIff`, `UnwalkableIsNotReported`).
- Read-all roles "can read everything except internal" (robofleet/api/middleware_docs.py:49): folders whose names only
  begin with `internal` fall under the same rule and are readable to them (`AccessPolicy`, `DecisionAgreesWithList`,
  `ListIsSkippedSomewhere`).
- The ingest folders "must never overlap vault_intake_dir" (robofleet/config.py:2470-2473): the intake folder is
  compared as it is spelt. The check is right against every ingest folder exactly when that spelling, without outer
  slashes, lists the names that lead from the vault's root to the folder, or begins with a dot component and leads
  neither into the vault nor above it (`JudgedRightlyIff`). Then, and only for that folder's sake, the whole check is sound (`AcceptedIffApart`);
  `DottedIntakeIsAccepted` has settings that ingest the intake folder itself.
- A static token is a hash of the colon-joined identity. It is accepted for exactly the identities with the same hash:
  unless the hash collides, those that join to the same text, and among identities without colons only its own
  (`StaticTokenRoundTrip`). `ColonsConfuseIdentities` has two identities that share a token.

## Model

| member | source | states |
|---|---|---|
| LinePatterns.HeadingIff | scripts/reflow_md.py:49 | the heading test holds exactly when the line is white space, one to six `#`, then white space or the end |
| LinePatterns.FenceIff | scripts/reflow_md.py:47 | the fence test holds exactly when three backticks or three tildes follow the leading white space |
| LinePatterns.FenceCloseIff | scripts/reflow_md.py:48 | a closing fence is exactly a run of at least three backticks or tildes between white space |
| LinePatterns.ListItemIff | scripts/reflow_md.py:50 | a list item is exactly white space, a bullet or a number with `.` or `)`, and at least one white-space character |
| LinePatterns.ThematicIff | scripts/reflow_md.py:51 | a thematic break is exactly three or more of one rule character with nothing but white space around them |
| LinePatterns.SetextIff | scripts/reflow_md.py:52 | a setext underline is exactly a run of `=` or of `-` between white space |
| LinePatterns.KindExactly | scripts/reflow_md.py:47-78 | the class of every line, on its characters: which lines open a fence, are copied, are list items, or are prose |
| JoinedLines.ItemOpens | scripts/reflow_md.py:94-112 | an item's own line, right-stripped, can never be read back as heading, fence, table, quote or setext rule |
| JoinedLines.ProseOpens | scripts/reflow_md.py:115-126 | a stripped prose line likewise, and it starts flush left |
| JoinedLines.ProseExtends | scripts/reflow_md.py:94-126 | joining another prose line keeps that shape and leaves no marker bare |
| JoinedLines.JoinedKind | scripts/reflow_md.py:144-162 | how a joined line is classified when read back: item, prose or verbatim, never a fence, with the exact case of a bare marker |
| Reflow.Reflower.CopyFence | scripts/reflow_md.py:81-91 | copies the lines through the first closing fence or to the end, none in between closing, and advances |
| Reflow.Reflower.JoinList | scripts/reflow_md.py:94-112 | advances and adds what the line-by-line specification yields for the items and their lazy continuations; stops only at a block break |
| Reflow.Reflower.JoinParagraph | scripts/reflow_md.py:115-126 | advances and adds what the specification yields for one paragraph |
| Reflow.Reflower.SkipFrontMatter | scripts/reflow_md.py:129-141 | copies exactly the front matter and returns the index after it |
| Reflow.Reflower.Scan | scripts/reflow_md.py:144-162 | the scan terminates and its result is the transducer specification of the text |
| ReflowProofs.TokensPreserved | scripts/reflow_md.py:144-190 | for every text the whitespace-split tokens of the output equal those of the input: the guard cannot fire |
| ReflowProofs.CopiedLinesKept | scripts/reflow_md.py:81-162 | front matter, fenced and verbatim lines come out byte-identical, right after the output of the lines before them |
| ReflowProofs.BlocksKept | scripts/reflow_md.py:55-162 | wherever it stands, a line that is blank, a heading, a table, quote or HTML line, a rule, an underline, indented code or the start of a fence comes out byte-identical and in place, each told by its characters |
| ReflowProofs.FrontMatterExactly | scripts/reflow_md.py:129-141 | the front matter runs from a first line that is `---` through the next such line, or to the end |
| ReflowProofs.FencedExactly | scripts/reflow_md.py:81-91 | a line lies in a fence exactly when a fence opened before it and nothing closed it since |
| ReflowProofs.ItemStartsLine | scripts/reflow_md.py:94-112 | every list item starts its own output line, indentation kept, right after the output of the lines before it |
| ReflowProofs.ProseJoinsLine | scripts/reflow_md.py:101-126 | every prose line lands, stripped, on the line open before it after one space, or starts its own line |
| ReflowNormalForm.UnchangedIffSettled | scripts/reflow_md.py:185-187 | a text is left unchanged exactly when, outside fences, items have no trailing space, prose is stripped and no prose line follows prose or an item |
| ReflowNormalForm.RunSettled | scripts/reflow_md.py:144-162 | from any reachable state, the output is settled exactly when no loose bare marker was left |
| ReflowNormalForm.FrontMatterKept | scripts/reflow_md.py:129-141 | the output has the same front matter as the input: none is gained or lost |
| ReflowNormalForm.IdempotentIffNoLooseMarker | scripts/reflow_md.py:94-112 | a second run changes nothing if and only if the first left no loose bare marker |
| ReflowNormalForm.IdempotentWithoutBareItems | scripts/reflow_md.py:144-162 | reflow is idempotent on every text without bare-marker items, also where joining makes an item or a rule |
| ReflowNormalForm.SecondRunSettles | scripts/reflow_md.py:144-162 | for every text a third run changes nothing after the second |
| ReflowNormalForm.OneRunIsNotAlwaysEnough | scripts/reflow_md.py:109-111 | on an indented bullet with nothing after it one run is not enough |
| Placeholders.RenderPieces | robofleet/agent/adk_entry.py:53 | the leftmost, non-overlapping matches and the text between them make up the template |
| Placeholders.PiecesRender | robofleet/agent/adk_entry.py:53-63 | scanning a rewritten template finds the same pieces again: brace runs never merge with their neighbours |
| Placeholders.RewritesOnlyGroups | robofleet/agent/adk_entry.py:56-63 | the rewritten template scans to the original pieces with the required groups marked and all else unchanged |
| Placeholders.PieceByPiece | robofleet/agent/adk_entry.py:45-63 | an empty, optional or artifact group stays as it is, braces and all; every other becomes its stripped name and a `?` between single braces; text outside groups stays |
| Placeholders.ScanFindsGroup | robofleet/agent/adk_entry.py:53 | the scan finds every maximal brace group, wherever it stands |
| Placeholders.NoRequiredGroupLeft | robofleet/agent/adk_entry.py:45-63 | every maximal brace group of the output is empty, ends in `?`, or names an artifact |
| Placeholders.MakeOptionalIdempotent | robofleet/agent/adk_entry.py:56-63 | rewriting twice is rewriting once |
| FailureChain.ComputeChain | robofleet/agent/adk_entry.py:360-373 | the worklist terminates on any finite graph; it raises exactly when something reachable over causes, contexts and `error` attributes is no exception, and otherwise lists each exception once, exactly the reachable ones |
| FailureChain.FindCauseDecides | robofleet/agent/adk_entry.py:376-382 | searching the chain decides whether a matching exception is reachable, and raises exactly when something reachable is no exception |
| ToolLoop.Breaker.OnAfterTool | robofleet/agent/adk_entry.py:331-357 | the two-field state always equals the streak of the whole response history, and the verdict is that history's |
| ToolLoop.Streak | robofleet/agent/adk_entry.py:331-343 | the streak is the length of the longest suffix of error responses from one tool |
| ToolLoop.WarningKeepsError | robofleet/agent/adk_entry.py:325-357 | adding the warning neither makes a response a rejection nor stops it being one |
| ToolLoop.VerdictByTail | robofleet/agent/adk_entry.py:331-357 | cut exactly when the last twelve calls are rejections by one tool, warned exactly when the last six are and no cut is due; a warning only adds its field |
| ToolLoop.UncutIffNoWindow | robofleet/agent/adk_entry.py:316-357 | a run goes uncut exactly as long as no twelve such rejections stand in a row anywhere |
| RestartLoop.AgentRun.Accumulate | robofleet/agent/adk_entry.py:120-135 | one event adds one turn and its own counts to the usage |
| RestartLoop.AgentRun.RunSession | robofleet/agent/adk_entry.py:422-433 | a session adds the counts of all its events, also when it fails |
| RestartLoop.AgentRun.ClassifiedExit | robofleet/agent/adk_entry.py:436-455 | a classified failure is reported once, under its reason, before its exit code is returned; any other is not reported; where the walk through its causes raises, nothing is |
| RestartLoop.AgentRun.RunToExit | robofleet/agent/adk_entry.py:458-512 | at most three sessions, the resume note in every prompt after the first and only once; the exit is that of the first session that is not restartable, or the third; exactly one report, whose totals cover every event of every session, unless that end is one that is not reported |
| RestartLoop.FailureExactly | robofleet/agent/adk_entry.py:436-510 | for every failure whose causes can be walked: a tool loop anywhere behind it exits 0, else a rate limit by its own name or text 75, else a refused login 78, else it is raised; a fresh session is tried exactly when none of these holds and an invalid request lies behind it |
| RestartLoop.NoteOnce | robofleet/agent/adk_entry.py:500-504 | every prompt after the first holds the note, appended once unless the first already held it |
| RestartLoop.ReportedIff | robofleet/agent/adk_entry.py:485-511 | an end is reported exactly when it is normal, or an `Exception` with nothing but exceptions reachable behind it |
| RestartLoop.UnwalkableIsNotReported | robofleet/agent/adk_entry.py:360-373 | a rate-limit failure whose `error` attribute holds no exception is neither classified nor reported |
| RestartLoop.TotalsAreSums | robofleet/agent/adk_entry.py:120-135 | the totals are the sums of the events' counts, thoughts counted as output, and the number of events |
| Base64Url.PaddingRestored | robofleet/agents_config.py:91-97 | the padding computed from the stripped length restores the padded text, for every byte string |
| Base64Url.RoundTrip | robofleet/agents_config.py:91-97 | decoding undoes encoding for every byte string |
| Base64Url.EncodedIsPlain | robofleet/agents_config.py:91-92 | encoded text is ASCII and holds no dot |
| Base64Url.BlockIsNumber | robofleet/agents_config.py:91-92 | three bytes and the four characters that stand for them carry the same 24-bit number |
| Base64Url.OtherCharactersAreSkipped | robofleet/agents_config.py:95-97 | the decoder reads past any character outside its alphabets, wherever it stands |
| AgentToken.ExpiringTokenRoundTrip | robofleet/agents_config.py:100-190 | an expiring token whose payload the JSON codec reads back verifies exactly for id, role and team that agree once stripped and lower-cased, and strictly before minting time plus lifetime |
| AgentToken.AcceptedIffSignedAndCurrent | robofleet/agents_config.py:135-159 | a token with a dot is accepted exactly when it is a payload, a dot and that payload's signature, and the payload names the identity and has not expired |
| AgentToken.RaisesExactly | robofleet/agents_config.py:135-190 | when verification raises instead of answering: on text that is not ASCII, and on a properly signed payload that is JSON but no object |
| AgentToken.StaticTokenRoundTrip | robofleet/agents_config.py:100-190 | a static token verifies at any time exactly for identities with the same hash; unless it collides, for those whose stripped, lower-cased parts join to the same text; without colons, for those whose parts agree one by one |
| AgentToken.ColonsConfuseIdentities | robofleet/agents_config.py:100-190 | two different identities with colons share a static token |
| AgentToken.AssumptionsCanBeMet | robofleet/agents_config.py:91-132 | for every minting there is a codec and a hash that meet what the two round trips assume |
| AgentToken.SigningPayloadInjective | robofleet/agents_config.py:81-88 | colon-free identities have different signing payloads |
| AgentToken.FailsClosed | robofleet/agents_config.py:100-190 | without a secret only the sentinel is minted and nothing verifies; with one the sentinel is never minted; it never verifies |
| A2AMatrix.MayExactly | robofleet/agents_config.py:619-759 | the whole matrix, for every registry and every two agents, as one condition on their roles and teams |
| A2AMatrix.HintExactly | robofleet/agents_config.py:762-787 | which hint is offered, and that its stations are the sender's own PM, the main PM and the target's PM |
| A2AMatrix.RefusalNamesThePms | robofleet/agents_config.py:619-703 | a refusal between cells names both cells' PMs, one from the main PM the target's |
| A2AMatrix.CrossCellRoutePassable | robofleet/agents_config.py:762-787 | over any well-formed registry the route offered between two teams can be followed hop by hop exactly when both teams are cells and the sender is not of the board |
| A2AMatrix.ToBoardRoutePassable | robofleet/agents_config.py:782-785 | the route towards the board can be followed exactly when the sender is of a cell and not of the board; the main PM at its end reaches every board member |
| A2AMatrix.MembersRouteAround | robofleet/agents_config.py:633-787 | members of different cells cannot message each other directly, and the hint they get can be followed |
| A2APairs.OneWayExactly | robofleet/agents_config.py:619-759 | the complete list of pairs where only one of the two may write first, derived from the matrix |
| A2APairs.ComputePairs | robofleet/agents_config.py:869-896 | the nested loops yield a strictly ordered list of exactly the ordered pairs with some allowed direction |
| A2APairs.EntriesCarryRows | robofleet/agents_config.py:869-896 | each entry carries its two agents' own roles and teams |
| A2APairs.OneEntryPerPair | robofleet/agents_config.py:802-896 | two participants share exactly one entry if some direction is allowed and none otherwise |
| A2APairs.SectionsOfAllowedPairs | robofleet/agents_config.py:838-866 | the section of an allowed pair does not depend on its order, a cell's section holds its own team's pairs, and every other section exactly the pairs its description names |
| GrokStream.StreamAssembler.Feed | robofleet/agent_sdk/grok_cli_session.py:112-127 | new state and chunks are those of the step specification |
| GrokStream.EmissionExactly | robofleet/agent_sdk/grok_cli_session.py:85-149 | what each event emits, told from the stream before it: the reasoning since the last answer, the whole answer text for the draft, the last id reported |
| GrokStream.CoalescingKeepsContent | robofleet/agent_sdk/grok_cli_session.py:85-149 | for every stream the emitted characters with their kind, followed by the buffered ones, are exactly those of the events, in order |
| GrokTurn.GrokCliSession.Drain | robofleet/agent_sdk/grok_cli_session.py:276-293 | feeds every line read to the assembler in order, skipping those that are no events, however reading stops |
| GrokTurn.EventsExactly | robofleet/agent_sdk/grok_cli_session.py:276-293 | the events of a turn are the lines that are events, one each, in order |
| GrokTurn.GrokCliSession.Send | robofleet/agent_sdk/grok_cli_session.py:230-274 | the chunks a turn emits, exactly when it raises, the session id kept for the next turn (the last one reported, unless reading raised), and the usage captures attempted |
| GrokTurn.TurnCloses | robofleet/agent_sdk/grok_cli_session.py:230-326 | a turn emits one `turn_end` per `end` and one more exactly when it is abnormal and nothing interrupts it; then, and only then, one error right before it; at least one exactly when nothing interrupts it or the stream had an `end` |
| GrokTurn.ProblemExactly | robofleet/agent_sdk/grok_cli_session.py:230-326 | the error of a turn that closes itself: the failed start, the deadline, or what the process left behind |
| GrokTurn.FailureExactly | robofleet/agent_sdk/grok_cli_session.py:152-161 | what it left behind: a rate limit when the error output names one, else the last line of that output, else the exit code |
| GrokTurn.ExactlyOneTurnEnd | robofleet/agent_sdk/grok_cli_session.py:230-326 | when a turn emits exactly one `turn_end`: run to its close, no second `end` and none before the deadline; interrupted, exactly one `end` |
| GrokTurn.EndsWithTurnEnd | robofleet/agent_sdk/grok_cli_session.py:230-326 | for every turn, its last chunk is a `turn_end` exactly when it closes itself, or the stream had an `end` and no event after the last one shows anything |
| GrokTurn.TextAfterEnd | robofleet/agent_sdk/grok_cli_session.py:230-326 | a turn with answer text after its `end` does not end with a `turn_end` |
| GrokTurn.ExitCodeIsIgnored | robofleet/agent_sdk/grok_cli_session.py:295-326 | once the stream had an `end` or the deadline passed, exit code and error output do not change what the turn emits |
| GrokTurn.FailedExitShowsNoError | robofleet/agent_sdk/grok_cli_session.py:233-326 | a turn with an `end` and a failing exit code emits no error |
| GrokTurn.InterruptedBeforeEnd | robofleet/agent_sdk/grok_cli_session.py:257-274 | a raising read or a raising usage capture before any `end` leaves a turn without output |
| GrokTurn.TurnKeepsContent | robofleet/agent_sdk/grok_cli_session.py:257-274 | a turn shows a prefix of the stream's characters; the rest is reasoning still buffered when it stopped |
| QuickContext.Parse | alembic/versions/041_structured_content_columns.py:58-105 | the two nested loops compute the specification, line by line and token by token |
| QuickContextProofs.WordsParse | alembic/versions/041_structured_content_columns.py:92-103 | for any line of words, markers and human words mixed: each key holds the value of the last word naming it, else its old one, and the human words are kept in order |
| QuickContextProofs.LineMarkerExactly | alembic/versions/041_structured_content_columns.py:71-78 | a line marker sets its key to the rest of the line without the white space around it |
| QuickContextProofs.CellsExactly | alembic/versions/041_structured_content_columns.py:73-77 | the cells of a list marker come back in order, stripped, without the empty ones |
| QuickContextProofs.NoteExactly | alembic/versions/041_structured_content_columns.py:86-90 | a documentation note keeps its stripped text, and an empty one leaves nothing |
| QuickContextProofs.OnlyStrippedLinesCount | alembic/versions/041_structured_content_columns.py:66-69 | white space around the lines of a blob makes no difference |
| QuickContextProofs.HumanTokensSurvive | alembic/versions/041_structured_content_columns.py:58-105 | for any blob the tokens of the remainder are exactly those no marker consumed, in order |
| QuickContextProofs.PrintedParses | alembic/versions/041_structured_content_columns.py:43-105 | each printed marker, human line, mixed line or note parses back to itself and changes nothing else |
| QuickContextProofs.RoundTrip | alembic/versions/041_structured_content_columns.py:58-105 | any interleaving of markers, human lines, notes and lines that mix markers with human words parses back to the markers, the last of each key winning, and the human text in order |
| QuickContextProofs.MapRoundTrip | alembic/versions/041_structured_content_columns.py:58-105 | every marker map printed one per line, with human lines, comes back whole |
| TranscriptUsage.SumTranscriptUsage | robofleet/agent_sdk/transcript_usage.py:57-85 | raises exactly when some line is bad; otherwise returns the de-duplicated totals and the number of distinct ids |
| TranscriptUsage.OneLineLosesTheCount | robofleet/agent_sdk/transcript_usage.py:57-85 | a JSON line that is no object loses the counts of the lines before it |
| TranscriptUsage.TotalIsSumOfCounted | robofleet/agent_sdk/transcript_usage.py:57-85 | the totals are the sum over lines without an id and the first line of each id |
| TranscriptUsage.CountersAreSums | robofleet/agent_sdk/transcript_usage.py:26-85 | when the sum raises, on the fields of the lines; otherwise each of the four totals is the sum of its own field over the counted lines, and the turns are the distinct ids |
| TranscriptUsage.TotalAppend | robofleet/agent_sdk/transcript_usage.py:72-85 | totals compose over concatenation through the set of seen ids |
| TranscriptUsage.RepeatsAddNothing | robofleet/agent_sdk/transcript_usage.py:77-80 | a line whose id was seen can be dropped anywhere |
| TranscriptUsage.OrderDoesNotMatter | robofleet/agent_sdk/transcript_usage.py:57-85 | permuting the lines keeps the totals when lines sharing an id agree |
| TranscriptUsage.OrderKeepsTurns | robofleet/agent_sdk/transcript_usage.py:65-85 | permuting the lines keeps the set of ids, so the number of turns |
| ProxyHops.BuildTrustedHops | robofleet/security.py:532-574 | builds the loopback addresses and each configured single address; an address is in them exactly when it is loopback or configured |
| ProxyHops.HopMembership | robofleet/security.py:601-610 | hop membership comes down to equality with loopback or a configured address; no range gets in |
| ProxyHops.TailnetBounds | robofleet/security.py:589 | the tailnet range is 100.64.0.0 to 100.127.255.255 |
| ProxyHops.WarnsExactly | robofleet/security.py:617-640 | when a gateway is warned about, on the setting and the two addresses |
| ProxyHops.ChainReadsBack | robofleet/security.py:668 | reading a written header gives its entries in order, stripped, without the empty ones |
| ProxyHops.Resolver.WarnOnce | robofleet/security.py:617-640 | warns only with nothing configured, a bridge gateway and a tailnet candidate, and once per gateway |
| ProxyHops.Resolver.Resolve | robofleet/security.py:643-682 | the loop computes the specification and warns in exactly one case |
| ProxyHops.ResolveExact | robofleet/security.py:643-682 | the answer is the one tailnet non-hop entry with nothing but hops, and at least one, to its right |
| ProxyHops.PrependingChangesNothing | robofleet/security.py:668-682 | text put in front of a chain never changes the answer unless every entry of the chain is a hop |
| ProxyHops.ResolvedStaysResolved | robofleet/security.py:668-682 | a chain that resolves keeps its answer whatever is put in front of it |
| VaultDirs.OverlapIsNesting | robofleet/config.py:2531-2538 | on normal directories the string test holds exactly when one component list is a prefix of the other |
| VaultDirs.OverlapIffCommonPath | robofleet/config.py:2531-2538 | and exactly when some path lies under both |
| VaultDirs.NormPathComponents | robofleet/config.py:2513-2514 | normalising keeps exactly the components that name something, and gives the root when none does |
| VaultDirs.ValidateKbDirs | robofleet/config.py:2481-2528 | the loops report the first problem of the first bad entry, or accept |
| VaultDirs.AcceptedIffEntriesOk | robofleet/config.py:2502-2528 | a configuration is accepted exactly when every entry is sound |
| VaultDirs.ProblemExactly | robofleet/config.py:2502-2528 | a rejection reports the first entry that is not sound, with its first problem and the first reserved folder it overlaps |
| VaultDirs.EntryOkIffApart | robofleet/config.py:2502-2538 | an entry is sound exactly when it is relative, never climbs, is below the root, and nothing on disk lies both under it and under a reserved folder, for reserved folders that are judged rightly |
| VaultDirs.AcceptedIffApart | robofleet/config.py:2481-2538 | with the intake folder judged rightly, a setting is accepted exactly when every non-empty entry is such |
| VaultDirs.OwnFoldersAreSpared | robofleet/config.py:2481-2528 | whatever the intake folder, no accepted entry lies in or holds one of the eight folders the vault keeps for itself |
| VaultDirs.JudgedRightlyIff | robofleet/config.py:2500-2538 | for any spelling of a reserved folder, with dots, climbing or absolute: exactly when the string test agrees with the places on disk against every ingest folder |
| VaultDirs.ReservedJudgedRightly | robofleet/config.py:2491-2501 | the fixed reserved folders always are, so the check stands or falls with the intake folder |
| VaultDirs.DottedIntakeIsAccepted | robofleet/config.py:2481-2538 | an intake folder spelt with a leading dot, whatever its name, is itself accepted for ingest |
| VaultAssets.Vault.CopyTree | robofleet/vault.py:48-55 | the recursive walk writes, in order, what the specification says for the flattened tree |
| VaultAssets.Vault.EnsureVaultAssets | robofleet/vault.py:36-45 | both packaged trees, one after the other |
| VaultAssets.ShippedExactly | robofleet/vault.py:48-55 | everything the packaged tree holds is shipped at its path below the destination, and nothing else |
| VaultAssets.AssetsMaterialised | robofleet/vault.py:36-45 | after a successful merge the first tree is below `.obsidian` and the second below `RoboFleet/_meta`, with their content wherever nothing was before |
| VaultAssets.MergeKeepsSane | robofleet/vault.py:48-55 | the disk stays a tree of directories and files, also when the merge raises half way |
| VaultAssets.DirsExactly | robofleet/vault.py:48-55 | a successful merge creates exactly the directories on the way to the missing files |
| VaultAssets.NothingIsOverwritten | robofleet/vault.py:36-55 | no existing file is changed or removed, even when the merge raises half way |
| VaultAssets.SucceedsIffUnblocked | robofleet/vault.py:53-55 | the merge succeeds exactly when no missing file would go below an existing file |
| VaultAssets.AddsExactlyTheMissing | robofleet/vault.py:36-55 | afterwards the files are the old ones plus exactly the shipped ones whose place was free, with their content |
| VaultAssets.MergeIsIdempotent | robofleet/vault.py:36-55 | repeating the merge changes nothing |
| VaultAssets.AssetsApart | robofleet/vault.py:43-45 | no shipped path equals or leads through another |
| VaultAssets.Writer.Rebuild | robofleet/vault.py:77-84 | the offset loop writes every row of a stable list once, in order, and terminates, however the pages are cut |
| DocsAccess.AccessPolicy | robofleet/api/middleware_docs.py:55-252 | the decision for every path by who may read and write which folder: the CEO everything, nobody else the root or the CEO's folder, elsewhere the read-all readers and whoever the folder grants it |
| DocsAccess.ListPolicy | robofleet/api/middleware_docs.py:55-329 | the enumerated list by the same grants |
| DocsAccess.RuleExactly | robofleet/api/middleware_docs.py:165-177 | a prefix is judged by the one rule whose name begins it, and by none when there is none: the order of the table does not matter |
| DocsAccess.PrefixExactly | robofleet/api/middleware_docs.py:136-162 | the prefix of every path: any slashes, then one `app/` and one `docs/` are dropped, and the first component counts, or two below `features` and `bugs` |
| DocsAccess.ExactPathsAgree | robofleet/api/middleware_docs.py:203-252 | where the normalised prefix is a rule's name, the decision equals membership of that name in the list |
| DocsAccess.DecisionAgreesWithList | robofleet/api/middleware_docs.py:165-329 | for every path with a rule the two agree if and only if the rule is not the CEO's or the agent does not skip the list |
| DocsAccess.AccessExactly | robofleet/api/middleware_docs.py:146-252 | the decision for every path: by the list where there is a rule, but for readers that skip it; without a rule, the CEO and read-all readers below the root |
| DocsAccess.ListedIff | robofleet/api/middleware_docs.py:289-329 | when a rule's name is in the enumerated list |
| DocsAccess.SpellingsAgree | robofleet/api/middleware_docs.py:136-162 | all six spellings of a path below a rule's folder are judged by that rule, as the list says |
| DocsAccess.ListIsSkippedSomewhere | robofleet/api/middleware_docs.py:146-252 | a folder whose name begins with `internal` is readable to the auditor though the list excludes its rule |

## Left out

- File walking, argument handling, reading and writing of files in scripts/reflow_md.py: input and output around `reflow`.
- The Unicode version behind `\d`: the decimal digits outside ASCII are a table of their blocks.
- Diagnostics, crash dumps, heartbeats and log lines: they do not change the run's outcome. A run's sessions, and whether a usage report raises, are inputs.
- HMAC, JSON and lower-casing: an uninterpreted hash with hexadecimal output, a codec that reads back the payload a token carries, an arbitrary function.
- `_auth_secret`'s cache and Secret Manager: the secret is an input. Times and lifetimes are reals, without rounding.
- The concrete agent catalogue: results hold for every registry with the stated shape; UUIDs stand for slugs through a map.
- The wording of refusals and error messages: each is a constructor with the same arguments.
- Concurrency of the Grok turn: the lines read and how reading stops are one input, standard error another; building the command line, and a caller that abandons the turn, are left out. A line whose handling raises counts as a raising read.
- `_parse_event`: a line is an event or none. The fenced-draft search is a parameter.
- DDL, data migration and downgrade in the migration that holds the marker parser.
- JSON decoding of transcript lines: a line is given by its class, id and fields; ids are strings.
- Parsing IP address text, with its scope ids: a parameter; the ASGI middleware around the resolver is left out.
- Symbolic links in the vault: folders are placed by their names alone. Other settings and validators of robofleet/config.py: one-branch checks.
- Races between the existence test and the write in the asset merge, permissions, and the other rebuild steps of robofleet/vault.py.
- Raising and logging in `require_docs_access`: a wrapper of the decision.
