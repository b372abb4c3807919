# mroute_scraper in Dafny

A model of the parsing core of `mroute_scraper`. The program logs in to a
Mellanox switch over SSH, asks `show ip mroute` and one
`show lldp interfaces ethernet 1/n remote` per port, and stores what it
reads in an in-memory SQLite database. It then prints, for each port, the
LLDP neighbour behind it and the multicast groups it wants.

The model has these parts:

- `Strings` (strings.dfy). The Python string operations the code relies on:
  - `in` and `find`;
  - slicing past the end;
  - `split(',')[0]`;
  - `strip()`, over the ASCII white space `str.isspace()` accepts;
  - decimal formatting.
- `Patterns` (patterns.dfy). A matcher for the three fixed regular expressions:
  - `\(\*, \d{1,3}\.\d{1,3}\.\d{1,3}\.\d{1,3}/\d{1,2}\)`;
  - `RP \d{1,3}\.\d{1,3}\.\d{1,3}\.\d{1,3}`;
  - `show lldp interfaces ethernet 1/\d{1,2}`.

  It gives `search` and `findall(...)[0]` for them: the leftmost match, with
  greedy digit runs. A second matcher, `Backtrack`, does what Python's `re`
  does: it tries the longest digit run first and gives digits back one at a
  time. In these patterns a digit run is always followed by a non-digit
  literal or ends the pattern, and for such patterns the two matchers are
  proved to agree (`MatchAtIsBacktrack`, `SearchIsRegexSearch`).
- `StateMachines` (state_machines.dfy). The `IPMrouteParser` enum.
- `LineAssembly` (line_assembler.dfy). `ClientSessionBase.data_received`, as a
  `LineAssembler` class that owns the `buffer` field. It is specified by the
  function `Assemble(buffer, data)`, which gives the lines handed to
  `process_line` and the new buffer.
- `Store` (store.dfy). The two tables `subscriptions` and `lldp_remotes`. They
  are a `FactStore` object with two append-only sequences of rows, which both
  sessions share.
- `MrouteSession` (mroute_session.dfy). The `show ip mroute` parser:
  - `Step`, one call of `process_line`, as a function of the state and the
    current group;
  - `Run`, the lines of one chunk;
  - the class `IPMrouteSession`, whose `ProcessLine` and `DataReceived`
    update its fields and the store as the source does;
  - a theorem about a whole well-formed dump.
- `LldpSession` (lldp_session.dfy). The LLDP scanner `LLDPRemoteSession`, in
  the same shape.
- `Scraper` (scraper.dfy). The 36 LLDP commands the driver writes, and the
  report it prints from the two tables.

`mroute_client_session.py` is an earlier copy of `IPMrouteClientSession` with
its own database. Its line assembler is `mroute_client_session.py:44-66`, the
same code as `client_sessions.py:34-54`. Its `process_line` is
`mroute_client_session.py:72-123`, the same code as `client_sessions.py:84-136`.
So `LineAssembler.Feed` and `Step` model both copies. The table below cites
`client_sessions.py`.

Four behaviours of the code are easy to misread. The model follows the code
in each case:

- The stored group is the whole match, parentheses included, for example
  `(*, 239.10.10.20/32)` (`GroupOf`, `GroupLineTransitions`).
- Two blank lines after an interface list end in `DEFAULT`, not in
  `CHECK_MCAST_GROUP`. The second blank is a group line that does not match
  (`TwoBlanksEndInDefault`).
- For the padded line `Remote system name          : leaf-switch-07`,
  `line[20:].strip()` keeps the colon. The host stored is `: leaf-switch-07`
  (`PaddedRemoteName`).
- A group line without an RP raises `IndexError` in `process_line`. The model
  says what the session state is then (see `Step` and `DataReceived`).
  - The group has already been assigned.
  - The state has not changed.
  - The rest of the chunk is not processed.
  - The buffer still holds the failing line.

## Model

| member | source | states |
|---|---|---|
| `StateMachines.Value` | state_machines.py:8-14 | the values run 1 to 6 in declaration order, and each value leads back to its state through `FromValue` |
| `StateMachines.FromValue` | state_machines.py:8-14 | `IPMrouteParser(v)` exists exactly for 1 ≤ v ≤ 6 and is the v-th member |
| `StateMachines.ExactlySixStates` | state_machines.py:8-14 | there are six states, every state is listed, and none is listed twice |
| `StateMachines.ValueRoundTrip` | state_machines.py:8-14 | from value to state and back gives the same value |
| `StateMachines.InitialStateIsValueOne` | client_sessions.py:68 | a session starts in `DEFAULT`, the member with value 1 |
| `Strings.Find` | client_sessions.py:46 | `find` returns the leftmost occurrence, or -1 exactly when there is none |
| `Strings.Drop` | client_sessions.py:180 | `s[n:]` is empty once `n` passes the end, and otherwise holds the characters from `n` on |
| `Strings.BeforeComma` | client_sessions.py:123 | `split(',')[0]` is the longest comma-free prefix: the whole line, or the text before the first comma |
| `Strings.TrimStart` | client_sessions.py:127 | `strip()` removes only white space at the front, and the result does not start with white space |
| `Strings.TrimEnd` | client_sessions.py:127 | the same at the back |
| `Strings.StripIdempotent` | client_sessions.py:180 | stripping a stripped string changes nothing |
| `Strings.TrimStartSpaces` | client_sessions.py:180 | leading spaces before non-blank text are all removed |
| `Strings.Decimal` | mroute_scraper.py:29 | `str(n)` is one digit exactly when n < 10, and two digits exactly when 10 ≤ n < 100 |
| `Strings.DecimalValue` | mroute_scraper.py:29 | the digits of `str(n)` denote n, and there is no leading zero |
| `Patterns.PatternsAreDeterministic` | client_sessions.py:91-93 | in all three patterns every digit run is followed by a non-digit literal or ends the pattern, and has at most as many digits as its upper bound; the LLDP literal has 32 characters, as `[32:]` assumes |
| `Patterns.MatchAtIsBacktrack` | client_sessions.py:91-93 | for such a pattern the greedy match at a position is the back-tracking match Python's `re` makes there, and each fails exactly where the other does |
| `Patterns.SearchIsRegexSearch` | client_sessions.py:105 | for such a pattern `Search` gives the leftmost start where the back-tracking match succeeds and that match's end, or None when it succeeds nowhere |
| `Patterns.DigitRun` | client_sessions.py:91 | a run of `\d` takes the maximal run of digits at the index |
| `Patterns.Search` | client_sessions.py:105 | `search` finds the leftmost index where the pattern matches, or None when it matches nowhere |
| `Patterns.FirstMatch` | client_sessions.py:107 | `findall(...)[0]` exists exactly when `search` succeeds, and is the text of the match at the leftmost start where the pattern matches |
| `Patterns.PortEchoMatchShape` | client_sessions.py:171 | an LLDP echo match is the 32-character command text followed by one or two digits, and the digits stop at the first non-digit |
| `Patterns.EchoMatchAtStart` | client_sessions.py:171 | the command text followed by one or two digits and a non-digit matches from the start, up to the digits |
| `Patterns.GroupMatchBounds` | client_sessions.py:91 | a group match starts with `(*, `, ends with `)` and has at least 5 characters |
| `Patterns.MatchEndsWithLit` | client_sessions.py:91 | a match of a pattern that ends in a literal ends with that literal |
| `LineAssembly.FindCrlf` | client_sessions.py:45-46 | the first CR followed by LF, or -1 exactly when there is none |
| `LineAssembly.FindCrlfIsFind` | client_sessions.py:45-46 | that search is Python's `find("\r\n")`, and finding none is `"\r\n" not in data` |
| `LineAssembly.CutRoundTrip` | client_sessions.py:45-49 | the pieces cut from a chunk, each followed by CRLF, and then the tail, give back the chunk |
| `LineAssembly.CutPiecesHaveNoCrlf` | client_sessions.py:45-49 | no piece and no tail holds a CRLF |
| `LineAssembly.CutUnique` | client_sessions.py:45-49 | CRLF-free pieces joined with CRLF, plus a CRLF-free tail, cut back into exactly those pieces and that tail |
| `LineAssembly.CutCountsCrlf` | client_sessions.py:45-49 | there is one piece per CRLF in the chunk |
| `LineAssembly.EscapeDropsChunk` | client_sessions.py:42-44 | a chunk containing ESC hands on no line and leaves the buffer as it was |
| `LineAssembly.AssembleCountsLines` | client_sessions.py:45-49 | without ESC, one line is handed on per CRLF in the chunk |
| `LineAssembly.AssembleLineContents` | client_sessions.py:46-48 | the first line is the old buffer followed by the text before the first CRLF, and the later lines are CRLF-free |
| `LineAssembly.AssembleKeepsText` | client_sessions.py:45-54 | without ESC and without `>` in the tail, the lines with their CRLFs and then the new buffer are the old buffer followed by the chunk |
| `LineAssembly.AssembleBuffer` | client_sessions.py:51-54 | the new buffer is empty when the tail holds `>`; otherwise it is the old buffer plus the chunk when the chunk has no CRLF, or the tail alone |
| `LineAssembly.SplitCrlfIsNoLineEnd` | client_sessions.py:45 | a CR at the end of one chunk and an LF at the start of the next do not end a line; the buffer then holds the CR and the LF |
| `LineAssembly.PromptOnlyInTail` | client_sessions.py:51 | a `>` inside a completed line does not clear anything; only the tail counts |
| `LineAssembly.LineAssembler.Feed` | client_sessions.py:34-54 | the loop hands on exactly the lines of `Assemble(old buffer, data)` and leaves its buffer |
| `Store.FactStore.InsertSubscription` | client_sessions.py:125-127 | appends one `subscriptions` row and leaves `lldp_remotes` alone |
| `Store.FactStore.InsertLldpRemote` | client_sessions.py:182-185 | appends one `lldp_remotes` row and leaves `subscriptions` alone |
| `MrouteSession.GroupOf` | client_sessions.py:107 | the group taken is `findall(...)[0]` of the group pattern; it opens with `(*, `, closes with `)` and has at least 5 characters |
| `MrouteSession.Step` | client_sessions.py:95-133 | a step fails exactly on a group line without an RP, and the group is taken even then; a row is emitted exactly for a non-empty, CR-free line in the interface list, under the current group with the stripped text before the first comma; the group changes only at the banner (cleared) or at a group line |
| `MrouteSession.RunOnlyAppends` | client_sessions.py:45-49 | over a chunk, rows are only appended, at most one per line, and a failing line is one of the chunk's lines |
| `MrouteSession.RunAppend` | client_sessions.py:45-49 | two batches in a row are the second run from where the first left off |
| `MrouteSession.RunStopsAt` | client_sessions.py:47 | a line that raises ends the chunk there, whatever follows |
| `MrouteSession.DefaultWaitsForBanner` | client_sessions.py:95-99 | in `DEFAULT` only a line with the banner acts: it starts the preamble and clears the group |
| `MrouteSession.PreambleWaitsForBlank` | client_sessions.py:100-103 | the preamble lasts until the first empty line |
| `MrouteSession.OneLineStates` | client_sessions.py:113-119 | the bidir-upstream line and the list heading take one line each, whatever they say |
| `MrouteSession.GroupLineTransitions` | client_sessions.py:104-112 | in `CHECK_MCAST_GROUP`, a line without a group goes back to `DEFAULT`; one with a group takes `(*, …)` text and either moves on or raises |
| `MrouteSession.InterfaceListEnds` | client_sessions.py:128-133 | in the interface list, a line with CR ends the dump in `DEFAULT`, and an empty line looks for the next group |
| `MrouteSession.TwoBlanksEndInDefault` | client_sessions.py:104-133 | two empty lines after an interface list end in `DEFAULT` without a row |
| `MrouteSession.InterfaceRows` | client_sessions.py:121-127 | the rows of one group's list are one per interface line, in order, each with the line's port |
| `MrouteSession.GroupLineStartsEntry` | client_sessions.py:105-109 | a group line with an RP starts its group's entry |
| `MrouteSession.InterfaceLinesGiveRows` | client_sessions.py:120-127 | an interface list appends one row per line and stays in the list |
| `MrouteSession.EntryHeadGivesNothing` | client_sessions.py:104-119 | the group line, the upstream line and the heading append nothing and reach the interface list of that group |
| `MrouteSession.BlockGivesRows` | client_sessions.py:104-133 | one entry appends its rows under its own group and comes back to `CHECK_MCAST_GROUP` |
| `MrouteSession.BlocksGiveRows` | client_sessions.py:104-133 | consecutive entries append their rows in order and end under the last group |
| `MrouteSession.BlocksRowsCount` | client_sessions.py:120-127 | there is one row per interface line |
| `MrouteSession.PreambleGivesNothing` | client_sessions.py:95-103 | the banner, a non-empty preamble and a blank line lead from `DEFAULT` to `CHECK_MCAST_GROUP` with no group and no row |
| `MrouteSession.PreambleLines` | client_sessions.py:100-103 | non-empty preamble lines change nothing |
| `MrouteSession.WellFormedDump` | client_sessions.py:84-136 | a complete well-formed dump raises nothing, appends exactly one row per interface line under its group and in order, and ends in `CHECK_MCAST_GROUP` |
| `MrouteSession.IPMrouteSession.constructor` | client_sessions.py:64-71 | a new session starts in `DEFAULT` with an empty group and an empty buffer, on the given store |
| `MrouteSession.IPMrouteSession.ProcessLine` | client_sessions.py:84-136 | the new state, the group and the `subscriptions` table are those of `Step`; `ok` is false exactly when the line raises |
| `MrouteSession.IPMrouteSession.DataReceived` | client_sessions.py:34-54 | the chunk's lines go through `Run` in order; on a raise the state, the group, the rows so far and the failing line in the buffer are what the source leaves; `lldp_remotes` is untouched |
| `LldpSession.LldpStep` | client_sessions.py:171-186 | a port echo sets the port and appends nothing, even if the line names a remote system; exactly the other lines with `Remote system name` append a row of the current port and `line[20:].strip()` |
| `LldpSession.PortEchoSetsPort` | client_sessions.py:174-175 | the port becomes `Eth1/` followed by the digits after the command text: two when two follow, one when a single digit ends the run; no row is appended |
| `LldpSession.CommandEchoSetsPort` | client_sessions.py:174-175 | the echo of the command for port n (below 100) names port `Eth1/n` |
| `LldpSession.RemoteNameAppendsRow` | client_sessions.py:179-185 | a remote-name line keeps the port and appends the stripped text from index 20; a line of 20 characters or fewer gives the empty host |
| `LldpSession.OtherLinesChangeNothing` | client_sessions.py:172-186 | any other line changes nothing |
| `LldpSession.PaddedRemoteName` | client_sessions.py:180 | for the label padded with two or more spaces and `: name`, the line is a remote-name line and the host stored keeps the `: ` |
| `LldpSession.LldpRunAppend` | client_sessions.py:45-49 | two batches in a row are the second run from where the first left off |
| `LldpSession.LldpRunOnlyAppends` | client_sessions.py:182-185 | rows are only appended, at most one per line |
| `LldpSession.CommandOutputRows` | client_sessions.py:171-186 | after the echo of the command for port n, every remote-name line appends a row for `Eth1/n` and nothing else does |
| `LldpSession.LLDPRemoteSession.constructor` | client_sessions.py:148-153 | a new session has an empty port name and an empty buffer, on the given store |
| `LldpSession.LLDPRemoteSession.ProcessLine` | client_sessions.py:165-186 | the port and the `lldp_remotes` table are those of `LldpStep`; `subscriptions` is untouched |
| `LldpSession.LLDPRemoteSession.DataReceived` | client_sessions.py:34-54 | the chunk's lines go through `LldpRun` in order, and the buffer is `Assemble`'s |
| `Scraper.LldpCommands` | mroute_scraper.py:28-29 | 36 commands, the i-th for port `1/(i+1)`, in ascending order |
| `Scraper.CommandEchoNamesItsPort` | mroute_scraper.py:28-29 | each command ends in LF, and its echo, read as a line, names port `Eth1/n` in the scanner |
| `Scraper.DistinctPorts` | mroute_scraper.py:87 | `SELECT DISTINCT port`: no port twice, and a port is listed exactly when some row has it |
| `Scraper.GroupCountSnoc` | mroute_scraper.py:91 | a new row adds one to its own port's count and leaves the others alone |
| `Scraper.GroupsOfCounted` | mroute_scraper.py:91-99 | the count printed for a port equals the number of group lines printed under it |
| `Scraper.GroupsOfMembers` | mroute_scraper.py:98 | the groups listed under a port are exactly the groups of that port's rows, each listed as often as the port has rows with it |
| `Scraper.HostOfMissing` | mroute_scraper.py:92-95 | a port without an `lldp_remotes` row is reported as `loopback` |
| `Scraper.HostOfFirstRow` | mroute_scraper.py:92-97 | otherwise the host of its first `lldp_remotes` row is reported |
| `Scraper.GroupLines` | mroute_scraper.py:98-99 | one line per group, the group after two tabs |
| `Scraper.SumCountsSnoc` | mroute_scraper.py:89-91 | a new row adds one to a sum of distinct ports' counts exactly when its port is among them |
| `Scraper.EveryRowCountedOnce` | mroute_scraper.py:87-91 | summed over the distinct ports, the counts add up to the number of rows |
| `Scraper.SectionsLength` | mroute_scraper.py:89-99 | each port's section is one heading plus its counted rows |
| `Scraper.ReportLength` | mroute_scraper.py:83-99 | the report has one heading per distinct port and exactly one group line per `subscriptions` row |
| `Scraper.PrintGroups` | mroute_scraper.py:98-99 | the inner loop appends the group lines in order |
| `Scraper.Report` | mroute_scraper.py:83-99 | the lines the outer loop prints are `ReportText`: per distinct port in first-seen order, the heading with host and count, then its groups |

## Left out

- SSH and terminal handling are not modelled: asyncssh, the connection, the channels, `term_type` and `term_size`, and `connection_lost`, which only prints the error it is given.
- The `asyncio` tasks, the sleeps and the interleaving of the two sessions are not modelled. The two sessions write to different tables, so the order in which they run does not change the report.
- Printing and `OptionParser` are not modelled. The report is modelled as the list of lines it prints.
- `VersionClientSession` and `get_version` are left out; they only echo data.
- The two `if False:` blocks (mroute_scraper.py:33-38, 50-63) are left out; they never run.
- The SQL is modelled on sequences. `CREATE TABLE`, transactions, the `ID` column (it is the row's position) and the `ports` table with its foreign key (mroute_client_session.py:29-41) are not modelled. Nor is the error the second `CREATE TABLE` raises if a table is created twice.
- `DistinctPorts`: its order is the order of first appearance, which SQLite does not promise without `ORDER BY`.
- `HostOf`: its host is the first row in insertion order, which SQLite does not promise either.
- `GroupsOf`: it lists a port's groups in insertion order, which SQLite does not promise for a query without `ORDER BY`. `GroupsOfMembers` and `GroupsOfCounted` do not depend on that order.
- The regular-expression engine is replaced by a matcher for the three fixed patterns. `\d` is ASCII digits only, not every Unicode digit, and white space is ASCII only.
- The unused values are not modelled: `_rp` (the RP text, only checked to exist), `_bidir_upstream` and `requested_port`.
- `Step`: the `else` branch that prints "Something has gone quite wrong." (client_sessions.py:134-136) cannot be reached, since the state is always one of the six (`ExactlySixStates`). The states are matched exhaustively.
- `IPMrouteSession.DataReceived` and `LLDPRemoteSession.DataReceived` first cut the whole chunk into lines and then process them, where the source processes each line as it cuts it. The difference is invisible because `process_line` does not touch the buffer. When a line raises, the buffer is left holding that line, as in the source.
- What asyncssh does with the `IndexError` from a group line without an RP is not modelled. The model stops the chunk there and reports it.
- `mroute_client_session.py:15-41` (the earlier copy's constructor, which opens its own database) is not modelled separately; its parsing code is the same as `client_sessions.py`'s.
