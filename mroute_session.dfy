/** The `show ip mroute` parser of `IPMrouteClientSession`
    (client_sessions.py:62-136, an earlier revision at
    mroute_client_session.py:13-123): a six-state machine over the lines
    the line assembler hands on, which appends one subscription row per
    outgoing interface of each multicast group. */
module MrouteSession {
  import opened Strings
  import opened Patterns
  import opened StateMachines
  import opened Store
  import opened LineAssembly

  /** The banner that opens the routing table. */
  const RoutingTableBanner: string := "IP Multicast Routing Table"

  /** The two fields the parser keeps between lines: its state and the
      group whose interface list it is reading. */
  datatype Parser = Parser(state: IPMrouteParser, group: string)

  /** A line either moves the parser on, maybe with one row, or is a group
      line without a rendezvous point, where `rp_re.findall(line)[0]` raises
      after the group has been taken. */
  datatype StepResult =
    | Next(parser: Parser, row: Option<Subscription>)
    | MissingRp(group: string)

  /** The text of the leftmost `(*, a.b.c.d/n)` on a line that has one. */
  function GroupOf(line: string): (g: string)
    requires Search(line, McastGroupPattern).Some?
    ensures FirstMatch(line, McastGroupPattern) == Some(g)
    ensures |g| >= 5 && g[..4] == "(*, " && g[|g| - 1] == ')'
  {
    var (b, e) := Search(line, McastGroupPattern).value;
    GroupMatchBounds(line, b);
    assert line[b..e][..4] == line[b..b + 4];
    line[b..e]
  }

  /** The port of an outgoing-interface line: the text before the first
      comma, stripped. */
  function PortOf(line: string): string
  {
    Strip(BeforeComma(line))
  }

  /** One call of `process_line` (client_sessions.py:95-133). */
  function Step(p: Parser, line: string): (r: StepResult)
    // Only a group line with no RP fails, and then the group is already taken.
    ensures r.MissingRp? <==>
      p.state == CheckMcastGroup && Search(line, McastGroupPattern).Some? && Search(line, RpPattern).None?
    ensures r.MissingRp? ==> r.group == GroupOf(line)
    // Exactly the non-empty, CR-free lines of an interface list emit a row,
    // of the current group, and leave the parser as it was.
    ensures r.Next? && r.row.Some? <==>
      p.state == ParseOutgoingInterfaceList && |line| > 0 && CR !in line
    ensures r.Next? && r.row.Some? ==>
      r.parser == p && r.row.value == Subscription(p.group, PortOf(line))
    // The group changes only at the banner (it is cleared) or at a group line.
    ensures r.Next? && r.parser.group != p.group ==>
      (p.state == Default && r.parser.group == "")
      || (p.state == CheckMcastGroup && Search(line, McastGroupPattern).Some?
          && r.parser.group == GroupOf(line))
  {
    match p.state
    case Default =>
      if Contains(line, RoutingTableBanner) then Next(Parser(IgnorePreamble, ""), None)
      else Next(p, None)
    case IgnorePreamble =>
      if |line| == 0 then Next(Parser(CheckMcastGroup, p.group), None)
      else Next(p, None)
    case CheckMcastGroup =>
      if Search(line, McastGroupPattern).Some? then
        var g := GroupOf(line);
        if Search(line, RpPattern).Some? then Next(Parser(ParseBidirUpstream, g), None)
        else MissingRp(g)
      else Next(Parser(Default, p.group), None)
    case ParseBidirUpstream =>
      Next(Parser(IgnoreListHeading, p.group), None)
    case IgnoreListHeading =>
      Next(Parser(ParseOutgoingInterfaceList, p.group), None)
    case ParseOutgoingInterfaceList =>
      if |line| > 0 && CR !in line then Next(p, Some(Subscription(p.group, PortOf(line))))
      else if CR in line then Next(Parser(Default, p.group), None)
      else Next(Parser(CheckMcastGroup, p.group), None)
  }

  /** What a run of lines leaves: the parser, the whole subscriptions
      table, and the line that raised, if one did. */
  datatype Outcome = Outcome(parser: Parser, rows: seq<Subscription>, failure: Option<string>)

  /** Feeding lines through a transition function one after the other,
      appending their rows to the table `rows`, and stopping at the first
      line that raises; the parser then keeps its state and takes the group
      that line assigned. The transition function is a parameter so that
      the laws below hold for any of them. */
  function RunWith(step: (Parser, string) -> StepResult, p: Parser, rows: seq<Subscription>, lines: seq<string>): Outcome
    decreases |lines|
  {
    if lines == [] then Outcome(p, rows, None)
    else match step(p, lines[0])
      case MissingRp(g) => Outcome(Parser(p.state, g), rows, Some(lines[0]))
      case Next(q, row) => RunWith(step, q, rows + OptionList(row), lines[1..])
  }

  /** The lines of one chunk through `process_line`, starting from table `rows`. */
  function Run(p: Parser, rows: seq<Subscription>, lines: seq<string>): Outcome
  {
    RunWith(Step, p, rows, lines)
  }

  /** Rows are only appended, never changed or removed; each line appends
      at most one; and a line that raises is one of the lines. */
  lemma {:induction false} RunOnlyAppends(step: (Parser, string) -> StepResult, p: Parser,
                                          rows: seq<Subscription>, lines: seq<string>)
    ensures var o := RunWith(step, p, rows, lines);
      |rows| <= |o.rows| <= |rows| + |lines| && o.rows[..|rows|] == rows
      && (o.failure.Some? ==> o.failure.value in lines)
    decreases |lines|
  {
    if lines != [] {
      match step(p, lines[0])
      case MissingRp(g) =>
      case Next(q, row) =>
        RunOnlyAppends(step, q, rows + OptionList(row), lines[1..]);
        var o := RunWith(step, p, rows, lines);
        assert o.rows[..|rows|] == (o.rows[..|rows + OptionList(row)|])[..|rows|];
        assert forall l :: l in lines[1..] ==> l in lines;
    }
  }

  /** Running two batches of lines is running the second from where the
      first left off, as long as the first did not raise. */
  lemma {:induction false} RunAppend(step: (Parser, string) -> StepResult, p: Parser,
                                     rows: seq<Subscription>, a: seq<string>, b: seq<string>)
    requires RunWith(step, p, rows, a).failure.None?
    ensures var o := RunWith(step, p, rows, a);
      RunWith(step, p, rows, a + b) == RunWith(step, o.parser, o.rows, b)
    decreases |a|
  {
    if a == [] {
      assert a + b == b;
    } else {
      assert (a + b)[0] == a[0] && (a + b)[1..] == a[1..] + b;
      match step(p, a[0])
      case Next(q, row) =>
        RunAppend(step, q, rows + OptionList(row), a[1..], b);
    }
  }

  /** A line that does not raise is its step followed by the rest of the run. */
  lemma RunCons(step: (Parser, string) -> StepResult, p: Parser, rows: seq<Subscription>,
                line: string, rest: seq<string>)
    requires step(p, line).Next?
    ensures var r := step(p, line);
      RunWith(step, p, rows, [line] + rest) == RunWith(step, r.parser, rows + OptionList(r.row), rest)
  {
    assert ([line] + rest)[0] == line;
    assert ([line] + rest)[1..] == rest;
  }

  /** A batch whose line `i` raises ends there, whatever follows. */
  lemma RunStopsAt(step: (Parser, string) -> StepResult, p: Parser, rows: seq<Subscription>,
                   lines: seq<string>, i: nat)
    requires i < |lines|
    requires RunWith(step, p, rows, lines[..i]).failure.None?
    requires step(RunWith(step, p, rows, lines[..i]).parser, lines[i]).MissingRp?
    ensures var o := RunWith(step, p, rows, lines[..i]);
      RunWith(step, p, rows, lines) ==
        Outcome(Parser(o.parser.state, step(o.parser, lines[i]).group), o.rows, Some(lines[i]))
  {
    assert lines == lines[..i] + lines[i..];
    RunAppend(step, p, rows, lines[..i], lines[i..]);
    assert lines[i..][0] == lines[i];
  }

  /** One more line that does not raise extends the run by its step. */
  lemma RunSnoc(step: (Parser, string) -> StepResult, p: Parser, rows: seq<Subscription>,
                lines: seq<string>, i: nat)
    requires i < |lines|
    requires RunWith(step, p, rows, lines[..i]).failure.None?
    requires step(RunWith(step, p, rows, lines[..i]).parser, lines[i]).Next?
    ensures var o := RunWith(step, p, rows, lines[..i]);
      var r := step(o.parser, lines[i]);
      RunWith(step, p, rows, lines[..i + 1]) == Outcome(r.parser, o.rows + OptionList(r.row), None)
  {
    assert lines[..i + 1] == lines[..i] + [lines[i]];
    RunAppend(step, p, rows, lines[..i], [lines[i]]);
  }

  // ---------------------------------------------------------------------
  // The transition table, state by state.

  /** From DEFAULT only the banner does anything: it starts the preamble
      and clears the group (client_sessions.py:95-99). */
  lemma DefaultWaitsForBanner(g: string, line: string)
    ensures Step(Parser(Default, g), line) ==
      if Contains(line, RoutingTableBanner) then Next(Parser(IgnorePreamble, ""), None)
      else Next(Parser(Default, g), None)
  {
  }

  /** The preamble lasts until the first empty line (client_sessions.py:100-103). */
  lemma PreambleWaitsForBlank(g: string, line: string)
    ensures Step(Parser(IgnorePreamble, g), line) ==
      Next(Parser(if |line| == 0 then CheckMcastGroup else IgnorePreamble, g), None)
  {
  }

  /** The bidir-upstream line and the list heading are one line each, of any
      content (client_sessions.py:113-119). */
  lemma OneLineStates(g: string, line: string)
    ensures Step(Parser(ParseBidirUpstream, g), line) == Next(Parser(IgnoreListHeading, g), None)
    ensures Step(Parser(IgnoreListHeading, g), line) == Next(Parser(ParseOutgoingInterfaceList, g), None)
  {
  }

  /** A group line with an RP takes the leftmost group text, parentheses
      included, and moves on to the upstream line; a line without a group
      ends the dump (client_sessions.py:104-112). */
  lemma GroupLineTransitions(g: string, line: string)
    ensures var r := Step(Parser(CheckMcastGroup, g), line);
      match FirstMatch(line, McastGroupPattern)
      case None => r == Next(Parser(Default, g), None)
      case Some(text) =>
        |text| >= 5 && text[..4] == "(*, " && text[|text| - 1] == ')'
        && if Search(line, RpPattern).Some? then r == Next(Parser(ParseBidirUpstream, text), None)
           else r == MissingRp(text)
  {
    var m := Search(line, McastGroupPattern);
    if m.Some? {
      var (b, e) := m.value;
      GroupMatchBounds(line, b);
      assert line[b..b + 4] == line[b..e][..4];
    }
  }

  /** In an interface list, a line with CR (the prompt) ends the dump and an
      empty line ends the block; neither emits a row (client_sessions.py:128-133). */
  lemma InterfaceListEnds(g: string, line: string)
    ensures CR in line ==> Step(Parser(ParseOutgoingInterfaceList, g), line) == Next(Parser(Default, g), None)
    ensures |line| == 0 ==>
      Step(Parser(ParseOutgoingInterfaceList, g), line) == Next(Parser(CheckMcastGroup, g), None)
  {
  }

  /** A blank line after an interface list and a second one end in DEFAULT:
      the second blank is a group line without a group. */
  lemma TwoBlanksEndInDefault(g: string, rows: seq<Subscription>)
    ensures Run(Parser(ParseOutgoingInterfaceList, g), rows, ["", ""]) == Outcome(Parser(Default, g), rows, None)
  {
    assert ["", ""][1..] == [""];
    assert Search("", McastGroupPattern).None? by {
      assert !OccursAt("", 0, "(*, ");
    }
  }

  // ---------------------------------------------------------------------
  // A well-formed dump.

  /** One routing entry as the switch lists it: the group line, the
      bidir-upstream line, the heading of the outgoing interface list, the
      interface lines, and a blank line. */
  datatype Block = Block(header: string, upstream: string, heading: string, interfaces: seq<string>)

  /** A line the interface-list state turns into a row. */
  predicate InterfaceLine(line: string)
  {
    |line| > 0 && CR !in line
  }

  /** A group line that names a group and an RP. */
  predicate GroupLine(line: string)
  {
    Search(line, McastGroupPattern).Some? && Search(line, RpPattern).Some?
  }

  predicate WellFormedBlock(b: Block)
  {
    GroupLine(b.header) && forall i :: 0 <= i < |b.interfaces| ==> InterfaceLine(b.interfaces[i])
  }

  predicate WellFormedBlocks(blocks: seq<Block>)
  {
    blocks == [] || (WellFormedBlock(blocks[0]) && WellFormedBlocks(blocks[1..]))
  }

  function BlockLines(b: Block): seq<string>
  {
    [b.header] + ([b.upstream] + ([b.heading] + (b.interfaces + [""])))
  }

  function BlocksLines(blocks: seq<Block>): seq<string>
  {
    if blocks == [] then [] else BlockLines(blocks[0]) + BlocksLines(blocks[1..])
  }

  /** The banner line, the preamble, a blank line, then the entries. */
  function DumpLines(banner: string, preamble: seq<string>, blocks: seq<Block>): seq<string>
  {
    ([banner] + (preamble + [""])) + BlocksLines(blocks)
  }

  /** The rows the interface lines of one group should give, one each, in order. */
  function InterfaceRows(g: string, interfaces: seq<string>): (rows: seq<Subscription>)
    ensures |rows| == |interfaces|
    ensures forall i :: 0 <= i < |rows| ==> rows[i] == Subscription(g, PortOf(interfaces[i]))
  {
    if interfaces == [] then [] else [Subscription(g, PortOf(interfaces[0]))] + InterfaceRows(g, interfaces[1..])
  }

  /** The rows of all entries: each entry's interface rows under its own group. */
  function BlocksRows(blocks: seq<Block>): seq<Subscription>
    requires WellFormedBlocks(blocks)
  {
    if blocks == [] then []
    else InterfaceRows(GroupOf(blocks[0].header), blocks[0].interfaces) + BlocksRows(blocks[1..])
  }

  /** The group of the last entry, or `g` when there is none. */
  function LastGroup(g: string, blocks: seq<Block>): string
    requires WellFormedBlocks(blocks)
    decreases |blocks|
  {
    if blocks == [] then g else LastGroup(GroupOf(blocks[0].header), blocks[1..])
  }

  function InterfaceCount(blocks: seq<Block>): nat
  {
    if blocks == [] then 0 else |blocks[0].interfaces| + InterfaceCount(blocks[1..])
  }

  /** A group line with an RP starts the entry of its group. */
  lemma GroupLineStartsEntry(g: string, line: string)
    requires GroupLine(line)
    ensures Step(Parser(CheckMcastGroup, g), line) == Next(Parser(ParseBidirUpstream, GroupOf(line)), None)
  {
  }

  /** An interface list adds one row per line and stays in the list. */
  lemma {:induction false} InterfaceLinesGiveRows(g: string, rows: seq<Subscription>, interfaces: seq<string>)
    requires forall i :: 0 <= i < |interfaces| ==> InterfaceLine(interfaces[i])
    ensures Run(Parser(ParseOutgoingInterfaceList, g), rows, interfaces) ==
      Outcome(Parser(ParseOutgoingInterfaceList, g), rows + InterfaceRows(g, interfaces), None)
    decreases |interfaces|
  {
    if interfaces != [] {
      var p := Parser(ParseOutgoingInterfaceList, g);
      var row := Subscription(g, PortOf(interfaces[0]));
      assert InterfaceLine(interfaces[0]);
      assert [interfaces[0]] + interfaces[1..] == interfaces;
      RunCons(Step, p, rows, interfaces[0], interfaces[1..]);
      InterfaceLinesGiveRows(g, rows + [row], interfaces[1..]);
      assert InterfaceRows(g, interfaces) == [row] + InterfaceRows(g, interfaces[1..]);
      AppendAssoc(rows, [row], InterfaceRows(g, interfaces[1..]));
    }
  }

  /** One entry, read from CHECK_MCAST_GROUP, appends its interface rows
      under its own group and comes back to CHECK_MCAST_GROUP. */
  lemma BlockGivesRows(g: string, rows: seq<Subscription>, b: Block)
    requires WellFormedBlock(b)
    ensures Run(Parser(CheckMcastGroup, g), rows, BlockLines(b)) ==
      Outcome(Parser(CheckMcastGroup, GroupOf(b.header)), rows + InterfaceRows(GroupOf(b.header), b.interfaces), None)
  {
    var h := GroupOf(b.header);
    EntryHeadGivesNothing(g, rows, b.header, b.upstream, b.heading, b.interfaces + [""]);
    InterfaceLinesGiveRows(h, rows, b.interfaces);
    RunAppend(Step, Parser(ParseOutgoingInterfaceList, h), rows, b.interfaces, [""]);
    InterfaceListEnds(h, "");
  }

  /** The group line, the upstream line and the heading append nothing and
      lead to the interface list of the group. */
  lemma EntryHeadGivesNothing(g: string, rows: seq<Subscription>, header: string, upstream: string,
                              heading: string, rest: seq<string>)
    requires GroupLine(header)
    ensures Run(Parser(CheckMcastGroup, g), rows, [header] + ([upstream] + ([heading] + rest))) ==
      Run(Parser(ParseOutgoingInterfaceList, GroupOf(header)), rows, rest)
  {
    var h := GroupOf(header);
    var tail2 := [heading] + rest;
    var tail1 := [upstream] + tail2;
    assert Run(Parser(CheckMcastGroup, g), rows, [header] + tail1) == Run(Parser(ParseBidirUpstream, h), rows, tail1) by {
      GroupLineStartsEntry(g, header);
      RunCons(Step, Parser(CheckMcastGroup, g), rows, header, tail1);
      assert rows + [] == rows;
    }
    assert Run(Parser(ParseBidirUpstream, h), rows, tail1) == Run(Parser(IgnoreListHeading, h), rows, tail2) by {
      OneLineStates(h, upstream);
      RunCons(Step, Parser(ParseBidirUpstream, h), rows, upstream, tail2);
      assert rows + [] == rows;
    }
    assert Run(Parser(IgnoreListHeading, h), rows, tail2) == Run(Parser(ParseOutgoingInterfaceList, h), rows, rest) by {
      OneLineStates(h, heading);
      RunCons(Step, Parser(IgnoreListHeading, h), rows, heading, rest);
      assert rows + [] == rows;
    }
  }

  lemma {:induction false} BlocksGiveRows(g: string, rows: seq<Subscription>, blocks: seq<Block>)
    requires WellFormedBlocks(blocks)
    ensures Run(Parser(CheckMcastGroup, g), rows, BlocksLines(blocks)) ==
      Outcome(Parser(CheckMcastGroup, LastGroup(g, blocks)), rows + BlocksRows(blocks), None)
    decreases |blocks|
  {
    if blocks != [] {
      var b := blocks[0];
      var h := GroupOf(b.header);
      var first := InterfaceRows(h, b.interfaces);
      var more := BlocksLines(blocks[1..]);
      assert Run(Parser(CheckMcastGroup, g), rows, BlocksLines(blocks))
          == Run(Parser(CheckMcastGroup, h), rows + first, more) by {
        assert BlocksLines(blocks) == BlockLines(b) + more;
        BlockGivesRows(g, rows, b);
        RunAppend(Step, Parser(CheckMcastGroup, g), rows, BlockLines(b), more);
      }
      BlocksGiveRows(h, rows + first, blocks[1..]);
      assert BlocksRows(blocks) == first + BlocksRows(blocks[1..]);
      AppendAssoc(rows, first, BlocksRows(blocks[1..]));
    }
  }

  /** There is one row per interface line. */
  lemma {:induction false} BlocksRowsCount(blocks: seq<Block>)
    requires WellFormedBlocks(blocks)
    ensures |BlocksRows(blocks)| == InterfaceCount(blocks)
    decreases |blocks|
  {
    if blocks != [] {
      BlocksRowsCount(blocks[1..]);
    }
  }

  /** The banner, the preamble and its blank line bring DEFAULT to
      CHECK_MCAST_GROUP with the group cleared and no row. */
  lemma PreambleGivesNothing(g: string, rows: seq<Subscription>, banner: string, preamble: seq<string>)
    requires Contains(banner, RoutingTableBanner)
    requires forall i :: 0 <= i < |preamble| ==> |preamble[i]| > 0
    ensures Run(Parser(Default, g), rows, [banner] + (preamble + [""])) == Outcome(Parser(CheckMcastGroup, ""), rows, None)
  {
    RunCons(Step, Parser(Default, g), rows, banner, preamble + [""]);
    PreambleLines(rows, preamble);
    RunAppend(Step, Parser(IgnorePreamble, ""), rows, preamble, [""]);
    assert rows + [] == rows;
  }

  lemma {:induction false} PreambleLines(rows: seq<Subscription>, preamble: seq<string>)
    requires forall i :: 0 <= i < |preamble| ==> |preamble[i]| > 0
    ensures Run(Parser(IgnorePreamble, ""), rows, preamble) == Outcome(Parser(IgnorePreamble, ""), rows, None)
    decreases |preamble|
  {
    if preamble != [] {
      assert |preamble[0]| > 0;
      assert [preamble[0]] + preamble[1..] == preamble;
      RunCons(Step, Parser(IgnorePreamble, ""), rows, preamble[0], preamble[1..]);
      assert rows + [] == rows;
      PreambleLines(rows, preamble[1..]);
    }
  }

  /** A well-formed dump read from DEFAULT: no failure, the rows of every
      entry appended in order (one per interface line, each under the group
      of its entry), and the parser in CHECK_MCAST_GROUP with the last
      entry's group after that entry's blank line. */
  lemma WellFormedDump(g: string, rows: seq<Subscription>, banner: string, preamble: seq<string>, blocks: seq<Block>)
    requires Contains(banner, RoutingTableBanner)
    requires forall i :: 0 <= i < |preamble| ==> |preamble[i]| > 0
    requires WellFormedBlocks(blocks)
    ensures var o := Run(Parser(Default, g), rows, DumpLines(banner, preamble, blocks));
      o == Outcome(Parser(CheckMcastGroup, LastGroup("", blocks)), rows + BlocksRows(blocks), None)
      && |o.rows| == |rows| + InterfaceCount(blocks)
  {
    PreambleGivesNothing(g, rows, banner, preamble);
    RunAppend(Step, Parser(Default, g), rows, [banner] + (preamble + [""]), BlocksLines(blocks));
    BlocksGiveRows("", rows, blocks);
    BlocksRowsCount(blocks);
  }

  // ---------------------------------------------------------------------
  // The session object.

  class IPMrouteSession {
    /** The shared database the rows go to. */
    const db: FactStore
    /** The inherited `buffer` and its `data_received` loop. */
    const assembler: LineAssembler
    var parserState: IPMrouteParser
    var mcastGroup: string

    function Current(): Parser
      reads this
    {
      Parser(parserState, mcastGroup)
    }

    /** `IPMrouteClientSession(db)`: an empty buffer, DEFAULT and no group
        (client_sessions.py:64-71). */
    constructor (db: FactStore)
      ensures this.db == db && fresh(assembler)
      ensures assembler.buffer == ""
      ensures parserState == InitialState && mcastGroup == ""
    {
      this.db := db;
      assembler := new LineAssembler();
      parserState := Default;
      mcastGroup := "";
    }

    /** `process_line` (client_sessions.py:84-136). Returns false where the
        source raises on a group line without an RP. */
    method ProcessLine(line: string) returns (ok: bool)
      modifies this, db
      ensures var r := Step(old(Current()), line);
        ok == r.Next?
        && (r.Next? ==> Current() == r.parser && db.subscriptions == old(db.subscriptions) + OptionList(r.row))
        && (r.MissingRp? ==>
              Current() == Parser(old(parserState), r.group) && db.subscriptions == old(db.subscriptions))
      ensures db.lldpRemotes == old(db.lldpRemotes)
    {
      ok := true;
      match parserState
      case Default =>
        if Contains(line, RoutingTableBanner) {
          parserState := IgnorePreamble;
          mcastGroup := "";
        }
      case IgnorePreamble =>
        if |line| == 0 {
          parserState := CheckMcastGroup;
        }
      case CheckMcastGroup =>
        var m := Search(line, McastGroupPattern);
        if m.Some? {
          mcastGroup := line[m.value.0..m.value.1];
          if Search(line, RpPattern).None? {
            ok := false;
            return;
          }
          parserState := ParseBidirUpstream;
        } else {
          parserState := Default;
        }
      case ParseBidirUpstream =>
        parserState := IgnoreListHeading;
      case IgnoreListHeading =>
        parserState := ParseOutgoingInterfaceList;
      case ParseOutgoingInterfaceList =>
        if |line| > 0 && CR !in line {
          db.InsertSubscription(mcastGroup, Strip(BeforeComma(line)));
        } else if CR in line {
          parserState := Default;
        } else {
          parserState := CheckMcastGroup;
        }
    }

    /** `data_received` (client_sessions.py:34-54): the chunk's lines go
        through `process_line` in order. When one raises, the later lines
        are not processed and the buffer keeps the line that raised. */
    method DataReceived(data: string) returns (ok: bool)
      modifies this, assembler, db
      ensures var (lines, buffer) := Assemble(old(assembler.buffer), data);
        var o := Run(old(Current()), old(db.subscriptions), lines);
        ok == o.failure.None?
        && Current() == o.parser
        && db.subscriptions == o.rows
        && assembler.buffer == if o.failure.None? then buffer else o.failure.value
      ensures db.lldpRemotes == old(db.lldpRemotes)
    {
      var lines := assembler.Feed(data);
      ghost var p0 := old(Current());
      ghost var rows0 := old(db.subscriptions);
      var i := 0;
      ok := true;
      while i < |lines|
        invariant 0 <= i <= |lines|
        invariant Run(p0, rows0, lines[..i]) == Outcome(Current(), db.subscriptions, None)
        invariant db.lldpRemotes == old(db.lldpRemotes)
        invariant assembler.buffer == Assemble(old(assembler.buffer), data).1
      {
        var stepped := ProcessLine(lines[i]);
        if !stepped {
          RunStopsAt(Step, p0, rows0, lines, i);
          assembler.buffer := lines[i];
          ok := false;
          return;
        }
        RunSnoc(Step, p0, rows0, lines, i);
        i := i + 1;
      }
      assert lines[..i] == lines;
    }
  }
}
