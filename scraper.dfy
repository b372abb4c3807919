/** The driver's two pure pieces (mroute_scraper.py): the 36 LLDP commands
    it writes to the switch, and the per-port report it prints once both
    sessions have filled the shared store. */
module Scraper {
  import opened Strings
  import opened Patterns
  import opened Store
  import opened LldpSession

  // ---------------------------------------------------------------------
  // The LLDP commands (mroute_scraper.py:28-29).

  /** The command asking about ethernet port `1/n`. */
  function LldpCommand(n: nat): string
  {
    PortEchoPrefix + Decimal(n) + " remote\n"
  }

  /** What `scrape_lldp_remotes` writes, in order: one command per port
      `1/1` to `1/36`. */
  function LldpCommands(): (cmds: seq<string>)
    ensures |cmds| == 36
    ensures forall i :: 0 <= i < 36 ==> cmds[i] == LldpCommand(i + 1)
  {
    seq(36, i requires 0 <= i < 36 => LldpCommand(i + 1))
  }

  /** The switch echoes each command; once the echo arrives as a line of its
      own, the LLDP scanner names port `Eth1/n` for the `n`-th command. */
  lemma CommandEchoNamesItsPort(portName: string, i: nat)
    requires i < 36
    ensures var cmd := LldpCommands()[i];
      cmd[|cmd| - 1] == LF
      && LldpStep(portName, cmd[..|cmd| - 1]) == LldpResult(PortPrefix + Decimal(i + 1), None)
  {
    var n := i + 1;
    var cmd := LldpCommand(n);
    assert cmd[..|cmd| - 1] == PortEchoPrefix + Decimal(n) + " remote";
    assert " remote"[0] == ' ';
    CommandEchoSetsPort(portName, n, " remote");
  }

  // ---------------------------------------------------------------------
  // The queries behind the report (mroute_scraper.py:87-98).

  /** `SELECT DISTINCT port FROM subscriptions`, in order of first appearance. */
  function DistinctPorts(subs: seq<Subscription>): (ports: seq<string>)
    ensures forall i, j :: 0 <= i < j < |ports| ==> ports[i] != ports[j]
    ensures forall p :: p in ports <==> exists k :: 0 <= k < |subs| && subs[k].port == p
  {
    if subs == [] then []
    else
      var rest := DistinctPorts(subs[..|subs| - 1]);
      var p := subs[|subs| - 1].port;
      assert forall k :: 0 <= k < |subs| - 1 ==> subs[..|subs| - 1][k] == subs[k];
      if p in rest then rest else rest + [p]
  }

  /** The `port` column of `subscriptions`. */
  function PortColumn(subs: seq<Subscription>): seq<string>
  {
    seq(|subs|, i requires 0 <= i < |subs| => subs[i].port)
  }

  /** `SELECT COUNT(mcast_group) FROM subscriptions WHERE port=?`: how often
      the port occurs in the column. */
  function GroupCount(subs: seq<Subscription>, port: string): nat
  {
    multiset(PortColumn(subs))[port]
  }

  /** `SELECT mcast_group FROM subscriptions WHERE port=?`, in insertion order. */
  function GroupsOf(subs: seq<Subscription>, port: string): seq<string>
  {
    if subs == [] then []
    else
      var last := subs[|subs| - 1];
      GroupsOf(subs[..|subs| - 1], port) + (if last.port == port then [last.mcastGroup] else [])
  }

  /** `SELECT remote_host FROM lldp_remotes WHERE port_name = ?`, first
      row, or `loopback` when there is none. */
  function HostOf(remotes: seq<LldpRemote>, port: string): string
  {
    if remotes == [] then "loopback"
    else if remotes[0].portName == port then remotes[0].remoteHost
    else HostOf(remotes[1..], port)
  }

  /** Adding a row adds one to its own port's count and leaves every other
      count alone. */
  lemma GroupCountSnoc(subs: seq<Subscription>, r: Subscription, port: string)
    ensures GroupCount(subs + [r], port) == GroupCount(subs, port) + (if r.port == port then 1 else 0)
  {
    assert PortColumn(subs + [r]) == PortColumn(subs) + [r.port];
  }

  /** The count printed for a port is the number of group lines under it. */
  lemma {:induction false} GroupsOfCounted(subs: seq<Subscription>, port: string)
    ensures |GroupsOf(subs, port)| == GroupCount(subs, port)
    decreases |subs|
  {
    if subs != [] {
      var init := subs[..|subs| - 1];
      var last := subs[|subs| - 1];
      GroupsOfCounted(init, port);
      assert init + [last] == subs;
      GroupCountSnoc(init, last, port);
    }
  }

  /** The groups listed for a port are exactly the groups of its rows, each
      as often as it has rows. */
  lemma {:induction false} GroupsOfMembers(subs: seq<Subscription>, port: string, g: string)
    ensures g in GroupsOf(subs, port) <==> Subscription(g, port) in subs
    ensures multiset(GroupsOf(subs, port))[g] == multiset(subs)[Subscription(g, port)]
    decreases |subs|
  {
    if subs != [] {
      var init := subs[..|subs| - 1];
      var last := subs[|subs| - 1];
      GroupsOfMembers(init, port, g);
      assert subs == init + [last];
    }
  }

  /** A port with no neighbour row reports `loopback`. */
  lemma {:induction false} HostOfMissing(remotes: seq<LldpRemote>, port: string)
    requires forall k :: 0 <= k < |remotes| ==> remotes[k].portName != port
    ensures HostOf(remotes, port) == "loopback"
    decreases |remotes|
  {
    if remotes != [] {
      assert forall k :: 0 <= k < |remotes| - 1 ==> remotes[1..][k] == remotes[k + 1];
      HostOfMissing(remotes[1..], port);
    }
  }

  /** Otherwise it reports the host of its first neighbour row. */
  lemma {:induction false} HostOfFirstRow(remotes: seq<LldpRemote>, port: string, i: nat)
    requires i < |remotes| && remotes[i].portName == port
    requires forall k :: 0 <= k < i ==> remotes[k].portName != port
    ensures HostOf(remotes, port) == remotes[i].remoteHost
    decreases i
  {
    if i > 0 {
      assert remotes[0].portName != port;
      assert forall k :: 0 <= k < i - 1 ==> remotes[1..][k] == remotes[k + 1];
      HostOfFirstRow(remotes[1..], port, i - 1);
    }
  }

  // ---------------------------------------------------------------------
  // The printed report (mroute_scraper.py:89-99).

  /** The heading line of a port's section. */
  function Heading(port: string, host: string, count: nat): string
  {
    "Port " + port + " (" + host + ") wants " + Decimal(count) + " mcast groups:"
  }

  /** One indented line per group. */
  function GroupLines(groups: seq<string>): (lines: seq<string>)
    ensures |lines| == |groups|
    ensures forall i :: 0 <= i < |groups| ==> lines[i] == "\t\t" + groups[i]
  {
    if groups == [] then []
    else GroupLines(groups[..|groups| - 1]) + ["\t\t" + groups[|groups| - 1]]
  }

  /** The lines printed for one port. */
  function Section(subs: seq<Subscription>, remotes: seq<LldpRemote>, port: string): seq<string>
  {
    [Heading(port, HostOf(remotes, port), GroupCount(subs, port))] + GroupLines(GroupsOf(subs, port))
  }

  /** The sections for a list of ports, in that order. */
  function Sections(subs: seq<Subscription>, remotes: seq<LldpRemote>, ports: seq<string>): seq<string>
  {
    if ports == [] then []
    else Sections(subs, remotes, ports[..|ports| - 1]) + Section(subs, remotes, ports[|ports| - 1])
  }

  /** Everything the driver prints: one section per distinct port. */
  function ReportText(subs: seq<Subscription>, remotes: seq<LldpRemote>): seq<string>
  {
    Sections(subs, remotes, DistinctPorts(subs))
  }

  /** The sum of the counts of some ports. */
  function SumCounts(subs: seq<Subscription>, ports: seq<string>): nat
  {
    if ports == [] then 0
    else SumCounts(subs, ports[..|ports| - 1]) + GroupCount(subs, ports[|ports| - 1])
  }

  /** A new row adds one to the sum exactly when its port is among the
      (distinct) ports summed. */
  lemma {:induction false} SumCountsSnoc(subs: seq<Subscription>, r: Subscription, ports: seq<string>)
    requires forall i, j :: 0 <= i < j < |ports| ==> ports[i] != ports[j]
    ensures SumCounts(subs + [r], ports) == SumCounts(subs, ports) + (if r.port in ports then 1 else 0)
    decreases |ports|
  {
    if ports != [] {
      var init := ports[..|ports| - 1];
      var p := ports[|ports| - 1];
      SumCountsSnoc(subs, r, init);
      GroupCountSnoc(subs, r, p);
      assert ports == init + [p];
      assert r.port == p ==> r.port !in init;
    }
  }

  /** Every row of `subscriptions` is counted under exactly one port. */
  lemma {:induction false} EveryRowCountedOnce(subs: seq<Subscription>)
    ensures SumCounts(subs, DistinctPorts(subs)) == |subs|
    decreases |subs|
  {
    if subs != [] {
      var init := subs[..|subs| - 1];
      var r := subs[|subs| - 1];
      var ports := DistinctPorts(init);
      assert subs == init + [r];
      EveryRowCountedOnce(init);
      SumCountsSnoc(init, r, ports);
      if r.port !in ports {
        var ports' := ports + [r.port];
        assert ports'[..|ports'| - 1] == ports;
        GroupCountSnoc(init, r, r.port);
      }
    }
  }

  /** The sections for some ports have one heading per port and one line
      per counted row. */
  lemma {:induction false} SectionsLength(subs: seq<Subscription>, remotes: seq<LldpRemote>, ports: seq<string>)
    ensures |Sections(subs, remotes, ports)| == |ports| + SumCounts(subs, ports)
    decreases |ports|
  {
    if ports != [] {
      SectionsLength(subs, remotes, ports[..|ports| - 1]);
      GroupsOfCounted(subs, ports[|ports| - 1]);
    }
  }

  /** The report has a heading per distinct port and exactly one group line
      per row of `subscriptions`. */
  lemma ReportLength(subs: seq<Subscription>, remotes: seq<LldpRemote>)
    ensures |ReportText(subs, remotes)| == |DistinctPorts(subs)| + |subs|
  {
    SectionsLength(subs, remotes, DistinctPorts(subs));
    EveryRowCountedOnce(subs);
  }

  lemma GroupLinesSnoc(groups: seq<string>, j: nat)
    requires j < |groups|
    ensures GroupLines(groups[..j + 1]) == GroupLines(groups[..j]) + ["\t\t" + groups[j]]
  {
    assert groups[..j + 1][..j] == groups[..j];
  }

  lemma SectionsSnoc(subs: seq<Subscription>, remotes: seq<LldpRemote>, ports: seq<string>, i: nat)
    requires i < |ports|
    ensures Sections(subs, remotes, ports[..i + 1]) == Sections(subs, remotes, ports[..i]) + Section(subs, remotes, ports[i])
  {
    assert ports[..i + 1][..i] == ports[..i];
  }

  /** The inner loop of the report: one indented line per group, appended
      to what is already printed (mroute_scraper.py:98-99). */
  method PrintGroups(printed: seq<string>, groups: seq<string>) returns (out: seq<string>)
    ensures out == printed + GroupLines(groups)
  {
    out := printed;
    var j := 0;
    while j < |groups|
      invariant 0 <= j <= |groups|
      invariant out == printed + GroupLines(groups[..j])
    {
      GroupLinesSnoc(groups, j);
      out := out + ["\t\t" + groups[j]];
      j := j + 1;
    }
    assert groups[..j] == groups;
  }

  /** The report loop of `run_client` (mroute_scraper.py:83-99): for each
      distinct port, its heading and then one line per group. */
  method Report(db: FactStore) returns (out: seq<string>)
    ensures out == ReportText(db.subscriptions, db.lldpRemotes)
  {
    var subs := db.subscriptions;
    var remotes := db.lldpRemotes;
    var ports := DistinctPorts(subs);
    out := [];
    var i := 0;
    while i < |ports|
      invariant 0 <= i <= |ports|
      invariant out == Sections(subs, remotes, ports[..i])
    {
      var port := ports[i];
      var heading := Heading(port, HostOf(remotes, port), GroupCount(subs, port));
      SectionsSnoc(subs, remotes, ports, i);
      var before := out;
      out := PrintGroups(out + [heading], GroupsOf(subs, port));
      AppendAssoc(before, [heading], GroupLines(GroupsOf(subs, port)));
      i := i + 1;
    }
    assert ports[..i] == ports;
  }
}
