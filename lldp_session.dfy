/** The LLDP scanner of `LLDPRemoteSession` (client_sessions.py:146-186):
    it remembers the port named by the last echoed command and appends one
    `lldp_remotes` row for every "Remote system name" line. */
module LldpSession {
  import opened Strings
  import opened Patterns
  import opened Store
  import opened LineAssembly

  const RemoteNameMarker: string := "Remote system name"

  /** The port names the scanner builds: `Eth1/` and the digits. */
  const PortPrefix: string := "Eth1/"

  /** What one line does: the new `port_name` and the row it appends, if any. */
  datatype LldpResult = LldpResult(portName: string, row: Option<LldpRemote>)

  /** `process_line` (client_sessions.py:171-186). */
  function LldpStep(portName: string, line: string): (r: LldpResult)
    // A port echo sets the port and appends nothing, whatever else the line holds.
    ensures Search(line, PortEchoPattern).Some? ==> r.row.None?
    // Exactly the other lines naming a remote system append a row, and they
    // keep the port.
    ensures r.row.Some? <==> Search(line, PortEchoPattern).None? && Contains(line, RemoteNameMarker)
    ensures Search(line, PortEchoPattern).None? ==> r.portName == portName
    ensures r.row.Some? ==> r.row.value == LldpRemote(portName, Strip(Drop(line, 20)))
  {
    match Search(line, PortEchoPattern)
    case Some((b, e)) => LldpResult(PortPrefix + Drop(line[b..e], 32), None)
    case None =>
      if Contains(line, RemoteNameMarker) then LldpResult(portName, Some(LldpRemote(portName, Strip(Drop(line, 20)))))
      else LldpResult(portName, None)
  }

  /** A line with a port echo names the port `Eth1/` and the one or two
      digits after the command text (`[32:]` of the match): two when two
      follow, one when a single digit ends the run; and it appends nothing
      (client_sessions.py:174-175). */
  lemma PortEchoSetsPort(portName: string, line: string)
    requires Search(line, PortEchoPattern).Some?
    ensures var (b, e) := Search(line, PortEchoPattern).value;
      b + 33 <= e <= b + 34 && OccursAt(line, b, PortEchoPrefix)
      && (forall k :: b + 32 <= k < e ==> IsDigit(line[k]))
      && (e == b + 33 ==> e == |line| || !IsDigit(line[e]))
      && LldpStep(portName, line) == LldpResult(PortPrefix + line[b + 32..e], None)
  {
    var (b, e) := Search(line, PortEchoPattern).value;
    PortEchoMatchShape(line, b);
    assert Drop(line[b..e], 32) == line[b + 32..e];
  }

  /** The echo of the command for port `n` (below 100), at the start of a
      line, names port `Eth1/n`. */
  lemma CommandEchoSetsPort(portName: string, n: nat, rest: string)
    requires 1 <= n < 100
    requires rest == [] || !IsDigit(rest[0])
    ensures LldpStep(portName, PortEchoPrefix + Decimal(n) + rest) == LldpResult(PortPrefix + Decimal(n), None)
  {
    var d := Decimal(n);
    var line := PortEchoPrefix + d + rest;
    PatternsAreDeterministic();
    EchoMatchAtStart(PortEchoPrefix, d, rest);
    var e: nat := 32 + |d|;
    assert Search(line, PortEchoPattern) == Some((0, e));
    assert line[0..32 + |d|] == PortEchoPrefix + d;
    assert Drop(PortEchoPrefix + d, 32) == d;
  }

  /** A remote-name line appends the port and the text from index 20 on,
      stripped, and keeps the port (client_sessions.py:179-185); a line
      shorter than 21 characters gives the empty host. */
  lemma RemoteNameAppendsRow(portName: string, line: string)
    requires Search(line, PortEchoPattern).None? && Contains(line, RemoteNameMarker)
    ensures LldpStep(portName, line) == LldpResult(portName, Some(LldpRemote(portName, Strip(Drop(line, 20)))))
    ensures |line| <= 20 ==> LldpStep(portName, line).row.value.remoteHost == ""
  {
  }

  /** Every other line changes nothing. */
  lemma OtherLinesChangeNothing(portName: string, line: string)
    requires Search(line, PortEchoPattern).None? && !Contains(line, RemoteNameMarker)
    ensures LldpStep(portName, line) == LldpResult(portName, None)
  {
  }

  /** The switch pads the label to a column and puts `: ` before the name.
      Slicing at 20 keeps that colon: for a label padded with at least two
      spaces the line is a remote-name line whose host, once stored, is `: `
      followed by the name. */
  lemma PaddedRemoteName(pad: string, name: string)
    requires |pad| >= 2 && forall k :: 0 <= k < |pad| ==> pad[k] == ' '
    requires |name| > 0 && !IsSpace(name[|name| - 1])
    ensures var line := RemoteNameMarker + pad + (": " + name);
      Contains(line, RemoteNameMarker) && Strip(Drop(line, 20)) == ": " + name
  {
    var t := ": " + name;
    LabelledLine(pad, t);
    TrimStartSpaces(pad[2..], t);
    TrimEndKeeps(t);
  }

  lemma LabelledLine(pad: string, t: string)
    requires |pad| >= 2
    ensures var line := RemoteNameMarker + pad + t;
      Contains(line, RemoteNameMarker) && Drop(line, 20) == pad[2..] + t
  {
    var line := RemoteNameMarker + pad + t;
    assert OccursAt(line, 0, RemoteNameMarker) by {
      assert line[0..18] == RemoteNameMarker;
    }
    assert line[20..] == pad[2..] + t;
  }

  // ---------------------------------------------------------------------
  // Runs of lines.

  /** The port and the whole `lldp_remotes` table after a batch of lines. */
  datatype LldpOutcome = LldpOutcome(portName: string, rows: seq<LldpRemote>)

  function LldpRun(portName: string, rows: seq<LldpRemote>, lines: seq<string>): LldpOutcome
    decreases |lines|
  {
    if lines == [] then LldpOutcome(portName, rows)
    else
      var r := LldpStep(portName, lines[0]);
      LldpRun(r.portName, rows + OptionList(r.row), lines[1..])
  }

  /** A line that produces a row when run on its own. */
  predicate HostLine(line: string)
  {
    Search(line, PortEchoPattern).None? && Contains(line, RemoteNameMarker)
  }

  /** The rows a batch without port echoes appends under `portName`. */
  function HostRows(portName: string, lines: seq<string>): seq<LldpRemote>
  {
    if lines == [] then []
    else
      var first := if HostLine(lines[0]) then [LldpRemote(portName, Strip(Drop(lines[0], 20)))] else [];
      first + HostRows(portName, lines[1..])
  }

  /** Running two batches is running the second from where the first left off. */
  lemma {:induction false} LldpRunAppend(portName: string, rows: seq<LldpRemote>, a: seq<string>, b: seq<string>)
    ensures var o := LldpRun(portName, rows, a);
      LldpRun(portName, rows, a + b) == LldpRun(o.portName, o.rows, b)
    decreases |a|
  {
    if a == [] {
      assert a + b == b;
    } else {
      assert (a + b)[0] == a[0] && (a + b)[1..] == a[1..] + b;
      var r := LldpStep(portName, a[0]);
      LldpRunAppend(r.portName, rows + OptionList(r.row), a[1..], b);
    }
  }

  /** One more line is one more step. */
  lemma LldpRunSnoc(portName: string, rows: seq<LldpRemote>, lines: seq<string>, i: nat)
    requires i < |lines|
    ensures var o := LldpRun(portName, rows, lines[..i]);
      var r := LldpStep(o.portName, lines[i]);
      LldpRun(portName, rows, lines[..i + 1]) == LldpOutcome(r.portName, o.rows + OptionList(r.row))
  {
    assert lines[..i + 1] == lines[..i] + [lines[i]];
    LldpRunAppend(portName, rows, lines[..i], [lines[i]]);
  }

  /** Rows are only appended, at most one per line. */
  lemma {:induction false} LldpRunOnlyAppends(portName: string, rows: seq<LldpRemote>, lines: seq<string>)
    ensures var o := LldpRun(portName, rows, lines);
      |rows| <= |o.rows| <= |rows| + |lines| && o.rows[..|rows|] == rows
    decreases |lines|
  {
    if lines != [] {
      var r := LldpStep(portName, lines[0]);
      var more := rows + OptionList(r.row);
      LldpRunOnlyAppends(r.portName, more, lines[1..]);
      var o := LldpRun(portName, rows, lines);
      assert o.rows[..|rows|] == o.rows[..|more|][..|rows|];
    }
  }

  /** The output for one command: after the echo of the command for port
      `n`, every remote-name line without a port echo appends a row for
      `Eth1/n`, and nothing else does. */
  lemma {:induction false} CommandOutputRows(portName: string, rows: seq<LldpRemote>, n: nat, body: seq<string>)
    requires 1 <= n < 100
    requires forall i :: 0 <= i < |body| ==> Search(body[i], PortEchoPattern).None?
    ensures var port := PortPrefix + Decimal(n);
      LldpRun(portName, rows, [PortEchoPrefix + Decimal(n) + " remote"] + body)
        == LldpOutcome(port, rows + HostRows(port, body))
  {
    var echo := PortEchoPrefix + Decimal(n) + " remote";
    var port := PortPrefix + Decimal(n);
    assert " remote"[0] == ' ';
    CommandEchoSetsPort(portName, n, " remote");
    assert ([echo] + body)[0] == echo && ([echo] + body)[1..] == body;
    assert rows + [] == rows;
    BodyRows(port, rows, body);
  }

  lemma {:induction false} BodyRows(port: string, rows: seq<LldpRemote>, body: seq<string>)
    requires forall i :: 0 <= i < |body| ==> Search(body[i], PortEchoPattern).None?
    ensures LldpRun(port, rows, body) == LldpOutcome(port, rows + HostRows(port, body))
    decreases |body|
  {
    if body != [] {
      var line := body[0];
      var r := LldpStep(port, line);
      var first := if HostLine(line) then [LldpRemote(port, Strip(Drop(line, 20)))] else [];
      assert r.portName == port && OptionList(r.row) == first by {
        assert Search(line, PortEchoPattern).None?;
      }
      assert LldpRun(port, rows, body) == LldpRun(port, rows + first, body[1..]);
      assert forall i :: 0 <= i < |body[1..]| ==> Search(body[1..][i], PortEchoPattern).None? by {
        forall i | 0 <= i < |body[1..]| ensures Search(body[1..][i], PortEchoPattern).None? {
          assert body[1..][i] == body[i + 1];
        }
      }
      BodyRows(port, rows + first, body[1..]);
      assert HostRows(port, body) == first + HostRows(port, body[1..]);
      AppendAssoc(rows, first, HostRows(port, body[1..]));
    }
  }

  // ---------------------------------------------------------------------
  // The session object.

  class LLDPRemoteSession {
    const db: FactStore
    const assembler: LineAssembler
    var portName: string

    /** `LLDPRemoteSession(db)`: an empty buffer and an empty port name, so a
        host seen before any port echo is stored under `""`
        (client_sessions.py:148-153). */
    constructor (db: FactStore)
      ensures this.db == db && fresh(assembler)
      ensures assembler.buffer == "" && portName == ""
    {
      this.db := db;
      assembler := new LineAssembler();
      portName := "";
    }

    /** `process_line` (client_sessions.py:165-186). */
    method ProcessLine(line: string)
      modifies this, db
      ensures var r := LldpStep(old(portName), line);
        portName == r.portName
        && db.lldpRemotes == old(db.lldpRemotes) + OptionList(r.row)
      ensures db.subscriptions == old(db.subscriptions)
    {
      var remoteHost: Option<string> := None;
      var m := Search(line, PortEchoPattern);
      if m.Some? {
        portName := PortPrefix + Drop(line[m.value.0..m.value.1], 32);
      } else if Contains(line, RemoteNameMarker) {
        remoteHost := Some(Strip(Drop(line, 20)));
      }
      if remoteHost.Some? {
        db.InsertLldpRemote(portName, remoteHost.value);
      }
    }

    /** `data_received` (client_sessions.py:34-54) feeding this scanner. */
    method DataReceived(data: string)
      modifies this, assembler, db
      ensures var (lines, buffer) := Assemble(old(assembler.buffer), data);
        var o := LldpRun(old(portName), old(db.lldpRemotes), lines);
        portName == o.portName && db.lldpRemotes == o.rows && assembler.buffer == buffer
      ensures db.subscriptions == old(db.subscriptions)
    {
      var lines := assembler.Feed(data);
      var i := 0;
      while i < |lines|
        invariant 0 <= i <= |lines|
        invariant LldpRun(old(portName), old(db.lldpRemotes), lines[..i]) == LldpOutcome(portName, db.lldpRemotes)
        invariant db.subscriptions == old(db.subscriptions)
        invariant assembler.buffer == Assemble(old(assembler.buffer), data).1
      {
        LldpRunSnoc(old(portName), old(db.lldpRemotes), lines, i);
        ProcessLine(lines[i]);
        i := i + 1;
      }
      assert lines[..i] == lines;
    }
  }
}
