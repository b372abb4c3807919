/** The shared in-memory database the sessions write to: the
    `subscriptions` table (client_sessions.py:75-82) and the `lldp_remotes`
    table (client_sessions.py:155-162), each an append-only sequence of rows
    in insertion order. The `ID INTEGER PRIMARY KEY` column is the row's
    position. */
module Store {

  /** A row of `subscriptions`: one outgoing interface of one multicast group. */
  datatype Subscription = Subscription(mcastGroup: string, port: string)

  /** A row of `lldp_remotes`: the neighbour seen on one port. */
  datatype LldpRemote = LldpRemote(portName: string, remoteHost: string)

  class FactStore {
    var subscriptions: seq<Subscription>
    var lldpRemotes: seq<LldpRemote>

    /** `sqlite3.connect(":memory:")` with both tables created empty. */
    constructor ()
      ensures subscriptions == [] && lldpRemotes == []
    {
      subscriptions := [];
      lldpRemotes := [];
    }

    /** `INSERT INTO subscriptions (mcast_group, port) VALUES (?, ?)`
        (client_sessions.py:125-127). */
    method InsertSubscription(mcastGroup: string, port: string)
      modifies this
      ensures subscriptions == old(subscriptions) + [Subscription(mcastGroup, port)]
      ensures lldpRemotes == old(lldpRemotes)
    {
      subscriptions := subscriptions + [Subscription(mcastGroup, port)];
    }

    /** `INSERT INTO lldp_remotes (port_name, remote_host) VALUES (?,?)`
        (client_sessions.py:182-185). */
    method InsertLldpRemote(portName: string, remoteHost: string)
      modifies this
      ensures lldpRemotes == old(lldpRemotes) + [LldpRemote(portName, remoteHost)]
      ensures subscriptions == old(subscriptions)
    {
      lldpRemotes := lldpRemotes + [LldpRemote(portName, remoteHost)];
    }
  }
}
