/** The states of the `show ip mroute` parser (state_machines.py:8-14), a
    closed enumeration whose members carry the values 1 to 6. */
module StateMachines {
  import opened Strings

  datatype IPMrouteParser =
    | Default
    | IgnorePreamble
    | CheckMcastGroup
    | ParseBidirUpstream
    | IgnoreListHeading
    | ParseOutgoingInterfaceList

  /** Every state, in declaration order. */
  const AllStates: seq<IPMrouteParser> :=
    [Default, IgnorePreamble, CheckMcastGroup, ParseBidirUpstream, IgnoreListHeading, ParseOutgoingInterfaceList]

  /** The enum member's value; the values are 1..6 in declaration order and
      no two states share one, since the value leads back to its state. */
  function Value(s: IPMrouteParser): (v: int)
    ensures 1 <= v <= 6
    ensures AllStates[v - 1] == s
    ensures FromValue(v) == Some(s)
  {
    match s
    case Default => 1
    case IgnorePreamble => 2
    case CheckMcastGroup => 3
    case ParseBidirUpstream => 4
    case IgnoreListHeading => 5
    case ParseOutgoingInterfaceList => 6
  }

  /** `IPMrouteParser(v)`: the member with value `v`, if there is one. */
  function FromValue(v: int): (r: Option<IPMrouteParser>)
    ensures r.Some? <==> 1 <= v <= 6
    ensures r.Some? ==> r.value == AllStates[v - 1]
  {
    if 1 <= v <= 6 then Some(AllStates[v - 1]) else None
  }

  /** There are exactly six states, each listed once. */
  lemma ExactlySixStates()
    ensures |AllStates| == 6
    ensures forall s :: s in AllStates
    ensures forall i, j :: 0 <= i < j < |AllStates| ==> AllStates[i] != AllStates[j]
  {
    forall s ensures s in AllStates {
      assert AllStates[Value(s) - 1] == s;
    }
  }

  /** Mapping a value to its state and back gives the value again. */
  lemma ValueRoundTrip(v: int)
    requires 1 <= v <= 6
    ensures FromValue(v).Some? && Value(FromValue(v).value) == v
  {
    var s := AllStates[v - 1];
    assert FromValue(Value(s)) == Some(s);
  }

  /** The state every mroute session starts in (client_sessions.py:68). */
  const InitialState: IPMrouteParser := Default

  lemma InitialStateIsValueOne()
    ensures Value(InitialState) == 1
  {
  }
}
