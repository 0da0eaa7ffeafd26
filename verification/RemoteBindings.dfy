/** Which listener a forwarded channel belongs to: `remoteBindingDecision` of
    apps/electerm-agent/src/app/server/ssh-tunnel.js, over the bindings of one connection. */
module RemoteBindings {
  import opened Prelude

  /** A normalised bind host; the family is 4 or 6, or 0 for a name. */
  datatype Host = Host(key: string, family: nat, wildcard: bool)

  datatype Binding = Binding(id: nat, host: Host, port: int)

  datatype Decision = NoBinding | Route(binding: Binding) | RejectOwner(owner: Binding)

  /** How well a binding fits a destination address. */
  function Specificity(b: Binding, destination: Host): nat {
    if b.host.key == destination.key then 3
    else if destination.family == 0 || !b.host.wildcard then 0
    else if b.host.family == destination.family then 2
    else if b.host.family == 0 then 1
    else 0
  }

  function OnPort(bindings: seq<Binding>, port: int): seq<Binding> {
    if bindings == [] then []
    else (if bindings[0].port == port then [bindings[0]] else []) + OnPort(bindings[1..], port)
  }

  function Highest(bindings: seq<Binding>, destination: Host): nat {
    if bindings == [] then 0
    else
      var rest := Highest(bindings[1..], destination);
      if Specificity(bindings[0], destination) > rest then Specificity(bindings[0], destination) else rest
  }

  function Selected(bindings: seq<Binding>, destination: Host, specificity: nat): seq<Binding> {
    if bindings == [] then []
    else (if Specificity(bindings[0], destination) == specificity then [bindings[0]] else [])
         + Selected(bindings[1..], destination, specificity)
  }

  function RemoteBindingDecision(bindings: seq<Binding>, port: int, destination: Option<Host>): Decision {
    var portBindings := OnPort(bindings, port);
    if portBindings == [] then NoBinding
    else if destination.Some? && Highest(portBindings, destination.value) > 0 then
      var selected := Selected(portBindings, destination.value, Highest(portBindings, destination.value));
      if |selected| == 1 then Route(selected[0]) else RejectOwner(portBindings[0])
    else if |portBindings| == 1 then Route(portBindings[0])
    else RejectOwner(portBindings[0])
  }

  // ---------- The decision, whatever the order of the bindings ----------

  ghost predicate Distinct(bindings: seq<Binding>) {
    forall i, j :: 0 <= i < j < |bindings| ==> bindings[i] != bindings[j]
  }

  /** The only binding on its port. */
  ghost predicate IsOnly(bindings: seq<Binding>, port: int, b: Binding) {
    b in bindings && b.port == port && forall c :: c in bindings && c.port == port ==> c == b
  }

  /** On its port it fits the destination better than any other, and at all. */
  ghost predicate FitsBest(bindings: seq<Binding>, port: int, destination: Host, b: Binding) {
    && b in bindings && b.port == port && Specificity(b, destination) > 0
    && forall c :: c in bindings && c.port == port && c != b ==>
        Specificity(c, destination) < Specificity(b, destination)
  }

  ghost predicate NoneFits(bindings: seq<Binding>, port: int, destination: Host) {
    forall c :: c in bindings && c.port == port ==> Specificity(c, destination) == 0
  }

  lemma {:induction false} OnPortElements(bindings: seq<Binding>, port: int)
    ensures forall b :: b in OnPort(bindings, port) <==> b in bindings && b.port == port
    ensures Distinct(bindings) ==> Distinct(OnPort(bindings, port))
  {
    if bindings != [] {
      var first, rest := bindings[0], bindings[1..];
      OnPortElements(rest, port);
      assert bindings == [first] + rest;
      if Distinct(bindings) {
        forall i | 0 <= i < |rest| ensures first != rest[i] { assert bindings[i + 1] == rest[i]; }
        assert first !in OnPort(rest, port);
      }
    }
  }

  lemma {:induction false} HighestIsMax(bindings: seq<Binding>, destination: Host)
    ensures forall b :: b in bindings ==> Specificity(b, destination) <= Highest(bindings, destination)
    ensures Highest(bindings, destination) > 0 ==> exists b ::
        b in bindings && Specificity(b, destination) == Highest(bindings, destination)
  {
    if bindings != [] {
      HighestIsMax(bindings[1..], destination);
      assert bindings == [bindings[0]] + bindings[1..];
    }
  }

  lemma {:induction false} SelectedElements(bindings: seq<Binding>, destination: Host, specificity: nat)
    ensures forall b :: b in Selected(bindings, destination, specificity) <==>
        b in bindings && Specificity(b, destination) == specificity
    ensures Distinct(bindings) ==> Distinct(Selected(bindings, destination, specificity))
  {
    if bindings != [] {
      var first, rest := bindings[0], bindings[1..];
      SelectedElements(rest, destination, specificity);
      assert bindings == [first] + rest;
      if Distinct(bindings) {
        forall i | 0 <= i < |rest| ensures first != rest[i] { assert bindings[i + 1] == rest[i]; }
        assert first !in Selected(rest, destination, specificity);
      }
    }
  }

  lemma OneElement(list: seq<Binding>, b: Binding)
    requires Distinct(list)
    ensures |list| == 1 && list[0] == b <==> b in list && forall c :: c in list ==> c == b
  {
    assert |list| > 1 ==> list[0] in list && list[1] in list;
  }

  /** A channel is routed to a binding exactly when, among those on its port, that one alone fits its
      address best; or when none fits or no address is known, and it is the only one. */
  lemma RouteIff(bindings: seq<Binding>, port: int, destination: Option<Host>, b: Binding)
    requires Distinct(bindings)
    ensures RemoteBindingDecision(bindings, port, destination) == Route(b)
            <==> || (destination.Some? && FitsBest(bindings, port, destination.value, b))
                 || ((destination.None? || NoneFits(bindings, port, destination.value)) && IsOnly(bindings, port, b))
  {
    hide OnPort, Highest, Selected, Specificity;
    var portBindings := OnPort(bindings, port);
    OnPortElements(bindings, port);
    OneElement(portBindings, b);
    if destination.Some? {
      var highest := Highest(portBindings, destination.value);
      HighestIsMax(portBindings, destination.value);
      SelectedElements(portBindings, destination.value, highest);
      OneElement(Selected(portBindings, destination.value, highest), b);
    }
  }

  /** Nothing is said of a channel exactly when no binding is on its port; so a removed binding is never
      routed to, and one of another port never. */
  lemma NoBindingIff(bindings: seq<Binding>, port: int, destination: Option<Host>)
    ensures RemoteBindingDecision(bindings, port, destination) == NoBinding <==> forall b :: b in bindings ==>
        b.port != port
  {
    OnPortElements(bindings, port);
    hide OnPort;
    var portBindings := OnPort(bindings, port);
    assert portBindings != [] ==> portBindings[0] in portBindings;
  }

  /** The order in which the bindings were registered does not matter for the route. */
  lemma OrderDoesNotMatter(a: seq<Binding>, b: seq<Binding>, port: int, destination: Option<Host>, c: Binding)
    requires Distinct(a) && Distinct(b) && forall x :: x in a <==> x in b
    ensures RemoteBindingDecision(a, port, destination) == Route(c) <==>
        RemoteBindingDecision(b, port, destination) == Route(c)
  {
    RouteIff(a, port, destination, c);
    RouteIff(b, port, destination, c);
  }

  /** An exact address outranks every wildcard. */
  lemma ExactAddressWins(bindings: seq<Binding>, port: int, destination: Host, b: Binding)
    requires Distinct(bindings) && b in bindings && b.port == port && b.host.key == destination.key
    requires forall c :: c in bindings && c.port == port && c != b ==> c.host.key != destination.key
    ensures RemoteBindingDecision(bindings, port, Some(destination)) == Route(b)
  {
    RouteIff(bindings, port, Some(destination), b);
  }

  // ---------- Which binding fits ----------

  predicate IsExact(b: Binding, destination: Host) { b.host.key == destination.key }

  /** A wildcard of the destination's own family. */
  predicate IsFamily(b: Binding, destination: Host) {
    destination.family != 0 && b.host.wildcard && b.host.family == destination.family
  }

  /** A wildcard of no family. */
  predicate IsAny(b: Binding, destination: Host) {
    destination.family != 0 && b.host.wildcard && b.host.family == 0
  }

  /** Of those on the port `b` alone fits. */
  ghost predicate Alone(bindings: seq<Binding>, port: int, fits: Binding -> bool, b: Binding) {
    b in bindings && b.port == port && fits(b) && forall c :: c in bindings && c.port == port && fits(c) ==> c == b
  }

  ghost predicate NoneOf(bindings: seq<Binding>, port: int, fits: Binding -> bool) {
    forall c :: c in bindings && c.port == port ==> !fits(c)
  }

  /** An exact address comes first, then a wildcard of the same family, then one of none; and a channel that
      fits none goes to the only binding there is. */
  lemma RouteByRank(bindings: seq<Binding>, port: int, destination: Host, b: Binding)
    requires Distinct(bindings)
    ensures var exact, family, any := (c: Binding) => IsExact(c, destination),
                (c: Binding) => IsFamily(c, destination), (c: Binding) => IsAny(c, destination);
            RemoteBindingDecision(bindings, port, Some(destination)) == Route(b) <==>
              || Alone(bindings, port, exact, b)
              || (NoneOf(bindings, port, exact) && Alone(bindings, port, family, b))
              || (NoneOf(bindings, port, exact) && NoneOf(bindings, port, family) && Alone(bindings, port, any, b))
              || (NoneOf(bindings, port, exact) && NoneOf(bindings, port, family) && NoneOf(bindings, port, any)
                  && IsOnly(bindings, port, b))
  {
    RouteIff(bindings, port, Some(destination), b);
    hide RemoteBindingDecision;
  }

  /** It is on the port, and none registered before it is. */
  predicate FirstOnPort(bindings: seq<Binding>, port: int, b: Binding) {
    exists i :: 0 <= i < |bindings| && bindings[i] == b && b.port == port
                && forall j :: 0 <= j < i ==> bindings[j].port != port
  }

  /** What is neither routed nor nobody's is rejected in the name of the binding registered first. */
  lemma RejectOwnerIff(bindings: seq<Binding>, port: int, destination: Option<Host>, owner: Binding)
    ensures var decision := RemoteBindingDecision(bindings, port, destination);
            decision == RejectOwner(owner) <==>
              !decision.NoBinding? && !decision.Route? && FirstOnPort(bindings, port, owner)
  {
    FirstIsFirst(bindings, port);
    NoBindingIff(bindings, port, destination);
    hide OnPort, Highest, Selected;
  }

  lemma {:induction false} FirstIsFirst(bindings: seq<Binding>, port: int)
    ensures forall b :: OnPort(bindings, port) != [] && OnPort(bindings, port)[0] == b <==>
                        FirstOnPort(bindings, port, b)
  {
    if bindings != [] {
      var first, rest := bindings[0], bindings[1..];
      FirstIsFirst(rest, port);
      forall b ensures OnPort(bindings, port) != [] && OnPort(bindings, port)[0] == b <==>
                       FirstOnPort(bindings, port, b) {
        if first.port == port {
          if FirstOnPort(bindings, port, b) {
            var i :| 0 <= i < |bindings| && bindings[i] == b && forall j :: 0 <= j < i ==> bindings[j].port != port;
            assert i == 0;
          }
        } else {
          if FirstOnPort(rest, port, b) {
            var i :| 0 <= i < |rest| && rest[i] == b && forall j :: 0 <= j < i ==> rest[j].port != port;
            assert bindings[i + 1] == b;
            assert forall j :: 0 <= j < i + 1 ==> bindings[j].port != port;
          }
          if FirstOnPort(bindings, port, b) {
            var i :| 0 <= i < |bindings| && bindings[i] == b && b.port == port
                     && forall j :: 0 <= j < i ==> bindings[j].port != port;
            assert rest[i - 1] == b;
            assert forall j :: 0 <= j < i - 1 ==> rest[j] == bindings[j + 1];
          }
        }
      }
    }
  }
}
