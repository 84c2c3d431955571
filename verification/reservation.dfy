// Reservation signalling over many links, with the messages of many flows interleaved
// (ns-2.35/adc/salink.cc, param-adc.cc, sa.cc and ns-2.35/tcp/saack.cc).
module Reservation {
  import opened Common

  /** The size of a link's table of pending decisions. */
  const NFLOWS: nat := 500

  /** The flow id of a free table slot. */
  const FREE: int := -1

  /** A link: the rate reserved on it, the flows that wait for their CONFIRM, the number of admitted flows. */
  datatype Link = Link(resv: real, pending: seq<int>, numfl: int)

  /** The counter starts at -1 and is set to zero by add-trace. */
  function InitialLink(traced: bool): (l: Link)
    ensures FREE in l.pending
  {
    var pending := seq(NFLOWS, _ => FREE);
    assert pending[0] == FREE;
    Link(0.0, pending, InitialCount(traced))
  }

  function InitialCount(traced: bool): int {
    if traced then 0 else -1
  }

  /** The first slot with a flow id, or the length of the table. */
  function Find(pending: seq<int>, id: int): (k: nat)
    ensures k <= |pending|
    ensures forall j | 0 <= j < k :: pending[j] != id
    ensures k < |pending| ==> pending[k] == id
    ensures k < |pending| <==> id in pending
  {
    if pending == [] then 0
    else if pending[0] == id then 0
    else
      assert pending == [pending[0]] + pending[1..];
      1 + Find(pending[1..], id)
  }

  predicate Admits(l: Link, limit: real, rate: real) {
    l.resv + rate <= limit
  }

  /** A REQUEST; if it is admitted there must be a free slot, or the simulation exits. */
  function RequestAt(l: Link, limit: real, id: int, rate: real): Link
    requires Admits(l, limit, rate) ==> FREE in l.pending
  {
    if Admits(l, limit, rate) then Link(l.resv + rate, l.pending[Find(l.pending, FREE) := id], l.numfl + 1) else l
  }

  /** A CONFIRM; a link that is not waiting for it ignores it. */
  function ConfirmAt(l: Link, id: int, rate: real, decision: bool): Link {
    if id !in l.pending then l
    else
      var pending := l.pending[Find(l.pending, id) := FREE];
      if decision then Link(l.resv, pending, l.numfl) else Link(l.resv - rate, pending, l.numfl - 1)
  }

  function TeardownAt(l: Link, rate: real): Link {
    Link(l.resv - rate, l.pending, l.numfl - 1)
  }

  /** A rejecting CONFIRM restores what the link had reserved before the REQUEST exactly if the link admitted
      the flow or had no slot with its id: ids of live flows must differ, from one another and from -1. */
  lemma RejectUndoesIff(l: Link, limit: real, id: int, rate: real)
    requires FREE in l.pending && rate > 0.0
    ensures ConfirmAt(RequestAt(l, limit, id, rate), id, rate, false).resv == l.resv
            <==> Admits(l, limit, rate) || id !in l.pending
  {
    if Admits(l, limit, rate) {
      var k := Find(l.pending, FREE);
      assert l.pending[k := id][k] == id;
    }
  }

  /** It happens, on a link with a decision pending for another flow with the same id: the REQUEST is refused, and the
      CONFIRM that says so takes a rate back that was never reserved for it. */
  lemma RejectTakesTooMuch(limit: real, id: int, rate: real)
    requires id != FREE && 0.0 < rate <= limit < rate + rate
    ensures var l := RequestAt(InitialLink(true), limit, id, rate);
            && l.resv == rate && !Admits(l, limit, rate)
            && RequestAt(l, limit, id, rate) == l
            && ConfirmAt(l, id, rate, false).resv == 0.0
  {
    var l0 := InitialLink(true);
    var l := RequestAt(l0, limit, id, rate);
    assert l.pending[Find(l0.pending, FREE)] == id;
  }

  // ----- the network -----

  datatype Flow = Flow(id: int, rate: real, path: seq<nat>)

  /** Flows, for each link what may be reserved on it (utilization_ * bandwidth_), and whether links are traced. */
  datatype Config = Config(flows: seq<Flow>, limit: seq<real>, traced: bool) {
    ghost predicate Valid() {
      && (forall f | 0 <= f < |flows| :: flows[f].id != FREE && flows[f].rate >= 0.0)
      && (forall f | 0 <= f < |flows| :: Distinct(flows[f].path) && Routed(flows[f].path, |limit|))
      && (forall l | 0 <= l < |limit| :: limit[l] >= 0.0)
    }
  }

  ghost predicate Routed(path: seq<nat>, links: nat) {
    forall i | 0 <= i < |path| :: path[i] < links
  }

  /** How many links of its path a flow's REQUEST, CONFIRM and TEARDOWN have crossed, the decision bit
      they carry, and which links admitted it. */
  datatype Progress = Progress(req: nat, conf: nat, tear: nat, decision: bool, granted: set<nat>)

  datatype Net = Net(links: seq<Link>, flows: seq<Progress>)

  datatype Event = Request(f: nat) | Confirm(f: nat) | Teardown(f: nat)

  function Initial(c: Config): Net {
    Net(seq(|c.limit|, _ => InitialLink(c.traced)), seq(|c.flows|, _ => Progress(0, 0, 0, true, {})))
  }

  ghost predicate Sized(c: Config, n: Net) {
    && |n.links| == |c.limit| && |n.flows| == |c.flows|
    && forall f | 0 <= f < |n.flows| ::
         n.flows[f].req <= |c.flows[f].path| && n.flows[f].conf <= n.flows[f].req && n.flows[f].tear <= n.flows[f].conf
  }

  /** The flow's REQUEST is on its way, or its CONFIRM. */
  ghost predicate Deciding(flow: Flow, p: Progress) {
    0 < p.req && p.conf < |flow.path|
  }

  /** No other flow with the id of f is being decided on. */
  ghost predicate Unused(c: Config, n: Net, f: nat)
    requires Sized(c, n) && f < |c.flows|
  {
    forall g | 0 <= g < |c.flows| && g != f && c.flows[g].id == c.flows[f].id :: !Deciding(c.flows[g], n.flows[g])
  }

  /** A flow takes an id that no flow being decided on has, confirms when its REQUEST has come to the end and back, only
      accepted flows are torn down, and messages of a flow do not overtake each other. */
  ghost predicate Allowed(c: Config, n: Net, e: Event)
    requires c.Valid() && Sized(c, n)
  {
    && e.f < |c.flows|
    && var p, path := n.flows[e.f], c.flows[e.f].path;
       match e
       case Request(f) =>
         p.req < |path| && (Admits(n.links[path[p.req]], c.limit[path[p.req]], c.flows[f].rate) ==>
                              FREE in n.links[path[p.req]].pending)
         && (p.req == 0 ==> Unused(c, n, f))
       case Confirm(_) => p.req == |path| && p.conf < |path|
       case Teardown(_) => p.req == |path| && p.decision && p.tear < p.conf
  }

  /** The link where the event takes place. */
  ghost function Where(c: Config, n: Net, e: Event): (l: nat)
    requires c.Valid() && Sized(c, n) && Allowed(c, n, e)
    ensures l < |n.links| && l in c.flows[e.f].path
  {
    var p, path := n.flows[e.f], c.flows[e.f].path;
    var k := match e case Request(_) => p.req case Confirm(_) => p.conf case Teardown(_) => p.tear;
    assert path[k] in path;
    path[k]
  }

  ghost function LinkAfter(c: Config, n: Net, e: Event): Link
    requires c.Valid() && Sized(c, n) && Allowed(c, n, e)
  {
    var l := Where(c, n, e);
    var flow := c.flows[e.f];
    match e
    case Request(f) => RequestAt(n.links[l], c.limit[l], flow.id, flow.rate)
    case Confirm(f) => ConfirmAt(n.links[l], flow.id, flow.rate, n.flows[f].decision)
    case Teardown(_) => TeardownAt(n.links[l], flow.rate)
  }

  ghost function ProgressAfter(c: Config, n: Net, e: Event): Progress
    requires c.Valid() && Sized(c, n) && Allowed(c, n, e)
  {
    var p, l := n.flows[e.f], Where(c, n, e);
    match e
    case Request(f) =>
      var decide := Admits(n.links[l], c.limit[l], c.flows[f].rate);
      Progress(p.req + 1, p.conf, p.tear, p.decision && decide, if decide then p.granted + {l} else p.granted)
    case Confirm(_) => Progress(p.req, p.conf + 1, p.tear, p.decision, p.granted)
    case Teardown(_) => Progress(p.req, p.conf, p.tear + 1, p.decision, p.granted)
  }

  ghost function Step(c: Config, n: Net, e: Event): (n': Net)
    requires c.Valid() && Sized(c, n) && Allowed(c, n, e)
    ensures Sized(c, n')
  {
    Net(n.links[Where(c, n, e) := LinkAfter(c, n, e)], n.flows[e.f := ProgressAfter(c, n, e)])
  }

  ghost predicate Legal(c: Config, es: seq<Event>)
    requires c.Valid()
    decreases |es|, 0
  {
    es == [] || (Legal(c, es[..|es| - 1]) && Allowed(c, After(c, es[..|es| - 1]), es[|es| - 1]))
  }

  ghost function After(c: Config, es: seq<Event>): (n: Net)
    requires c.Valid() && Legal(c, es)
    ensures Sized(c, n)
    decreases |es|, 1
  {
    if es == [] then Initial(c) else Step(c, After(c, es[..|es| - 1]), es[|es| - 1])
  }

  // ----- who holds what -----

  /** Link l has admitted the flow and neither rejected nor torn it down. */
  ghost predicate Holds(flow: Flow, p: Progress, l: nat)
    requires p.conf <= |flow.path| && p.tear <= |flow.path|
  {
    l in p.granted && (p.decision || l !in flow.path[..p.conf]) && l !in flow.path[..p.tear]
  }

  /** Link l has admitted the flow and not seen its CONFIRM. */
  ghost predicate Awaits(flow: Flow, p: Progress, l: nat)
    requires p.conf <= |flow.path|
  {
    l in p.granted && l !in flow.path[..p.conf]
  }

  /** The sum of what link l holds of the first k flows: their rates, or how many they are. */
  ghost function Held(c: Config, n: Net, l: nat, k: nat, counting: bool): real
    requires Sized(c, n) && k <= |n.flows|
  {
    if k == 0 then 0.0
    else
      Held(c, n, l, k - 1, counting)
      + if Holds(c.flows[k - 1], n.flows[k - 1], l) then Weight(c.flows[k - 1], counting) else 0.0
  }

  function Weight(flow: Flow, counting: bool): real {
    if counting then 1.0 else flow.rate
  }

  ghost predicate ProgressOk(flow: Flow, p: Progress)
    requires p.req <= |flow.path|
  {
    && (forall l | l in p.granted :: l in flow.path[..p.req])
    && (p.decision <==> forall l | l in flow.path[..p.req] :: l in p.granted)
    && (p.conf > 0 ==> p.req == |flow.path|)
    && (p.tear > 0 ==> p.decision)
  }

  ghost predicate TableOk(c: Config, n: Net, l: nat)
    requires Sized(c, n) && l < |n.links|
  {
    var pending := n.links[l].pending;
    && |pending| == NFLOWS
    && (forall i, j | 0 <= i < j < |pending| && pending[i] != FREE :: pending[i] != pending[j])
    && forall x | x != FREE :: x in pending <==> Awaited(c, n, l, x)
  }

  /** A flow with this id has been admitted by link l, which has not seen its CONFIRM. */
  ghost predicate Awaited(c: Config, n: Net, l: nat, x: int)
    requires Sized(c, n)
  {
    exists f | 0 <= f < |n.flows| :: c.flows[f].id == x && Awaits(c.flows[f], n.flows[f], l)
  }

  ghost predicate LinkOk(c: Config, n: Net, l: nat)
    requires Sized(c, n) && l < |n.links|
  {
    && TableOk(c, n, l)
    && n.links[l].resv == Held(c, n, l, |n.flows|, false)
    && n.links[l].numfl as real == InitialCount(c.traced) as real + Held(c, n, l, |n.flows|, true)
    && n.links[l].resv <= c.limit[l]
  }

  ghost predicate Inv(c: Config, n: Net) {
    && Sized(c, n)
    && (forall f | 0 <= f < |n.flows| :: ProgressOk(c.flows[f], n.flows[f]))
    && (forall f | 0 <= f < |n.flows| && Deciding(c.flows[f], n.flows[f]) :: Unused(c, n, f))
    && forall l | 0 <= l < |n.links| :: LinkOk(c, n, l)
  }

  lemma {:induction false} HeldSame(c: Config, n: Net, n': Net, l: nat, k: nat, counting: bool)
    requires Sized(c, n) && Sized(c, n') && k <= |n.flows|
    requires forall f | 0 <= f < k :: Holds(c.flows[f], n.flows[f], l) <==> Holds(c.flows[f], n'.flows[f], l)
    ensures Held(c, n, l, k, counting) == Held(c, n', l, k, counting)
  {
    if k > 0 {
      HeldSame(c, n, n', l, k - 1, counting);
    }
  }

  /** When only flow f changes, the sum changes by its weight. */
  lemma {:induction false} HeldChange(c: Config, n: Net, n': Net, l: nat, k: nat, f: nat, counting: bool)
    requires Sized(c, n) && Sized(c, n') && f < k <= |n.flows|
    requires forall g | 0 <= g < k && g != f :: n.flows[g] == n'.flows[g]
    ensures Held(c, n', l, k, counting) - Held(c, n, l, k, counting) ==
            Share(c.flows[f], n'.flows[f], l, counting) - Share(c.flows[f], n.flows[f], l, counting)
  {
    if f == k - 1 {
      HeldSame(c, n, n', l, k - 1, counting);
    } else {
      HeldChange(c, n, n', l, k - 1, f, counting);
    }
  }

  ghost function Share(flow: Flow, p: Progress, l: nat, counting: bool): real
    requires p.conf <= |flow.path| && p.tear <= |flow.path|
  {
    if Holds(flow, p, l) then Weight(flow, counting) else 0.0
  }

  lemma {:induction false} HeldNonNegative(c: Config, n: Net, l: nat, k: nat)
    requires c.Valid() && Sized(c, n) && k <= |n.flows|
    ensures Held(c, n, l, k, false) >= 0.0
  {
    if k > 0 {
      HeldNonNegative(c, n, l, k - 1);
    }
  }

  // ----- one step -----

  lemma CrossedOne(path: seq<nat>, k: nat, l: nat)
    requires Distinct(path) && k < |path|
    ensures path[..k + 1] == path[..k] + [path[k]]
    ensures path[k] !in path[..k]
    ensures l in path[..k + 1] <==> l in path[..k] || l == path[k]
  {
  }

  lemma PrefixIn(path: seq<nat>, j: nat, k: nat, l: nat)
    requires j <= k <= |path| && l in path[..j]
    ensures l in path[..k]
  {
    var i :| 0 <= i < j && path[i] == l;
    assert path[..k][i] == l;
  }

  lemma ProgressKept(c: Config, n: Net, e: Event)
    requires c.Valid() && Inv(c, n) && Allowed(c, n, e)
    ensures ProgressOk(c.flows[e.f], ProgressAfter(c, n, e))
  {
    var p, p', path := n.flows[e.f], ProgressAfter(c, n, e), c.flows[e.f].path;
    if e.Request? {
      var x := path[p.req];
      forall l ensures l in path[..p.req + 1] <==> l in path[..p.req] || l == x {
        CrossedOne(path, p.req, l);
      }
      assert x in path[..p.req + 1];
      assert x !in p.granted by {
        CrossedOne(path, p.req, x);
      }
      assert p.decision <==> forall l | l in path[..p.req] :: l in p.granted;
    }
  }

  /** What the event changes in who holds the flow and who waits for it, at the link where it takes place. */
  lemma HereChanges(c: Config, n: Net, e: Event)
    requires c.Valid() && Inv(c, n) && Allowed(c, n, e)
    ensures var flow, p, p', l := c.flows[e.f], n.flows[e.f], ProgressAfter(c, n, e), Where(c, n, e);
            match e
            case Request(_) =>
              && !Holds(flow, p, l) && !Awaits(flow, p, l)
              && (Holds(flow, p', l) <==> Admits(n.links[l], c.limit[l], flow.rate))
              && (Awaits(flow, p', l) <==> Admits(n.links[l], c.limit[l], flow.rate))
            case Confirm(_) =>
              && (Holds(flow, p, l) <==> l in p.granted) && (Awaits(flow, p, l) <==> l in p.granted)
              && (Holds(flow, p', l) <==> l in p.granted && p.decision) && !Awaits(flow, p', l)
            case Teardown(_) =>
              Holds(flow, p, l) && !Holds(flow, p', l) && (Awaits(flow, p, l) <==> Awaits(flow, p', l))
  {
    var p, path := n.flows[e.f], c.flows[e.f].path;
    assert ProgressOk(c.flows[e.f], p);
    match e
    case Request(_) =>
      CrossedOne(path, p.req, path[p.req]);
      assert path[..0] == [];
    case Confirm(_) =>
      CrossedOne(path, p.conf, path[p.conf]);
      if path[p.conf] in path[..p.tear] {
        PrefixIn(path, p.tear, p.conf, path[p.conf]);
      }
    case Teardown(_) =>
      CrossedOne(path, p.tear, path[p.tear]);
      assert path[..p.req] == path;
      assert path[p.tear] in path[..p.req];
  }

  lemma ElsewhereSame(c: Config, n: Net, e: Event, l: nat)
    requires c.Valid() && Inv(c, n) && Allowed(c, n, e) && l != Where(c, n, e)
    ensures var flow, p, p' := c.flows[e.f], n.flows[e.f], ProgressAfter(c, n, e);
            (Holds(flow, p', l) <==> Holds(flow, p, l)) && (Awaits(flow, p', l) <==> Awaits(flow, p, l))
  {
    var p, path := n.flows[e.f], c.flows[e.f].path;
    assert ProgressOk(c.flows[e.f], p);
    match e
    case Request(_) =>
      assert path[..0] == [];
    case Confirm(_) => CrossedOne(path, p.conf, l);
    case Teardown(_) => CrossedOne(path, p.tear, l);
  }

  lemma AwaitedSame(c: Config, n: Net, n': Net, l: nat, x: int)
    requires Sized(c, n) && Sized(c, n')
    requires forall f | 0 <= f < |n.flows| && c.flows[f].id == x ::
               Awaits(c.flows[f], n.flows[f], l) <==> Awaits(c.flows[f], n'.flows[f], l)
    ensures Awaited(c, n, l, x) <==> Awaited(c, n', l, x)
  {
  }

  lemma ElsewhereOk(c: Config, n: Net, e: Event, l: nat)
    requires c.Valid() && Inv(c, n) && Allowed(c, n, e) && l < |n.links| && l != Where(c, n, e)
    ensures LinkOk(c, Step(c, n, e), l)
  {
    var n' := Step(c, n, e);
    assert LinkOk(c, n, l);
    ElsewhereSame(c, n, e, l);
    HeldSame(c, n, n', l, |n.flows|, false);
    HeldSame(c, n, n', l, |n.flows|, true);
    forall x ensures Awaited(c, n, l, x) <==> Awaited(c, n', l, x) {
      AwaitedSame(c, n, n', l, x);
    }
  }

  /** Overwriting a slot: exactly its old id goes and the new one comes. */
  lemma SlotUpdate(pending: seq<int>, k: nat, id: int, x: int)
    requires k < |pending|
    requires forall i, j | 0 <= i < j < |pending| && pending[i] != FREE :: pending[i] != pending[j]
    requires x != FREE && (x == pending[k] ==> x != id)
    ensures x in pending[k := id] <==> x == id || (x in pending && x != pending[k])
  {
    var updated := pending[k := id];
    assert updated[k] == id;
    if x in pending && x != pending[k] {
      var i :| 0 <= i < |pending| && pending[i] == x;
      assert updated[i] == x;
    }
    if x in updated && x != id {
      var i :| 0 <= i < |updated| && updated[i] == x;
      assert pending[i] == x;
    }
  }

  /** While a flow is decided on, its id stands for it alone. */
  lemma OnlyThis(c: Config, n: Net, e: Event, l: nat)
    requires c.Valid() && Inv(c, n) && Allowed(c, n, e) && !e.Teardown?
    ensures forall g | 0 <= g < |n.flows| && g != e.f && c.flows[g].id == c.flows[e.f].id ::
              !Awaits(c.flows[g], n.flows[g], l)
    ensures Awaited(c, n, l, c.flows[e.f].id) <==> Awaits(c.flows[e.f], n.flows[e.f], l)
  {
    assert Unused(c, n, e.f);
    forall g | 0 <= g < |n.flows| && Awaits(c.flows[g], n.flows[g], l) ensures Deciding(c.flows[g], n.flows[g]) {
      AwaitsDecides(c.flows[g], n.flows[g], l);
    }
  }

  lemma AwaitsDecides(flow: Flow, p: Progress, l: nat)
    requires p.req <= |flow.path| && p.conf <= |flow.path| && ProgressOk(flow, p) && Awaits(flow, p, l)
    ensures Deciding(flow, p)
  {
    assert l in flow.path[..p.req];
    if p.conf == |flow.path| {
      PrefixIn(flow.path, p.req, p.conf, l);
    }
  }

  lemma AwaitedAfter(c: Config, n: Net, e: Event, x: int)
    requires c.Valid() && Inv(c, n) && Allowed(c, n, e)
    ensures var l, n', id := Where(c, n, e), Step(c, n, e), c.flows[e.f].id;
            Awaited(c, n', l, x) <==>
            if x == id && !e.Teardown? then Awaits(c.flows[e.f], n'.flows[e.f], l) else Awaited(c, n, l, x)
  {
    var l, n' := Where(c, n, e), Step(c, n, e);
    if x == c.flows[e.f].id && !e.Teardown? {
      OnlyThis(c, n, e, l);
    } else {
      HereChanges(c, n, e);
      AwaitedSame(c, n, n', l, x);
    }
  }

  lemma HereTable(c: Config, n: Net, e: Event)
    requires c.Valid() && Inv(c, n) && Allowed(c, n, e)
    ensures TableOk(c, Step(c, n, e), Where(c, n, e))
  {
    var l, id, n' := Where(c, n, e), c.flows[e.f].id, Step(c, n, e);
    var before, after := n.links[l].pending, n'.links[l].pending;
    assert LinkOk(c, n, l);
    HereChanges(c, n, e);
    if !e.Teardown? {
      OnlyThis(c, n, e, l);
    }
    forall x | x != FREE ensures x in after <==> Awaited(c, n', l, x) {
      AwaitedAfter(c, n, e, x);
      if e.Request? && Admits(n.links[l], c.limit[l], c.flows[e.f].rate) {
        SlotUpdate(before, Find(before, FREE), id, x);
      } else if e.Confirm? && id in before {
        SlotUpdate(before, Find(before, id), FREE, x);
      }
    }
  }

  lemma UnusedKept(c: Config, n: Net, e: Event)
    requires c.Valid() && Inv(c, n) && Allowed(c, n, e)
    ensures forall f | 0 <= f < |n.flows| && Deciding(c.flows[f], Step(c, n, e).flows[f]) :: Unused(c, Step(c, n, e), f)
  {
    var n' := Step(c, n, e);
    assert Deciding(c.flows[e.f], n'.flows[e.f]) ==> Unused(c, n, e.f);
    forall f | 0 <= f < |n.flows| && Deciding(c.flows[f], n'.flows[f]) ensures Unused(c, n', f) {
      assert f != e.f ==> Unused(c, n, f);
    }
  }

  lemma HereOk(c: Config, n: Net, e: Event)
    requires c.Valid() && Inv(c, n) && Allowed(c, n, e)
    ensures LinkOk(c, Step(c, n, e), Where(c, n, e))
  {
    var l, n' := Where(c, n, e), Step(c, n, e);
    assert LinkOk(c, n, l);
    if !e.Teardown? {
      OnlyThis(c, n, e, l);
    }
    HereTable(c, n, e);
    HereChanges(c, n, e);
    HeldChange(c, n, n', l, |n.flows|, e.f, false);
    HeldChange(c, n, n', l, |n.flows|, e.f, true);
  }

  lemma StepKeeps(c: Config, n: Net, e: Event)
    requires c.Valid() && Inv(c, n) && Allowed(c, n, e)
    ensures Inv(c, Step(c, n, e))
  {
    var n' := Step(c, n, e);
    ProgressKept(c, n, e);
    UnusedKept(c, n, e);
    forall l | 0 <= l < |n'.links| ensures LinkOk(c, n', l) {
      if l == Where(c, n, e) {
        HereOk(c, n, e);
      } else {
        ElsewhereOk(c, n, e, l);
      }
    }
  }

  lemma {:induction false} NothingHeld(c: Config, n: Net, l: nat, k: nat, counting: bool)
    requires Sized(c, n) && k <= |n.flows|
    requires forall f | 0 <= f < k :: !Holds(c.flows[f], n.flows[f], l)
    ensures Held(c, n, l, k, counting) == 0.0
  {
    if k > 0 {
      NothingHeld(c, n, l, k - 1, counting);
    }
  }

  lemma {:induction false} RunKeeps(c: Config, es: seq<Event>)
    requires c.Valid() && Legal(c, es)
    ensures Inv(c, After(c, es))
    decreases |es|
  {
    if es == [] {
      var n := Initial(c);
      forall l | 0 <= l < |n.links| ensures LinkOk(c, n, l) {
        NothingHeld(c, n, l, |n.flows|, false);
        NothingHeld(c, n, l, |n.flows|, true);
      }
    } else {
      RunKeeps(c, es[..|es| - 1]);
      StepKeeps(c, After(c, es[..|es| - 1]), es[|es| - 1]);
    }
  }

  // ----- main results -----

  /** At all times each link has reserved exactly the rates of the flows it holds, never more than allowed,
      and counts them, one too few if it is not traced. */
  lemma RateConserved(c: Config, es: seq<Event>, l: nat)
    requires c.Valid() && Legal(c, es) && l < |c.limit|
    ensures var n := After(c, es);
            && n.links[l].resv == Held(c, n, l, |n.flows|, false)
            && 0.0 <= n.links[l].resv <= c.limit[l]
            && n.links[l].numfl as real == InitialCount(c.traced) as real + Held(c, n, l, |n.flows|, true)
  {
    RunKeeps(c, es);
    assert LinkOk(c, After(c, es), l);
    HeldNonNegative(c, After(c, es), l, |c.flows|);
  }

  /** A link admits a flow exactly if the rates of the flows it holds leave room for its rate, and the flow is accepted
      only as long as every link did. */
  lemma GrantedIff(c: Config, es: seq<Event>, f: nat)
    requires c.Valid() && Legal(c, es) && f < |c.flows| && Allowed(c, After(c, es), Request(f))
    ensures var n, flow := After(c, es), c.flows[f]; var p' := Step(c, n, Request(f)).flows[f];
            var l := flow.path[n.flows[f].req];
            && (Holds(flow, p', l) <==> Held(c, n, l, |n.flows|, false) + flow.rate <= c.limit[l])
            && (p'.decision <==> n.flows[f].decision && Holds(flow, p', l))
  {
    RunKeeps(c, es);
    var n := After(c, es);
    HereChanges(c, n, Request(f));
    assert LinkOk(c, n, Where(c, n, Request(f)));
  }

  /** Once a flow's CONFIRM has crossed its path, every link of it holds the flow's rate, or none does; it is
      every one exactly if they all admitted it. */
  lemma AllOrNothing(c: Config, es: seq<Event>, f: nat)
    requires c.Valid() && Legal(c, es) && f < |c.flows|
    requires var p := After(c, es).flows[f]; p.conf == |c.flows[f].path| && p.tear == 0
    ensures var flow, p := c.flows[f], After(c, es).flows[f];
            && (forall l | l in flow.path :: Holds(flow, p, l) <==> p.decision)
            && (forall l | l in flow.path :: !Awaits(flow, p, l))
            && (p.decision <==> forall l | l in flow.path :: l in p.granted)
  {
    RunKeeps(c, es);
    var flow, p := c.flows[f], After(c, es).flows[f];
    assert ProgressOk(flow, p);
    assert flow.path[..p.conf] == flow.path == flow.path[..p.req];
  }

  ghost predicate Finished(flow: Flow, p: Progress) {
    p.req == 0 || (p.conf == |flow.path| && (p.decision ==> p.tear == |flow.path|))
  }

  /** When every flow has been rejected or torn down, nothing is reserved any more and no slot is taken by it. */
  lemma AllReturned(c: Config, es: seq<Event>, l: nat)
    requires c.Valid() && Legal(c, es) && l < |c.limit|
    requires forall f | 0 <= f < |c.flows| :: Finished(c.flows[f], After(c, es).flows[f])
    ensures var link := After(c, es).links[l];
            && link.resv == 0.0 && link.numfl == InitialCount(c.traced)
            && forall f | 0 <= f < |c.flows| :: c.flows[f].id !in link.pending
  {
    RunKeeps(c, es);
    var n := After(c, es);
    assert LinkOk(c, n, l);
    forall f | 0 <= f < |c.flows| ensures !Holds(c.flows[f], n.flows[f], l) && !Awaits(c.flows[f], n.flows[f], l) {
      var flow, p := c.flows[f], n.flows[f];
      assert ProgressOk(flow, p) && Finished(flow, p);
      assert p.conf == |flow.path| ==> flow.path[..p.conf] == flow.path[..p.req];
      assert p.tear == |flow.path| ==> flow.path[..p.tear] == flow.path[..p.req];
    }
    NothingHeld(c, n, l, |n.flows|, false);
    NothingHeld(c, n, l, |n.flows|, true);
  }
}
