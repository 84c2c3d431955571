// The objects that take part in reservation signalling: the parameter-based admission control of a link, the
// link's signalling module, the source agent and the agent that answers it (ns-2.35/adc/param-adc.cc,
// salink.cc, sa.cc and ns-2.35/tcp/saack.cc).
module SignalLink {
  import opened Reservation

  datatype Kind = RequestKind | AcceptKind | RejectKind | ConfirmKind | TeardownKind | OtherKind

  datatype Msg = Msg(kind: Kind, flowid: int, rate: real, decision: bool)

  class ParamAdc {
    const utilization: real
    const bandwidth: real
    var resvRate: real

    ghost function Limit(): real {
      utilization * bandwidth
    }

    constructor (utilization: real, bandwidth: real)
      ensures this.utilization == utilization && this.bandwidth == bandwidth && resvRate == 0.0
    {
      this.utilization, this.bandwidth, resvRate := utilization, bandwidth, 0.0;
    }

    method AdmitFlow(r: real) returns (admitted: bool)
      modifies this
      ensures admitted <==> old(resvRate) + r <= Limit()
      ensures resvRate == old(resvRate) + if admitted then r else 0.0
    {
      admitted := resvRate + r <= utilization * bandwidth;
      if admitted {
        resvRate := resvRate + r;
      }
    }

    method RejAction(p: real)
      modifies this
      ensures resvRate == old(resvRate) - p
    {
      resvRate := resvRate - p;
    }

    method TeardownAction(p: real)
      modifies this
      ensures resvRate == old(resvRate) - p
    {
      resvRate := resvRate - p;
    }
  }

  /** What a message does to a link, and how it goes on; None when the simulation exits. */
  datatype Outcome = None | Sent(link: Link, msg: Msg)

  ghost function Passed(l: Link, limit: real, m: Msg): Outcome {
    match m.kind
    case RequestKind =>
      var decide := Admits(l, limit, m.rate);
      if decide && FREE !in l.pending then None
      else Sent(RequestAt(l, limit, m.flowid, m.rate), m.(decision := m.decision && decide))
    case ConfirmKind => Sent(ConfirmAt(l, m.flowid, m.rate, m.decision), m)
    case TeardownKind => Sent(TeardownAt(l, m.rate), m)
    case _ => Sent(l, m)
  }

  /** The flow with this id waits for its CONFIRM in one slot more, or less, than before; the others wait as they
      did. */
  ghost predicate Waits(before: seq<int>, after: seq<int>, id: int, more: int) {
    && |after| == |before| && multiset(after)[id] == multiset(before)[id] + more
    && forall x | x != id && x != FREE :: multiset(after)[x] == multiset(before)[x]
  }

  /** What a link does with a message: a REQUEST that fits is reserved, waits and is counted, one that does not goes
      on refused; a CONFIRM the link waits for ends the wait, and takes the reservation back if it refuses; a TEARDOWN
      takes it back; anything else passes. */
  ghost predicate Handles(l: Link, limit: real, m: Msg, o: Outcome) {
    match m.kind
    case RequestKind =>
      if l.resv + m.rate > limit then o == Sent(l, m.(decision := false))
      else if FREE !in l.pending then o == None
      else
        && o.Sent? && o.msg == m && o.link.resv == l.resv + m.rate && o.link.numfl == l.numfl + 1
        && (m.flowid != FREE ==> Waits(l.pending, o.link.pending, m.flowid, 1))
    case ConfirmKind =>
      && o.Sent? && o.msg == m
      && if m.flowid !in l.pending then o.link == l
         else
           && o.link.resv == (if m.decision then l.resv else l.resv - m.rate)
           && o.link.numfl == (if m.decision then l.numfl else l.numfl - 1)
           && (m.flowid != FREE ==> Waits(l.pending, o.link.pending, m.flowid, -1))
    case TeardownKind => o == Sent(Link(l.resv - m.rate, l.pending, l.numfl - 1), m)
    case _ => o == Sent(l, m)
  }

  lemma SlotWaits(pending: seq<int>, k: nat, id: int)
    requires k < |pending| && id != FREE
    ensures pending[k] == FREE ==> Waits(pending, pending[k := id], id, 1)
    ensures pending[k] == id ==> Waits(pending, pending[k := FREE], id, -1)
  {
    assert multiset(pending[k := id]) == multiset(pending) - multiset{pending[k]} + multiset{id};
    assert multiset(pending[k := FREE]) == multiset(pending) - multiset{pending[k]} + multiset{FREE};
  }

  lemma RequestLaw(l: Link, limit: real, m: Msg)
    requires m.kind == RequestKind
    ensures Handles(l, limit, m, Passed(l, limit, m))
  {
    if FREE in l.pending && m.flowid != FREE {
      SlotWaits(l.pending, Find(l.pending, FREE), m.flowid);
      hide Waits;
    }
  }

  lemma ConfirmLaw(l: Link, limit: real, m: Msg)
    requires m.kind == ConfirmKind
    ensures Handles(l, limit, m, Passed(l, limit, m))
  {
    if m.flowid in l.pending && m.flowid != FREE {
      SlotWaits(l.pending, Find(l.pending, m.flowid), m.flowid);
      hide Waits;
    }
  }

  lemma PassedLaw(l: Link, limit: real, m: Msg)
    ensures Handles(l, limit, m, Passed(l, limit, m))
  {
    match m.kind
    case RequestKind => RequestLaw(l, limit, m);
    case ConfirmKind => ConfirmLaw(l, limit, m);
    case _ =>
  }

  class SALink {
    const adc: ParamAdc
    const pending: array<int>
    var numfl: int

    ghost function View(): Link
      reads this, adc, pending
    {
      Link(adc.resvRate, pending[..], numfl)
    }

    constructor (adc: ParamAdc)
      requires adc.resvRate == 0.0
      ensures this.adc == adc && fresh(pending) && View() == InitialLink(false)
    {
      this.adc := adc;
      pending := new int[NFLOWS](_ => FREE);
      numfl := -1;
    }

    /** The add-trace command. */
    method AddTrace()
      modifies `numfl
      ensures numfl == 0
    {
      numfl := 0;
    }

    method Lookup(flowid: int) returns (i: int)
      ensures i == if flowid in pending[..] then Find(pending[..], flowid) else -1
    {
      i := 0;
      while i < pending.Length
        invariant 0 <= i <= pending.Length
        invariant flowid !in pending[..i]
      {
        if pending[i] == flowid {
          FindIs(pending[..], flowid, i);
          return;
        }
        i := i + 1;
      }
      assert pending[..i] == pending[..];
      i := -1;
    }

    /** The first free slot; without one the simulation exits. */
    method GetNxt() returns (i: int)
      ensures i == if FREE in pending[..] then Find(pending[..], FREE) else -1
    {
      i := Lookup(FREE);
    }

    /** recv() */
    method Recv(m: Msg) returns (exit: bool, out: Msg)
      modifies this, adc, pending
      ensures exit <==> Passed(old(View()), adc.Limit(), m).None?
      ensures !exit ==> Passed(old(View()), adc.Limit(), m) == Sent(View(), out)
    {
      exit, out := false, m;
      match m.kind
      case RequestKind =>
        exit, out := RecvRequest(m);
      case ConfirmKind =>
        RecvConfirm(m);
      case TeardownKind =>
        adc.TeardownAction(m.rate);
        numfl := numfl - 1;
      case _ =>
    }

    method RecvRequest(m: Msg) returns (exit: bool, out: Msg)
      requires m.kind == RequestKind
      modifies this, adc, pending
      ensures exit <==> Passed(old(View()), adc.Limit(), m).None?
      ensures !exit ==> Passed(old(View()), adc.Limit(), m) == Sent(View(), out)
    {
      var decide := adc.AdmitFlow(m.rate);
      out := m.(decision := m.decision && decide);
      if decide {
        var j := GetNxt();
        if j == -1 {
          return true, out;
        }
        pending[j] := m.flowid;
        numfl := numfl + 1;
      }
      exit := false;
    }

    method RecvConfirm(m: Msg)
      modifies this, adc, pending
      ensures View() == ConfirmAt(old(View()), m.flowid, m.rate, m.decision)
    {
      var j := Lookup(m.flowid);
      if j != -1 {
        if !m.decision {
          adc.RejAction(m.rate);
          numfl := numfl - 1;
        }
        pending[j] := -1;
      }
    }
  }

  lemma FindIs(pending: seq<int>, id: int, k: nat)
    requires k < |pending| && pending[k] == id && id !in pending[..k]
    ensures Find(pending, id) == k
  {
    assert forall j | 0 <= j < k :: pending[j] in pending[..k];
  }

  /** The answering agent turns a REQUEST round, with the decision in its header. */
  function Answer(m: Msg): Msg
    requires m.kind == RequestKind
  {
    m.(kind := if m.decision then AcceptKind else RejectKind)
  }

  class SourceAgent {
    const flowid: int
    const rate: real
    var running: bool

    constructor (flowid: int, rate: real)
      ensures this.flowid == flowid && this.rate == rate && !running
    {
      this.flowid, this.rate, running := flowid, rate, false;
    }

    method SendReq() returns (m: Msg)
      ensures m == Msg(RequestKind, flowid, rate, true)
    {
      m := Msg(RequestKind, flowid, rate, true);
    }

    /** An answer goes back as a CONFIRM; the flow runs exactly when it was accepted. */
    method Recv(m: Msg) returns (sends: bool, out: Msg)
      modifies this
      ensures sends <==> m.kind == AcceptKind || m.kind == RejectKind
      ensures out == if sends then Msg(ConfirmKind, m.flowid, m.rate, m.decision) else m
      ensures running == m.decision
    {
      sends, out := false, m;
      if m.kind == AcceptKind || m.kind == RejectKind {
        sends, out := true, m.(kind := ConfirmKind);
      }
      running := m.decision;
    }

    /** stop() */
    method Stop() returns (m: Msg)
      modifies this
      ensures m == Msg(TeardownKind, flowid, rate, true) && !running
    {
      m := Msg(TeardownKind, flowid, rate, true);
      running := false;
    }
  }

  // ----- messages on a path are the steps of the network -----

  /** The message of a flow that is at the next link of its path. */
  ghost function MessageOf(c: Config, n: Net, e: Event): Msg
    requires c.Valid() && Sized(c, n) && Allowed(c, n, e)
  {
    var flow, p := c.flows[e.f], n.flows[e.f];
    match e
    case Request(_) => Msg(RequestKind, flow.id, flow.rate, p.decision)
    case Confirm(_) => Msg(ConfirmKind, flow.id, flow.rate, p.decision)
    case Teardown(_) => Msg(TeardownKind, flow.id, flow.rate, true)
  }

  /** A step of the network is what the link does with the flow's message, and the message that leaves carries
      the decision of the flow; after the last link the answer makes it the CONFIRM. */
  lemma StepIsPassed(c: Config, n: Net, e: Event)
    requires c.Valid() && Inv(c, n) && Allowed(c, n, e)
    ensures var l, n', m := Where(c, n, e), Step(c, n, e), MessageOf(c, n, e);
            Passed(n.links[l], c.limit[l], m) == Sent(n'.links[l], m.(decision := n'.flows[e.f].decision))
  {
  }
}
