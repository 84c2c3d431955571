// What the CLB tunnel's receiving end does, in terms of places in the sending order instead of 16-bit indices and ring
// slots, and what follows for whole runs (uncoded mode, ns-2.35/apps/clb_tunnel.cc).
module ClbWindow {
  import opened Common

  /** The number of indices (MAX_PACKETS_COUNT, equal to MAX_GENERATION). */
  const M: nat := 65536

  /** The largest block whose ring positions are exact. */
  const MAX_K: nat := 10922

  /** A packet given to the local node: by the reorder buffer, or directly because it came too late for it. */
  datatype Handover = InOrder(n: nat) | Late(n: nat)

  /** `base` is the place expected next, `held` the packets that wait in the reorder buffer, by their places there. */
  datatype Window = Window(base: nat, held: map<nat, nat>, os: seq<Handover>, timer: bool)

  /** What becomes of an arrival. Anything but Fine ends the simulation. */
  datatype Fate = Fine | Overflow | Occupied

  datatype Event = Arrival(n: nat) | Expiry

  const Start := Window(0, map[], [], false)

  /** How far index a is ahead of index b, going round. */
  function Ahead(a: int, b: int): (r: int)
    ensures 0 <= r < M
  {
    (a - b + M) % M
  }

  /** How far ahead packet n seems to be: all that its index tells. */
  function Reading(n: nat, base: nat): (r: int)
    ensures 0 <= r < M
  {
    Ahead(n % M, base % M)
  }

  predicate SeemsLate(n: nat, base: nat) {
    Reading(n, base) > M / 2
  }

  function Place(n: nat, base: nat): nat {
    base + Reading(n, base)
  }

  function FateOf(w: Window, n: nat, capacity: nat): Fate {
    if SeemsLate(n, w.base) then Fine
    else if Reading(n, w.base) >= capacity then Overflow
    else if Place(n, w.base) in w.held then Occupied
    else Fine
  }

  function Put(w: Window, n: nat): Window {
    if SeemsLate(n, w.base) then w.(os := w.os + [Late(n)]) else w.(held := w.held[Place(n, w.base) := n])
  }

  function HandOne(w: Window): Window
    requires w.base in w.held
  {
    Window(w.base + 1, w.held - {w.base}, w.os + [InOrder(w.held[w.base])], w.timer)
  }

  /** Hands over from `base` on while there is no gap; the timer runs when something stays behind. */
  function HandOver(w: Window): Window
    decreases |w.held|
  {
    if w.held == map[] then w.(timer := false)
    else if w.base !in w.held then w.(timer := true)
    else HandOver(HandOne(w))
  }

  function Skip(w: Window, left: nat): Window
    decreases left
  {
    if left == 0 then w
    else if w.base in w.held then HandOver(w)
    else Skip(w.(base := w.base + 1), left - 1)
  }

  /** The timer has run out: give up on up to k missing packets. */
  function Expire(w: Window, k: nat): Window {
    var w1 := w.(timer := false);
    if w1.held == map[] then w1
    else if w1.base in w1.held then HandOver(w1)
    else Skip(w1, k)
  }

  // ----- runs -----

  predicate Allowed(w: Window, e: Event, k: nat) {
    match e
    case Arrival(n) => FateOf(w, n, 3 * k) == Fine
    case Expiry => w.timer
  }

  function Step(w: Window, e: Event, k: nat): Window {
    match e
    case Arrival(n) => HandOver(Put(w, n))
    case Expiry => Expire(w, k)
  }

  /** No event makes the simulation exit, and the timer only runs out while it is running. */
  predicate Legal(es: seq<Event>, k: nat)
    decreases |es|, 0
  {
    es == [] || (var front := es[..|es| - 1]; Legal(front, k) && Allowed(After(front, k), es[|es| - 1], k))
  }

  function After(es: seq<Event>, k: nat): Window
    requires Legal(es, k)
    decreases |es|, 1
  {
    if es == [] then Start else Step(After(es[..|es| - 1], k), es[|es| - 1], k)
  }

  // ----- single steps -----

  function From(held: map<nat, nat>, b: nat): map<nat, nat> {
    map p | p in held && p >= b :: held[p]
  }

  /** What is handed over when the places from a to b - 1 are. */
  function Taken(held: map<nat, nat>, a: nat, b: nat): seq<Handover>
    requires a <= b && forall p | a <= p < b :: p in held
  {
    seq(b - a, i requires 0 <= i < b - a => InOrder(held[a + i]))
  }

  ghost predicate Within(w: Window, capacity: nat) {
    forall p | p in w.held :: w.base <= p < w.base + capacity
  }

  lemma TakenFirst(held: map<nat, nat>, a: nat, b: nat)
    requires a < b && forall p | a <= p < b :: p in held
    ensures Taken(held, a, b) == [InOrder(held[a])] + Taken(held - {a}, a + 1, b)
  {
  }

  /** Exactly the packets before the first gap are handed over, in the order of their places. */
  lemma {:induction false} HandOverStopsAtGap(w: Window, capacity: nat)
    requires Within(w, capacity)
    ensures var w' := HandOver(w);
            && w.base <= w'.base && w'.base !in w.held
            && (forall p | w.base <= p < w'.base :: p in w.held)
            && w'.held == From(w.held, w'.base)
            && w'.os == w.os + Taken(w.held, w.base, w'.base)
            && (w'.timer <==> w'.held != map[])
            && Within(w', capacity)
    decreases |w.held|
  {
    if w.base in w.held {
      var next := HandOne(w);
      HandOverStopsAtGap(next, capacity);
      var b := HandOver(next).base;
      forall p | w.base <= p < b ensures p in w.held {
        assert p == w.base || p in next.held;
      }
      TakenFirst(w.held, w.base, b);
      assert From(next.held, b) == From(w.held, b);
    } else {
      assert From(w.held, w.base) == w.held;
    }
  }

  /** Skipping stops at the first packet held, if one of the next `left` places has one; otherwise it goes all the
      way. */
  lemma {:induction false} SkipFinds(w: Window, left: nat, m: nat)
    requires forall p | p in w.held :: w.base <= p
    requires forall p | p in w.held :: m <= p
    requires m in w.held || m == w.base + left
    ensures Skip(w, left) == if m < w.base + left then HandOver(w.(base := m)) else w.(base := w.base + left)
    decreases left
  {
    if left > 0 && w.base !in w.held {
      SkipFinds(w.(base := w.base + 1), left - 1, m);
    }
  }

  ghost predicate Smallest(m: nat, s: set<nat>) {
    m in s && forall n | n in s :: m <= n
  }

  lemma {:induction false} SmallestExists(s: set<nat>) returns (m: nat)
    requires s != {}
    ensures Smallest(m, s)
    decreases |s|
  {
    var x :| x in s;
    m := x;
    if s != {x} {
      assert s == s - {x} + {x};
      var y := SmallestExists(s - {x});
      m := if y < x then y else x;
      assert forall n | n in s :: n == x || n in s - {x};
    }
  }

  /** What running out of the timer does: it hands over from the first place held if that is one of the
      next k, and otherwise gives up on k places, keeps everything and leaves the timer off. */
  lemma ExpiryFinds(w: Window, k: nat, m: nat)
    requires Smallest(m, w.held.Keys) && (forall p | p in w.held :: w.base <= p) && w.base !in w.held
    ensures Expire(w, k) == if m < w.base + k then HandOver(Window(m, w.held, w.os, false))
                            else Window(w.base + k, w.held, w.os, false)
  {
    if m < w.base + k {
      SkipFinds(w.(timer := false), k, m);
    } else {
      SkipFinds(w.(timer := false), k, w.base + k);
    }
  }

  // ----- what every run keeps, with loss, duplicates of any age, reordering and timeouts -----

  function Numbers(os: seq<Handover>): multiset<nat> {
    if os == [] then multiset{} else Numbers(os[..|os| - 1]) + multiset{os[|os| - 1].n}
  }

  function Arrived(es: seq<Event>): multiset<nat> {
    if es == [] then multiset{}
    else Arrived(es[..|es| - 1]) + if es[|es| - 1].Arrival? then multiset{es[|es| - 1].n} else multiset{}
  }

  /** Where packets with this number wait. */
  function Places(held: map<nat, nat>, n: nat): set<nat> {
    set p | p in held && held[p] == n
  }

  /** How often packet n was handed over or waits. */
  function Copies(w: Window, n: nat): nat {
    Numbers(w.os)[n] + |Places(w.held, n)|
  }

  lemma NumbersPush(os: seq<Handover>, h: Handover)
    ensures Numbers(os + [h]) == Numbers(os) + multiset{h.n}
  {
    assert (os + [h])[..|os|] == os;
  }

  lemma OneCopies(w: Window, n: nat)
    requires w.base in w.held
    ensures Copies(HandOne(w), n) == Copies(w, n)
  {
    NumbersPush(w.os, InOrder(w.held[w.base]));
    var rest := w.held - {w.base};
    if w.held[w.base] == n {
      assert Places(w.held, n) == Places(rest, n) + {w.base};
    } else {
      assert Places(w.held, n) == Places(rest, n);
    }
  }

  lemma {:induction false} HandOverCopies(w: Window, n: nat)
    ensures Copies(HandOver(w), n) == Copies(w, n)
    decreases |w.held|
  {
    if w.base in w.held {
      OneCopies(w, n);
      HandOverCopies(HandOne(w), n);
    }
  }

  lemma PlacesPut(held: map<nat, nat>, p: nat, n: nat, m: nat)
    requires p !in held
    ensures |Places(held[p := n], m)| == |Places(held, m)| + (if m == n then 1 else 0)
  {
    if m == n {
      assert Places(held[p := n], m) == Places(held, m) + {p};
    } else {
      assert Places(held[p := n], m) == Places(held, m);
    }
  }

  lemma PutCopies(w: Window, n: nat, m: nat)
    requires SeemsLate(n, w.base) || Place(n, w.base) !in w.held
    ensures Copies(Put(w, n), m) == Copies(w, m) + (if m == n then 1 else 0)
  {
    if SeemsLate(n, w.base) {
      NumbersPush(w.os, Late(n));
    } else {
      PlacesPut(w.held, Place(n, w.base), n, m);
    }
  }

  /** What is held fits the buffer, and while the timer runs the packet expected next is missing. */
  ghost predicate Inv(w: Window, k: nat) {
    Within(w, 3 * k) && (w.timer ==> w.held != map[] && w.base !in w.held)
  }

  /** None of the next k places has a packet. */
  ghost predicate NothingNear(w: Window, k: nat) {
    forall p | p in w.held :: p >= w.base + k
  }

  lemma ArrivalKeeps(w: Window, n: nat, k: nat)
    requires Inv(w, k) && FateOf(w, n, 3 * k) == Fine
    ensures var w' := HandOver(Put(w, n)); Inv(w', k) && (w'.timer <==> w'.held != map[])
    ensures forall m :: Copies(HandOver(Put(w, n)), m) == Copies(w, m) + (if m == n then 1 else 0)
  {
    HandOverStopsAtGap(Put(w, n), 3 * k);
    forall m ensures Copies(HandOver(Put(w, n)), m) == Copies(w, m) + (if m == n then 1 else 0) {
      PutCopies(w, n, m);
      HandOverCopies(Put(w, n), m);
    }
  }

  lemma ExpiryKeeps(w: Window, k: nat)
    requires Inv(w, k) && w.timer
    ensures Inv(Expire(w, k), k) && forall m :: Copies(Expire(w, k), m) == Copies(w, m)
    ensures (Expire(w, k).held != map[] && !Expire(w, k).timer) <==> NothingNear(w, k)
  {
    var p :| p in w.held;
    assert w.held.Keys != {};
    var m := SmallestExists(w.held.Keys);
    ExpiryFinds(w, k, m);
    if m < w.base + k {
      var at := Window(m, w.held, w.os, false);
      HandOverStopsAtGap(at, 3 * k);
      forall n ensures Copies(Expire(w, k), n) == Copies(w, n) {
        HandOverCopies(at, n);
      }
    }
  }

  /** In every run, whatever the network repeats and however late, every arrival is either handed over or held, as often
      as it arrived, and what is held fits the buffer. */
  lemma {:induction false} NothingLost(es: seq<Event>, k: nat)
    requires Legal(es, k)
    ensures Inv(After(es, k), k) && forall n :: Copies(After(es, k), n) == Arrived(es)[n]
    decreases |es|
  {
    if es != [] {
      var front, last := es[..|es| - 1], es[|es| - 1];
      NothingLost(front, k);
      match last
      case Arrival(n) => ArrivalKeeps(After(front, k), n, k);
      case Expiry => ExpiryKeeps(After(front, k), k);
    } else {
      assert forall n :: Places(Start.held, n) == {};
    }
  }

  /** A packet that the network did not duplicate is handed over at most once, whichever way, and not while it waits. */
  lemma AtMostOnce(es: seq<Event>, k: nat, n: nat)
    requires Legal(es, k) && Arrived(es)[n] <= 1
    ensures Numbers(After(es, k).os)[n] + |Places(After(es, k).held, n)| == Arrived(es)[n]
    ensures n in Numbers(After(es, k).os) ==> n !in After(es, k).held.Values
  {
    NothingLost(es, k);
    var held := After(es, k).held;
    if n in held.Values {
      var p :| p in held && held[p] == n;
      assert p in Places(held, n);
    }
  }

  /** Packets wait without a running timer, so that only a further arrival can get them out, exactly
      after an expiry that found nothing at the next k places. */
  lemma StrandedIff(es: seq<Event>, k: nat)
    requires Legal(es, k)
    ensures (After(es, k).held != map[] && !After(es, k).timer)
            <==> (es != [] && es[|es| - 1] == Expiry && NothingNear(After(es[..|es| - 1], k), k))
  {
    if es != [] {
      var front, last := es[..|es| - 1], es[|es| - 1];
      NothingLost(front, k);
      match last
      case Arrival(n) => ArrivalKeeps(After(front, k), n, k);
      case Expiry => ExpiryKeeps(After(front, k), k);
    }
  }

  // ----- when indices are read right -----

  lemma ReadingIs(n: nat, base: nat)
    ensures n >= base ==> Reading(n, base) == (n - base) % M
    ensures n < base ==> Reading(n, base) == if (base - n) % M == 0 then 0 else M - (base - n) % M
  {
    var q, r := n / M, n % M;
    var q', r' := base / M, base % M;
    assert n == q * M + r && base == q' * M + r';
    if n >= base {
      assert n - base == (q - q') * M + (r - r');
      Remainder(q - q', r - r');
    } else {
      assert base - n == (q' - q) * M + (r' - r);
      Remainder(q' - q, r' - r);
    }
  }

  lemma Remainder(q: int, r: int)
    requires -r < M && r < M
    ensures (q * M + r) % M == if r >= 0 then r else r + M
  {
    if r >= 0 {
      assert (q * M + r) / M == q;
    } else {
      assert q * M + r == (q - 1) * M + (r + M);
      assert (q * M + r) / M == q - 1;
    }
  }

  /** The packet is old by less than half the index space (or that and some full rounds), or new by at most half. */
  predicate Recent(n: nat, base: nat) {
    if n < base then 0 < (base - n) % M < M / 2 else n - base <= M / 2
  }

  /** What would become of the packet if its number were known: it goes to the place of that number. */
  function TrueFate(w: Window, n: nat, capacity: nat): Fate {
    if n < w.base then Fine
    else if n >= w.base + capacity then Overflow
    else if n in w.held then Occupied
    else Fine
  }

  function TruePut(w: Window, n: nat): Window {
    if n < w.base then w.(os := w.os + [Late(n)]) else w.(held := w.held[n := n])
  }

  /** A packet that the code takes is taken for what it is if and only if it is recent. */
  lemma ReadRightIff(w: Window, n: nat, k: nat)
    requires k <= MAX_K && FateOf(w, n, 3 * k) == Fine
    ensures TrueFate(w, n, 3 * k) == Fine && Put(w, n) == TruePut(w, n) <==> Recent(n, w.base)
  {
    ReadingIs(n, w.base);
    if n >= w.base && n - w.base <= M / 2 {
      Remainder(0, n - w.base);
    }
    if n < w.base && !SeemsLate(n, w.base) {
      assert Put(w, n).os == w.os && TruePut(w, n).os != w.os;
    }
  }

  /** Every arrival is recent when it comes. */
  ghost predicate AllRecent(es: seq<Event>, k: nat)
    requires Legal(es, k)
    decreases |es|
  {
    es == [] ||
    (var front, last := es[..|es| - 1], es[|es| - 1];
     AllRecent(front, k) && (last.Arrival? ==> Recent(last.n, After(front, k).base)))
  }

  /** The same run with a receiver that knows the numbers. */
  predicate TrueLegal(es: seq<Event>, k: nat)
    decreases |es|, 0
  {
    es == [] ||
    (var front, last := es[..|es| - 1], es[|es| - 1];
     TrueLegal(front, k)
     && if last.Arrival? then TrueFate(TrueAfter(front, k), last.n, 3 * k) == Fine else TrueAfter(front, k).timer)
  }

  function TrueAfter(es: seq<Event>, k: nat): Window
    requires TrueLegal(es, k)
    decreases |es|, 1
  {
    if es == [] then Start
    else
      var w, last := TrueAfter(es[..|es| - 1], k), es[|es| - 1];
      if last.Arrival? then HandOver(TruePut(w, last.n)) else Expire(w, k)
  }

  /** Up to here the code has done what a receiver that knows the numbers does. */
  ghost predicate Follows(es: seq<Event>, k: nat)
    requires Legal(es, k)
    decreases |es|
  {
    TrueLegal(es, k) && After(es, k) == TrueAfter(es, k) && (es == [] || Follows(es[..|es| - 1], k))
  }

  /** A packet more at one place makes a difference to what is handed over or held afterwards. */
  lemma OneMoreShows(w: Window, p: nat, n: nat, os: seq<Handover>, capacity: nat)
    requires Within(w, capacity) && w.base <= p < w.base + capacity && p !in w.held
    ensures HandOver(w.(held := w.held[p := n])) != HandOver(w.(os := os))
  {
    var a0, b0 := w.(held := w.held[p := n]), w.(os := os);
    HandOverStopsAtGap(a0, capacity);
    HandOverStopsAtGap(b0, capacity);
    var a, b := HandOver(a0), HandOver(b0);
    if p < a.base {
      assert b.base <= p;
    } else {
      assert p in a.held;
      assert p !in b.held;
    }
  }

  /** A packet taken for something else leaves its mark. */
  lemma MisreadShows(w: Window, n: nat, k: nat)
    requires k <= MAX_K && Within(w, 3 * k) && FateOf(w, n, 3 * k) == Fine && TrueFate(w, n, 3 * k) == Fine
    requires !Recent(n, w.base)
    ensures HandOver(Put(w, n)) != HandOver(TruePut(w, n))
  {
    ReadingIs(n, w.base);
    assert n < w.base && !SeemsLate(n, w.base);
    OneMoreShows(w, Place(n, w.base), n, w.os + [Late(n)], 3 * k);
  }

  /** Over a whole run the code does what a receiver that knows the numbers does if and only if every arrival is
      recent. */
  lemma {:induction false} FollowsIff(es: seq<Event>, k: nat)
    requires Legal(es, k) && k <= MAX_K
    ensures Follows(es, k) <==> AllRecent(es, k)
    decreases |es|
  {
    if es != [] {
      var front, last := es[..|es| - 1], es[|es| - 1];
      FollowsIff(front, k);
      if last.Arrival? && Follows(front, k) {
        var w := After(front, k);
        NothingLost(front, k);
        ReadRightIff(w, last.n, k);
        if !Recent(last.n, w.base) && TrueFate(w, last.n, 3 * k) == Fine {
          MisreadShows(w, last.n, k);
        }
      }
    }
  }

  // ----- order -----

  ghost predicate Ascending(os: seq<Handover>) {
    forall i, j | 0 <= i < j < |os| && os[i].InOrder? && os[j].InOrder? :: os[i].n < os[j].n
  }

  /** Everything handed over is older than `base`, what the buffer handed over is in sending order, and every packet
      waits at its own place. */
  ghost predicate Ordered(w: Window) {
    && Ascending(w.os)
    && (forall i | 0 <= i < |w.os| :: w.os[i].n < w.base)
    && (forall p | p in w.held :: w.held[p] == p)
  }

  lemma OneOrdered(w: Window)
    requires Ordered(w) && w.base in w.held
    ensures Ordered(HandOne(w))
  {
    var os := HandOne(w).os;
    forall i, j | 0 <= i < j < |os| && os[i].InOrder? && os[j].InOrder? ensures os[i].n < os[j].n {
      assert os[i] == w.os[i] && (j < |w.os| ==> os[j] == w.os[j]);
    }
  }

  lemma {:induction false} HandOverOrdered(w: Window)
    requires Ordered(w)
    ensures Ordered(HandOver(w))
    decreases |w.held|
  {
    if w.base in w.held {
      OneOrdered(w);
      HandOverOrdered(HandOne(w));
    }
  }

  lemma ExpiryOrdered(w: Window, k: nat)
    requires Inv(w, k) && Ordered(w) && w.timer
    ensures Ordered(Expire(w, k))
  {
    var p :| p in w.held;
    assert w.held.Keys != {};
    var m := SmallestExists(w.held.Keys);
    ExpiryFinds(w, k, m);
    if m < w.base + k {
      HandOverOrdered(Window(m, w.held, w.os, false));
    }
  }

  /** In every run whose arrivals are recent the buffer hands packets over in sending order, each at most once. */
  lemma {:induction false} RunIsSafe(es: seq<Event>, k: nat)
    requires Legal(es, k) && k <= MAX_K && AllRecent(es, k)
    ensures Ordered(After(es, k))
    decreases |es|
  {
    if es != [] {
      var front, last := es[..|es| - 1], es[|es| - 1];
      RunIsSafe(front, k);
      NothingLost(front, k);
      match last
      case Arrival(n) =>
        ReadRightIff(After(front, k), n, k);
        HandOverOrdered(TruePut(After(front, k), n));
      case Expiry =>
        ExpiryOrdered(After(front, k), k);
    }
  }

  /** It happens: packet k arrives first, the timer runs out once, and packet k is never handed over although
      it is then the very packet expected. */
  lemma Strands(k: nat)
    requires 1 <= k <= MAX_K
    ensures var es := [Arrival(k), Expiry];
            Legal(es, k) && After(es, k) == Window(k, map[k := k], [], false)
  {
    var es := [Arrival(k), Expiry];
    assert es[..1] == [Arrival(k)];
    assert es[..1][..0] == [];
    ReadingIs(k, 0);
    Remainder(0, k);
    assert Legal([], k) && Legal(es[..1], k);
    var w := After(es[..1], k);
    assert After([], k) == Start && Put(Start, k) == Window(0, map[k := k], [], false);
    assert w == HandOver(Window(0, map[k := k], [], false)) == Window(0, map[k := k], [], true);
    ExpiryFinds(w, k, k);
  }

  // ----- delivery in order, without loss and without timeouts -----

  function Arrivals(ns: seq<nat>): seq<Event> {
    seq(|ns|, i requires 0 <= i < |ns| => Arrival(ns[i]))
  }

  /** The packets from a to b - 1. */
  function Burst(a: nat, b: nat): seq<Handover>
    requires a <= b
  {
    seq(b - a, i requires 0 <= i < b - a => InOrder(a + i))
  }

  /** No packet overtakes one that was sent `capacity` or more places before it. */
  ghost predicate Reordered(ns: seq<nat>, capacity: nat) {
    forall i, m | 0 <= i < |ns| && 0 <= m <= ns[i] - capacity :: m in ns[..i]
  }

  /** Without timeouts `base` is the first packet that has not arrived. */
  ghost predicate Prompt(w: Window, ns: seq<nat>) {
    && w.os == Burst(0, w.base)
    && w.base !in ns && (forall m | 0 <= m < w.base :: m in ns)
    && w.held == Waiting(ns, w.base)
    && (w.timer <==> w.held != map[])
  }

  /** The packets that wait when all in ns have arrived and all before b are through. */
  function Waiting(ns: seq<nat>, b: nat): map<nat, nat> {
    map n | n in ns && n >= b :: n
  }

  lemma WaitingMore(ns: seq<nat>, n: nat, b: nat, b': nat)
    requires b <= b' && n >= b
    ensures From(Waiting(ns, b)[n := n], b') == Waiting(ns + [n], b')
  {
  }

  lemma TakenIsBurst(held: map<nat, nat>, a: nat, b: nat)
    requires a <= b && forall p | a <= p < b :: p in held && held[p] == p
    ensures Burst(0, a) + Taken(held, a, b) == Burst(0, b)
  {
  }

  lemma PromptArrival(w: Window, ns: seq<nat>, n: nat, k: nat)
    requires Prompt(w, ns) && n !in ns && Within(w, 3 * k) && k <= MAX_K
    requires FateOf(w, n, 3 * k) == Fine && Recent(n, w.base)
    ensures Prompt(HandOver(Put(w, n)), ns + [n]) && Within(HandOver(Put(w, n)), 3 * k)
  {
    assert n >= w.base;
    ReadRightIff(w, n, k);
    PromptHandOver(Put(w, n), w, ns, n, k);
  }

  lemma PromptHandOver(put: Window, w: Window, ns: seq<nat>, n: nat, k: nat)
    requires Prompt(w, ns) && n !in ns && n >= w.base && put == w.(held := w.held[n := n]) && Within(put, 3 * k)
    ensures Prompt(HandOver(put), ns + [n]) && Within(HandOver(put), 3 * k)
  {
    HandOverStopsAtGap(put, 3 * k);
    var b := HandOver(put).base;
    WaitingMore(ns, n, w.base, b);
    TakenIsBurst(put.held, w.base, b);
    forall m | 0 <= m < b ensures m in ns + [n] {
      assert m < w.base || m in put.held;
    }
  }

  lemma ArrivalsFront(ns: seq<nat>)
    requires ns != []
    ensures Arrivals(ns)[..|ns| - 1] == Arrivals(ns[..|ns| - 1])
  {
  }

  lemma {:induction false} PromptRun(ns: seq<nat>, k: nat)
    requires Distinct(ns) && Legal(Arrivals(ns), k) && k <= MAX_K && AllRecent(Arrivals(ns), k)
    ensures Prompt(After(Arrivals(ns), k), ns) && Within(After(Arrivals(ns), k), 3 * k)
  {
    if ns == [] {
      assert Arrivals(ns) == [];
    } else {
      var front, n := ns[..|ns| - 1], ns[|ns| - 1];
      ArrivalsFront(ns);
      PromptRun(front, k);
      PromptArrival(After(Arrivals(front), k), front, n, k);
      assert front + [n] == ns;
    }
  }

  lemma ReorderedFront(ns: seq<nat>, capacity: nat)
    requires ns != []
    ensures Reordered(ns, capacity) <==>
            Reordered(ns[..|ns| - 1], capacity) && AllBefore(ns[..|ns| - 1], ns[|ns| - 1], capacity)
  {
    var front := ns[..|ns| - 1];
    assert forall i | 0 <= i < |front| :: ns[i] == front[i] && ns[..i] == front[..i];
    if Reordered(ns, capacity) {
      forall m | 0 <= m <= ns[|ns| - 1] - capacity ensures m in front {
        assert m in ns[..|ns| - 1];
      }
    }
  }

  ghost predicate AllBefore(front: seq<nat>, n: nat, capacity: nat) {
    forall m | 0 <= m <= n - capacity :: m in front
  }

  /** Packets that arrive once each are all read right and never make the simulation exit, exactly when the network
      reorders within the capacity of the buffer. */
  lemma {:induction false} NeverExitsIff(ns: seq<nat>, k: nat)
    requires Distinct(ns) && k <= MAX_K
    ensures Legal(Arrivals(ns), k) && AllRecent(Arrivals(ns), k) <==> Reordered(ns, 3 * k)
  {
    if ns == [] {
      assert Arrivals(ns) == [];
    } else {
      var front, n := ns[..|ns| - 1], ns[|ns| - 1];
      ArrivalsFront(ns);
      NeverExitsIff(front, k);
      ReorderedFront(ns, 3 * k);
      if Legal(Arrivals(front), k) && AllRecent(Arrivals(front), k) {
        PromptRun(front, k);
        LastFits(After(Arrivals(front), k), front, n, k);
      }
    }
  }

  lemma LastFits(w: Window, front: seq<nat>, n: nat, k: nat)
    requires Prompt(w, front) && n !in front && k <= MAX_K
    ensures FateOf(w, n, 3 * k) == Fine && Recent(n, w.base) <==> n < w.base + 3 * k
    ensures n < w.base + 3 * k <==> AllBefore(front, n, 3 * k)
  {
    assert n >= w.base;
    ReadingIs(n, w.base);
    if n - w.base <= M / 2 {
      Remainder(0, n - w.base);
    }
    if n >= w.base + 3 * k {
      assert 0 <= w.base <= n - 3 * k && w.base !in front;
    }
  }

  /** Without timeouts no packet is out of date when it arrives: each falls within the capacity from the
      packet expected, where the wrapping indices cannot be misread. */
  lemma {:induction false} NeverOutOfDate(ns: seq<nat>, k: nat, i: nat)
    requires Distinct(ns) && Reordered(ns, 3 * k) && k <= MAX_K && i < |ns|
    ensures Legal(Arrivals(ns[..i]), k)
            && var b := After(Arrivals(ns[..i]), k).base; b <= ns[i] < b + 3 * k
  {
    var before := ns[..i];
    assert forall j | 0 <= j < i :: before[j] == ns[j] && before[..j] == ns[..j];
    NeverExitsIff(before, k);
    PromptRun(before, k);
    assert ns[i] !in before;
  }

  /** If moreover all packets up to some point arrive, they are handed over in exactly the sender's order,
      and nothing is left. */
  lemma DeliversInOrder(ns: seq<nat>, k: nat)
    requires Distinct(ns) && Reordered(ns, 3 * k) && k <= MAX_K
    requires forall n: nat :: n in ns <==> n < |ns|
    ensures Legal(Arrivals(ns), k) && After(Arrivals(ns), k) == Window(|ns|, map[], Burst(0, |ns|), false)
  {
    NeverExitsIff(ns, k);
    PromptRun(ns, k);
    var w := After(Arrivals(ns), k);
    assert w.base !in ns && |ns| !in ns;
    assert w.held == map[];
  }

  // ----- what a packet that is too old does -----

  /** The packets before n, in order. */
  function Upto(n: nat): seq<Event> {
    seq(n, i requires 0 <= i < n => Arrival(i))
  }

  lemma LegalPush(es: seq<Event>, e: Event, k: nat)
    requires Legal(es, k) && Allowed(After(es, k), e, k)
    ensures Legal(es + [e], k) && After(es + [e], k) == Step(After(es, k), e, k)
  {
    assert (es + [e])[..|es|] == es;
  }

  /** The next packet goes straight through. */
  lemma Straight(w: Window, k: nat)
    requires k >= 1 && w.held == map[] && !w.timer
    ensures FateOf(w, w.base, 3 * k) == Fine
    ensures HandOver(Put(w, w.base)) == Window(w.base + 1, map[], w.os + [InOrder(w.base)], false)
  {
    ReadingIs(w.base, w.base);
    assert Put(w, w.base).held == map[w.base := w.base];
    assert HandOne(Put(w, w.base)).held == map[];
  }

  lemma {:induction false} InSequence(n: nat, k: nat)
    requires k >= 1
    ensures Legal(Upto(n), k) && After(Upto(n), k) == Window(n, map[], Burst(0, n), false)
  {
    if n == 0 {
      assert Upto(0) == [];
    } else {
      InSequence(n - 1, k);
      var w := After(Upto(n - 1), k);
      Straight(w, k);
      LegalPush(Upto(n - 1), Arrival(n - 1), k);
      assert Upto(n) == Upto(n - 1) + [Arrival(n - 1)];
      assert Burst(0, n) == Burst(0, n - 1) + [InOrder(n - 1)];
    }
  }

  /** The run: all packets but the last of a round of indices, once more packet 0, and the last one. */
  function TooOld(): seq<Event> {
    Upto(M - 1) + [Arrival(0)] + [Arrival(M - 1)]
  }

  /** Packet 0 waits for the place of packet 65536. */
  lemma OldWaits(k: nat)
    requires k >= 1
    ensures Legal(Upto(M - 1) + [Arrival(0)], k)
    ensures After(Upto(M - 1) + [Arrival(0)], k) == Window(M - 1, map[M := 0], Burst(0, M - 1), true)
  {
    InSequence(M - 1, k);
    var w := After(Upto(M - 1), k);
    ReadingIs(0, M - 1);
    assert Put(w, 0) == Window(M - 1, map[M := 0], Burst(0, M - 1), false);
    LegalPush(Upto(M - 1), Arrival(0), k);
  }

  lemma BothPass(base: nat, n: nat, os: seq<Handover>, timer: bool)
    ensures HandOver(Window(base, map[base + 1 := n, base := base], os, timer)) ==
            Window(base + 2, map[], os + [InOrder(base)] + [InOrder(n)], false)
  {
    var w := Window(base, map[base + 1 := n, base := base], os, timer);
    var w1 := HandOne(w);
    assert w1 == Window(base + 1, map[base + 1 := n], os + [InOrder(base)], timer);
    var w2 := HandOne(w1);
    assert w2 == Window(base + 2, map[], os + [InOrder(base)] + [InOrder(n)], timer);
    assert HandOver(w2) == w2.(timer := false);
    assert HandOver(w1) == HandOver(w2);
  }

  /** A duplicate of packet 0 that comes so late is handed over again, and in sequence, behind packet 65535: the code
      has no way to tell it from packet 65536. */
  lemma TooOldIsMisread(k: nat)
    requires 1 <= k <= MAX_K
    ensures Legal(TooOld(), k) && !AllRecent(TooOld(), k)
    ensures After(TooOld(), k) == Window(M + 1, map[], Burst(0, M) + [InOrder(0)], false)
    ensures !Ascending(After(TooOld(), k).os)
  {
    var es := Upto(M - 1) + [Arrival(0)];
    OldWaits(k);
    ReadingIs(M - 1, M - 1);
    LegalPush(es, Arrival(M - 1), k);
    BothPass(M - 1, 0, Burst(0, M - 1), true);
    assert Burst(0, M) == Burst(0, M - 1) + [InOrder(M - 1)];
    NotRecent(k);
    var os := Burst(0, M) + [InOrder(0)];
    assert os[1] == InOrder(1) && os[M] == InOrder(0);
  }

  lemma NotRecent(k: nat)
    requires k >= 1 && Legal(TooOld(), k)
    ensures !AllRecent(TooOld(), k)
  {
    var es := Upto(M - 1) + [Arrival(0)];
    assert TooOld()[..|es|] == es && es[..M - 1] == Upto(M - 1);
    InSequence(M - 1, k);
    assert es[M - 1] == Arrival(0) && !Recent(0, M - 1);
  }
}
