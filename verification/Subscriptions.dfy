/** Delivering events to subscribers, and why an idempotent subscriber's work is committed at most once. */
module Subscriptions {
  import opened Wrappers
  import opened Json
  import opened Transactions

  datatype Subscription = Subscription(name: string, idempotent: bool, handler: Json -> Prog)

  datatype Delivery = Delivery(event: Event, sub: Subscription)

  // ----- marker keys -----

  const PREFIX := "_chimpbase.sub.seen:"

  function Digit(d: int): char
    requires 0 <= d <= 9
  {
    "0123456789"[d]
  }

  /** Decimal text of an id. */
  function Decimal(n: nat): string {
    if n < 10 then [Digit(n)] else Decimal(n / 10) + [Digit(n % 10)]
  }

  function MarkerKey(id: nat, name: string): string {
    PREFIX + Decimal(id) + ":" + name
  }

  predicate IsMarker(key: string) {
    PREFIX <= key
  }

  lemma {:induction false} DecimalHasNoColon(n: nat)
    ensures ':' !in Decimal(n) && Decimal(n) != ""
  {
    if n >= 10 { DecimalHasNoColon(n / 10); }
  }

  /** The number a decimal text reads as. */
  function Reads(s: string): int {
    if s == "" then 0 else Reads(s[..|s| - 1]) * 10 + (s[|s| - 1] as int - '0' as int)
  }

  lemma {:induction false} DecimalReads(n: nat)
    ensures Reads(Decimal(n)) == n
  {
    if n < 10 {
      assert Reads([Digit(n)][..0]) == 0;
    } else {
      DecimalReads(n / 10);
      assert Decimal(n)[..|Decimal(n)| - 1] == Decimal(n / 10);
    }
  }

  lemma DecimalInjective(m: nat, n: nat)
    requires Decimal(m) == Decimal(n)
    ensures m == n
  {
    DecimalReads(m);
    DecimalReads(n);
  }

  /** The first colon is where the colon-free part ends. */
  lemma ColonComesLast(s: string, a: string, rest: string, k: nat)
    requires s == a + ":" + rest && k < |s| && s[k] == ':' && ':' !in a
    ensures |a| <= k
  {
    forall i | 0 <= i < |a| ensures s[i] != ':' { assert s[i] in a; }
  }

  lemma SplitAtColon(a: string, b: string, restA: string, restB: string)
    requires ':' !in a && ':' !in b && a + ":" + restA == b + ":" + restB
    ensures a == b && restA == restB
  {
    var s := a + ":" + restA;
    assert s[|a|] == ':' && s[|b|] == ':';
    ColonComesLast(s, a, restA, |b|);
    ColonComesLast(s, b, restB, |a|);
    assert s[..|a|] == a && s[..|b|] == b;
    assert s[|a| + 1..] == restA && s[|b| + 1..] == restB;
  }

  /** No two pairs of event and subscriber share a marker, even if names contain colons or digits. */
  lemma MarkerKeyInjective(id1: nat, name1: string, id2: nat, name2: string)
    requires MarkerKey(id1, name1) == MarkerKey(id2, name2)
    ensures id1 == id2 && name1 == name2
  {
    var n := |PREFIX|;
    assert MarkerKey(id1, name1)[n..] == Decimal(id1) + ":" + name1;
    assert MarkerKey(id2, name2)[n..] == Decimal(id2) + ":" + name2;
    DecimalHasNoColon(id1);
    DecimalHasNoColon(id2);
    SplitAtColon(Decimal(id1), Decimal(id2), name1, name2);
    DecimalInjective(id1, id2);
  }

  // ----- delivery as a program -----

  predicate Guarded(d: Delivery) {
    d.sub.idempotent && d.event.id.Some?
  }

  function KeyOf(d: Delivery): string
    requires Guarded(d)
  {
    MarkerKey(d.event.id.value, d.sub.name)
  }

  /** What the transaction of one delivery does. */
  function Body(d: Delivery): Prog {
    if Guarded(d)
    then IfSet(KeyOf(d), Skip, Then(d.sub.handler(d.event.payload), Write(KeyOf(d), Bool(true))))
    else d.sub.handler(d.event.payload)
  }

  /** Deliveries one after the other, each in a transaction of its own or in the one already open. */
  function DispatchProg(ds: seq<Delivery>): Prog {
    if ds == [] then Skip else Then(Call(Body(ds[0])), DispatchProg(ds[1..]))
  }

  function DeliveriesOf(event: Event, subs: seq<Subscription>): (ds: seq<Delivery>)
    ensures |ds| == |subs| && forall i :: 0 <= i < |subs| ==> ds[i] == Delivery(event, subs[i])
  {
    seq(|subs|, i requires 0 <= i < |subs| => Delivery(event, subs[i]))
  }

  function Subscribers(registry: map<string, seq<Subscription>>, name: string): seq<Subscription> {
    if name in registry then registry[name] else []
  }

  function AllDeliveries(registry: map<string, seq<Subscription>>, events: seq<Event>): seq<Delivery> {
    if events == [] then []
    else DeliveriesOf(events[0], Subscribers(registry, events[0].name)) + AllDeliveries(registry, events[1..])
  }

  lemma {:induction false} DispatchAppend(faults: nat -> Fault, a: seq<Delivery>, b: seq<Delivery>, w: World)
    ensures Exec(faults, DispatchProg(a + b), w) == Exec(faults, Then(DispatchProg(a), DispatchProg(b)), w)
    decreases |a|
  {
    if a == [] {
      assert a + b == b;
    } else {
      assert (a + b)[1..] == a[1..] + b;
      DispatchAppend(faults, a[1..], b, Exec(faults, Call(Body(a[0])), w).1);
    }
  }

  /** The dispatch loops of the engine; true means a handler threw and the rest was not delivered. */
  method DispatchSubscriptions(engine: Engine, registry: map<string, seq<Subscription>>, events: seq<Event>)
    returns (threw: bool)
    modifies engine
    ensures Exec(engine.faults, DispatchProg(AllDeliveries(registry, events)), old(engine.State()))
         == (if threw then Thrown else Done, engine.State())
  {
    ghost var start := engine.State();
    ghost var all := AllDeliveries(registry, events);
    for i := 0 to |events|
      invariant Exec(engine.faults, DispatchProg(all), start)
             == Exec(engine.faults, DispatchProg(AllDeliveries(registry, events[i..])), engine.State())
    {
      var subs := Subscribers(registry, events[i].name);
      ghost var here := DeliveriesOf(events[i], subs);
      ghost var later := AllDeliveries(registry, events[i + 1..]);
      assert events[i..][1..] == events[i + 1..];
      assert AllDeliveries(registry, events[i..]) == here + later;
      for k := 0 to |subs|
        invariant Exec(engine.faults, DispatchProg(all), start)
               == Exec(engine.faults, DispatchProg(here[k..] + later), engine.State())
      {
        ghost var before := engine.State();
        assert (here[k..] + later)[0] == here[k] && (here[k..] + later)[1..] == here[k + 1..] + later;
        threw := engine.RunInTransaction(Body(Delivery(events[i], subs[k])));
        DispatchOne(engine.faults, here[k..] + later, before);
        if threw { return; }
      }
      assert here[|subs|..] + later == later;
    }
    assert events[|events|..] == [];
    threw := false;
  }

  lemma DispatchOne(faults: nat -> Fault, ds: seq<Delivery>, w: World)
    requires ds != []
    ensures var (flow, w1) := Exec(faults, Call(Body(ds[0])), w);
      Exec(faults, DispatchProg(ds), w)
        == if flow.Thrown? then (Thrown, w1) else Exec(faults, DispatchProg(ds[1..]), w1)
  {
  }

  // ----- what is delivered, in which order -----

  /** How many subscribers the events have. */
  function Total(registry: map<string, seq<Subscription>>, events: seq<Event>): nat {
    if events == [] then 0
    else
      var name := events[|events| - 1].name;
      Total(registry, events[..|events| - 1]) + if name in registry then |registry[name]| else 0
  }

  lemma {:induction false} TotalFirst(registry: map<string, seq<Subscription>>, events: seq<Event>)
    requires events != []
    ensures Total(registry, events)
         == (if events[0].name in registry then |registry[events[0].name]| else 0) + Total(registry, events[1..])
  {
    if |events| > 1 {
      assert events[..|events| - 1][1..] == events[1..][..|events| - 2];
      TotalFirst(registry, events[..|events| - 1]);
    }
  }

  lemma {:induction false} DeliveriesCount(registry: map<string, seq<Subscription>>, events: seq<Event>)
    ensures |AllDeliveries(registry, events)| == Total(registry, events)
  {
    if events != [] {
      DeliveriesCount(registry, events[1..]);
      TotalFirst(registry, events);
    }
  }

  /** Event by event, and for each its subscribers in the order in which they were registered; nothing else. */
  lemma {:induction false} DeliveriesInOrder(registry: map<string, seq<Subscription>>, events: seq<Event>, i: nat, k: nat)
    requires i < |events| && events[i].name in registry && k < |registry[events[i].name]|
    ensures var at := Total(registry, events[..i]) + k;
      && at < |AllDeliveries(registry, events)| == Total(registry, events)
      && AllDeliveries(registry, events)[at] == Delivery(events[i], registry[events[i].name][k])
    decreases |events|
  {
    hide AllDeliveries;
    DeliveriesCount(registry, events);
    if i == 0 {
      assert Total(registry, events[..0]) == 0;
      FirstDelivery(registry, events, k);
    } else {
      TotalFirst(registry, events[..i]);
      hide Total;
      assert events[..i][1..] == events[1..][..i - 1] && events[..i][0] == events[0];
      DeliveriesInOrder(registry, events[1..], i - 1, k);
      LaterDelivery(registry, events, Total(registry, events[1..][..i - 1]) + k);
    }
  }

  lemma FirstDelivery(registry: map<string, seq<Subscription>>, events: seq<Event>, k: nat)
    requires events != [] && events[0].name in registry && k < |registry[events[0].name]|
    ensures k < |AllDeliveries(registry, events)|
    ensures AllDeliveries(registry, events)[k] == Delivery(events[0], registry[events[0].name][k])
  {
  }

  lemma LaterDelivery(registry: map<string, seq<Subscription>>, events: seq<Event>, at: nat)
    requires events != [] && at < |AllDeliveries(registry, events[1..])|
    ensures var n := if events[0].name in registry then |registry[events[0].name]| else 0;
      && n + at < |AllDeliveries(registry, events)|
      && AllDeliveries(registry, events)[n + at] == AllDeliveries(registry, events[1..])[at]
  {
  }

  /** The states of a dispatch: one root transaction for each delivery in turn, all but the last of them successful. */
  ghost predicate OneByOne(faults: nat -> Fault, ds: seq<Delivery>, states: seq<Durable>) {
    && 1 <= |states| <= |ds| + 1
    && (forall i :: 0 <= i < |states| - 1 ==> states[i + 1] == RootCall(faults, Body(ds[i]), states[i]).1)
    && (forall i :: 0 <= i < |states| - 2 ==> RootCall(faults, Body(ds[i]), states[i]).0.Done?)
  }

  /** A dispatch outside of transactions delivers one after the other, and stops after the first delivery that throws. */
  lemma {:induction false} DispatchStates(faults: nat -> Fault, ds: seq<Delivery>, d: Durable) returns (states: seq<Durable>)
    ensures OneByOne(faults, ds, states) && states[0] == d
    ensures var n := |states| - 1;
      var (flow, after) := Outside(faults, DispatchProg(ds), d);
      && after == states[n]
      && (flow.Done? ==> n == |ds|) && (n < |ds| ==> n > 0)
      && (n > 0 ==> (flow.Done? <==> RootCall(faults, Body(ds[n - 1]), states[n - 1]).0.Done?))
    decreases |ds|
  {
    hide RootCall;
    hide Body;
    if ds == [] {
      states := [d];
    } else {
      var (flow, d1) := RootCall(faults, Body(ds[0]), d);
      if flow.Thrown? {
        states := [d, d1];
      } else {
        var more := DispatchStates(faults, ds[1..], d1);
        states := [d] + more;
        assert forall i :: 1 <= i < |states| ==> states[i] == more[i - 1];
        assert forall i :: 1 <= i < |ds| ==> ds[i] == ds[1..][i - 1];
      }
    }
  }

  /**
   What one delivery does. A subscriber that is not idempotent, or an event without an id, gets the handler and
   nothing but the handler. Otherwise the handler is skipped where its marker is set, and sets it if it finishes.
   */
  lemma DeliveryExactly(d: Delivery, kv: map<string, Json>)
    ensures var handled := Inside(d.sub.handler(d.event.payload), kv);
      Inside(Body(d), kv) ==
        if !d.sub.idempotent || d.event.id.None? then handled
        else
          var key := "_chimpbase.sub.seen:" + Decimal(d.event.id.value) + ":" + d.sub.name;
          if IsSet(kv, key) then (Done, kv, [])
          else if handled.0.Thrown? then handled
          else (Done, handled.1[key := Bool(true)], handled.2)
  {
    var p := d.sub.handler(d.event.payload);
    if Guarded(d) && !IsSet(kv, KeyOf(d)) {
      var mark := Write(KeyOf(d), Bool(true));
      assert Inside(Body(d), kv) == Inside(Then(p, mark), kv);
      assert Inside(mark, Inside(p, kv).1) == (Done, Inside(p, kv).1[KeyOf(d) := Bool(true)], []);
      assert Inside(p, kv).2 + [] == Inside(p, kv).2;
    }
  }

  // ----- handlers do not tamper with markers -----

  predicate LeavesMarkers(p: Prog) {
    match p
    case Write(key, _) => !IsMarker(key)
    case IfSet(_, yes, no) => LeavesMarkers(yes) && LeavesMarkers(no)
    case Then(first, second) => LeavesMarkers(first) && LeavesMarkers(second)
    case Attempt(body, onError) => LeavesMarkers(body) && LeavesMarkers(onError)
    case Call(body) => LeavesMarkers(body)
    case _ => true
  }

  predicate Behaves(d: Delivery) {
    LeavesMarkers(d.sub.handler(d.event.payload))
  }

  ghost predicate SameMarkers(a: map<string, Json>, b: map<string, Json>) {
    forall key :: IsMarker(key) ==> (IsSet(a, key) <==> IsSet(b, key))
  }

  lemma {:induction false} MarkersStay(p: Prog, kv: map<string, Json>)
    requires LeavesMarkers(p)
    ensures SameMarkers(kv, Inside(p, kv).1)
  {
    match p
    case IfSet(_, yes, no) =>
      MarkersStay(yes, kv);
      MarkersStay(no, kv);
    case Then(first, second) =>
      MarkersStay(first, kv);
      MarkersStay(second, Inside(first, kv).1);
    case Attempt(body, onError) =>
      MarkersStay(body, kv);
      MarkersStay(onError, Inside(body, kv).1);
    case Call(body) =>
      MarkersStay(body, kv);
    case _ =>
  }

  lemma {:induction false} MarkersStayOutside(faults: nat -> Fault, p: Prog, d: Durable)
    requires LeavesMarkers(p)
    ensures SameMarkers(d.tables.kv, Outside(faults, p, d).1.tables.kv)
  {
    match p
    case IfSet(_, yes, no) =>
      MarkersStayOutside(faults, yes, d);
      MarkersStayOutside(faults, no, d);
    case Then(first, second) =>
      MarkersStayOutside(faults, first, d);
      MarkersStayOutside(faults, second, Outside(faults, first, d).1);
    case Attempt(body, onError) =>
      MarkersStayOutside(faults, body, d);
      MarkersStayOutside(faults, onError, Outside(faults, body, d).1);
    case Call(body) =>
      MarkersStay(body, d.tables.kv);
    case _ =>
  }

  // ----- which handlers a transaction ran -----

  function PairOf(d: Delivery): (nat, string)
    requires Guarded(d)
  {
    (d.event.id.value, d.sub.name)
  }

  /** The guarded handlers that a transaction over these deliveries runs, in order. */
  function Ran(ds: seq<Delivery>, kv: map<string, Json>): seq<(nat, string)> {
    if ds == [] then []
    else
      var d := ds[0];
      var own := if Guarded(d) && !IsSet(kv, KeyOf(d)) then [PairOf(d)] else [];
      var (flow, kv1, _) := Inside(Body(d), kv);
      if flow.Thrown? then own else own + Ran(ds[1..], kv1)
  }

  ghost predicate NoDuplicates(log: seq<(nat, string)>) {
    forall i, j :: 0 <= i < j < |log| ==> log[i] != log[j]
  }

  predicate Marked(kv: map<string, Json>, x: (nat, string)) {
    IsSet(kv, MarkerKey(x.0, x.1))
  }

  /** One delivery marks its own pair, and no other. */
  lemma DeliveryMarks(d: Delivery, kv: map<string, Json>)
    requires Behaves(d) && Inside(Body(d), kv).0.Done?
    ensures forall x ::
      Marked(Inside(Body(d), kv).1, x) <==> Marked(kv, x) || (Guarded(d) && x == PairOf(d))
  {
    hide Inside;
    hide Body;
    var p := d.sub.handler(d.event.payload);
    MarkersStay(p, kv);
    DeliveryExactly(d, kv);
    forall x
      ensures Marked(Inside(Body(d), kv).1, x) <==> Marked(kv, x) || (Guarded(d) && x == PairOf(d))
    {
      MarkersAfter(d, kv, Inside(p, kv).1, x);
    }
  }

  lemma MarkersAfter(d: Delivery, kv: map<string, Json>, handled: map<string, Json>, x: (nat, string))
    requires SameMarkers(kv, handled)
    ensures var after :=
        if !Guarded(d) then handled else if IsSet(kv, KeyOf(d)) then kv else handled[KeyOf(d) := Bool(true)];
      Marked(after, x) <==> Marked(kv, x) || (Guarded(d) && x == PairOf(d))
  {
    assert IsMarker(MarkerKey(x.0, x.1));
    if Guarded(d) && MarkerKey(x.0, x.1) == KeyOf(d) {
      MarkerKeyInjective(x.0, x.1, d.event.id.value, d.sub.name);
    }
  }

  lemma NoDuplicatesAppend(a: seq<(nat, string)>, b: seq<(nat, string)>)
    requires NoDuplicates(a) && NoDuplicates(b) && forall x :: x in b ==> x !in a
    ensures NoDuplicates(a + b)
  {
    var s := a + b;
    forall i, j | 0 <= i < j < |s| ensures s[i] != s[j] {
      if i < |a| <= j { assert s[i] in a && s[j] in b; }
    }
  }

  /** A transaction that finishes ran each pair at most once, only unmarked ones, and marked what it ran. */
  lemma {:induction false} TransactionMarks(ds: seq<Delivery>, kv: map<string, Json>)
    requires forall d :: d in ds ==> Behaves(d)
    requires Inside(DispatchProg(ds), kv).0.Done?
    ensures var ran := Ran(ds, kv);
      && NoDuplicates(ran) && (forall x :: x in ran ==> !Marked(kv, x))
      && (forall x :: Marked(Inside(DispatchProg(ds), kv).1, x) <==> Marked(kv, x) || x in ran)
    decreases |ds|
  {
    if ds != [] {
      var d := ds[0];
      assert d in ds;
      var (_, kv1, _) := Inside(Body(d), kv);
      DeliveryMarks(d, kv);
      TransactionMarks(ds[1..], kv1);
      var own := if Guarded(d) && !IsSet(kv, KeyOf(d)) then [PairOf(d)] else [];
      NoDuplicatesAppend(own, Ran(ds[1..], kv1));
    }
  }

  /** Two subscribers of one name on one event share a marker: once the first was delivered, the second is never run. */
  lemma SameNameIsSkipped(first: Delivery, second: Delivery, kv: map<string, Json>)
    requires Guarded(first) && Guarded(second) && PairOf(first) == PairOf(second)
    requires Behaves(first) && Inside(Body(first), kv).0.Done?
    ensures var after := Inside(Body(first), kv).1; Inside(Body(second), after) == (Done, after, [])
  {
    DeliveryMarks(first, kv);
    assert Marked(Inside(Body(first), kv).1, PairOf(first));
  }

  // ----- over any history of deliveries -----

  /** `log` records every guarded handler whose effects were committed. */
  datatype History = History(d: Durable, log: seq<(nat, string)>)

  datatype Step =
    | Deliver(batch: seq<Delivery>)
    | Other(code: Prog)

  /** A batch is one root transaction: a single delivery, or all deliveries of one queued dispatch job. */
  ghost predicate Legal(step: Step) {
    match step
    case Deliver(batch) => forall d :: d in batch ==> Behaves(d)
    case Other(code) => LeavesMarkers(code)
  }

  function Apply(faults: nat -> Fault, h: History, step: Step): History {
    match step
    case Other(code) => h.(d := Outside(faults, code, h.d).1)
    case Deliver(batch) =>
      var (_, after) := RootCall(faults, DispatchProg(batch), h.d);
      var kept := Inside(DispatchProg(batch), h.d.tables.kv).0.Done? && !faults(h.d.roots).CommitFails?;
      History(after, if kept then h.log + Ran(batch, h.d.tables.kv) else h.log)
  }

  /** Handlers committed so far and markers in the table are the same pairs, each handler once. */
  ghost predicate LogMatchesMarkers(h: History) {
    NoDuplicates(h.log) && forall x :: x in h.log <==> Marked(h.d.tables.kv, x)
  }

  lemma StepKeepsMatch(faults: nat -> Fault, h: History, step: Step)
    requires LogMatchesMarkers(h) && Legal(step)
    ensures LogMatchesMarkers(Apply(faults, h, step))
  {
    match step
    case Other(code) =>
      MarkersStayOutside(faults, code, h.d);
      forall x ensures Marked(Outside(faults, code, h.d).1.tables.kv, x) <==> Marked(h.d.tables.kv, x) {
        assert IsMarker(MarkerKey(x.0, x.1));
      }
    case Deliver(batch) =>
      RootCallKeeps(faults, DispatchProg(batch), h.d);
      if Inside(DispatchProg(batch), h.d.tables.kv).0.Done? {
        TransactionMarks(batch, h.d.tables.kv);
        NoDuplicatesAppend(h.log, Ran(batch, h.d.tables.kv));
      }
  }

  function RunSteps(faults: nat -> Fault, h: History, steps: seq<Step>): History
    decreases |steps|
  {
    if steps == [] then h else RunSteps(faults, Apply(faults, h, steps[0]), steps[1..])
  }

  /**
   Over any sequence of deliveries, re-deliveries and failures, the work of an idempotent subscriber
   on an event is committed at most once, and exactly when its marker is.
   */
  lemma {:induction false} CommittedAtMostOnce(faults: nat -> Fault, h: History, steps: seq<Step>)
    requires LogMatchesMarkers(h) && forall step :: step in steps ==> Legal(step)
    ensures LogMatchesMarkers(RunSteps(faults, h, steps))
    decreases |steps|
  {
    if steps != [] {
      assert steps[0] in steps;
      StepKeepsMatch(faults, h, steps[0]);
      CommittedAtMostOnce(faults, Apply(faults, h, steps[0]), steps[1..]);
    }
  }

  /** A guarded delivery whose transaction was kept has committed its work, now or before. */
  lemma DeliveredMeansCommitted(faults: nat -> Fault, h: History, d: Delivery)
    requires LogMatchesMarkers(h) && Guarded(d) && Behaves(d)
    requires RootCall(faults, DispatchProg([d]), h.d).0.Done?
    ensures PairOf(d) in Apply(faults, h, Deliver([d])).log
  {
    var step := Deliver([d]);
    assert Legal(step);
    StepKeepsMatch(faults, h, step);
    var x := PairOf(d);
    var kv := h.d.tables.kv;
    assert [d][1..] == [];
    assert DispatchProg([d]) == Then(Call(Body(d)), Skip);
    assert Inside(Then(Call(Body(d)), Skip), kv).0 == Inside(Call(Body(d)), kv).0;
    DeliveryMarks(d, kv);
    RootCallKeeps(faults, DispatchProg([d]), h.d);
    assert Marked(Apply(faults, h, step).d.tables.kv, x);
  }
}
