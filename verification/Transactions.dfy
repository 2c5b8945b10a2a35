/**
 Nested transactions and event buffering: the engine keeps one depth counter and one list of pending
 events, opens a database transaction at depth 0 only, and persists events when that one commits.
 User code is a small program; storage and event bus fail as an oracle tells.
 */
module Transactions {
  import opened Wrappers
  import opened Json

  /** What handlers do, as far as transactions can tell. `Call` invokes an action. */
  datatype Prog =
    | Skip
    | Raise
    | Publish(name: string, payload: Json)
    | Write(key: string, value: Json)
    | IfSet(key: string, yes: Prog, no: Prog)
    | Then(first: Prog, second: Prog)
    | Attempt(body: Prog, onError: Prog)
    | Call(body: Prog)

  /** An event in memory; it has an id once it was persisted. */
  datatype Event = Event(name: string, payload: Json, id: Option<nat>)

  datatype Flow = Done | Thrown

  /** How ending a root transaction goes: commit and fan-out, a commit that fails, a fan-out that fails. */
  datatype Fault = Fine | CommitFails | BusFails

  datatype Tables = Tables(kv: map<string, Json>, events: seq<Event>)

  /** The engine and its database. `roots` counts root commits, and picks the fault of the next one. */
  datatype World = World(
    tables: Tables, snapshot: Option<Tables>, depth: nat, pending: seq<Event>, committed: seq<Event>,
    fannedOut: seq<Event>, roots: nat)

  predicate Truthy(v: Json) {
    match v
    case Null => false
    case Bool(b) => b
    case Num(n) => n != 0.0
    case Str(s) => s != ""
    case _ => true
  }

  predicate IsSet(kv: map<string, Json>, key: string) {
    key in kv && Truthy(kv[key])
  }

  /** Ids are row numbers: `from` rows come before. */
  function Stamp(events: seq<Event>, from: nat): seq<Event>
    ensures |Stamp(events, from)| == |events|
  {
    seq(|events|, i requires 0 <= i < |events| => events[i].(id := Some(from + i + 1)))
  }

  // ----- the engine, with its depth counter -----

  function Exec(faults: nat -> Fault, p: Prog, w: World): (Flow, World) {
    match p
    case Skip => (Done, w)
    case Raise => (Thrown, w)
    case Publish(name, payload) =>
      var event := Event(name, payload, None);
      if w.depth > 0 then (Done, w.(pending := w.pending + [event]))
      else (Done, w.(committed := w.committed + [event]))
    case Write(key, value) => (Done, w.(tables := w.tables.(kv := w.tables.kv[key := value])))
    case IfSet(key, yes, no) => if IsSet(w.tables.kv, key) then Exec(faults, yes, w) else Exec(faults, no, w)
    case Then(first, second) =>
      var (flow, w1) := Exec(faults, first, w);
      if flow.Thrown? then (Thrown, w1) else Exec(faults, second, w1)
    case Attempt(body, onError) =>
      var (flow, w1) := Exec(faults, body, w);
      if flow.Thrown? then Exec(faults, onError, w1) else (Done, w1)
    case Call(body) =>
      var root := w.depth == 0;
      var w0 := if root then w.(snapshot := Some(w.tables)) else w;
      var (flow, w1) := Exec(faults, body, w0.(depth := w0.depth + 1));
      if flow.Done? then
        var w2 := w1.(depth := DepthDown(w1.depth));
        if root then CommitRoot(faults, w2) else (Done, w2)
      else
        var w2 := w1.(depth := DepthDown(w1.depth));
        if root then (Thrown, RollBack(w2.(pending := []))) else (Thrown, w2)
  }

  function DepthDown(depth: int): nat {
    Max(0, depth - 1)
  }

  /** Rolling back without an open transaction is an error the adapter swallows. */
  function RollBack(w: World): World {
    match w.snapshot
    case None => w
    case Some(tables) => w.(tables := tables, snapshot := None)
  }

  /** The depth is already 0 here, so the clamp of the error path keeps it there. */
  function CommitRoot(faults: nat -> Fault, w: World): (Flow, World) {
    var fault := faults(w.roots);
    var w0 := w.(roots := w.roots + 1);
    if fault.CommitFails? then
      (Thrown, RollBack(w0.(depth := DepthDown(w0.depth), pending := [])))
    else
      var stamped := Stamp(w.pending, |w.tables.events|);
      var w1 := w0.(tables := w.tables.(events := w.tables.events + stamped), snapshot := None,
                    pending := [], committed := w.committed + stamped);
      if fault.BusFails? then (Thrown, RollBack(w1.(depth := DepthDown(w1.depth), pending := [])))
      else (Done, w1.(fannedOut := w1.fannedOut + stamped))
  }

  // ----- the same without any depth -----

  /** Inside a transaction nesting means nothing: a call is its body. The third part lists what was published. */
  function Inside(p: Prog, kv: map<string, Json>): (Flow, map<string, Json>, seq<Event>) {
    match p
    case Skip => (Done, kv, [])
    case Raise => (Thrown, kv, [])
    case Publish(name, payload) => (Done, kv, [Event(name, payload, None)])
    case Write(key, value) => (Done, kv[key := value], [])
    case IfSet(key, yes, no) => if IsSet(kv, key) then Inside(yes, kv) else Inside(no, kv)
    case Then(first, second) =>
      var (flow, kv1, events1) := Inside(first, kv);
      if flow.Thrown? then (Thrown, kv1, events1)
      else
        var (flow2, kv2, events2) := Inside(second, kv1);
        (flow2, kv2, events1 + events2)
    case Attempt(body, onError) =>
      var (flow, kv1, events1) := Inside(body, kv);
      if flow.Done? then (Done, kv1, events1)
      else
        var (flow2, kv2, events2) := Inside(onError, kv1);
        (flow2, kv2, events1 + events2)
    case Call(body) => Inside(body, kv)
  }

  /** What outlives a root transaction. */
  datatype Durable = Durable(tables: Tables, committed: seq<Event>, fannedOut: seq<Event>, roots: nat)

  /** A root transaction is all or nothing, and its events are persisted and handed out together with it. */
  function RootCall(faults: nat -> Fault, body: Prog, d: Durable): (Flow, Durable) {
    var (flow, kv, events) := Inside(body, d.tables.kv);
    var fault := faults(d.roots);
    if flow.Thrown? then (Thrown, d)
    else if fault.CommitFails? then (Thrown, d.(roots := d.roots + 1))
    else
      var stamped := Stamp(events, |d.tables.events|);
      var after := Durable(Tables(kv, d.tables.events + stamped), d.committed + stamped, d.fannedOut, d.roots + 1);
      if fault.BusFails? then (Thrown, after) else (Done, after.(fannedOut := d.fannedOut + stamped))
  }

  /** Outside of transactions, writes are on their own and events go straight to the committed list. */
  function Outside(faults: nat -> Fault, p: Prog, d: Durable): (Flow, Durable) {
    match p
    case Skip => (Done, d)
    case Raise => (Thrown, d)
    case Publish(name, payload) => (Done, d.(committed := d.committed + [Event(name, payload, None)]))
    case Write(key, value) => (Done, d.(tables := d.tables.(kv := d.tables.kv[key := value])))
    case IfSet(key, yes, no) => if IsSet(d.tables.kv, key) then Outside(faults, yes, d) else Outside(faults, no, d)
    case Then(first, second) =>
      var (flow, d1) := Outside(faults, first, d);
      if flow.Thrown? then (Thrown, d1) else Outside(faults, second, d1)
    case Attempt(body, onError) =>
      var (flow, d1) := Outside(faults, body, d);
      if flow.Thrown? then Outside(faults, onError, d1) else (Done, d1)
    case Call(body) => RootCall(faults, body, d)
  }

  // ----- nesting refines flat transactions -----

  /** Within a transaction, code only moves its own key-value view and the pending list; the depth comes back. */
  lemma {:induction false} NestedIsFlat(faults: nat -> Fault, p: Prog, w: World)
    requires w.depth > 0
    ensures var (flow, kv, events) := Inside(p, w.tables.kv);
      Exec(faults, p, w) == (flow, w.(tables := w.tables.(kv := kv), pending := w.pending + events))
  {
    match p
    case Skip => assert w.pending + [] == w.pending;
    case Raise => assert w.pending + [] == w.pending;
    case Publish(_, _) =>
    case Write(_, _) => assert w.pending + [] == w.pending;
    case IfSet(_, yes, no) =>
      NestedIsFlat(faults, yes, w);
      NestedIsFlat(faults, no, w);
    case Then(first, second) =>
      NestedIsFlat(faults, first, w);
      var (flow, kv, events) := Inside(first, w.tables.kv);
      var w1 := w.(tables := w.tables.(kv := kv), pending := w.pending + events);
      NestedIsFlat(faults, second, w1);
      assert (w.pending + events) + Inside(second, kv).2 == w.pending + (events + Inside(second, kv).2);
    case Attempt(body, onError) =>
      NestedIsFlat(faults, body, w);
      var (flow, kv, events) := Inside(body, w.tables.kv);
      var w1 := w.(tables := w.tables.(kv := kv), pending := w.pending + events);
      NestedIsFlat(faults, onError, w1);
      assert (w.pending + events) + Inside(onError, kv).2 == w.pending + (events + Inside(onError, kv).2);
    case Call(body) =>
      NestedIsFlat(faults, body, w.(depth := w.depth + 1));
  }

  /** Between root transactions: nothing open, nothing pending. */
  predicate Idle(w: World) {
    w.depth == 0 && w.pending == [] && w.snapshot == None
  }

  function Lasting(w: World): Durable {
    Durable(w.tables, w.committed, w.fannedOut, w.roots)
  }

  /**
   For any tree of calls, caught and uncaught failures included: the depth is back at 0, nothing is
   pending, no transaction is open, and what lasts is what the flat reading of the program gives.
   */
  lemma {:induction false} NestingRefinesFlat(faults: nat -> Fault, p: Prog, w: World)
    requires Idle(w)
    ensures var (flow, after) := Exec(faults, p, w);
      Idle(after) && (flow, Lasting(after)) == Outside(faults, p, Lasting(w))
  {
    match p
    case Then(first, second) =>
      NestingRefinesFlat(faults, first, w);
      NestingRefinesFlat(faults, second, Exec(faults, first, w).1);
    case Attempt(body, onError) =>
      NestingRefinesFlat(faults, body, w);
      NestingRefinesFlat(faults, onError, Exec(faults, body, w).1);
    case IfSet(_, yes, no) =>
      NestingRefinesFlat(faults, yes, w);
      NestingRefinesFlat(faults, no, w);
    case Call(body) =>
      var begun := w.(snapshot := Some(w.tables), depth := 1);
      NestedIsFlat(faults, body, begun);
      assert w.pending + Inside(body, w.tables.kv).2 == Inside(body, w.tables.kv).2;
    case _ =>
  }

  // ----- events reach the committed list exactly with their transaction -----

  /** The committed events that were persisted; the others were published outside any transaction. */
  function Persisted(committed: seq<Event>): seq<Event> {
    if committed == [] then []
    else
      var last := committed[|committed| - 1];
      Persisted(committed[..|committed| - 1]) + if last.id.Some? then [last] else []
  }

  lemma PersistedOne(committed: seq<Event>, e: Event)
    ensures Persisted(committed + [e]) == Persisted(committed) + if e.id.Some? then [e] else []
  {
    var all := committed + [e];
    assert all[..|all| - 1] == committed && all[|all| - 1] == e;
  }

  lemma {:induction false} PersistedAppend(committed: seq<Event>, more: seq<Event>, stamped: bool)
    requires forall i :: 0 <= i < |more| ==> (more[i].id.Some? <==> stamped)
    ensures Persisted(committed + more) == Persisted(committed) + if stamped then more else []
  {
    hide Persisted;
    if more == [] {
      assert committed + more == committed;
    } else {
      var n := |more| - 1;
      var most := more[..n];
      assert committed + more == (committed + most) + [more[n]];
      PersistedAppend(committed, most, stamped);
      PersistedOne(committed + most, more[n]);
      if stamped { assert Persisted(committed) + more == Persisted(committed) + most + [more[n]]; }
    }
  }

  /** Row numbers are ids. */
  ghost predicate Numbered(events: seq<Event>) {
    forall i :: 0 <= i < |events| ==> events[i].id == Some(i + 1)
  }

  lemma RootCallEvents(faults: nat -> Fault, body: Prog, d: Durable)
    requires Numbered(d.tables.events)
    ensures var after := RootCall(faults, body, d).1;
      && d.tables.events <= after.tables.events && Numbered(after.tables.events)
      && Persisted(after.committed) == Persisted(d.committed) + after.tables.events[|d.tables.events|..]
  {
    hide Inside;
    hide RootCall;
    hide Stamp;
    hide Numbered;
    hide Persisted;
    RootCallKeeps(faults, body, d);
    var after := RootCall(faults, body, d).1;
    if Inside(body, d.tables.kv).0.Thrown? || faults(d.roots).CommitFails? {
      assert after.tables.events[|d.tables.events|..] == [];
      assert Persisted(d.committed) + [] == Persisted(d.committed);
    } else {
      var published := Inside(body, d.tables.kv).2;
      var stamped := Stamp(published, |d.tables.events|);
      StampNumbers(d.tables.events, published);
      PersistedAppend(d.committed, stamped, true);
      assert after.tables.events[|d.tables.events|..] == stamped;
    }
  }

  lemma StampNumbers(events: seq<Event>, published: seq<Event>)
    requires Numbered(events)
    ensures Numbered(events + Stamp(published, |events|))
    ensures forall i :: 0 <= i < |published| ==> Stamp(published, |events|)[i].id.Some?
  {
  }

  /**
   Every event the table gained is on the committed list, in publish order and with its fresh,
   increasing id; and the list gained no other event that has an id.
   */
  lemma {:induction false} EventsCommitTogether(faults: nat -> Fault, p: Prog, d: Durable)
    requires Numbered(d.tables.events)
    ensures var after := Outside(faults, p, d).1;
      && d.tables.events <= after.tables.events && Numbered(after.tables.events)
      && Persisted(after.committed) == Persisted(d.committed) + after.tables.events[|d.tables.events|..]
  {
    hide RootCall;
    hide Inside;
    hide Persisted;
    match p
    case Publish(name, payload) =>
      PersistedAppend(d.committed, [Event(name, payload, None)], false);
    case Then(first, second) =>
      EventsCommitTogether(faults, first, d);
      EventsCommitTogether(faults, second, Outside(faults, first, d).1);
    case Attempt(body, onError) =>
      EventsCommitTogether(faults, body, d);
      EventsCommitTogether(faults, onError, Outside(faults, body, d).1);
    case IfSet(_, yes, no) =>
      EventsCommitTogether(faults, yes, d);
      EventsCommitTogether(faults, no, d);
    case Call(body) =>
      RootCallEvents(faults, body, d);
    case _ =>
  }

  /**
   A root call keeps its effects exactly when its body finishes and the commit goes through. It
   reports success only if the fan-out works too: after a failed fan-out the caller sees an error
   although everything was committed.
   */
  lemma RootCallOutcome(faults: nat -> Fault, body: Prog, w: World)
    requires Idle(w)
    ensures var r := Exec(faults, Call(body), w);
      var inner := Inside(body, w.tables.kv);
      var stamped := Stamp(inner.2, |w.tables.events|);
      && Idle(r.1)
      && (if inner.0.Done? && !faults(w.roots).CommitFails? then
            r.1.tables == Tables(inner.1, w.tables.events + stamped) && r.1.committed == w.committed + stamped
          else
            r.1.tables == w.tables && r.1.committed == w.committed)
      && (r.0.Done? <==> inner.0.Done? && faults(w.roots).Fine?)
  {
    NestingRefinesFlat(faults, Call(body), w);
    RootCallKeeps(faults, body, Lasting(w));
  }

  lemma RootCallKeeps(faults: nat -> Fault, body: Prog, d: Durable)
    ensures var r := RootCall(faults, body, d);
      var inner := Inside(body, d.tables.kv);
      var stamped := Stamp(inner.2, |d.tables.events|);
      && (if inner.0.Done? && !faults(d.roots).CommitFails? then
            r.1.tables == Tables(inner.1, d.tables.events + stamped) && r.1.committed == d.committed + stamped
          else
            r.1.tables == d.tables && r.1.committed == d.committed)
      && (r.0.Done? <==> inner.0.Done? && faults(d.roots).Fine?)
  {
  }

  // ----- the order of events -----

  /** What an event says, whatever its id. */
  function Said(events: seq<Event>): (said: seq<(string, Json)>)
    ensures |said| == |events| && forall i :: 0 <= i < |said| ==> said[i] == (events[i].name, events[i].payload)
  {
    seq(|events|, i requires 0 <= i < |events| => (events[i].name, events[i].payload))
  }

  /** From position `at` to their end the rows are what was published, in that order, with ids that follow `number`. */
  ghost predicate Continues(rows: seq<Event>, at: nat, published: seq<Event>, number: nat) {
    && |rows| == at + |published|
    && forall i :: 0 <= i < |published| ==>
         rows[at + i] == Event(published[i].name, published[i].payload, Some(number + i + 1))
  }

  /** A root call that is kept stores what its body published, row by row in that order, and commits and fans out the same. */
  lemma RootCallStores(faults: nat -> Fault, body: Prog, d: Durable)
    requires Inside(body, d.tables.kv).0.Done? && !faults(d.roots).CommitFails?
    ensures var after := RootCall(faults, body, d).1;
      var (n, m, published) := (|d.tables.events|, |d.committed|, Inside(body, d.tables.kv).2);
      && d.tables.events <= after.tables.events && Continues(after.tables.events, n, published, n)
      && d.committed <= after.committed && Continues(after.committed, m, published, n)
      && after.fannedOut == d.fannedOut + if faults(d.roots).Fine? then after.committed[m..] else []
  {
    RootCallParts(faults, body, d);
    hide *;
    StampContinues(d.tables.events, Inside(body, d.tables.kv).2, |d.tables.events|);
    StampContinues(d.committed, Inside(body, d.tables.kv).2, |d.tables.events|);
  }

  lemma StampContinues(rows: seq<Event>, published: seq<Event>, number: nat)
    ensures var all := rows + Stamp(published, number);
      rows <= all && Continues(all, |rows|, published, number) && all[|rows|..] == Stamp(published, number)
  {
    StampedAt(published, number);
  }

  lemma RootCallParts(faults: nat -> Fault, body: Prog, d: Durable)
    requires Inside(body, d.tables.kv).0.Done? && !faults(d.roots).CommitFails?
    ensures var after := RootCall(faults, body, d).1;
      var stamped := Stamp(Inside(body, d.tables.kv).2, |d.tables.events|);
      && after.tables.events == d.tables.events + stamped && after.committed == d.committed + stamped
      && after.fannedOut == d.fannedOut + if faults(d.roots).Fine? then stamped else []
  {
    hide Inside;
    hide Stamp;
    assert d.fannedOut + [] == d.fannedOut;
  }

  /** Events keep their order, name and payload, and get the numbers from `from` on. */
  lemma StampedAt(events: seq<Event>, from: nat)
    ensures forall i :: 0 <= i < |events| ==>
      Stamp(events, from)[i] == Event(events[i].name, events[i].payload, Some(from + i + 1))
  {
  }

  /** What the parts of a program that were kept have published, in order. */
  function Log(faults: nat -> Fault, p: Prog, d: Durable): seq<(string, Json)> {
    match p
    case Publish(name, payload) => [(name, payload)]
    case IfSet(key, yes, no) => if IsSet(d.tables.kv, key) then Log(faults, yes, d) else Log(faults, no, d)
    case Then(first, second) =>
      var (flow, d1) := Outside(faults, first, d);
      Log(faults, first, d) + if flow.Thrown? then [] else Log(faults, second, d1)
    case Attempt(body, onError) =>
      var (flow, d1) := Outside(faults, body, d);
      Log(faults, body, d) + if flow.Thrown? then Log(faults, onError, d1) else []
    case Call(body) =>
      if Inside(body, d.tables.kv).0.Done? && !faults(d.roots).CommitFails? then Said(Inside(body, d.tables.kv).2) else []
    case _ => []
  }

  /** The committed list grew by `more`, which says what `log` says, and the table by those of it that have ids, numbered on. */
  ghost predicate Grew(d: Durable, after: Durable, log: seq<(string, Json)>, more: seq<Event>) {
    && after.committed == d.committed + more && Said(more) == log
    && after.tables.events == d.tables.events + Persisted(more)
    && forall i :: 0 <= i < |Persisted(more)| ==> Persisted(more)[i].id == Some(|d.tables.events| + i + 1)
  }

  lemma GrewTwice(d: Durable, d1: Durable, d2: Durable, log1: seq<(string, Json)>, log2: seq<(string, Json)>,
                  more1: seq<Event>, more2: seq<Event>)
    requires Grew(d, d1, log1, more1) && Grew(d1, d2, log2, more2)
    ensures Grew(d, d2, log1 + log2, more1 + more2)
  {
    PersistedSplits(more1, more2);
    hide Persisted;
    var (a, b) := (Persisted(more1), Persisted(more2));
    assert d.committed + more1 + more2 == d.committed + (more1 + more2);
    assert d.tables.events + a + b == d.tables.events + (a + b);
    forall i | 0 <= i < |a + b| ensures (a + b)[i].id == Some(|d.tables.events| + i + 1) {
      if i >= |a| { assert b[i - |a|].id == Some(|d1.tables.events| + (i - |a|) + 1); }
    }
  }

  lemma {:induction false} PersistedSplits(a: seq<Event>, b: seq<Event>)
    ensures Persisted(a + b) == Persisted(a) + Persisted(b)
  {
    hide Persisted;
    if b == [] {
      assert a + b == a;
      PersistedNone();
    } else {
      var n := |b| - 1;
      assert a + b == (a + b[..n]) + [b[n]] && b == b[..n] + [b[n]];
      PersistedSplits(a, b[..n]);
      PersistedOne(a + b[..n], b[n]);
      PersistedOne(b[..n], b[n]);
    }
  }

  lemma PersistedNone()
    ensures Persisted([]) == []
  {
  }

  lemma GrewNot(d: Durable, after: Durable)
    requires after.committed == d.committed && after.tables.events == d.tables.events
    ensures Grew(d, after, [], [])
  {
    PersistedNone();
    assert d.committed + [] == d.committed && d.tables.events + [] == d.tables.events;
  }

  lemma StampedGrew(d: Durable, after: Durable, published: seq<Event>)
    requires var stamped := Stamp(published, |d.tables.events|);
      after.committed == d.committed + stamped && after.tables.events == d.tables.events + stamped
    ensures Grew(d, after, Said(published), Stamp(published, |d.tables.events|))
  {
    hide Stamp;
    hide Persisted;
    var more := Stamp(published, |d.tables.events|);
    StampedAt(published, |d.tables.events|);
    PersistedAppend([], more, true);
    PersistedNone();
    assert [] + more == more;
    assert Said(more) == Said(published);
  }

  lemma RootCallGrew(faults: nat -> Fault, body: Prog, d: Durable) returns (more: seq<Event>)
    ensures Grew(d, RootCall(faults, body, d).1, Log(faults, Call(body), d), more)
  {
    hide Inside;
    hide Stamp;
    hide Grew;
    hide RootCall;
    var inner := Inside(body, d.tables.kv);
    if inner.0.Done? && !faults(d.roots).CommitFails? {
      RootCallParts(faults, body, d);
      more := Stamp(inner.2, |d.tables.events|);
      StampedGrew(d, RootCall(faults, body, d).1, inner.2);
    } else {
      RootCallKeeps(faults, body, d);
      more := [];
      GrewNot(d, RootCall(faults, body, d).1);
    }
  }

  /**
   For any tree of calls: the committed list grows by exactly what the kept parts published, in publish order, and
   the table by those of them that were published inside a transaction, in the same order and numbered on.
   */
  lemma {:induction false} EventsInPublishOrder(faults: nat -> Fault, p: Prog, d: Durable) returns (more: seq<Event>)
    ensures Grew(d, Outside(faults, p, d).1, Log(faults, p, d), more)
  {
    hide RootCall;
    hide Inside;
    hide Grew;
    match p
    case Publish(name, payload) =>
      more := [Event(name, payload, None)];
      PublishGrew(d, name, payload);
    case IfSet(key, yes, no) =>
      if IsSet(d.tables.kv, key) {
        more := EventsInPublishOrder(faults, yes, d);
      } else {
        more := EventsInPublishOrder(faults, no, d);
      }
    case Then(first, second) =>
      var (flow, d1) := Outside(faults, first, d);
      more := EventsInPublishOrder(faults, first, d);
      if flow.Done? {
        var more2 := EventsInPublishOrder(faults, second, d1);
        GrewTwice(d, d1, Outside(faults, second, d1).1, Log(faults, first, d), Log(faults, second, d1), more, more2);
        more := more + more2;
      } else {
        assert Log(faults, first, d) + [] == Log(faults, first, d);
      }
    case Attempt(body, onError) =>
      var (flow, d1) := Outside(faults, body, d);
      more := EventsInPublishOrder(faults, body, d);
      if flow.Thrown? {
        var more2 := EventsInPublishOrder(faults, onError, d1);
        GrewTwice(d, d1, Outside(faults, onError, d1).1, Log(faults, body, d), Log(faults, onError, d1), more, more2);
        more := more + more2;
      } else {
        assert Log(faults, body, d) + [] == Log(faults, body, d);
      }
    case Call(body) =>
      more := RootCallGrew(faults, body, d);
    case _ =>
      more := [];
      GrewNot(d, Outside(faults, p, d).1);
  }

  lemma PublishGrew(d: Durable, name: string, payload: Json)
    ensures var e := Event(name, payload, None);
      Grew(d, d.(committed := d.committed + [e]), [(name, payload)], [e])
  {
    var e := Event(name, payload, None);
    PersistedNone();
    PersistedOne([], e);
    var none: seq<Event> := [];
    assert none + [e] == [e] && none + none == none && d.tables.events + none == d.tables.events;
    hide Persisted;
  }

  /** A value counts as not set exactly if it is missing, null, false, zero or the empty text. */
  lemma UnsetExactly(kv: map<string, Json>, key: string)
    ensures !IsSet(kv, key) <==>
      key !in kv || kv[key] == Null || kv[key] == Bool(false) || kv[key] == Num(0.0) || kv[key] == Str("")
  {
  }

  // ----- the engine object -----

  class Engine {
    const faults: nat -> Fault
    var tables: Tables
    var snapshot: Option<Tables>
    var transactionDepth: nat
    var pendingEvents: seq<Event>
    var committedEvents: seq<Event>
    var fannedOut: seq<Event>
    var roots: nat

    ghost function State(): World
      reads this
    {
      World(tables, snapshot, transactionDepth, pendingEvents, committedEvents, fannedOut, roots)
    }

    constructor (faults: nat -> Fault)
      ensures this.faults == faults && Idle(State())
    {
      this.faults := faults;
      tables, snapshot, transactionDepth := Tables(map[], []), None, 0;
      pendingEvents, committedEvents, fannedOut, roots := [], [], [], 0;
    }

    /** Run user code; true means it threw. */
    method Run(p: Prog) returns (threw: bool)
      modifies this
      ensures Exec(faults, p, old(State())) == (if threw then Thrown else Done, State())
      decreases p, 0
    {
      match p {
        case Skip => return false;
        case Raise => return true;
        case Publish(name, payload) =>
          var event := Event(name, payload, None);
          if transactionDepth > 0 {
            pendingEvents := pendingEvents + [event];
          } else {
            committedEvents := committedEvents + [event];
          }
          return false;
        case Write(key, value) =>
          tables := tables.(kv := tables.kv[key := value]);
          return false;
        case IfSet(key, yes, no) =>
          if IsSet(tables.kv, key) { threw := Run(yes); } else { threw := Run(no); }
        case Then(first, second) =>
          threw := Run(first);
          if !threw { threw := Run(second); }
        case Attempt(body, onError) =>
          threw := Run(body);
          if threw { threw := Run(onError); }
        case Call(body) =>
          threw := RunInTransaction(body);
      }
    }

    method RunInTransaction(body: Prog) returns (threw: bool)
      modifies this
      ensures Exec(faults, Call(body), old(State())) == (if threw then Thrown else Done, State())
      decreases body, 1
    {
      var isRootTransaction := transactionDepth == 0;
      if isRootTransaction { snapshot := Some(tables); }
      transactionDepth := transactionDepth + 1;
      threw := Run(body);
      if !threw {
        transactionDepth := DepthDown(transactionDepth);
        if isRootTransaction { threw := CommitTransaction(); }
      } else {
        transactionDepth := DepthDown(transactionDepth);
        if isRootTransaction {
          pendingEvents := [];
          RollbackTransaction();
        }
      }
    }

    /** Persist the pending events and commit, then move them to the committed list and fan them out. */
    method CommitTransaction() returns (threw: bool)
      modifies this
      ensures CommitRoot(faults, old(State())) == (if threw then Thrown else Done, State())
    {
      var fault := faults(roots);
      roots := roots + 1;
      threw := fault.CommitFails?;
      if !threw {
        var stamped := PersistEvents();
        snapshot := None;
        committedEvents := committedEvents + stamped;
        pendingEvents := [];
        threw := fault.BusFails?;
        if !threw { fannedOut := fannedOut + stamped; }
      }
      if threw {
        transactionDepth := DepthDown(transactionDepth);
        pendingEvents := [];
        RollbackTransaction();
      }
    }

    /** Insert the pending events one by one, and give each the id of its row. */
    method PersistEvents() returns (stamped: seq<Event>)
      modifies this`tables
      ensures stamped == Stamp(pendingEvents, |old(tables).events|)
      ensures tables == old(tables).(events := old(tables).events + stamped)
    {
      stamped := [];
      for i := 0 to |pendingEvents|
        invariant stamped == Stamp(pendingEvents[..i], |old(tables).events|)
        invariant tables == old(tables).(events := old(tables).events + stamped)
      {
        var event := pendingEvents[i].(id := Some(|tables.events| + 1));
        tables := tables.(events := tables.events + [event]);
        stamped := stamped + [event];
      }
      assert pendingEvents[..|pendingEvents|] == pendingEvents;
    }

    method RollbackTransaction()
      modifies this`tables, this`snapshot
      ensures State() == RollBack(old(State()))
    {
      if snapshot.Some? {
        tables := snapshot.value;
        snapshot := None;
      }
    }
  }
}
