/** The signals of one workflow under one name, as the stream they were sent in. */
module WorkflowSignals {
  import opened Wrappers
  import opened Json
  import opened WorkflowModel

  predicate Matches(s: Signal, id: string, name: string) {
    s.workflowId == id && s.name == name
  }

  /** The payloads sent to a workflow under a name, oldest first. */
  function Sent(signals: seq<Signal>, id: string, name: string): seq<Json> {
    if signals == [] then []
    else
      var last := signals[|signals| - 1];
      Sent(signals[..|signals| - 1], id, name) + if Matches(last, id, name) then [last.payload] else []
  }

  /** How many signals of its stream were sent before the signal at `j`. */
  function Rank(signals: seq<Signal>, id: string, name: string, j: nat): nat
    requires j <= |signals|
  {
    |Sent(signals[..j], id, name)|
  }

  /** Exactly the first `k` signals of the stream are consumed: each at most once, and in order of their ids. */
  ghost predicate ConsumedInOrder(signals: seq<Signal>, id: string, name: string, k: nat) {
    forall j :: 0 <= j < |signals| && Matches(signals[j], id, name) ==>
      (signals[j].consumed <==> Rank(signals, id, name, j) < k)
  }

  lemma SentStep(signals: seq<Signal>, id: string, name: string, j: nat)
    requires j < |signals|
    ensures Sent(signals[..j + 1], id, name)
         == Sent(signals[..j], id, name) + if Matches(signals[j], id, name) then [signals[j].payload] else []
  {
    assert signals[..j + 1][..j] == signals[..j];
  }

  /** The `k`-th payload of a stream belongs to a signal of rank `k`. */
  lemma {:induction false} SignalOfRank(signals: seq<Signal>, id: string, name: string, j: nat, k: nat) returns (i: nat)
    requires j <= |signals| && k < Rank(signals, id, name, j)
    ensures i < j && Matches(signals[i], id, name) && Rank(signals, id, name, i) == k
    decreases j
  {
    SentStep(signals, id, name, j - 1);
    if k < Rank(signals, id, name, j - 1) {
      i := SignalOfRank(signals, id, name, j - 1, k);
    } else {
      i := j - 1;
    }
  }

  /** Longer prefixes have longer streams. */
  lemma {:induction false} SentPrefix(signals: seq<Signal>, id: string, name: string, i: nat, j: nat)
    requires i <= j <= |signals|
    ensures Sent(signals[..i], id, name) <= Sent(signals[..j], id, name)
    decreases j
  {
    if i < j {
      SentStep(signals, id, name, j - 1);
      SentPrefix(signals, id, name, i, j - 1);
    }
  }

  lemma UnconsumedFrom(signals: seq<Signal>, id: string, name: string, k: nat, i: nat)
    requires ConsumedInOrder(signals, id, name, k)
    requires i < |signals| && Matches(signals[i], id, name) && Rank(signals, id, name, i) >= k
    ensures PendingAt(signals, id, name, i)
  {
  }

  /** The signal a wait finds is the one the stream owes it. */
  lemma PendingIsNext(signals: seq<Signal>, id: string, name: string, k: nat)
    requires ConsumedInOrder(signals, id, name, k)
    requires FirstPending(signals, id, name, 0).Some?
    ensures var j := FirstPending(signals, id, name, 0).value;
      k < |Sent(signals, id, name)| && Sent(signals, id, name)[k] == signals[j].payload
      && Rank(signals, id, name, j) == k
  {
    var j := FirstPending(signals, id, name, 0).value;
    if k < Rank(signals, id, name, j) {
      var i := SignalOfRank(signals, id, name, j, k);
      UnconsumedFrom(signals, id, name, k, i);
    }
    SentStep(signals, id, name, j);
    SentPrefix(signals, id, name, j + 1, |signals|);
    assert signals[..|signals|] == signals;
  }

  /** Consuming does not change what was sent. */
  lemma {:induction false} ConsumeKeepsSent(signals: seq<Signal>, i: nat, id: string, name: string)
    requires i < |signals|
    ensures Sent(Consume(signals, i), id, name) == Sent(signals, id, name)
    decreases |signals|
  {
    var n := |signals| - 1;
    if i < n {
      assert Consume(signals, i)[..n] == Consume(signals[..n], i);
      ConsumeKeepsSent(signals[..n], i, id, name);
    } else {
      assert Consume(signals, i)[..n] == signals[..n];
    }
  }

  lemma ConsumeKeepsRank(signals: seq<Signal>, i: nat, id: string, name: string, j: nat)
    requires i < |signals| && j <= |signals|
    ensures Rank(Consume(signals, i), id, name, j) == Rank(signals, id, name, j)
  {
    if i < j {
      assert Consume(signals, i)[..j] == Consume(signals[..j], i);
      ConsumeKeepsSent(signals[..j], i, id, name);
    } else {
      assert Consume(signals, i)[..j] == signals[..j];
    }
  }

  /** A wait that takes a signal moves its own stream on by one, and no other stream of any workflow. */
  lemma ConsumeAdvances(signals: seq<Signal>, id: string, name: string, k: nat)
    requires ConsumedInOrder(signals, id, name, k)
    requires FirstPending(signals, id, name, 0).Some?
    ensures ConsumedInOrder(Consume(signals, FirstPending(signals, id, name, 0).value), id, name, k + 1)
  {
    var i := FirstPending(signals, id, name, 0).value;
    var after := Consume(signals, i);
    PendingIsNext(signals, id, name, k);
    forall j | 0 <= j < |after| && Matches(after[j], id, name)
      ensures after[j].consumed <==> Rank(after, id, name, j) < k + 1
    {
      ConsumeKeepsRank(signals, i, id, name, j);
      if j < i { RankStrict(signals, id, name, j, i); }
      if i < j { RankStrict(signals, id, name, i, j); }
    }
  }

  lemma RankStrict(signals: seq<Signal>, id: string, name: string, i: nat, j: nat)
    requires i < j <= |signals| && Matches(signals[i], id, name)
    ensures Rank(signals, id, name, i) < Rank(signals, id, name, j)
  {
    SentStep(signals, id, name, i);
    SentPrefix(signals, id, name, i + 1, j);
  }

  lemma ConsumeKeepsOthers(signals: seq<Signal>, i: nat, id: string, name: string, k: nat)
    requires i < |signals| && !Matches(signals[i], id, name)
    requires ConsumedInOrder(signals, id, name, k)
    ensures ConsumedInOrder(Consume(signals, i), id, name, k)
  {
    var after := Consume(signals, i);
    forall j | 0 <= j < |after| && Matches(after[j], id, name)
      ensures after[j].consumed <==> Rank(after, id, name, j) < k
    {
      ConsumeKeepsRank(signals, i, id, name, j);
    }
  }

  /** A new signal joins the end of its stream, unconsumed. */
  lemma SendAppends(signals: seq<Signal>, s: Signal, id: string, name: string, k: nat)
    requires !s.consumed && ConsumedInOrder(signals, id, name, k) && k <= |Sent(signals, id, name)|
    ensures Sent(signals + [s], id, name) == Sent(signals, id, name) + if Matches(s, id, name) then [s.payload] else []
    ensures ConsumedInOrder(signals + [s], id, name, k)
  {
    var after := signals + [s];
    assert after[..|after| - 1] == signals;
    forall j | 0 <= j < |after| && Matches(after[j], id, name)
      ensures after[j].consumed <==> Rank(after, id, name, j) < k
    {
      assert after[..j] == signals[..j];
      assert j == |signals| ==> signals[..j] == signals;
    }
  }
}
