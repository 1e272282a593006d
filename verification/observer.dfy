/**
  Event fan-out: a subject keeps an ordered list of observers and hands every
  event to each entry in turn. Observers are identified the way the program
  identifies them, by pointer; here an opaque number stands for the pointer.
*/
module Observers {

  type ObserverId = nat

  datatype BattleSubject = BattleSubject(observers: seq<ObserverId>)

  /** One call of an observer's update with an event. */
  datatype Delivery = Delivery(observer: ObserverId, event: string)

  /** Appends `o`, even if it is already attached. */
  function Attach(s: BattleSubject, o: ObserverId): (r: BattleSubject)
    ensures |r.observers| == |s.observers| + 1
    ensures r.observers[..|s.observers|] == s.observers
    ensures r.observers[|s.observers|] == o
  {
    BattleSubject(s.observers + [o])
  }

  /** Position of the first occurrence of `o`. */
  function FirstIndex(xs: seq<ObserverId>, o: ObserverId): (k: nat)
    requires o in xs
    ensures k < |xs| && xs[k] == o
    ensures forall i :: 0 <= i < k ==> xs[i] != o
  {
    if xs[0] == o then 0 else 1 + FirstIndex(xs[1..], o)
  }

  /** Erases the first occurrence of `o`, keeping the order of the others. */
  function RemoveFirst(xs: seq<ObserverId>, o: ObserverId): (r: seq<ObserverId>)
    ensures o !in xs ==> r == xs
  {
    if |xs| == 0 then []
    else if xs[0] == o then xs[1..]
    else [xs[0]] + RemoveFirst(xs[1..], o)
  }

  /** Exactly one copy of `o` goes, if there is one, and nothing else. */
  lemma {:induction false} RemoveFirstTakesOneCopy(xs: seq<ObserverId>, o: ObserverId)
    ensures multiset(RemoveFirst(xs, o)) == multiset(xs) - multiset{o}
  {
    if |xs| > 0 {
      assert xs == [xs[0]] + xs[1..];
      RemoveFirstTakesOneCopy(xs[1..], o);
    }
  }

  /** Only the first occurrence goes: the entries before it and after it keep their order. */
  lemma {:induction false} RemoveFirstKeepsOrder(xs: seq<ObserverId>, o: ObserverId, k: nat)
    requires k < |xs| && xs[k] == o
    requires forall i :: 0 <= i < k ==> xs[i] != o
    ensures RemoveFirst(xs, o) == xs[..k] + xs[k + 1..]
    decreases k
  {
    if k == 0 {
      assert xs[..0] + xs[1..] == xs[1..];
    } else {
      RemoveFirstKeepsOrder(xs[1..], o, k - 1);
      HeadAndSlices(xs, k);
    }
  }

  lemma HeadAndSlices(xs: seq<ObserverId>, k: nat)
    requires 0 < k < |xs|
    ensures [xs[0]] + xs[1..][..k - 1] == xs[..k]
    ensures xs[1..][k..] == xs[k + 1..]
  {
  }

  /** Removes the first occurrence of `o`; detaching an absent observer changes nothing. */
  function Detach(s: BattleSubject, o: ObserverId): (r: BattleSubject)
    ensures o !in s.observers ==> r == s
    ensures o in s.observers ==> |r.observers| == |s.observers| - 1
    ensures o in s.observers ==>
      var k := FirstIndex(s.observers, o);
      r.observers == s.observers[..k] + s.observers[k + 1..]
    ensures multiset(r.observers) == multiset(s.observers) - multiset{o}
  {
    RemoveFirstTakesOneCopy(s.observers, o);
    if o in s.observers then
      RemoveFirstKeepsOrder(s.observers, o, FirstIndex(s.observers, o));
      BattleSubject(RemoveFirst(s.observers, o))
    else BattleSubject(RemoveFirst(s.observers, o))
  }

  /** Attaching a new observer and detaching it again restores the list. */
  lemma DetachUndoesAttach(s: BattleSubject, o: ObserverId)
    requires o !in s.observers
    ensures Detach(Attach(s, o), o) == s
  {
    var xs := s.observers + [o];
    assert o in xs;
    var k := FirstIndex(xs, o);
    assert forall i :: 0 <= i < |s.observers| ==> xs[i] == s.observers[i];
    assert k == |s.observers|;
    assert xs[..k] == s.observers;
  }

  /** Hands `event` to every entry of the list, front to back. */
  function Notify(s: BattleSubject, event: string): (r: seq<Delivery>)
    ensures |r| == |s.observers|
    ensures forall k :: 0 <= k < |r| ==> r[k] == Delivery(s.observers[k], event)
    decreases |s.observers|
  {
    if |s.observers| == 0 then []
    else [Delivery(s.observers[0], event)] + Notify(BattleSubject(s.observers[1..]), event)
  }

  /** Number of calls made on observer `o`. */
  function CallsTo(ds: seq<Delivery>, o: ObserverId): nat
  {
    if |ds| == 0 then 0
    else (if ds[0].observer == o then 1 else 0) + CallsTo(ds[1..], o)
  }

  /** Each observer is called once per entry in the list, so a duplicate entry is called twice. */
  lemma {:induction false} NotifyCallsPerEntry(s: BattleSubject, event: string, o: ObserverId)
    ensures CallsTo(Notify(s, event), o) == multiset(s.observers)[o]
    decreases |s.observers|
  {
    if |s.observers| > 0 {
      var tail := BattleSubject(s.observers[1..]);
      NotifyCallsPerEntry(tail, event, o);
      CallsToCons(Delivery(s.observers[0], event), Notify(tail, event), o);
      MultisetCons(s.observers[0], tail.observers, o);
      assert s.observers == [s.observers[0]] + tail.observers;
    }
  }

  lemma CallsToCons(d: Delivery, ds: seq<Delivery>, o: ObserverId)
    ensures CallsTo([d] + ds, o) == (if d.observer == o then 1 else 0) + CallsTo(ds, o)
  {
    assert ([d] + ds)[1..] == ds;
  }

  lemma MultisetCons(x: ObserverId, xs: seq<ObserverId>, o: ObserverId)
    ensures multiset([x] + xs)[o] == (if x == o then 1 else 0) + multiset(xs)[o]
  {
  }

  /** Logging a battle event is broadcasting it: every entry, in order, gets the event. */
  function LogBattleEvent(s: BattleSubject, event: string): (r: seq<Delivery>)
    ensures |r| == |s.observers|
    ensures forall k :: 0 <= k < |r| ==> r[k] == Delivery(s.observers[k], event)
  {
    Notify(s, event)
  }

  /** Every event in order, each handed to all observers. */
  function LogAll(s: BattleSubject, events: seq<string>): (r: seq<Delivery>)
    ensures |r| == |events| * |s.observers|
  {
    if |events| == 0 then []
    else LogAll(s, events[..|events| - 1]) + LogBattleEvent(s, events[|events| - 1])
  }

  /** Delivery number `i * |observers| + j` hands event `i` to the `j`-th entry:
      the events go out in order, each to the whole list before the next. */
  lemma {:induction false} LogAllContent(s: BattleSubject, events: seq<string>, i: nat, j: nat)
    requires i < |events| && j < |s.observers|
    ensures i * |s.observers| + j < |LogAll(s, events)|
    ensures LogAll(s, events)[i * |s.observers| + j] == Delivery(s.observers[j], events[i])
    decreases |events|
  {
    var m := |s.observers|;
    var n := |events|;
    var front := events[..n - 1];
    assert LogAll(s, events) == LogAll(s, front) + LogBattleEvent(s, events[n - 1]);
    assert |LogAll(s, front)| == (n - 1) * m;
    if i < n - 1 {
      LogAllContent(s, front, i, j);
      assert front[i] == events[i];
    } else {
      assert i * m == (n - 1) * m;
    }
  }
}
