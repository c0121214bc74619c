/** The LED manager (src/app/led_manager.c): shows every added notification in
    turn, over a linked list with a live iterator. It refines `LedRing`. */
module LedManagers {
  import opened Domain
  import opened EasTime
  import opened Sequences
  import opened Pools
  import opened LinkedLists
  import opened LedRing

  datatype LedColor = Red | Green | Blue
  datatype LedPattern = Static | Alert
  datatype Led = Led(color: LedColor, pattern: LedPattern)

  /** A list element: compared by identity, looked up by what it shows. */
  class LedNotification {
    const led: Led

    constructor (led: Led)
      ensures this.led == led
    {
      this.led := led;
    }
  }

  function Leds(s: seq<LedNotification>): (r: seq<Led>)
    ensures |r| == |s|
    ensures forall i | 0 <= i < |r| :: r[i] == s[i].led
  {
    seq(|s|, i requires 0 <= i < |s| => s[i].led)
  }

  /** The condition of the source's removal. */
  function HasLed(led: Led): LedNotification -> bool {
    (n: LedNotification) => n.led == led
  }

  /** A ring of list elements as a ring of what they show. */
  function Shown(r: Ring<LedNotification>): Ring<Led> {
    LedRing.Ring(Leds(r.entries), r.cursor)
  }

  /** Showing commutes with the operations of the ring. */
  lemma ShownCommutes(r: Ring<LedNotification>, x: LedNotification)
    requires r.Valid()
    ensures Shown(r.Append(x)) == Shown(r).Append(x.led)
    ensures Shown(r).Valid() && Shown(r.Next()) == Shown(r).Next()
    ensures forall k: nat | k < |r.entries| :: Shown(r.RemoveAt(k)) == Shown(r).RemoveAt(k)
  {
    assert Leds(r.entries + [x]) == Leds(r.entries) + [x.led];
    forall k: nat | k < |r.entries| ensures Shown(r.RemoveAt(k)) == Shown(r).RemoveAt(k) {
      assert Leds(Without(r.entries, k)) == Without(Leds(r.entries), k);
    }
  }

  class LedManager {
    const list: LinkedList<LedNotification>
    const notificationPool: Pool
    /** Expiries handled sooner than this after a start are ignored. */
    const ignoreMs: nat

    var numNotifications: nat
    var displayed: LedNotification?
    var iter: Node?<LedNotification>
    var removed: LedNotification?
    var nextAfterRemoved: LedNotification?
    var ignoreBefore: uint32
    var isTimerRunning: bool
    /** The last command given to the LED setter. */
    var shown: Option<Led>

    ghost var Repr: set<object>
    ghost var cursor: nat
    /** Real time of the latest start of the timer. */
    ghost var timerStart: nat

    ghost predicate ListValid()
      reads this`numNotifications, list, list.nodes, notificationPool
      ensures ListValid() ==>
        list.Valid() && list.pool != notificationPool && numNotifications == |list.nodes| && Distinct(list.Contents())
    {
      && list.Valid()
      && list.pool != notificationPool
      && numNotifications == |list.nodes|
      && Distinct(list.Contents())
      && |notificationPool.live| == numNotifications
      && (forall i | 0 <= i < |list.nodes| :: list.nodes[i].element in notificationPool.live)
    }

    /** The display and the timer fit a list of these nodes, ... */
    ghost predicate ShownOk(nodes: seq<Node<LedNotification>>)
      reads this`displayed, this`ignoreBefore, this`isTimerRunning, this`shown, this`cursor, this`timerStart
    {
      && LedRing.Ring(Elements(nodes), cursor).Valid()
      && displayed == (if nodes == [] then null else nodes[cursor].element)
      && shown == (if nodes == [] then None else Some(nodes[cursor].element.led))
      && (isTimerRunning <==> |nodes| >= 2)
      && (isTimerRunning ==> ignoreBefore == OffsetIntoFuture(Reading(timerStart), ignoreMs))
    }

    /** ... and so does the iterator. */
    ghost predicate DisplayOk(nodes: seq<Node<LedNotification>>)
      reads this`displayed, this`iter, this`ignoreBefore, this`isTimerRunning, this`shown, this`cursor, this`timerStart
    {
      ShownOk(nodes) && (|nodes| >= 2 ==> iter == At(nodes, cursor + 1))
    }

    ghost predicate Consistent()
      reads this`numNotifications, this`displayed, this`iter, this`ignoreBefore, this`isTimerRunning
      reads this`shown, this`cursor, this`timerStart, list, list.nodes, notificationPool
    {
      ListValid() && DisplayOk(list.nodes)
    }

    ghost predicate Valid()
      reads this, Repr
      ensures Valid() ==> this in Repr && list in Repr && list.pool !in Repr && Ring().Valid()
    {
      && this in Repr && list in Repr && notificationPool in Repr
      && list.NodeSet() <= Repr && list.pool !in Repr
      && Consistent()
    }

    ghost function Ring(): Ring<LedNotification>
      reads this`cursor, list
    {
      LedRing.Ring(list.Contents(), cursor)
    }

    /** The node pool holds the nodes of this list, among others. */
    ghost predicate NodesLive()
      reads list, list.pool
    {
      list.NodeSet() <= list.pool.live
    }

    constructor (nodePool: Pool, notificationPool: Pool, durationMs: nat, marginMs: nat)
      requires nodePool != notificationPool && notificationPool.live == {}
      requires marginMs <= durationMs
      ensures Valid() && Ring() == LedRing.Ring([], 0) && fresh(Repr - {notificationPool})
      ensures list.nodes == [] && list.pool == nodePool
      ensures this.notificationPool == notificationPool && ignoreMs == durationMs - marginMs
    {
      list := new LinkedList(nodePool);
      this.notificationPool := notificationPool;
      ignoreMs := durationMs - marginMs;
      numNotifications, displayed, iter, removed, nextAfterRemoved := 0, null, null, null, null;
      ignoreBefore, isTimerRunning, shown, cursor, timerStart := 0, false, None, 0, 0;
      new;
      Repr := {this, list, notificationPool};
    }

    /** Steps the iterator, wrapping around at the end of the list; `k` is its
        position. */
    method AdvanceIterator(ghost k: nat) returns (next: LedNotification)
      requires list.Valid() && list.nodes != []
      requires k <= |list.nodes| && iter == At(list.nodes, k)
      modifies this`iter
      ensures var i := if k < |list.nodes| then k else 0;
              next == list.Contents()[i] && iter == At(list.nodes, i + 1)
    {
      var element, it := LinkedList<LedNotification>.IteratorNext(iter);
      iter := it;
      if element.None? {
        iter := list.IteratorInit();
        element, it := LinkedList<LedNotification>.IteratorNext(iter);
        iter := it;
      }
      next := element.value;
    }

    /** Leaves the iterator just after `target`, which is at position `k`. */
    method ResetIteratorAndIterateUntil(target: LedNotification, ghost k: nat)
      requires list.Valid() && Distinct(list.Contents())
      requires k < |list.nodes| && list.Contents()[k] == target
      modifies this`iter
      ensures iter == At(list.nodes, k + 1)
    {
      OnlyAt(list.Contents(), k);
      iter := list.IteratorInit();
      ghost var i := 0;
      while true
        invariant i <= k && iter == At(list.nodes, i)
        decreases k - i
      {
        var element, it := LinkedList<LedNotification>.IteratorNext(iter);
        iter := it;
        assert element.value == list.Contents()[i];
        if element == Some(target) { break; }
        i := i + 1;
      }
    }

    method DisplayNotification(notification: LedNotification)
      modifies this`displayed, this`shown
      ensures displayed == notification && shown == Some(notification.led)
    {
      displayed := notification;
      shown := Some(notification.led);
    }

    method TurnOffLed()
      modifies this`displayed, this`shown
      ensures displayed == null && shown == None
    {
      displayed := null;
      shown := None;
    }

    method StartNotificationTimer(now: nat)
      modifies this`ignoreBefore, this`isTimerRunning, this`timerStart
      ensures isTimerRunning && timerStart == now
      ensures ignoreBefore == OffsetIntoFuture(Reading(now), ignoreMs)
    {
      ignoreBefore := OffsetIntoFuture(Reading(now), ignoreMs);
      isTimerRunning := true;
      timerStart := now;
    }

    method StopNotificationTimer()
      modifies this`isTimerRunning
      ensures !isTimerRunning
    {
      isTimerRunning := false;
    }

    /** An expiry handled at `now` counts. */
    ghost predicate Ticks(now: nat)
      reads this`isTimerRunning, this`timerStart
    {
      isTimerRunning && Accepted(timerStart, now, ignoreMs)
    }

    /** What is shown, and when an expiry counts: with two entries or more, and in
        the half turn of the clock that begins when the time to ignore is over. */
    lemma ShownIs(now: nat)
      requires Valid()
      ensures var r := Ring();
              && shown == (if r.entries == [] then None else Some(r.entries[r.cursor].led))
              && (Ticks(now) <==>
                    |r.entries| >= 2 && (now - timerStart - ignoreMs) % TWO_TO_THE_32 < TWO_TO_THE_31)
    {
      AcceptedIsResidue(timerStart, now, ignoreMs);
    }

    /** An accepted expiry moves the display on; any other does nothing. */
    method NotificationTimerCb(now: nat)
      requires Valid()
      modifies Repr
      ensures Valid() && Repr == old(Repr) && list.nodes == old(list.nodes)
      ensures timerStart == old(timerStart)
      ensures old(Ticks(now)) <==>
                old(|list.nodes|) >= 2 && (now - old(timerStart) - ignoreMs) % TWO_TO_THE_32 < TWO_TO_THE_31
      ensures Ring() == if old(Ticks(now)) then old(Ring()).Next() else old(Ring())
    {
      ShownIs(now);
      if isTimerRunning && IsEqualOrAfter(Reading(now), ignoreBefore) {
        var next := AdvanceIterator(cursor + 1);
        DisplayNotification(next);
        cursor := if cursor + 1 < |list.nodes| then cursor + 1 else 0;
      }
    }

    /** Allocates a notification and appends it to the list. */
    method AddNotificationToList(led: Led)
      returns (notification: LedNotification, ghost node: Node<LedNotification>)
      requires ListValid() && NodesLive()
      requires |list.pool.live| < list.pool.capacity
      requires |notificationPool.live| < notificationPool.capacity
      modifies this`numNotifications, list, list.nodes, list.pool, notificationPool
      ensures ListValid() && fresh(notification) && notification.led == led
      ensures |list.nodes| == old(|list.nodes|) + 1 && fresh(node) && node !in old(list.pool.live)
      ensures list.NodeSet() == old(list.NodeSet()) + {node} && list.pool.live == old(list.pool.live) + {node}
      ensures list.Contents() == old(list.Contents()) + [notification]
    {
      hide LinkedList.Valid, LinkedList.NodeSet, Distinct;
      notification := new LedNotification(led);
      var ok := notificationPool.Alloc(notification);
      assert ok;
      ghost var was := list.Contents();
      DistinctExtend(was, notification);
      node := list.Append(notification);
      assert list.Contents() == was + [notification];
      numNotifications := numNotifications + 1;
    }

    /** The first notification is shown at once, the second one starts the
        alternation, and further ones leave the iterator where it belongs. */
    method UpdateDisplayAfterAdd(added: LedNotification, now: nat, ghost was: seq<Node<LedNotification>>)
      requires ListValid() && ShownOk(was) && |was| + 1 == |list.nodes|
      requires list.Contents() == Elements(was) + [added]
      modifies this`iter, this`displayed, this`shown, this`ignoreBefore, this`isTimerRunning, this`timerStart
      ensures Consistent()
      ensures timerStart == if numNotifications == 2 then now else old(timerStart)
    {
      hide LedManager.ListValid, LinkedList.Valid, Distinct, OffsetIntoFuture, Reading;
      assert forall i | 0 <= i < |was| :: list.Contents()[i] == was[i].element;
      assert list.Contents()[|was|] == added;
      if numNotifications == 1 {
        DisplayNotification(added);
      } else if numNotifications == 2 {
        iter := list.IteratorInit();
        var _ := AdvanceIterator(0);
        StartNotificationTimer(now);
      } else {
        ResetIteratorAndIterateUntil(displayed, cursor);
      }
    }

    method AddAndUpdateDisplay(led: Led, now: nat)
      returns (ghost notification: LedNotification, ghost node: Node<LedNotification>)
      requires Consistent() && NodesLive()
      requires |list.pool.live| < list.pool.capacity
      requires |list.nodes| < notificationPool.capacity
      modifies this`numNotifications, this`iter, this`displayed, this`shown
      modifies this`ignoreBefore, this`isTimerRunning, this`timerStart
      modifies list, list.nodes, list.pool, notificationPool
      ensures Consistent() && fresh(notification) && notification.led == led
      ensures fresh(node) && node !in old(list.pool.live)
      ensures list.NodeSet() == old(list.NodeSet()) + {node} && list.pool.live == old(list.pool.live) + {node}
      ensures Ring() == old(Ring()).Append(notification)
      ensures timerStart == if numNotifications == 2 then now else old(timerStart)
    {
      hide LedManager.ShownOk, LinkedList.Valid, Distinct, LinkedList.NodeSet;
      ghost var was := list.nodes;
      var added, n := AddNotificationToList(led);
      notification, node := added, n;
      UpdateDisplayAfterAdd(added, now, was);
    }

    method AddNotification(led: Led, now: nat)
      returns (ghost notification: LedNotification, ghost node: Node<LedNotification>)
      requires Valid() && NodesLive()
      requires |list.pool.live| < list.pool.capacity
      requires |list.nodes| < notificationPool.capacity
      modifies Repr, list.pool
      ensures Valid() && fresh(Repr - old(Repr)) && fresh(notification) && notification.led == led
      ensures fresh(node) && node !in old(list.pool.live)
      ensures list.NodeSet() == old(list.NodeSet()) + {node} && list.pool.live == old(list.pool.live) + {node}
      ensures Ring() == old(Ring()).Append(notification)
      ensures timerStart == if numNotifications == 2 then now else old(timerStart)
    {
      hide LedManager.Consistent, LedManager.Ring;
      notification, node := AddAndUpdateDisplay(led, now);
      Repr := Repr + {node};
    }

    /** The pre-remove callback for two or more notifications: the list is still
        intact, so the successor of the one about to go can be looked up. */
    method FindNextNotificationAfterRemovedAndFree(notification: LedNotification, ghost k: nat)
      requires ListValid() && numNotifications >= 2
      requires k < numNotifications && list.Contents()[k] == notification
      modifies this`iter, this`removed, this`nextAfterRemoved, notificationPool
      ensures removed == notification
      ensures nextAfterRemoved == list.Contents()[Successor(k, |list.nodes|)]
      ensures notificationPool.live == old(notificationPool.live) - {notification}
    {
      removed := notification;
      ResetIteratorAndIterateUntil(notification, k);
      nextAfterRemoved := AdvanceIterator(k + 1);
      OnlyAt(list.Contents(), k);
      assert notification != nextAfterRemoved;
      notificationPool.Free(notification);
    }

    /** Walks to the first notification with the given colour and pattern. */
    method Locate(led: Led)
      returns (prev: Node?<LedNotification>, node: Node?<LedNotification>,
               ghost kept: seq<Node<LedNotification>>, ghost rest: seq<Node<LedNotification>>)
      requires list.Valid()
      ensures list.Walking(prev, node, kept, rest)
      ensures prev != null ==> prev in list.nodes
      ensures |kept| == IndexOf(Leds(list.Contents()), led)
      ensures forall n | n in kept :: !HasLed(led)(n.element)
      ensures rest != [] ==> HasLed(led)(rest[0].element)
    {
      prev, node, kept, rest := list.FirstMatch(HasLed(led));
      ghost var leds := Leds(list.Contents());
      assert forall i | 0 <= i < |kept| :: leds[i] == kept[i].element.led;
      if node != null {
        assert list.nodes[|kept|] == node && leds[|kept|] == led;
      }
    }

    /** The pre-remove callback, the unlinking and the freeing of one entry. */
    method RemoveLocated(prev: Node?<LedNotification>, node: Node<LedNotification>,
                         ghost kept: seq<Node<LedNotification>>, ghost rest: seq<Node<LedNotification>>)
      requires ListValid() && NodesLive()
      requires list.Walking(prev, node, kept, rest)
      modifies this`numNotifications, this`iter, this`removed, this`nextAfterRemoved
      modifies list, prev, list.pool, notificationPool
      ensures ListValid()
      ensures |kept| < old(|list.nodes|) && list.nodes == Without(old(list.nodes), |kept|)
      ensures list.Contents() == Without(old(list.Contents()), |kept|)
      ensures list.NodeSet() == old(list.NodeSet()) - {node}
      ensures list.pool.live == old(list.pool.live) - {node}
      ensures numNotifications >= 1 ==>
        && removed == old(list.Contents())[|kept|]
        && nextAfterRemoved == old(list.Contents())[Successor(|kept|, old(|list.nodes|))]
    {
      hide LinkedList.NodeSet, Distinct;
      ghost var k, was := |kept|, list.Contents();
      assert list.nodes[k] == node;
      WithoutDistinct(was, k);
      OnlyAt(was, k);
      if numNotifications >= 2 {
        FindNextNotificationAfterRemovedAndFree(node.element, k);
      } else {
        notificationPool.Free(node.element);
      }
      list.Unlink(prev, node, kept, rest);
      numNotifications := numNotifications - 1;
      assert list.Contents() == Without(was, k);
    }

    /** The display moves only if its entry went, and then to the successor. */
    method UpdateDisplayAfterRemove(ghost was: seq<Node<LedNotification>>, ghost k: nat, now: nat)
      requires ListValid() && ShownOk(was) && k < |was| && Distinct(Elements(was))
      requires list.nodes == Without(was, k)
      requires |was| >= 2 ==> removed == was[k].element && nextAfterRemoved == was[Successor(k, |was|)].element
      modifies this`iter, this`displayed, this`shown, this`cursor
      modifies this`ignoreBefore, this`isTimerRunning, this`timerStart
      ensures Consistent()
      ensures Ring() == LedRing.Ring(Elements(was), old(cursor)).RemoveAt(k)
      ensures timerStart == if |was| >= 3 && old(cursor) == k then now else old(timerStart)
    {
      hide LedManager.ListValid, LinkedList.Valid, Distinct, OffsetIntoFuture, Reading, Without;
      hide LedRing.Ring.RemoveAt, Successor, Elements;
      ghost var next := DisplayedAfterRemoval(was, cursor, k);
      if numNotifications == 0 {
        TurnOffLed();
      } else if numNotifications == 1 {
        if displayed != nextAfterRemoved {
          DisplayNotification(nextAfterRemoved);
        }
        StopNotificationTimer();
      } else {
        if displayed == removed {
          ResetIteratorAndIterateUntil(nextAfterRemoved, next);
          DisplayNotification(nextAfterRemoved);
          StartNotificationTimer(now);
        } else {
          ResetIteratorAndIterateUntil(displayed, next);
        }
      }
      cursor := next;
    }

    /** Removes the entry the walk has stopped at. */
    method RemoveFound(prev: Node?<LedNotification>, node: Node<LedNotification>,
                       ghost kept: seq<Node<LedNotification>>, ghost rest: seq<Node<LedNotification>>, now: nat)
      requires Consistent() && NodesLive()
      requires list.Walking(prev, node, kept, rest)
      modifies this`numNotifications, this`iter, this`removed, this`nextAfterRemoved, this`displayed, this`shown
      modifies this`cursor, this`ignoreBefore, this`isTimerRunning, this`timerStart
      modifies list, prev, list.pool, notificationPool
      ensures Consistent()
      ensures |kept| < old(|list.nodes|) && Ring() == old(Ring()).RemoveAt(|kept|)
      ensures list.nodes == Without(old(list.nodes), |kept|)
      ensures list.NodeSet() == old(list.NodeSet()) - {node}
      ensures list.pool.live == old(list.pool.live) - {node}
      ensures timerStart == if old(|list.nodes|) >= 3 && old(cursor) == |kept| then now else old(timerStart)
    {
      hide LedManager.ShownOk, LinkedList.Valid, Distinct, LinkedList.NodeSet;
      ghost var was := list.nodes;
      assert list.nodes[|kept|] == node;
      RemoveLocated(prev, node, kept, rest);
      UpdateDisplayAfterRemove(was, |kept|, now);
    }

    method RemoveFirst(led: Led, now: nat) returns (found: bool)
      requires Consistent() && NodesLive()
      modifies this`numNotifications, this`iter, this`removed, this`nextAfterRemoved, this`displayed, this`shown
      modifies this`cursor, this`ignoreBefore, this`isTimerRunning, this`timerStart
      modifies list, list.nodes, list.pool, notificationPool
      ensures Consistent()
      ensures found <==> led in Leds(old(list.Contents()))
      ensures list.nodes == Survivors(old(list.nodes), 1, HasLed(led))
      ensures !found ==> Ring() == old(Ring()) && timerStart == old(timerStart)
      ensures !found ==> list.NodeSet() == old(list.NodeSet()) && list.pool.live == old(list.pool.live)
      ensures found ==>
        var k := IndexOf(Leds(old(list.Contents())), led);
        && Ring() == old(Ring()).RemoveAt(k)
        && list.NodeSet() == old(list.NodeSet()) - {old(list.nodes)[k]}
        && list.pool.live == old(list.pool.live) - {old(list.nodes)[k]}
        && timerStart == if old(|list.nodes|) >= 3 && old(cursor) == k then now else old(timerStart)
    {
      hide LedManager.DisplayOk, LinkedList.Valid, LinkedList.NodeSet, Survivors, HasLed, Distinct;
      if numNotifications == 0 {
        FirstMatchGoes([], list.nodes, HasLed(led));
        return false;
      }
      var prev, node, kept, rest := Locate(led);
      FirstMatchGoes(kept, rest, HasLed(led));
      found := node != null;
      if found {
        assert list.nodes[|kept|] == node;
        RemoveFound(prev, node, kept, rest, now);
      }
    }

    /** Removes the first notification with the given colour and pattern, which
        is the list's removal with limit 1; false if there is none. */
    method RemoveNotification(led: Led, now: nat) returns (found: bool)
      requires Valid() && NodesLive()
      modifies Repr, list.pool
      ensures Valid() && Repr == old(Repr)
      ensures found <==> led in Leds(old(list.Contents()))
      ensures list.nodes == Survivors(old(list.nodes), 1, HasLed(led))
      ensures !found ==> Ring() == old(Ring()) && timerStart == old(timerStart)
      ensures !found ==> list.NodeSet() == old(list.NodeSet()) && list.pool.live == old(list.pool.live)
      ensures found ==>
        var k := IndexOf(Leds(old(list.Contents())), led);
        && Ring() == old(Ring()).RemoveAt(k)
        && list.NodeSet() == old(list.NodeSet()) - {old(list.nodes)[k]}
        && list.pool.live == old(list.pool.live) - {old(list.nodes)[k]}
        && timerStart == if old(|list.nodes|) >= 3 && old(cursor) == k then now else old(timerStart)
    {
      hide LedManager.DisplayOk, LinkedList.Valid, Survivors, HasLed, Distinct, IndexOf;
      found := RemoveFirst(led, now);
    }
  }

  /** Where the ring's removal puts the cursor: on the successor of the removed
      entry if that was displayed, else still on the displayed one. */
  lemma DisplayedAfterRemoval(was: seq<Node<LedNotification>>, c: nat, k: nat) returns (next: nat)
    requires c < |was| && k < |was| && Distinct(Elements(was))
    ensures var entries := Elements(was);
            var left := Without(was, k);
            && |left| == |was| - 1 && (if left == [] then next == 0 else next < |left|)
            && LedRing.Ring(Elements(left), next) == LedRing.Ring(entries, c).RemoveAt(k)
            && (left != [] ==> left[next].element == entries[if k == c then Successor(k, |was|) else c])
            && (|left| == 1 ==> left[next].element == entries[Successor(k, |was|)])
            && (c == k <==> entries[c] == entries[k])
            && (left != [] ==> left[next].element != entries[k])
  {
    var entries := Elements(was);
    OnlyAt(entries, k);
    next := LedRing.Ring(entries, c).RemoveAt(k).cursor;
    assert Elements(Without(was, k)) == Without(entries, k);
  }

  /** The cyclic successor of position `k` among `n`. */
  function Successor(k: nat, n: nat): (i: nat)
    ensures k < n ==> i < n
  {
    if k + 1 < n then k + 1 else 0
  }
}
