/** The embassy `Channel<M, T, N>` used between the calendar and IMU tasks:
    a bounded FIFO of at most `capacity` pending values. Producers in the
    firmware call `clear` right before `send` so that the channel holds only
    the newest value; `Publish` is that pair. */
module Channels {
  import opened Wrappers

  class Channel<T> {
    /** Pending values, oldest first. */
    var items: seq<T>
    const capacity: nat

    ghost predicate Valid()
      reads this
    {
      capacity >= 1 && |items| <= capacity
    }

    constructor (n: nat)
      requires n >= 1
      ensures Valid() && capacity == n && items == []
    {
      capacity := n;
      items := [];
    }

    /** `Sender::clear`: drop every pending value. */
    method Clear()
      requires Valid()
      modifies this
      ensures Valid() && items == []
    {
      items := [];
    }

    /** `Sender::send`. On a full channel the sender would wait until a
        receiver makes room; the model reports that (`accepted == false`)
        and leaves the channel as it was. */
    method Send(v: T) returns (accepted: bool)
      requires Valid()
      modifies this
      ensures Valid()
      ensures accepted <==> |old(items)| < capacity
      ensures items == if accepted then old(items) + [v] else old(items)
    {
      accepted := |items| < capacity;
      if accepted {
        items := items + [v];
      }
    }

    /** The clear-then-send pair every latest-value producer uses: afterwards
        exactly `v` is pending, whatever was there before. */
    method Publish(v: T)
      requires Valid()
      modifies this
      ensures Valid() && items == [v]
    {
      Clear();
      var accepted := Send(v);
      assert accepted;
    }

    /** `Receiver::try_peek`: the value a receive would return, left in place. */
    method TryPeek() returns (r: Option<T>)
      requires Valid()
      ensures r.Some? <==> items != []
      ensures r.Some? ==> r.value == items[0]
    {
      if items == [] {
        r := None;
      } else {
        r := Some(items[0]);
      }
    }

    /** `Receiver::try_receive`: take the oldest pending value, if any. */
    method TryReceive() returns (r: Option<T>)
      requires Valid()
      modifies this
      ensures Valid()
      ensures r.Some? <==> old(items) != []
      ensures r.Some? ==> r.value == old(items)[0] && items == old(items)[1..]
      ensures r.None? ==> items == old(items)
    {
      if items == [] {
        r := None;
      } else {
        r := Some(items[0]);
        items := items[1..];
      }
    }
  }

  /** Latest value wins: three publications with no receive in between leave
      only the third one observable, by peek and then by receive. */
  method PublishOverwrites<T>(ch: Channel<T>, v1: T, v2: T, v3: T) returns (peeked: Option<T>, received: Option<T>)
    requires ch.Valid()
    modifies ch
    ensures peeked == Some(v3) && received == Some(v3)
    ensures ch.Valid() && ch.items == []
  {
    ch.Publish(v1);
    ch.Publish(v2);
    ch.Publish(v3);
    peeked := ch.TryPeek();
    received := ch.TryReceive();
  }
}
