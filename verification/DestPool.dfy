/** Taking an idle socket from a destination's queue: expired and dead sockets are
    discarded from the front until a usable one or the end of the queue. */
module DestPool {

  import opened Options

  /** `alive`: what the two-stage liveness probe would find. */
  datatype Conn = Conn(lastUse: int, alive: bool)

  predicate Usable(c: Conn, now: int, idleTtl: int)
  {
    now - c.lastUse <= idleTtl && c.alive
  }

  /** A live socket can be used up to the end of its time to live and not after; a dead one
      never. */
  lemma UsableUntil(t: int, ttl: nat, now: int)
    ensures Usable(Conn(t, true), now, ttl) <==> now <= t + ttl
    ensures !Usable(Conn(t, false), now, ttl)
  {
  }

  class DestPool {
    var idle: seq<Conn>
    var lastUsed: int

    constructor (now: int)
      ensures idle == [] && lastUsed == now
    {
      idle, lastUsed := [], now;
    }

    /** The first usable socket with its age, and how many slots were discarded before it;
        without one the queue is left empty.  The use time moves either way. */
    method TryTake(now: int, idleTtl: int) returns (taken: Option<(Conn, int)>, stale: nat)
      modifies this
      ensures lastUsed == now
      ensures stale <= old(|idle|)
      ensures forall k :: 0 <= k < stale ==> !Usable(old(idle)[k], now, idleTtl)
      ensures taken.Some? ==>
                && stale < old(|idle|) && Usable(old(idle)[stale], now, idleTtl)
                && taken.value == (old(idle)[stale], now - old(idle)[stale].lastUse)
                && idle == old(idle)[stale + 1..]
      ensures taken.None? ==> stale == old(|idle|) && idle == []
    {
      lastUsed := now;
      stale := 0;
      while idle != []
        invariant lastUsed == now && stale <= old(|idle|) && idle == old(idle)[stale..]
        invariant forall k :: 0 <= k < stale ==> !Usable(old(idle)[k], now, idleTtl)
        decreases |idle|
      {
        var c := idle[0];
        idle := idle[1..];
        if now - c.lastUse > idleTtl {
          stale := stale + 1;
          continue;
        }
        if c.alive {
          return Some((c, now - c.lastUse)), stale;
        }
        stale := stale + 1;
      }
      taken := None;
    }

    /** A refill that connected: queued if there is room, refused otherwise. */
    method Push(c: Conn, maxPerDest: nat) returns (kept: bool)
      modifies this`idle
      ensures kept <==> old(|idle|) < maxPerDest
      ensures idle == if kept then old(idle) + [c] else old(idle)
    {
      kept := |idle| < maxPerDest;
      if kept {
        idle := idle + [c];
      }
    }
  }
}
