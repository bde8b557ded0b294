/**
 The relay's fan-out registry (pkg/grpc/broadcaster.go).

 A Broadcaster maps subscriber ids to mailboxes. A mailbox is the Go
 buffered channel of one subscriber: the samples queued in it, oldest
 first, and its fixed capacity. Samples are opaque, so they are a type
 parameter `M` throughout. Locking is not modelled: every operation is
 one atomic step.
 */
module Broadcasting {

  /** A subscriber's buffered channel: its queued samples, oldest first, and its capacity. */
  datatype Mailbox<M> = Mailbox(items: seq<M>, capacity: nat)
  {
    /** A buffered channel never holds more samples than its capacity. */
    predicate Bounded() { |items| <= capacity }

    /** A non-blocking send into a buffered channel (capacity > 0) succeeds
        exactly when this holds. */
    predicate HasRoom() { |items| < capacity }
  }

  /** Subscriber id to mailbox. */
  type Registry<M> = map<string, Mailbox<M>>

  ghost predicate AllBounded<M>(reg: Registry<M>)
  {
    forall id :: id in reg ==> reg[id].Bounded()
  }

  /** The try-send of Broadcast on one channel: enqueue `m` at the tail when
      there is room, otherwise drop it. */
  function Offer<M>(mb: Mailbox<M>, m: M): (r: Mailbox<M>)
    ensures r.capacity == mb.capacity
    ensures r.items == mb.items || r.items == mb.items + [m]
    ensures |r.items| > |mb.items| <==> mb.HasRoom()
    ensures mb.Bounded() ==> r.Bounded()
  {
    if mb.HasRoom() then mb.(items := mb.items + [m]) else mb
  }

  /** A receive from the channel: the oldest sample and what is left behind it. */
  function Take<M>(mb: Mailbox<M>): (r: (M, Mailbox<M>))
    requires mb.items != []
    ensures [r.0] + r.1.items == mb.items
    ensures r.1.capacity == mb.capacity
    ensures mb.Bounded() ==> r.1.Bounded()
  {
    (mb.items[0], mb.(items := mb.items[1..]))
  }

  /** One Broadcast: every registered mailbox is offered `m`, independently of the others. */
  function Fanout<M>(reg: Registry<M>, m: M): (r: Registry<M>)
    ensures r.Keys == reg.Keys
    ensures forall id :: id in reg && reg[id].HasRoom() ==>
      r[id].items == reg[id].items + [m] && r[id].capacity == reg[id].capacity
    ensures forall id :: id in reg && !reg[id].HasRoom() ==> r[id] == reg[id]
    ensures AllBounded(reg) ==> AllBounded(r)
  {
    map id | id in reg :: Offer(reg[id], m)
  }

  /** The ids whose mailbox is full, i.e. those for which Broadcast drops the sample. */
  function FullIds<M>(reg: Registry<M>): set<string>
  {
    set id | id in reg && !reg[id].HasRoom()
  }

  /** Successive Broadcast calls, one per element of `ms`, in order. */
  function FanoutAll<M>(reg: Registry<M>, ms: seq<M>): (r: Registry<M>)
    ensures r.Keys == reg.Keys
    decreases |ms|
  {
    if ms == [] then reg else Fanout(FanoutAll(reg, ms[..|ms| - 1]), ms[|ms| - 1])
  }

  function Min(a: int, b: int): int { if a <= b then a else b }

  /** One mailbox offered each sample of `ms` in turn. */
  function OfferAll<M>(mb: Mailbox<M>, ms: seq<M>): Mailbox<M>
    decreases |ms|
  {
    if ms == [] then mb else Offer(OfferAll(mb, ms[..|ms| - 1]), ms[|ms| - 1])
  }

  /** Successive broadcasts act on each mailbox independently of the others. */
  lemma {:induction false} FanoutAllAt<M>(reg: Registry<M>, ms: seq<M>, id: string)
    requires id in reg
    ensures id in FanoutAll(reg, ms)
    ensures FanoutAll(reg, ms)[id] == OfferAll(reg[id], ms)
    decreases |ms|
  {
    if ms != [] {
      FanoutAllAt(reg, ms[..|ms| - 1], id);
    }
  }

  /** Drop-newest on one mailbox: it keeps what it had followed by the first
      samples that fit. */
  lemma {:induction false} OfferAllKeepsFirstArrivals<M>(mb: Mailbox<M>, ms: seq<M>)
    requires mb.Bounded()
    ensures OfferAll(mb, ms).capacity == mb.capacity
    ensures OfferAll(mb, ms).items == mb.items + ms[..Min(|ms|, mb.capacity - |mb.items|)]
    decreases |ms|
  {
    var q, room := mb.items, mb.capacity - |mb.items|;
    if ms == [] {
      assert ms[..Min(|ms|, room)] == [];
    } else {
      var init, last := ms[..|ms| - 1], ms[|ms| - 1];
      OfferAllKeepsFirstArrivals(mb, init);
      var before := OfferAll(mb, init);
      if |init| < room {
        assert before.items == q + init;
        assert ms[..Min(|ms|, room)] == init + [last];
      } else {
        assert before.items == q + init[..room];
        assert ms[..Min(|ms|, room)] == init[..room];
      }
    }
  }

  /** Per-subscriber FIFO with drop-newest: with nothing drained, a mailbox
      keeps the samples it already had followed by the first samples that
      fit, in broadcast order; every later sample is dropped. */
  lemma FanoutAllKeepsFirstArrivals<M>(reg: Registry<M>, ms: seq<M>, id: string)
    requires id in reg && reg[id].Bounded()
    ensures id in FanoutAll(reg, ms)
    ensures FanoutAll(reg, ms)[id].capacity == reg[id].capacity
    ensures FanoutAll(reg, ms)[id].items
         == reg[id].items + ms[..Min(|ms|, reg[id].capacity - |reg[id].items|)]
  {
    FanoutAllAt(reg, ms, id);
    OfferAllKeepsFirstArrivals(reg[id], ms);
  }

  /** Capacity 2, nothing drained, samples m1, m2, m3 broadcast in turn: the
      mailbox ends as [m1, m2]; only the third Broadcast finds it full, so m3
      is the one sample dropped. */
  lemma CapacityTwoKeepsFirstTwo<M>(id: string, m1: M, m2: M, m3: M)
    ensures var reg := map[id := Mailbox([], 2)];
      && id in FanoutAll(reg, [m1, m2, m3])
      && FanoutAll(reg, [m1, m2, m3])[id].items == [m1, m2]
      && FullIds(reg) == {}
      && FullIds(FanoutAll(reg, [m1])) == {}
      && FullIds(FanoutAll(reg, [m1, m2])) == {id}
  {
    var reg := map[id := Mailbox([], 2)];
    FullIdsOfOne(reg, id);
    var r1 := FanoutAll(reg, [m1]);
    FanoutAllKeepsFirstArrivals(reg, [m1], id);
    FullIdsOfOne(r1, id);
    var r2 := FanoutAll(reg, [m1, m2]);
    FanoutAllKeepsFirstArrivals(reg, [m1, m2], id);
    assert [m1, m2][..2] == [m1, m2];
    FullIdsOfOne(r2, id);
    FanoutAllKeepsFirstArrivals(reg, [m1, m2, m3], id);
    assert [m1, m2, m3][..2] == [m1, m2];
  }

  /** In a registry with a single subscriber, that subscriber is the only one that can be full. */
  lemma FullIdsOfOne<M>(reg: Registry<M>, id: string)
    requires reg.Keys == {id}
    ensures FullIds(reg) == if reg[id].HasRoom() then {} else {id}
  {
  }

  /** Unregistering twice is the same as once; unregistering an absent id changes nothing. */
  lemma UnregisterIdempotent<M>(reg: Registry<M>, id: string)
    ensures (reg - {id}) - {id} == reg - {id}
    ensures id !in reg ==> reg - {id} == reg
  {
  }

  /** Registering under several ids, one after another, each with mailbox `mb`. */
  function RegisterAll<M>(reg: Registry<M>, ids: seq<string>, mb: Mailbox<M>): Registry<M>
    decreases |ids|
  {
    if ids == [] then reg else RegisterAll(reg[ids[0] := mb], ids[1..], mb)
  }

  /** Registering N subscribers under pairwise distinct fresh ids yields N new
      entries and overwrites none of the existing ones. */
  lemma {:induction false} RegisterAllDistinct<M>(reg: Registry<M>, ids: seq<string>, mb: Mailbox<M>)
    requires forall i, j :: 0 <= i < j < |ids| ==> ids[i] != ids[j]
    requires forall id :: id in ids ==> id !in reg
    ensures forall id :: id in RegisterAll(reg, ids, mb) <==> id in reg || id in ids
    ensures |RegisterAll(reg, ids, mb)| == |reg| + |ids|
    ensures forall id :: id in reg ==> RegisterAll(reg, ids, mb)[id] == reg[id]
    ensures forall id :: id in ids ==> RegisterAll(reg, ids, mb)[id] == mb
    decreases |ids|
  {
    if ids != [] {
      var next := reg[ids[0] := mb];
      var tail := ids[1..];
      TailDistinct(ids);
      assert ids[0] !in reg;
      assert |next| == |reg| + 1;
      forall id | id in tail ensures id !in next {
        assert id in ids;
      }
      RegisterAllDistinct(next, tail, mb);
      var r := RegisterAll(next, tail, mb);
      assert RegisterAll(reg, ids, mb) == r;
      forall id ensures id in r <==> id in reg || id in ids {
        assert id in ids <==> id == ids[0] || id in tail by {
          assert ids == [ids[0]] + tail;
        }
      }
      forall id | id in reg ensures r[id] == reg[id] {
        assert id != ids[0];
      }
      forall id | id in ids ensures r[id] == mb {
        assert id == ids[0] || id in tail by {
          assert ids == [ids[0]] + tail;
        }
      }
    }
  }

  lemma TailDistinct(ids: seq<string>)
    requires ids != []
    requires forall i, j :: 0 <= i < j < |ids| ==> ids[i] != ids[j]
    ensures forall i, j :: 0 <= i < j < |ids[1..]| ==> ids[1..][i] != ids[1..][j]
    ensures ids[0] !in ids[1..]
  {
    forall i, j | 0 <= i < j < |ids[1..]| ensures ids[1..][i] != ids[1..][j] {
      assert ids[1..][i] == ids[i + 1] && ids[1..][j] == ids[j + 1];
    }
  }

  /** One operation on the registry, as the handlers issue them. */
  datatype Call<M> =
    | RegisterCall(id: string, mb: Mailbox<M>)
    | UnregisterCall(id: string)
    | BroadcastCall(msg: M)
    | ReceiveCall(id: string)

  /** A Go channel is never over capacity, so only bounded mailboxes are ever registered. */
  ghost predicate WellFormed<M>(c: Call<M>)
  {
    c.RegisterCall? ==> c.mb.Bounded()
  }

  /** The effect of one call. A receive from an absent or empty mailbox does
      not happen (the receiver is still waiting), so it changes nothing. */
  function Apply<M>(reg: Registry<M>, c: Call<M>): Registry<M>
  {
    match c
    case RegisterCall(id, mb) => reg[id := mb]
    case UnregisterCall(id) => reg - {id}
    case BroadcastCall(m) => Fanout(reg, m)
    case ReceiveCall(id) =>
      if id in reg && reg[id].items != [] then reg[id := Take(reg[id]).1] else reg
  }

  function ApplyAll<M>(reg: Registry<M>, calls: seq<Call<M>>): Registry<M>
    decreases |calls|
  {
    if calls == [] then reg else ApplyAll(Apply(reg, calls[0]), calls[1..])
  }

  /** Every mailbox stays within its capacity across any sequence of calls. */
  lemma {:induction false} ApplyAllKeepsBounded<M>(reg: Registry<M>, calls: seq<Call<M>>)
    requires AllBounded(reg)
    requires forall i :: 0 <= i < |calls| ==> WellFormed(calls[i])
    ensures AllBounded(ApplyAll(reg, calls))
    decreases |calls|
  {
    if calls != [] {
      var next := Apply(reg, calls[0]);
      assert WellFormed(calls[0]);
      match calls[0] {
        case RegisterCall(id, mb) =>
        case UnregisterCall(id) =>
        case BroadcastCall(m) =>
        case ReceiveCall(id) =>
          if id in reg && reg[id].items != [] {
            assert reg[id].Bounded();
          }
      }
      assert AllBounded(next);
      assert forall i :: 0 <= i < |calls[1..]| ==> WellFormed(calls[1..][i]) by {
        forall i | 0 <= i < |calls[1..]| ensures WellFormed(calls[1..][i]) {
          assert calls[1..][i] == calls[i + 1];
        }
      }
      ApplyAllKeepsBounded(next, calls[1..]);
    }
  }

  /** The registry object shared by all handlers. */
  class Broadcaster<M> {
    var subscribers: Registry<M>

    ghost predicate Valid()
      reads this
    {
      AllBounded(subscribers)
    }

    /** NewBroadcaster: no subscriber yet. */
    constructor ()
      ensures Valid()
      ensures subscribers == map[]
    {
      subscribers := map[];
    }

    /** Inserts `id` with mailbox `mb`; an entry already under `id` is replaced. */
    method Register(id: string, mb: Mailbox<M>)
      requires Valid() && mb.Bounded()
      modifies this
      ensures Valid()
      ensures subscribers == old(subscribers)[id := mb]
    {
      subscribers := subscribers[id := mb];
    }

    /** Deletes `id`; an absent id is a no-op. */
    method Unregister(id: string)
      requires Valid()
      modifies this
      ensures Valid()
      ensures subscribers == old(subscribers) - {id}
      ensures old(id !in subscribers) ==> subscribers == old(subscribers)
    {
      subscribers := subscribers - {id};
    }

    /** Try-sends `m` to every subscriber, in whatever order the map is walked;
        returns the ids for which `m` was dropped because their mailbox was full. */
    method Broadcast(m: M) returns (dropped: set<string>)
      requires Valid()
      modifies this
      ensures Valid()
      ensures subscribers == Fanout(old(subscribers), m)
      ensures dropped == FullIds(old(subscribers))
    {
      ghost var before := subscribers;
      var remaining := subscribers.Keys;
      dropped := {};
      while remaining != {}
        invariant remaining <= before.Keys
        invariant subscribers.Keys == before.Keys
        invariant forall id :: id in before && id !in remaining ==> subscribers[id] == Offer(before[id], m)
        invariant forall id :: id in remaining ==> subscribers[id] == before[id]
        invariant dropped == set id | id in before && id !in remaining && !before[id].HasRoom()
        decreases remaining
      {
        var id :| id in remaining;
        var ch := subscribers[id];
        if |ch.items| < ch.capacity {
          subscribers := subscribers[id := ch.(items := ch.items + [m])];
        } else {
          dropped := dropped + {id};
        }
        remaining := remaining - {id};
      }
      assert subscribers == Fanout(before, m);
    }

    /** The receive `<-ch` of the subscriber that owns mailbox `id`: the oldest sample leaves it. */
    method Receive(id: string) returns (m: M)
      requires Valid() && id in subscribers && subscribers[id].items != []
      modifies this
      ensures Valid()
      ensures subscribers == old(subscribers)[id := Take(old(subscribers[id])).1]
      ensures [m] + subscribers[id].items == old(subscribers[id].items)
    {
      var ch := subscribers[id];
      m := ch.items[0];
      subscribers := subscribers[id := ch.(items := ch.items[1..])];
    }
  }
}
