/** Rate limiting: requests for bandwidth share the quota of their channels in rounds. */
module Bandwidth {

  function Max(a: int, b: int): int {
    if a < b then b else a
  }

  function Min(a: int, b: int): int {
    if a < b then a else b
  }

  /** The bytes a channel gains in a number of milliseconds at `limit` bytes a second, rounded to the nearest. */
  function Refill(limit: int, dt: nat): (r: int)
    requires limit >= 0
    ensures r >= 0 && limit * dt - 500 < 1000 * r <= limit * dt + 500
  {
    (limit * dt + 500) / 1000
  }

  /** A rate limit. A limit of 0 is none. The ghost counters keep the books of a limited channel. */
  class Channel {
    var tmp: int
    var distributeQuota: int
    var quotaLeft: int
    var limit: int
    ghost var used: int
    ghost var refilled: int
    ghost var returned: int

    /** No more was used than came in. What the cap on saved up quota cut off is lost. */
    ghost predicate Valid()
      reads this
    {
      limit >= 0 && quotaLeft + used <= refilled + returned
    }

    constructor ()
      ensures Valid() && quotaLeft == 0 && limit == 0 && used == refilled == returned == 0
    {
      tmp, distributeQuota, quotaLeft, limit := 0, 0, 0, 0;
      used, refilled, returned := 0, 0, 0;
    }

    method Throttle(limit: int)
      requires Valid() && limit >= 0
      modifies this`limit
      ensures Valid() && this.limit == limit
    {
      this.limit := limit;
    }

    /** Refills the quota, saving up three seconds at most; what is left is distributed in this round. */
    method UpdateQuota(dt: nat)
      requires Valid()
      modifies this`quotaLeft, this`distributeQuota, this`refilled
      ensures Valid()
      ensures limit == 0 ==> quotaLeft == old(quotaLeft) && refilled == old(refilled) && distributeQuota == old(distributeQuota)
      ensures limit > 0 ==>
                && refilled == old(refilled) + Refill(limit, dt)
                && quotaLeft == Min(old(quotaLeft) + Refill(limit, dt), 3 * limit)
                && distributeQuota == Max(quotaLeft, 0)
    {
      if limit == 0 { return; }
      quotaLeft := quotaLeft + Refill(limit, dt);
      refilled := refilled + Refill(limit, dt);
      if quotaLeft > limit * 3 {
        quotaLeft := limit * 3;
      }
      distributeQuota := Max(quotaLeft, 0);
    }

    method ReturnQuota(amount: int)
      requires Valid() && amount >= 0
      modifies this`quotaLeft, this`returned
      ensures Valid()
      ensures quotaLeft == old(quotaLeft) + (if limit == 0 then 0 else amount)
      ensures returned == old(returned) + (if limit == 0 then 0 else amount)
    {
      if limit == 0 { return; }
      quotaLeft := quotaLeft + amount;
      returned := returned + amount;
    }

    method UseQuota(amount: int)
      requires Valid() && amount >= 0
      modifies this`quotaLeft, this`used
      ensures Valid()
      ensures quotaLeft == old(quotaLeft) - (if limit == 0 then 0 else amount)
      ensures used == old(used) + (if limit == 0 then 0 else amount)
    {
      if limit == 0 { return; }
      quotaLeft := quotaLeft - amount;
      used := used + amount;
    }
  }

  /** A peer waiting for bandwidth from all of its channels. */
  datatype Request = Request(peer: nat, priority: int, given: int, requestSize: int, ttl: int, channels: seq<Channel>) {
    ghost predicate Waiting() {
      priority > 0 && 0 <= given < requestSize && 0 < |channels| <= 5
    }

    function Owed(): int {
      requestSize - given
    }
  }

  /** How often a channel limits a request. */
  function Times(channels: seq<Channel>, c: Channel): nat {
    if channels == [] then 0 else Times(channels[..|channels| - 1], c) + if channels[|channels| - 1] == c then 1 else 0
  }

  /** The total priority of the requests on a channel. */
  function Weight(queue: seq<Request>, c: Channel): int {
    if queue == [] then 0
    else Weight(queue[..|queue| - 1], c) + queue[|queue| - 1].priority * Times(queue[|queue| - 1].channels, c)
  }

  /** The bytes all requests still wait for. */
  function TotalOwed(queue: seq<Request>): int {
    if queue == [] then 0 else TotalOwed(queue[..|queue| - 1]) + queue[|queue| - 1].Owed()
  }

  ghost function Channels(queue: seq<Request>): set<Channel> {
    set r, c | r in queue && c in r.channels :: c
  }

  /** What a round granted through a channel: each request's new bytes, as often as the channel limits it. */
  function Granted(before: seq<Request>, after: seq<Request>, c: Channel): int
    requires |before| == |after|
  {
    if before == [] then 0
    else
      var n := |before| - 1;
      Granted(before[..n], after[..n], c) + (after[n].given - before[n].given) * Times(before[n].channels, c)
  }

  lemma {:induction false} TimesNone(channels: seq<Channel>, c: Channel)
    ensures Times(channels, c) > 0 <==> c in channels
  {
    if channels != [] {
      TimesNone(channels[..|channels| - 1], c);
      assert channels == channels[..|channels| - 1] + [channels[|channels| - 1]];
    }
  }

  lemma {:induction false} WeightPositive(queue: seq<Request>, c: Channel)
    requires forall r | r in queue :: r.priority > 0
    ensures Weight(queue, c) >= 0
    ensures Weight(queue, c) > 0 <==> c in Channels(queue)
  {
    if queue != [] {
      var n := |queue| - 1;
      assert queue == queue[..n] + [queue[n]];
      WeightPositive(queue[..n], c);
      TimesNone(queue[n].channels, c);
      Product(queue[n].priority, Times(queue[n].channels, c));
      if c in Channels(queue) {
        var r :| r in queue && c in r.channels;
        if c !in queue[n].channels {
          assert r in queue[..n];
          assert c in Channels(queue[..n]);
        }
      }
      if c in Channels(queue[..n]) || c in queue[n].channels {
        if c in queue[n].channels {
          assert queue[n] in queue;
        } else {
          var r :| r in queue[..n] && c in r.channels;
          assert r in queue;
        }
        assert c in Channels(queue);
      }
    }
  }

  lemma Product(p: int, t: nat)
    requires p > 0
    ensures p * t >= 0 && (p * t > 0 <==> t > 0) && p * t >= t
  {
  }

  lemma {:induction false} OwedSplits(a: seq<Request>, b: seq<Request>)
    ensures TotalOwed(a + b) == TotalOwed(a) + TotalOwed(b)
  {
    if b == [] {
      assert a + b == a;
    } else {
      assert (a + b)[..|a + b| - 1] == a + b[..|b| - 1];
      OwedSplits(a, b[..|b| - 1]);
    }
  }

  lemma OwedNone()
    ensures TotalOwed([]) == 0
  {
  }

  lemma SplitAt(queue: seq<Request>, i: nat)
    requires i < |queue|
    ensures TotalOwed(queue[..i] + queue[i + 1..]) == TotalOwed(queue) - queue[i].Owed()
    ensures queue[..i + 1] == queue[..i] + [queue[i]]
    ensures (queue[..i] + queue[i + 1..])[..i] == queue[..i] && (queue[..i] + queue[i + 1..])[i..] == queue[i + 1..]
  {
    OwedOne(queue[..i], queue[i], queue[i + 1..]);
    assert queue == queue[..i] + [queue[i]] + queue[i + 1..];
  }

  lemma OwedOne(a: seq<Request>, r: Request, b: seq<Request>)
    ensures TotalOwed(a + [r] + b) == TotalOwed(a) + r.Owed() + TotalOwed(b)
    ensures TotalOwed(a + b) == TotalOwed(a) + TotalOwed(b)
  {
    OwedSplits(a + [r], b);
    OwedSplits(a, [r]);
    OwedSplits(a, b);
    assert TotalOwed([r]) == r.Owed() by { assert [r][..0] == []; }
  }

  /** A channel that takes part in the sharing of this round. */
  predicate Limits(c: Channel)
    reads c`limit, c`tmp
  {
    c.limit != 0 && c.tmp != 0
  }

  /** The part of a channel's quota that a priority is due. */
  function Share(c: Channel, priority: int): int
    requires c.tmp != 0
    reads c`tmp, c`distributeQuota
  {
    c.distributeQuota * priority / c.tmp
  }

  lemma ShareBounds(quota: int, priority: int, total: int)
    requires quota >= 0 && priority > 0 && total > 0
    ensures quota * priority / total >= 0
    ensures quota * priority / total * total <= quota * priority
  {
    var x := quota * priority;
    assert x >= 0;
    assert x == x / total * total + x % total;
  }

  /** The channels of a request are ready to share their quota. */
  ghost predicate Ready(channels: seq<Channel>)
    reads channels
  {
    forall c | c in channels :: c.Valid() && (c.limit != 0 ==> c.distributeQuota >= 0 && c.tmp > 0)
  }

  /** Grants a request what its most limiting channel allows, and takes it out of every channel. */
  method AssignBandwidth(r: Request) returns (r': Request, quota: int)
    requires r.Waiting() && Ready(r.channels)
    modifies r.channels`quotaLeft, r.channels`used
    ensures r' == r.(given := r.given + quota, ttl := r.ttl - 1) && 0 <= quota <= r.Owed()
    ensures forall c | c in r.channels && Limits(c) :: quota <= Share(c, r.priority)
    ensures quota == r.Owed() || exists c | c in r.channels :: Limits(c) && quota == Share(c, r.priority)
    ensures forall c | c in r.channels ::
              && c.Valid()
              && c.used == old(c.used) + (if c.limit == 0 then 0 else quota * Times(r.channels, c))
              && c.quotaLeft == old(c.quotaLeft) - (if c.limit == 0 then 0 else quota * Times(r.channels, c))
  {
    quota := r.requestSize - r.given;
    for j := 0 to |r.channels|
      invariant 0 <= quota <= r.Owed()
      invariant forall c | c in r.channels[..j] && Limits(c) :: quota <= Share(c, r.priority)
      invariant quota == r.Owed() || exists c | c in r.channels :: Limits(c) && quota == Share(c, r.priority)
      invariant forall c | c in r.channels :: c.quotaLeft == old(c.quotaLeft) && c.used == old(c.used)
    {
      var c := r.channels[j];
      assert r.channels[..j + 1] == r.channels[..j] + [c];
      if c.limit == 0 { continue; }
      if c.tmp == 0 { continue; }
      ShareBounds(c.distributeQuota, r.priority, c.tmp);
      quota := Min(Share(c, r.priority), quota);
    }
    assert r.channels[..|r.channels|] == r.channels;
    r' := r.(given := r.given + quota, ttl := r.ttl - 1);
    UseQuotas(r.channels, quota);
  }

  method UseQuotas(channels: seq<Channel>, quota: int)
    requires quota >= 0 && forall c | c in channels :: c.Valid()
    modifies channels`quotaLeft, channels`used
    ensures forall c | c in channels ::
              && c.Valid()
              && c.used == old(c.used) + (if c.limit == 0 then 0 else quota * Times(channels, c))
              && c.quotaLeft == old(c.quotaLeft) - (if c.limit == 0 then 0 else quota * Times(channels, c))
  {
    for j := 0 to |channels|
      invariant forall c | c in channels ::
                  && c.Valid()
                  && c.used == old(c.used) + (if c.limit == 0 then 0 else quota * Times(channels[..j], c))
                  && c.quotaLeft == old(c.quotaLeft) - (if c.limit == 0 then 0 else quota * Times(channels[..j], c))
    {
      assert channels[..j + 1][..j] == channels[..j];
      forall c ensures quota * Times(channels[..j + 1], c) == quota * Times(channels[..j], c) + if channels[j] == c then quota else 0 {
        OnceMore(quota, Times(channels[..j], c), if channels[j] == c then 1 else 0);
      }
      channels[j].UseQuota(quota);
    }
    assert channels[..|channels|] == channels;
  }

  lemma OnceMore(quota: int, t: int, d: int)
    ensures quota * (t + d) == quota * t + quota * d
  {
  }

  /** The channels among these that have a limit. */
  function Limited(channels: seq<Channel?>): (r: seq<Channel>)
    reads channels
    ensures |r| <= |channels| && forall c | c in r :: c in channels && c.limit > 0
    decreases |channels|
  {
    if channels == [] then []
    else
      var c := channels[|channels| - 1];
      assert c in channels;
      Limited(channels[..|channels| - 1]) + if c != null && c.limit > 0 then [c] else []
  }

  /** The requests of peers that are still connected. */
  function Connected(queue: seq<Request>, disconnecting: set<nat>): seq<Request> {
    if queue == [] then []
    else
      Connected(queue[..|queue| - 1], disconnecting)
      + if queue[|queue| - 1].peer in disconnecting then [] else [queue[|queue| - 1]]
  }

  /** What the requests of disconnecting peers give back to a channel. */
  function GivenBack(queue: seq<Request>, disconnecting: set<nat>, c: Channel): int {
    if queue == [] then 0
    else GivenBack(queue[..|queue| - 1], disconnecting, c) + Back(queue[|queue| - 1], disconnecting, c)
  }

  function Back(r: Request, disconnecting: set<nat>, c: Channel): int {
    if r.peer in disconnecting then r.given * Times(r.channels, c) else 0
  }

  /** A request leaves the queue when it got everything, or when it got something and waited twenty rounds. */
  predicate Finished(r: Request) {
    r.given == r.requestSize || (r.ttl <= 0 && r.given > 0)
  }

  function Unfinished(after: seq<Request>): seq<Request> {
    if after == [] then []
    else Unfinished(after[..|after| - 1]) + if Finished(after[|after| - 1]) then [] else [after[|after| - 1]]
  }

  /** The grants the peers are told about, the last in the queue first. */
  function Deliveries(after: seq<Request>): seq<(nat, int)> {
    if after == [] then []
    else
      var r := after[|after| - 1];
      (if Finished(r) then [(r.peer, r.given)] else []) + Deliveries(after[..|after| - 1])
  }

  lemma {:induction false} ConnectedIn(queue: seq<Request>, disconnecting: set<nat>)
    ensures forall r | r in Connected(queue, disconnecting) :: r in queue && r.peer !in disconnecting
  {
    if queue != [] {
      ConnectedIn(queue[..|queue| - 1], disconnecting);
    }
  }

  lemma {:induction false} UnfinishedIn(after: seq<Request>)
    ensures forall r | r in Unfinished(after) :: r in after && !Finished(r)
  {
    if after != [] {
      UnfinishedIn(after[..|after| - 1]);
    }
  }

  /** What happens to a manager: a request, a round, or a new limit for a channel. */
  datatype Event =
    | Submit(peer: nat, blk: int, priority: int, channels: seq<Channel?>)
    | Tick(dt: nat, disconnecting: set<nat>)
    | Limit(channel: Channel, limit: int)

  ghost predicate EventOk(e: Event, cs: set<Channel>) {
    match e
    case Submit(_, blk, priority, channels) =>
      blk > 0 && priority > 0 && |channels| == 5 && forall c: Channel? | c in channels && c != null :: c in cs
    case Tick(_, _) => true
    case Limit(c, limit) => c in cs && limit >= 0
  }

  lemma LimitedSteps(channels: seq<Channel?>)
    ensures channels[..|channels|] == channels && Limited(channels[..0]) == []
    ensures forall i | 0 <= i < |channels| ::
              Limited(channels[..i + 1]) == Limited(channels[..i]) + if channels[i] != null && channels[i].limit > 0 then [channels[i]] else []
  {
    forall i | 0 <= i < |channels|
      ensures channels[..i + 1][..i] == channels[..i]
    {
    }
  }

  class BandwidthManager {
    var queue: seq<Request>
    var queuedBytes: int
    var abort: bool

    ghost predicate Valid()
      reads this, Channels(queue)
    {
      && queuedBytes == TotalOwed(queue)
      && (forall r | r in queue :: r.Waiting())
      && (forall c | c in Channels(queue) :: c.Valid())
    }

    constructor ()
      ensures Valid() && queue == [] && !abort
    {
      queue, queuedBytes, abort := [], 0, false;
    }

    method Close()
      modifies this
      ensures Valid() && queue == [] && abort
    {
      abort := true;
      queue := [];
      queuedBytes := 0;
    }

    /** Grants a request at once if no channel limits it, and else puts it in the queue. */
    method RequestBandwidth(peer: nat, blk: int, priority: int, channels: seq<Channel?>) returns (granted: int)
      requires Valid() && blk > 0 && priority > 0 && |channels| == 5
      requires forall c: Channel? | c in channels && c != null :: c.Valid()
      modifies `queue, `queuedBytes
      ensures Valid()
      ensures granted == if !abort && Limited(channels) == [] then blk else 0
      ensures queue == old(queue) + if abort || Limited(channels) == [] then []
                                    else [Request(peer, priority, 0, blk, 20, Limited(channels))]
    {
      if abort { return 0; }
      var limited := FindLimited(channels);
      if |limited| == 0 { return blk; }
      Enqueue(Request(peer, priority, 0, blk, 20, limited));
      granted := 0;
    }

    /** The limited ones among the channels of a peer. */
    method FindLimited(channels: seq<Channel?>) returns (limited: seq<Channel>)
      requires |channels| == 5
      ensures limited == Limited(channels)
    {
      hide Limited;
      limited := [];
      LimitedSteps(channels);
      for i := 0 to 5
        invariant limited == Limited(channels[..i])
      {
        var c := channels[i];
        if c != null && c.limit > 0 {
          limited := limited + [c];
        }
      }
      assert channels[..5] == channels;
    }

    /** A new request goes to the end of the queue. */
    method Enqueue(r: Request)
      requires Valid() && r.Waiting() && forall c | c in r.channels :: c.Valid()
      modifies `queue, `queuedBytes
      ensures Valid() && queue == old(queue) + [r]
    {
      hide TotalOwed;
      OwedOne(queue, r, []);
      OwedNone();
      assert queue + [r] + [] == queue + [r];
      queuedBytes := queuedBytes + (r.requestSize - r.given);
      queue := queue + [r];
    }

    /** Request i leaves the queue or stays; `i'` is where the next one is. */
    method DropAt(i: nat, leaves: bool) returns (i': nat)
      requires i < |queue| && queuedBytes == TotalOwed(queue)
      modifies `queue, `queuedBytes
      ensures i' <= |queue| && queuedBytes == TotalOwed(queue)
      ensures queue[..i'] == (if leaves then old(queue)[..i] else old(queue)[..i] + [old(queue)[i]]) && queue[i'..] == old(queue)[i + 1..]
    {
      hide TotalOwed;
      SplitAt(queue, i);
      if leaves {
        queuedBytes := queuedBytes - (queue[i].requestSize - queue[i].given);
        queue := queue[..i] + queue[i + 1..];
        i' := i;
      } else {
        i' := i + 1;
      }
    }

    /** Drops the requests of peers that are disconnecting, gives their bytes back and clears the weights. */
    method DropDisconnecting(disconnecting: set<nat>)
      requires Valid()
      modifies `queue, `queuedBytes, Channels(queue)`quotaLeft, Channels(queue)`returned, Channels(queue)`tmp
      ensures Valid() && queue == Connected(old(queue), disconnecting)
      ensures forall c | c in Channels(queue) :: c.tmp == 0
      ensures GaveBack(Channels(old(queue)), old(Quotas(Channels(queue))), old(Returns(Channels(queue))), old(queue), disconnecting)
    {
      hide *;
      ValidParts();
      ghost var queue0, cs := queue, Channels(queue);
      ghost var quotas, returns0 := Quotas(cs), Returns(cs);
      ghost var n := 0;
      var i: nat := 0;
      assert queue0[..0] == [];
      DropNone(disconnecting, cs, quotas, returns0);
      EveryChannel(queue0);
      while i < |queue|
        invariant n <= |queue0| && i <= |queue| && queue[..i] == Connected(queue0[..n], disconnecting)
        invariant queue[i..] == queue0[n..] && queuedBytes == TotalOwed(queue)
        invariant Cleared(queue[..i], cs)
        invariant GaveBack(cs, quotas, returns0, queue0[..n], disconnecting)
        decreases |queue0| - n
      {
        var r := queue[i];
        NextLeft(queue0, n, queue, i);
        DropNext(queue0, n, r, disconnecting, cs, quotas, returns0, queue[..i]);
        GivenBackMore(queue0, n, disconnecting);
        i := DropAt(i, r.peer in disconnecting);
        n := n + 1;
      }
      NoneLeft(queue0, n, queue, i);
      ConnectedIn(queue0, disconnecting);
      DropDone(queue0, queue, disconnecting, cs, quotas, returns0);
      ValidAgain(queue, Channels(queue));
    }

    /** Adds up the priorities on every channel and lists each channel once. */
    method Weigh() returns (channels: seq<Channel>)
      requires forall r | r in queue :: r.priority > 0
      requires forall c | c in Channels(queue) :: c.tmp == 0 && c.Valid()
      modifies Channels(queue)`tmp
      ensures forall c | c in Channels(queue) :: c.tmp == Weight(queue, c) > 0 && c.Valid()
      ensures Listed(channels, Channels(queue)) && forall c :: c in channels <==> c in Channels(queue)
    {
      hide Channels, Weight, Listed;
      ghost var cs := Channels(queue);
      channels := [];
      EveryChannel(queue);
      assert queue[..0] == [];
      WeighNone(cs);
      for i := 0 to |queue|
        invariant Listed(channels, cs)
        invariant forall c | c in cs :: c.tmp == Weight(queue[..i], c)
      {
        assert queue[i] in queue;
        WeightMore(queue, i);
        channels := WeighOne(queue[i], channels, cs);
      }
      assert queue[..|queue|] == queue;
      forall c | c in cs ensures Weight(queue, c) > 0 { WeightPositive(queue, c); }
      ListedAll(channels, cs);
    }

    /** After request i was granted `a` more bytes: it leaves the queue or takes its place again. */
    method Requeue(i: nat, r': Request, a: int) returns (i': nat)
      requires i < |queue| && queuedBytes == TotalOwed(queue) && r'.Owed() == queue[i].Owed() - a
      modifies `queue, `queuedBytes
      ensures i' <= |queue| && queuedBytes == TotalOwed(queue)
      ensures queue[..i'] == old(queue)[..i] + (if Finished(r') then [] else [r']) && queue[i'..] == old(queue)[i + 1..]
    {
      hide TotalOwed;
      SplitAt(queue, i);
      OwedReplaced(queue, i, r');
      var taken := a;
      if r'.given == r'.requestSize || (r'.ttl <= 0 && r'.given > 0) {
        taken := taken + (r'.requestSize - r'.given);
        queue := queue[..i] + queue[i + 1..];
        i' := i;
      } else {
        queue := queue[i := r'];
        i' := i + 1;
      }
      queuedBytes := queuedBytes - taken;
    }

    /** Grants bandwidth to request i and takes it out if it is finished. */
    method AssignAt(i: nat, done: seq<Request>, ghost queue0: seq<Request>, ghost cs: set<Channel>, ghost quotas: map<Channel, int>,
                    ghost uses: map<Channel, int>, ghost after: seq<Request>)
      returns (i': nat, done': seq<Request>, ghost after': seq<Request>)
      requires i < |queue| && |after| <= |queue0| && queue[..i] == Unfinished(after) && done == Dispatched(after)
      requires queue[i..] == queue0[|after|..] && queuedBytes == TotalOwed(queue)
      requires quotas.Keys == uses.Keys == cs && Accounted(cs, quotas, uses, queue0[..|after|], after)
      requires AllFair(queue0[..|after|], after, cs)
      requires forall r, c | r in queue0 && c in r.channels :: c in cs
      requires (forall r | r in queue0 :: r.Waiting()) && forall c | c in cs && c.limit != 0 :: c.distributeQuota >= 0 && c.tmp > 0
      modifies `queue, `queuedBytes, cs`quotaLeft, cs`used
      ensures |after'| == |after| + 1 <= |queue0| && i' <= |queue| && queue[..i'] == Unfinished(after') && done' == Dispatched(after')
      ensures queue[i'..] == queue0[|after'|..] && queuedBytes == TotalOwed(queue)
      ensures Accounted(cs, quotas, uses, queue0[..|after'|], after') && AllFair(queue0[..|after'|], after', cs)
    {
      hide *;
      NextLeft(queue0, |after|, queue, i);
      var r := queue[i];
      var r', a := AssignNext(queue0, |after|, r, cs, quotas, uses, after);
      after' := after + [r'];
      done' := if Finished(r') then done + [r'] else done;
      i' := Requeue(i, r', a);
    }

    /** Grants bandwidth to every request in turn and takes the finished ones out. `after` is what became of each. */
    method AssignAll() returns (done: seq<Request>, ghost after: seq<Request>)
      requires Valid() && Weighed(Channels(queue), queue)
      modifies `queue, `queuedBytes, Channels(queue)`quotaLeft, Channels(queue)`used
      ensures Valid() && |after| == |old(queue)| && queue == Unfinished(after)
      ensures done == Dispatched(after)
      ensures AllFair(old(queue), after, Channels(old(queue)))
      ensures Accounted(Channels(old(queue)), old(Quotas(Channels(queue))), old(Uses(Channels(queue))), old(queue), after)
    {
      hide *;
      ValidParts();
      ghost var queue0, cs := queue, Channels(queue);
      WeighedParts(cs, queue);
      Books(cs);
      ghost var quotas, uses := Quotas(cs), Uses(cs);
      ghost var n := 0;
      var i: nat := 0;
      done, after := [], [];
      AssignNone(cs, quotas, uses);
      EveryChannel(queue0);
      while i < |queue|
        invariant n == |after| <= |queue0| && i <= |queue| && queue[..i] == Unfinished(after) && done == Dispatched(after)
        invariant queue[i..] == queue0[n..] && queuedBytes == TotalOwed(queue)
        invariant AllFair(queue0[..n], after, cs)
        invariant Accounted(cs, quotas, uses, queue0[..n], after)
        decreases |queue0| - n
      {
        i, done, after := AssignAt(i, done, queue0, cs, quotas, uses, after);
        n := n + 1;
      }
      NoneLeft(queue0, n, queue, i);
      AssignDone(queue0, after, queue, cs, quotas, uses);
      ValidAgain(queue, Channels(queue));
    }

    /** Weighs the channels and refills each of them once. */
    method RefillChannels(dt: nat)
      requires Valid() && forall c | c in Channels(queue) :: c.tmp == 0
      modifies Channels(queue)`tmp, Channels(queue)`quotaLeft, Channels(queue)`distributeQuota, Channels(queue)`refilled
      ensures Valid() && Weighed(Channels(queue), queue)
      ensures Refilled(Channels(queue), old(Quotas(Channels(queue))), old(Uses(Channels(queue))),
                       old(Refills(Channels(queue))), Quotas(Channels(queue)), Uses(Channels(queue)), dt)
    {
      hide TotalOwed, Weight, Listed, Refilled, Quotas, Uses, Refills;
      ghost var before, cs := queue, Channels(queue);
      ValidParts();
      var channels := Weigh();
      ListedOnce(channels, cs);
      RefillAll(channels, dt, cs);
      ValidAgain(before, cs);
      WeighedIs(cs, before);
    }

    /** Shares out the quota of the channels, each refilled once. */
    method ShareOut(dt: nat) returns (done: seq<Request>, ghost after: seq<Request>)
      requires Valid() && forall c | c in Channels(queue) :: c.tmp == 0
      modifies `queue, `queuedBytes, Channels(queue)`tmp, Channels(queue)`quotaLeft, Channels(queue)`distributeQuota,
               Channels(queue)`used, Channels(queue)`refilled
      ensures Valid() && |after| == |old(queue)| && queue == Unfinished(after) && done == Dispatched(after)
      ensures AllFair(old(queue), after, Channels(old(queue)))
      ensures SharedOut(Channels(old(queue)), old(Quotas(Channels(queue))), old(Uses(Channels(queue))),
                        old(Refills(Channels(queue))), old(queue), after, dt)
    {
      hide *;
      ghost var before, cs := queue, Channels(queue);
      ghost var quotas, uses, refills := Quotas(cs), Uses(cs), Refills(cs);
      Books(cs);
      RefillChannels(dt);
      ghost var quotas1, uses1 := Quotas(cs), Uses(cs);
      Books(cs);
      done, after := AssignAll();
      ShareDone(cs, quotas, uses, refills, quotas1, uses1, before, after, dt);
    }

    lemma ValidParts()
      requires Valid()
      ensures forall r | r in queue :: r.priority > 0
      ensures forall c | c in Channels(queue) :: c.Valid() && c.limit >= 0
      ensures queuedBytes == TotalOwed(queue) && forall r | r in queue :: r.Waiting() && r.given >= 0
    {
    }

    lemma ValidAgain(before: seq<Request>, cs: set<Channel>)
      requires queue == before && cs == Channels(queue) && (forall c | c in cs :: c.Valid())
      requires queuedBytes == TotalOwed(queue) && forall r | r in queue :: r.Waiting()
      ensures Valid()
    {
    }

    /** One round: refills the channels, shares their quota by priority and tells the peers what they got. A channel
        gives out exactly what its requests use, never more than it has, so a quota that is not in debt stays so. */
    method UpdateQuotas(dt: nat, disconnecting: set<nat>) returns (deliveries: seq<(nat, int)>, ghost after: seq<Request>)
      requires Valid()
      modifies `queue, `queuedBytes, Channels(queue)`tmp, Channels(queue)`quotaLeft, Channels(queue)`distributeQuota,
               Channels(queue)`used, Channels(queue)`refilled, Channels(queue)`returned
      ensures Valid() && forall c | c in Channels(old(queue)) :: c.Valid()
      ensures deliveries == Deliveries(after)
      ensures abort || old(queue) == [] ==> unchanged(this) && unchanged(Channels(queue)) && after == []
      ensures !abort && old(queue) != [] ==>
                RoundDone(Channels(old(queue)), old(Quotas(Channels(queue))), old(Uses(Channels(queue))),
                          old(Refills(Channels(queue))), old(Returns(Channels(queue))),
                          old(queue), queue, after, if dt > 3000 then 3000 else dt, disconnecting)
    {
      deliveries, after := [], [];
      ValidParts();
      if abort { return; }
      if |queue| == 0 { return; }
      hide *;
      ghost var queue0, cs := queue, Channels(queue);
      ghost var quotas, uses, refills, returns0 := Quotas(cs), Uses(cs), Refills(cs), Returns(cs);
      BooksOpen(cs);
      var milliseconds := dt;
      if milliseconds > 3000 {
        milliseconds := 3000;
      }
      var done;
      done, after := Distribute(milliseconds, disconnecting);
      deliveries := Deliver(done, after);
      BooksClosed(cs, quotas, uses, refills, returns0, queue0, queue, after, milliseconds, disconnecting);
    }

    /** Any run of requests, rounds and changes of limits, and what the peers are told in its rounds. Each channel comes to its last
        limit, is refilled by no more than the time that passed brings, gets no more back than was ever asked of it, and
        gives out no more than it had and what came in. What is delivered through a channel that always has a limit, and
        what its requests hold in the end, is what they held at first and got in the run, which the quota at the start
        and the time that passed bound. */
    method Run(events: seq<Event>, ghost cs: set<Channel>) returns (deliveries: seq<(nat, int)>, ghost done: seq<Request>)
      requires Valid() && Channels(queue) <= cs && forall c | c in cs :: c.Valid()
      requires forall e | e in events :: EventOk(e, cs)
      modifies this, cs
      ensures Valid() && Channels(queue) <= cs && deliveries == Tell(done)
      ensures forall c | c in cs ::
                && c.Valid() && c.limit == LimitAfter(events, c, old(c.limit)) && c.quotaLeft >= Min(old(c.quotaLeft), 0)
                && 0 <= 1000 * (c.refilled - old(c.refilled)) <= Allowance(events, c, old(c.limit))
                && 0 <= c.returned - old(c.returned) <= Asked(old(queue), c) + AskedBy(events, c)
                && 0 <= c.used - old(c.used) <= Max(old(c.quotaLeft), 0) + (c.refilled - old(c.refilled)) + (c.returned - old(c.returned))
                && 0 <= Held(queue, c) && 0 <= Held(done, c)
                && (AlwaysLimited(events, c, old(c.limit)) ==>
                      && Held(queue, c) + Held(done, c) == Held(old(queue), c) + (c.used - old(c.used)) - (c.returned - old(c.returned))
                      && 1000 * (Held(queue, c) + Held(done, c))
                         <= 1000 * (Held(old(queue), c) + Max(old(c.quotaLeft), 0)) + Allowance(events, c, old(c.limit)))
    {
      hide *;
      ghost var start, queue0 := Ledgers(cs, queue), queue;
      LedgersAre(cs, queue);
      deliveries, done := [], [];
      RanNone(start);
      assert events[..0] == [];
      for i := 0 to |events|
        invariant Valid() && Channels(queue) <= cs && deliveries == Tell(done)
        invariant (forall c | c in cs :: c.Valid()) && Ran(start, Ledgers(cs, queue), events[..i], done)
        invariant forall r | r in done :: 0 <= r.given <= r.requestSize
      {
        assert EventOk(events[i], cs);
        ghost var before := Ledgers(cs, queue);
        var told, more := Serve(events[i], cs);
        RanMore(start, before, Ledgers(cs, queue), events, i, done, more);
        TellJoins(done, more);
        deliveries, done := deliveries + told, done + more;
      }
      assert events[..|events|] == events;
      ValidParts();
      GivenFits(queue);
      HeldAtLeast(queue);
      HeldAtLeast(done);
      LedgersAre(cs, queue);
      RanAll(start, Ledgers(cs, queue), events, done);
    }

    /** One event of a run. */
    method Serve(e: Event, ghost cs: set<Channel>) returns (told: seq<(nat, int)>, ghost done: seq<Request>)
      requires Valid() && Channels(queue) <= cs && EventOk(e, cs) && forall c | c in cs :: c.Valid()
      modifies this, cs
      ensures Valid() && Channels(queue) <= cs && told == Tell(done)
      ensures (forall c | c in cs :: c.Valid()) && Served(old(Ledgers(cs, queue)), Ledgers(cs, queue), e, done)
      ensures forall r | r in done :: 0 <= r.given <= r.requestSize
    {
      hide *;
      ghost var start := Ledgers(cs, queue);
      LedgersAre(cs, queue);
      told, done := [], [];
      TellNone();
      EventParts(e, cs);
      ghost var queue0 := queue;
      match e {
        case Submit(peer, blk, priority, channels) =>
          ghost var r := Request(peer, priority, 0, blk, 20, Limited(channels));
          var _ := RequestBandwidth(peer, blk, priority, channels);
          MoreChannels(queue0, queue, channels, r, cs);
          SubmitServed(cs, start, queue0, queue, e, r);
        case Limit(c, limit) =>
          SetLimit(c, limit, cs);
          LimitServed(cs, start, queue, e);
        case Tick(dt, disconnecting) =>
          told, done := RunRound(dt, disconnecting, cs);
          TickServed(start, Ledgers(cs, queue), e, done);
      }
    }

    /** A new limit leaves the books as they are. */
    method SetLimit(c: Channel, limit: int, ghost cs: set<Channel>)
      requires Valid() && Channels(queue) <= cs && c in cs && limit >= 0 && forall d | d in cs :: d.Valid()
      modifies c`limit
      ensures Valid() && (forall d | d in cs :: d.Valid()) && c.limit == limit
    {
      ghost var before, cs1 := queue, Channels(queue);
      ValidParts();
      hide *;
      c.Throttle(limit);
      forall d | d in cs ensures d.Valid() { assert d == c || d.Valid(); }
      ValidAgain(before, cs1);
    }

    /** A round among other channels. */
    method RunRound(dt: nat, disconnecting: set<nat>, ghost cs: set<Channel>) returns (told: seq<(nat, int)>, ghost done: seq<Request>)
      requires Valid() && Channels(queue) <= cs && forall c | c in cs :: c.Valid()
      modifies this, cs
      ensures Valid() && Channels(queue) <= cs && told == Tell(done)
      ensures forall c | c in cs :: c.Valid()
      ensures RoundServed(old(Ledgers(cs, queue)), Ledgers(cs, queue), if dt > 3000 then 3000 else dt, done)
      ensures forall r | r in done :: 0 <= r.given <= r.requestSize
    {
      hide *;
      ghost var queue0, cs1 := queue, Channels(queue);
      ghost var start := Ledgers(cs, queue);
      LedgersAre(cs, queue);
      ghost var quotas, uses, refills, returns0 := Quotas(cs1), Uses(cs1), Refills(cs1), Returns(cs1);
      Books(cs1);
      ValidParts();
      ghost var after;
      told, after := UpdateQuotas(dt, disconnecting);
      done := Backwards(Dispatched(after));
      DeliveriesReverse(after);
      ToldBackwards(Dispatched(after));
      var milliseconds := if dt > 3000 then 3000 else dt;
      GivenFits(queue0);
      if abort || queue0 == [] {
        LedgersAre(cs, queue);
        NobodyServed(start, milliseconds);
        assert Ledgers(cs, queue) == start;
      } else {
        RoundChannels(cs1, quotas, uses, refills, returns0, queue0, queue, after, milliseconds, disconnecting);
        FinishedFit(cs1, quotas, uses, refills, returns0, queue0, queue, after, milliseconds, disconnecting);
        AllServed(cs, start, cs1, quotas, uses, refills, returns0, queue0, queue, after, milliseconds, disconnecting);
      }
    }

    /** The passes of a round. */
    method Distribute(dt: nat, disconnecting: set<nat>) returns (done: seq<Request>, ghost after: seq<Request>)
      requires Valid()
      modifies `queue, `queuedBytes, Channels(queue)`tmp, Channels(queue)`quotaLeft, Channels(queue)`distributeQuota,
               Channels(queue)`used, Channels(queue)`refilled, Channels(queue)`returned
      ensures Valid() && done == Dispatched(after)
      ensures RoundDone(Channels(old(queue)), old(Quotas(Channels(queue))), old(Uses(Channels(queue))),
                        old(Refills(Channels(queue))), old(Returns(Channels(queue))),
                        old(queue), queue, after, dt, disconnecting)
    {
      hide *;
      ghost var queue0, cs0 := queue, Channels(queue);
      ghost var quotas, uses, refills, returns0 := Quotas(cs0), Uses(cs0), Refills(cs0), Returns(cs0);
      Books(cs0);
      KeptChannels(queue0, disconnecting);
      DropDisconnecting(disconnecting);
      ghost var cs, before := Channels(queue), queue;
      ghost var quotas1, uses1, refills1 := Quotas(cs), Uses(cs), Refills(cs);
      Books(cs);
      Books(cs0);
      DropBooks(cs0, quotas, uses, refills, returns0, queue0, disconnecting, cs, quotas1, uses1, refills1);
      done, after := ShareOut(dt);
      ShareBooks(cs0, quotas, uses, refills, returns0, queue0, disconnecting, cs, quotas1, uses1, refills1,
                 before, after, dt);
      RoundIs(cs0, quotas, uses, refills, returns0, queue0, queue, before, after, dt, disconnecting);
    }

    /** Tells the peers of finished requests what they got, the last first. */
    method Deliver(done: seq<Request>, ghost after: seq<Request>) returns (deliveries: seq<(nat, int)>)
      requires done == Dispatched(after)
      ensures deliveries == Deliveries(after)
    {
      deliveries := [];
      var tm := done;
      DeliveriesReverse(after);
      while |tm| > 0
        invariant deliveries + Reversed(tm) == Deliveries(after)
      {
        var r := tm[|tm| - 1];
        deliveries := deliveries + [(r.peer, r.given)];
        tm := tm[..|tm| - 1];
      }
    }
  }

  /** What the finished requests got, the last first. */
  function Reversed(done: seq<Request>): seq<(nat, int)> {
    if done == [] then []
    else [(done[|done| - 1].peer, done[|done| - 1].given)] + Reversed(done[..|done| - 1])
  }

  lemma {:induction false} DeliveriesReverse(after: seq<Request>)
    ensures Reversed(Dispatched(after)) == Deliveries(after)
  {
    if after != [] {
      var n := |after| - 1;
      DeliveriesReverse(after[..n]);
      var done := Dispatched(after[..n]);
      if Finished(after[n]) {
        assert (done + [after[n]])[..|done|] == done;
      } else {
        assert Dispatched(after) == done;
      }
    }
  }

  lemma KeptChannels(queue: seq<Request>, disconnecting: set<nat>)
    ensures Channels(Connected(queue, disconnecting)) <= Channels(queue)
  {
    ConnectedIn(queue, disconnecting);
  }

  method ReturnQuotas(r: Request)
    requires r.given >= 0 && forall c | c in r.channels :: c.Valid()
    modifies r.channels`quotaLeft, r.channels`returned
    ensures forall c | c in r.channels ::
              && c.Valid()
              && c.quotaLeft == old(c.quotaLeft) + (if c.limit == 0 then 0 else r.given * Times(r.channels, c))
              && c.returned == old(c.returned) + (if c.limit == 0 then 0 else r.given * Times(r.channels, c))
  {
    for j := 0 to |r.channels|
      invariant forall c | c in r.channels ::
                  && c.Valid()
                  && c.quotaLeft == old(c.quotaLeft) + (if c.limit == 0 then 0 else r.given * Times(r.channels[..j], c))
                  && c.returned == old(c.returned) + (if c.limit == 0 then 0 else r.given * Times(r.channels[..j], c))
    {
      assert r.channels[..j + 1][..j] == r.channels[..j];
      forall c
        ensures r.given * Times(r.channels[..j + 1], c) == r.given * Times(r.channels[..j], c) + if r.channels[j] == c then r.given else 0
      {
        OnceMore(r.given, Times(r.channels[..j], c), if r.channels[j] == c then 1 else 0);
      }
      r.channels[j].ReturnQuota(r.given);
    }
    assert r.channels[..|r.channels|] == r.channels;
  }

  method ClearWeights(r: Request)
    modifies r.channels`tmp
    ensures forall c | c in r.channels :: c.tmp == 0
  {
    for j := 0 to |r.channels|
      invariant forall c | c in r.channels[..j] :: c.tmp == 0
    {
      assert r.channels[..j + 1] == r.channels[..j] + [r.channels[j]];
      r.channels[j].tmp := 0;
    }
    assert r.channels[..|r.channels|] == r.channels;
  }

  ghost function Quotas(cs: set<Channel>): (m: map<Channel, int>)
    reads cs`quotaLeft
    ensures m.Keys == cs
  {
    map c | c in cs :: c.quotaLeft
  }

  ghost function Returns(cs: set<Channel>): (m: map<Channel, int>)
    reads cs`returned
    ensures m.Keys == cs
  {
    map c | c in cs :: c.returned
  }

  /** The books after these requests were dropped or kept. */
  ghost predicate GaveBack(cs: set<Channel>, quotas: map<Channel, int>, given: map<Channel, int>, queue: seq<Request>,
                           disconnecting: set<nat>)
    requires quotas.Keys == given.Keys == cs
    reads cs
  {
    forall c | c in cs ::
      && c.Valid()
      && c.quotaLeft == quotas[c] + (if c.limit == 0 then 0 else GivenBack(queue, disconnecting, c))
      && c.returned == given[c] + (if c.limit == 0 then 0 else GivenBack(queue, disconnecting, c))
  }

  lemma GivenBackMore(queue: seq<Request>, n: nat, disconnecting: set<nat>)
    requires n < |queue|
    ensures forall c :: GivenBack(queue[..n + 1], disconnecting, c) == GivenBack(queue[..n], disconnecting, c) + Back(queue[n], disconnecting, c)
    ensures Connected(queue[..n + 1], disconnecting)
            == if queue[n].peer in disconnecting then Connected(queue[..n], disconnecting)
               else Connected(queue[..n], disconnecting) + [queue[n]]
  {
    assert queue[..n + 1][..n] == queue[..n];
  }

  lemma DropNone(disconnecting: set<nat>, cs: set<Channel>, quotas: map<Channel, int>, given: map<Channel, int>)
    requires quotas == Quotas(cs) && given == Returns(cs) && forall c | c in cs :: c.Valid()
    ensures GaveBack(cs, quotas, given, [], disconnecting) && Cleared([], cs)
    ensures Connected([], disconnecting) == []
  {
  }

  /** The weights of these requests' channels were cleared. */
  ghost predicate Cleared(queue: seq<Request>, cs: set<Channel>)
    reads cs
  {
    forall r, c | r in queue && c in r.channels :: c in cs && c.tmp == 0
  }

  /** The next request leaves or stays. */
  method DropNext(ghost queue: seq<Request>, ghost n: nat, r: Request, disconnecting: set<nat>, ghost cs: set<Channel>,
                  ghost quotas: map<Channel, int>, ghost given: map<Channel, int>, ghost kept: seq<Request>)
    requires Cleared(kept, cs)
    requires n < |queue| && r == queue[n] && r.given >= 0 && forall c | c in r.channels :: c in cs
    requires quotas.Keys == given.Keys == cs && GaveBack(cs, quotas, given, queue[..n], disconnecting)
    modifies cs`quotaLeft, cs`returned, cs`tmp
    ensures GaveBack(cs, quotas, given, queue[..n + 1], disconnecting)
    ensures Cleared(if r.peer in disconnecting then kept else kept + [r], cs)
  {
    hide Back, GivenBack, Connected, Channel.Valid, Times;
    GivenBackMore(queue, n, disconnecting);
    DropOne(r, disconnecting, cs);
    forall c | c in cs
      ensures c.Valid()
      ensures c.quotaLeft == quotas[c] + (if c.limit == 0 then 0 else GivenBack(queue[..n + 1], disconnecting, c))
      ensures c.returned == given[c] + (if c.limit == 0 then 0 else GivenBack(queue[..n + 1], disconnecting, c))
    {
    }
    ghost var kept' := if r.peer in disconnecting then kept else kept + [r];
    forall k, c | k in kept' && c in k.channels
      ensures c in cs && c.tmp == 0
    {
      assert k in kept || k == r;
    }
  }

  /** What is left of a queue starts with its next request. */
  lemma NextLeft(queue0: seq<Request>, n: nat, queue: seq<Request>, i: nat)
    requires n <= |queue0| && i < |queue| && queue[i..] == queue0[n..]
    ensures n < |queue0| && queue[i] == queue0[n] && queue[i] in queue0 && queue[i + 1..] == queue0[n + 1..]
  {
    assert queue[i] == queue[i..][0];
    assert queue[i + 1..] == queue[i..][1..];
  }

  lemma NoneLeft(queue0: seq<Request>, n: nat, queue: seq<Request>, i: nat)
    requires n <= |queue0| && i == |queue| && queue[i..] == queue0[n..]
    ensures n == |queue0| && queue0[..n] == queue0 && queue[..i] == queue
  {
  }

  lemma DropDone(queue0: seq<Request>, queue: seq<Request>, disconnecting: set<nat>, cs: set<Channel>,
                 quotas: map<Channel, int>, given: map<Channel, int>)
    requires cs == Channels(queue0) && quotas.Keys == given.Keys == cs && Cleared(queue, cs)
    requires GaveBack(cs, quotas, given, queue0, disconnecting)
    ensures forall c | c in Channels(queue) :: c in cs && c.Valid() && c.tmp == 0
  {
  }

  lemma EveryChannel(queue: seq<Request>)
    ensures forall r, c | r in queue && c in r.channels :: c in Channels(queue)
    ensures forall c | c in Channels(queue) :: exists r :: r in queue && c in r.channels
  {
  }

  /** One request leaves with its bytes, or stays with its channels' weights cleared. */
  method DropOne(r: Request, disconnecting: set<nat>, ghost cs: set<Channel>)
    requires r.given >= 0 && (forall c | c in cs :: c.Valid()) && forall c | c in r.channels :: c in cs
    modifies cs`quotaLeft, cs`returned, cs`tmp
    ensures forall c | c in cs ::
              && c.Valid()
              && c.quotaLeft == old(c.quotaLeft) + (if c.limit == 0 then 0 else Back(r, disconnecting, c))
              && c.returned == old(c.returned) + (if c.limit == 0 then 0 else Back(r, disconnecting, c))
              && c.tmp == if r.peer !in disconnecting && c in r.channels then 0 else old(c.tmp)
  {
    if r.peer in disconnecting {
      ReturnQuotas(r);
      forall c | c in cs && c !in r.channels
        ensures r.given * Times(r.channels, c) == 0
      {
        TimesNone(r.channels, c);
      }
    } else {
      ClearWeights(r);
    }
  }

  /** Each of these channels is listed once when it has a weight. */
  ghost predicate Listed(channels: seq<Channel>, cs: set<Channel>)
    reads cs
  {
    && (forall j, k | 0 <= j < k < |channels| :: channels[j] != channels[k])
    && (forall c | c in cs :: c.tmp >= 0 && (c in channels <==> c.tmp > 0))
    && (forall c | c in channels :: c in cs)
  }

  lemma WeighNone(cs: set<Channel>)
    requires forall c | c in cs :: c.tmp == 0
    ensures Listed([], cs) && forall c :: Weight([], c) == 0
  {
  }

  lemma ListedAll(channels: seq<Channel>, cs: set<Channel>)
    requires Listed(channels, cs) && forall c | c in cs :: c.tmp > 0
    ensures forall c :: c in channels <==> c in cs
  {
  }

  lemma WeightMore(queue: seq<Request>, n: nat)
    requires n < |queue|
    ensures forall c :: Weight(queue[..n + 1], c) == Weight(queue[..n], c) + queue[n].priority * Times(queue[n].channels, c)
  {
    assert queue[..n + 1][..n] == queue[..n];
  }

  method WeighOne(r: Request, channels: seq<Channel>, ghost cs: set<Channel>) returns (channels': seq<Channel>)
    requires r.priority > 0 && Listed(channels, cs) && forall c | c in r.channels :: c in cs
    modifies cs`tmp
    ensures Listed(channels', cs)
    ensures forall c | c in cs :: c.tmp == old(c.tmp) + r.priority * Times(r.channels, c)
  {
    channels' := channels;
    for j := 0 to |r.channels|
      invariant Listed(channels', cs)
      invariant forall c | c in cs :: c.tmp == old(c.tmp) + r.priority * Times(r.channels[..j], c)
    {
      var c := r.channels[j];
      assert r.channels[..j + 1][..j] == r.channels[..j];
      forall d
        ensures r.priority * Times(r.channels[..j + 1], d) == r.priority * Times(r.channels[..j], d) + if c == d then r.priority else 0
      {
        OnceMore(r.priority, Times(r.channels[..j], d), if c == d then 1 else 0);
      }
      if c.tmp == 0 {
        channels' := channels' + [c];
      }
      c.tmp := c.tmp + r.priority;
    }
    assert r.channels[..|r.channels|] == r.channels;
  }

  /** Refills every listed channel once. */
  method RefillAll(channels: seq<Channel>, dt: nat, ghost cs: set<Channel>)
    requires forall j, k | 0 <= j < k < |channels| :: channels[j] != channels[k]
    requires (forall c :: c in channels <==> c in cs) && forall c | c in cs :: c.Valid()
    modifies cs`quotaLeft, cs`distributeQuota, cs`refilled
    ensures forall c | c in cs :: c.Valid() && (c.limit != 0 ==> c.distributeQuota >= 0)
    ensures Refilled(cs, old(Quotas(cs)), old(Uses(cs)), old(Refills(cs)), Quotas(cs), Uses(cs), dt)
  {
    hide Refill, Min, Max;
    ghost var quotas, refills := Quotas(cs), Refills(cs);
    for i := 0 to |channels|
      invariant forall k | i <= k < |channels| ::
                  var c := channels[k];
                  c.Valid() && c.quotaLeft == quotas[c] && c.refilled == refills[c]
      invariant forall k | 0 <= k < i :: channels[k].Valid() && RefilledOne(channels[k], quotas, refills, dt)
    {
      channels[i].UpdateQuota(dt);
      assert RefilledOne(channels[i], quotas, refills, dt);
    }
    forall c | c in cs
      ensures c.Valid() && RefilledOne(c, quotas, refills, dt) && (c.limit > 0 ==> c.distributeQuota >= 0)
    {
      var k :| 0 <= k < |channels| && channels[k] == c;
      MaxAtLeast(c.quotaLeft);
    }
  }

  ghost predicate RefilledOne(c: Channel, quotas: map<Channel, int>, refills: map<Channel, int>, dt: nat)
    requires c in quotas && c in refills
    reads c
  {
    && c.limit >= 0
    && (c.limit == 0 ==> c.quotaLeft == quotas[c] && c.refilled == refills[c])
    && (c.limit > 0 ==>
          && c.refilled == refills[c] + Refill(c.limit, dt)
          && c.quotaLeft == Min(quotas[c] + Refill(c.limit, dt), 3 * c.limit) && c.distributeQuota == Max(c.quotaLeft, 0))
  }

  lemma MaxAtLeast(q: int)
    ensures Max(q, 0) >= 0
  {
  }

  ghost function Uses(cs: set<Channel>): map<Channel, int>
    reads cs`used
  {
    map c | c in cs :: c.used
  }

  /** The finished requests in queue order. */
  function Dispatched(after: seq<Request>): seq<Request> {
    if after == [] then []
    else Dispatched(after[..|after| - 1]) + if Finished(after[|after| - 1]) then [after[|after| - 1]] else []
  }

  /** A request got what its most limiting channel has for its priority, or all it still wanted. */
  ghost predicate FairGrant(r: Request, r': Request)
    reads r.channels`limit, r.channels`tmp, r.channels`distributeQuota
  {
    var quota := r'.given - r.given;
    && r' == r.(given := r.given + quota, ttl := r.ttl - 1) && 0 <= quota <= r.Owed()
    && (forall c | c in r.channels && Limits(c) :: quota <= Share(c, r.priority))
    && (quota == r.Owed() || exists c | c in r.channels :: Limits(c) && quota == Share(c, r.priority))
  }

  ghost predicate AllFair(before: seq<Request>, after: seq<Request>, cs: set<Channel>)
    requires |before| == |after|
    reads cs`limit, cs`tmp, cs`distributeQuota
  {
    forall k | 0 <= k < |after| ::
      && (forall c | c in before[k].channels :: c in cs)
      && FairGrant(before[k], after[k])
  }

  /** The books after these requests got their grants: a channel gave out exactly what they used, and per unit of
      weight no more than its quota. */
  ghost predicate Accounted(cs: set<Channel>, quotas: map<Channel, int>, uses: map<Channel, int>, before: seq<Request>,
                            after: seq<Request>)
    requires quotas.Keys == uses.Keys == cs && |before| == |after|
    reads cs
  {
    forall c | c in cs ::
      && c.Valid()
      && c.used == uses[c] + (if c.limit == 0 then 0 else Granted(before, after, c))
      && c.quotaLeft == quotas[c] - (if c.limit == 0 then 0 else Granted(before, after, c))
      && (c.limit > 0 ==> 0 <= Granted(before, after, c) && Granted(before, after, c) * c.tmp <= c.distributeQuota * Weight(before, c))
  }

  lemma AssignNone(cs: set<Channel>, quotas: map<Channel, int>, uses: map<Channel, int>)
    requires quotas == Quotas(cs) && uses == Uses(cs) && forall c | c in cs :: c.Valid()
    ensures Accounted(cs, quotas, uses, [], []) && Unfinished([]) == [] && Dispatched([]) == [] && AllFair([], [], cs)
  {
  }

  lemma GrantedMore(before: seq<Request>, after: seq<Request>, n: nat, r': Request)
    requires n == |after| < |before|
    ensures forall c :: Granted(before[..n + 1], after + [r'], c)
                        == Granted(before[..n], after, c) + (r'.given - before[n].given) * Times(before[n].channels, c)
  {
    assert before[..n + 1][..n] == before[..n] && (after + [r'])[..n] == after;
  }

  lemma ShareStep(g: int, w: int, total: int, quota: int, grant: int, priority: int, t: nat)
    requires g * total <= quota * w && grant * total <= quota * priority
    ensures (g + grant * t) * total <= quota * (w + priority * t)
  {
    assert grant * t * total == grant * total * t;
    AtMostTimes(grant * total, quota * priority, t);
    assert quota * (w + priority * t) == quota * w + quota * priority * t;
    assert (g + grant * t) * total == g * total + grant * t * total;
  }

  lemma AtMostTimes(a: int, b: int, t: nat)
    requires a <= b
    ensures a * t <= b * t
  {
  }

  /** A share of the quota, multiplied out. */
  lemma ShareAtMost(c: Channel, priority: int, grant: int)
    requires c.tmp > 0 && c.distributeQuota >= 0 && priority > 0 && grant <= Share(c, priority)
    ensures grant * c.tmp <= c.distributeQuota * priority
  {
    ShareBounds(c.distributeQuota, priority, c.tmp);
    AtMostTimes(grant, Share(c, priority), c.tmp);
  }

  /** The next request gets its grant. */
  method AssignNext(ghost queue: seq<Request>, ghost n: nat, r: Request, ghost cs: set<Channel>,
                    ghost quotas: map<Channel, int>, ghost uses: map<Channel, int>, ghost after: seq<Request>)
    returns (r': Request, a: int)
    requires n == |after| < |queue| && r == queue[n] && r.Waiting() && forall c | c in r.channels :: c in cs
    requires quotas.Keys == uses.Keys == cs && Accounted(cs, quotas, uses, queue[..n], after)
    requires AllFair(queue[..n], after, cs)
    requires forall c | c in cs && c.limit != 0 :: c.distributeQuota >= 0 && c.tmp > 0
    modifies cs`quotaLeft, cs`used
    ensures AllFair(queue[..n + 1], after + [r'], cs) && r'.Owed() == r.Owed() - a
    ensures Accounted(cs, quotas, uses, queue[..n + 1], after + [r'])
    ensures Unfinished(after + [r']) == Unfinished(after) + if Finished(r') then [] else [r']
    ensures Dispatched(after + [r']) == Dispatched(after) + if Finished(r') then [r'] else []
  {
    hide Granted, Weight, Times, AllFair, Unfinished, Dispatched, Finished;
    r', a := AssignBandwidth(r);
    assert FairGrant(r, r');
    hide FairGrant, Share, Limits;
    FairMore(queue, after, n, r', cs);
    AfterMore(after, r');
    GrantedMore(queue, after, n, r');
    WeightMore(queue, n);
    forall c | c in cs
      ensures c !in r.channels ==> a * Times(r.channels, c) == 0
      ensures c.limit > 0 ==> a * Times(r.channels, c) >= 0
      ensures c.limit > 0 ==>
                Granted(queue[..n + 1], after + [r'], c) * c.tmp <= c.distributeQuota * Weight(queue[..n + 1], c)
    {
      AccountOne(c, Granted(queue[..n], after, c), Weight(queue[..n], c), r, a);
    }
  }

  lemma FairMore(queue: seq<Request>, after: seq<Request>, n: nat, r': Request, cs: set<Channel>)
    requires n == |after| < |queue| && AllFair(queue[..n], after, cs)
    requires FairGrant(queue[n], r') && forall c | c in queue[n].channels :: c in cs
    ensures AllFair(queue[..n + 1], after + [r'], cs)
  {
    hide FairGrant;
  }

  lemma AfterMore(after: seq<Request>, r': Request)
    ensures Unfinished(after + [r']) == Unfinished(after) + if Finished(r') then [] else [r']
    ensures Dispatched(after + [r']) == Dispatched(after) + if Finished(r') then [r'] else []
  {
    hide Finished;
    assert (after + [r'])[..|after|] == after;
  }

  lemma AccountOne(c: Channel, g: int, w: int, r: Request, a: int)
    requires r.priority > 0 && a >= 0 && (c in r.channels && Limits(c) ==> a <= Share(c, r.priority))
    requires c.limit != 0 ==> c.tmp > 0 && c.distributeQuota >= 0 && g * c.tmp <= c.distributeQuota * w
    ensures c !in r.channels ==> a * Times(r.channels, c) == 0
    ensures a * Times(r.channels, c) >= 0
    ensures c.limit != 0 ==>
              (g + a * Times(r.channels, c)) * c.tmp <= c.distributeQuota * (w + r.priority * Times(r.channels, c))
  {
    TimesNone(r.channels, c);
    var t := Times(r.channels, c);
    hide Times;
    AtMostTimes(0, a, t);
    if c.limit != 0 {
      if c in r.channels {
        ShareAtMost(c, r.priority, a);
        hide Share, Limits;
        ShareStep(g, w, c.tmp, c.distributeQuota, a, r.priority, t);
      } else {
        assert t == 0;
      }
    }
  }

  lemma OwedReplaced(queue: seq<Request>, i: nat, r': Request)
    requires i < |queue|
    ensures TotalOwed(queue[i := r']) == TotalOwed(queue) - queue[i].Owed() + r'.Owed()
    ensures queue[i := r'][..i + 1] == queue[..i] + [r'] && queue[i := r'][i + 1..] == queue[i + 1..]
  {
    OwedOne(queue[..i], queue[i], queue[i + 1..]);
    OwedOne(queue[..i], r', queue[i + 1..]);
    assert queue == queue[..i] + [queue[i]] + queue[i + 1..];
    assert queue[i := r'] == queue[..i] + [r'] + queue[i + 1..];
  }

  /** The requests that stay are still waiting, on the channels they had. */
  lemma AssignDone(queue0: seq<Request>, after: seq<Request>, queue: seq<Request>, cs: set<Channel>,
                   quotas: map<Channel, int>, uses: map<Channel, int>)
    requires queue == Unfinished(after) && |after| == |queue0| && cs == Channels(queue0)
    requires AllFair(queue0, after, cs) && forall r | r in queue0 :: r.Waiting()
    requires quotas.Keys == uses.Keys == cs && Accounted(cs, quotas, uses, queue0, after)
    ensures forall r | r in queue :: r.Waiting()
    ensures Channels(queue) <= cs && forall c | c in Channels(queue) :: c.Valid()
  {
    UnfinishedIn(after);
    hide Unfinished, Granted;
    forall r | r in queue
      ensures r.Waiting() && forall c | c in r.channels :: c in cs
    {
      var k :| 0 <= k < |after| && after[k] == r;
      assert FairGrant(queue0[k], after[k]);
      assert queue0[k] in queue0;
    }
  }

  ghost function Refills(cs: set<Channel>): map<Channel, int>
    reads cs`refilled
  {
    map c | c in cs :: c.refilled
  }

  /** What a limited channel has to give out in a round, with `left` over from before. */
  function Budget(left: int, limit: int, dt: nat): int
    requires limit >= 0
  {
    Min(left + Refill(limit, dt), 3 * limit)
  }

  /** What sharing out does to the books of a channel: a limited one gives out no more than it has, by the weights of
      the requests; nothing happens to one without a limit. */
  ghost predicate SharedOut(cs: set<Channel>, quotas: map<Channel, int>, uses: map<Channel, int>, refills: map<Channel, int>,
                            before: seq<Request>, after: seq<Request>, dt: nat)
    requires quotas.Keys == uses.Keys == refills.Keys == cs && |before| == |after|
    reads cs
  {
    forall c | c in cs ::
      && c.limit >= 0
      && (c.limit == 0 ==> c.quotaLeft == quotas[c] && c.used == uses[c] && c.refilled == refills[c])
      && (c.limit > 0 ==>
            var quota := Budget(quotas[c], c.limit, dt);
            var granted := Granted(before, after, c);
            && c.tmp == Weight(before, c) > 0 && c.distributeQuota == Max(quota, 0)
            && 0 <= granted <= Max(quota, 0) && c.quotaLeft == quota - granted
            && c.used == uses[c] + granted && c.refilled == refills[c] + Refill(c.limit, dt))
  }

  lemma ListedOnce(channels: seq<Channel>, cs: set<Channel>)
    requires Listed(channels, cs)
    ensures forall j, k | 0 <= j < k < |channels| :: channels[j] != channels[k]
  {
  }

  lemma AccountedOne(cs: set<Channel>, quotas: map<Channel, int>, uses: map<Channel, int>, before: seq<Request>,
                     after: seq<Request>, c: Channel)
    requires quotas.Keys == uses.Keys == cs && |before| == |after| && Accounted(cs, quotas, uses, before, after)
    requires c in cs && c.limit > 0 && c.tmp == Weight(before, c) > 0
    ensures 0 <= Granted(before, after, c) <= c.distributeQuota
    ensures c.quotaLeft == quotas[c] - Granted(before, after, c) && c.used == uses[c] + Granted(before, after, c)
  {
    hide Granted, Weight;
    Cancel(Granted(before, after, c), c.distributeQuota, c.tmp);
  }

  lemma Cancel(a: int, b: int, t: int)
    requires t > 0 && a * t <= b * t
    ensures a <= b
  {
    if a > b { AtMostTimes(b + 1, a, t); }
  }

  /** What a round does to the books of a channel. For a limited one bytes given back come first, a channel still in use
      is refilled, and what its requests got, which is never more than it had, is taken out. */
  ghost predicate Round(cs: set<Channel>, quotas: map<Channel, int>, uses: map<Channel, int>, refills: map<Channel, int>,
                        given: map<Channel, int>, queue: seq<Request>, before: seq<Request>, after: seq<Request>, dt: nat,
                        disconnecting: set<nat>)
    requires quotas.Keys == uses.Keys == refills.Keys == given.Keys == cs && |before| == |after|
    reads cs
  {
    forall c | c in cs ::
      var back := GivenBack(queue, disconnecting, c);
      && c.limit >= 0
      && (c.limit == 0 ==> c.quotaLeft == quotas[c] && c.used == uses[c] && c.refilled == refills[c] && c.returned == given[c])
      && (c.limit > 0 ==>
            && c.returned == given[c] + back
            && if c in Channels(before) then
                 var quota := Budget(quotas[c] + back, c.limit, dt);
                 var granted := Granted(before, after, c);
                 && c.tmp == Weight(before, c) > 0 && c.distributeQuota == Max(quota, 0)
                 && 0 <= granted <= Max(quota, 0) && c.quotaLeft == quota - granted
                 && c.used == uses[c] + granted && c.refilled == refills[c] + Refill(c.limit, dt)
               else c.quotaLeft == quotas[c] + back && c.used == uses[c] && c.refilled == refills[c])
  }

  /** The books after the drops: `shared` are the channels still in use, with the maps for what they hold now. */
  ghost predicate AfterDrop(cs: set<Channel>, quotas: map<Channel, int>, uses: map<Channel, int>, refills: map<Channel, int>,
                            given: map<Channel, int>, queue: seq<Request>, disconnecting: set<nat>, shared: set<Channel>,
                            quotas1: map<Channel, int>, uses1: map<Channel, int>, refills1: map<Channel, int>)
    requires quotas.Keys == uses.Keys == refills.Keys == given.Keys == cs
    requires quotas1.Keys == uses1.Keys == refills1.Keys == shared
    reads cs`limit, cs`returned, cs - shared
  {
    forall c | c in cs ::
      var back := if c.limit == 0 then 0 else GivenBack(queue, disconnecting, c);
      && c.limit >= 0 && c.returned == given[c] + back
      && if c in shared then quotas1[c] == quotas[c] + back && uses1[c] == uses[c] && refills1[c] == refills[c]
         else c.quotaLeft == quotas[c] + back && c.used == uses[c] && c.refilled == refills[c]
  }

  lemma DropBooks(cs: set<Channel>, quotas: map<Channel, int>, uses: map<Channel, int>, refills: map<Channel, int>,
                  given: map<Channel, int>, queue: seq<Request>, disconnecting: set<nat>, shared: set<Channel>,
                  quotas1: map<Channel, int>, uses1: map<Channel, int>, refills1: map<Channel, int>)
    requires quotas.Keys == given.Keys == cs && shared <= cs && GaveBack(cs, quotas, given, queue, disconnecting)
    requires uses == Uses(cs) && refills == Refills(cs)
    requires quotas1 == Quotas(shared) && uses1 == Uses(shared) && refills1 == Refills(shared)
    ensures AfterDrop(cs, quotas, uses, refills, given, queue, disconnecting, shared, quotas1, uses1, refills1)
  {
    hide GivenBack;
  }

  lemma ShareBooks(cs: set<Channel>, quotas: map<Channel, int>, uses: map<Channel, int>, refills: map<Channel, int>,
                   given: map<Channel, int>, queue: seq<Request>, disconnecting: set<nat>, shared: set<Channel>,
                   quotas1: map<Channel, int>, uses1: map<Channel, int>, refills1: map<Channel, int>,
                   before: seq<Request>, after: seq<Request>, dt: nat)
    requires quotas.Keys == uses.Keys == refills.Keys == given.Keys == cs && |before| == |after|
    requires quotas1.Keys == uses1.Keys == refills1.Keys == shared == Channels(before)
    requires AfterDrop(cs, quotas, uses, refills, given, queue, disconnecting, shared, quotas1, uses1, refills1)
    requires SharedOut(shared, quotas1, uses1, refills1, before, after, dt)
    ensures Round(cs, quotas, uses, refills, given, queue, before, after, dt, disconnecting)
  {
    hide GivenBack, Granted, Refill, Min, Max, Budget, Weight;
  }

  lemma Books(cs: set<Channel>)
    ensures Quotas(cs).Keys == Uses(cs).Keys == Refills(cs).Keys == Returns(cs).Keys == cs
    ensures forall c | c in cs :: Quotas(cs)[c] == c.quotaLeft && Uses(cs)[c] == c.used
    ensures forall c | c in cs :: Refills(cs)[c] == c.refilled && Returns(cs)[c] == c.returned
  {
  }

  /** The limited channels were refilled, and are ready to give out what they have. */
  ghost predicate Refilled(cs: set<Channel>, quotas: map<Channel, int>, uses: map<Channel, int>, refills: map<Channel, int>,
                           quotas1: map<Channel, int>, uses1: map<Channel, int>, dt: nat)
    requires quotas.Keys == uses.Keys == refills.Keys == quotas1.Keys == uses1.Keys == cs
    reads cs`limit, cs`refilled, cs`distributeQuota
  {
    forall c | c in cs ::
      && c.limit >= 0 && uses1[c] == uses[c]
      && (c.limit == 0 ==> c.refilled == refills[c] && quotas1[c] == quotas[c])
      && (c.limit > 0 ==>
            && c.refilled == refills[c] + Refill(c.limit, dt)
            && quotas1[c] == Budget(quotas[c], c.limit, dt) && c.distributeQuota == Max(quotas1[c], 0))
  }

  /** Every channel has its weight, and a limited one a quota to distribute. */
  ghost predicate Weighed(cs: set<Channel>, queue: seq<Request>)
    reads cs`limit, cs`tmp, cs`distributeQuota
  {
    forall c | c in cs :: c.tmp == Weight(queue, c) > 0 && (c.limit != 0 ==> c.distributeQuota >= 0)
  }

  lemma WeighedParts(cs: set<Channel>, queue: seq<Request>)
    requires Weighed(cs, queue)
    ensures forall c | c in cs && c.limit != 0 :: c.distributeQuota >= 0 && c.tmp > 0
  {
  }

  lemma WeighedIs(cs: set<Channel>, queue: seq<Request>)
    requires forall c | c in cs :: c.tmp == Weight(queue, c) > 0
    requires forall c | c in cs && c.limit != 0 :: c.distributeQuota >= 0
    ensures Weighed(cs, queue)
  {
  }

  /** The refilled channels gave their grants. */
  lemma ShareDone(cs: set<Channel>, quotas: map<Channel, int>, uses: map<Channel, int>, refills: map<Channel, int>,
                  quotas1: map<Channel, int>, uses1: map<Channel, int>, before: seq<Request>, after: seq<Request>, dt: nat)
    requires quotas.Keys == uses.Keys == refills.Keys == quotas1.Keys == uses1.Keys == cs && |before| == |after|
    requires Weighed(cs, before) && Refilled(cs, quotas, uses, refills, quotas1, uses1, dt)
    requires Accounted(cs, quotas1, uses1, before, after)
    ensures SharedOut(cs, quotas, uses, refills, before, after, dt)
  {
    assert forall c | c in cs && c.limit == 0 :: c.quotaLeft == quotas1[c] && c.used == uses1[c];
    hide Accounted, Refill, Min, Max, Weight, Granted, Budget;
    forall c | c in cs && c.limit > 0
      ensures 0 <= Granted(before, after, c) <= c.distributeQuota
      ensures c.quotaLeft == quotas1[c] - Granted(before, after, c) && c.used == uses1[c] + Granted(before, after, c)
    {
      AccountedOne(cs, quotas1, uses1, before, after, c);
    }
  }

  /** A whole round: the requests of connected peers were granted their fair shares, the finished ones left and were
      delivered, and the books of every limited channel balance. */
  ghost predicate RoundDone(cs: set<Channel>, quotas: map<Channel, int>, uses: map<Channel, int>, refills: map<Channel, int>,
                            given: map<Channel, int>, queue: seq<Request>, queue': seq<Request>,
                            after: seq<Request>, dt: nat, disconnecting: set<nat>)
    reads cs
  {
    var before := Connected(queue, disconnecting);
    && quotas.Keys == uses.Keys == refills.Keys == given.Keys == cs && |before| == |after| && Channels(before) <= cs
    && queue' == Unfinished(after) && AllFair(before, after, Channels(before))
    && Round(cs, quotas, uses, refills, given, queue, before, after, dt, disconnecting)
  }

  lemma RoundIs(cs: set<Channel>, quotas: map<Channel, int>, uses: map<Channel, int>, refills: map<Channel, int>,
                given: map<Channel, int>, queue: seq<Request>, queue': seq<Request>,
                before: seq<Request>, after: seq<Request>, dt: nat, disconnecting: set<nat>)
    requires before == Connected(queue, disconnecting)
    requires quotas.Keys == uses.Keys == refills.Keys == given.Keys == cs && |before| == |after| && Channels(before) <= cs
    requires queue' == Unfinished(after) && AllFair(before, after, Channels(before))
    requires Round(cs, quotas, uses, refills, given, queue, before, after, dt, disconnecting)
    ensures RoundDone(cs, quotas, uses, refills, given, queue, queue', after, dt, disconnecting)
  {
  }

  lemma {:induction false} GivenBackAtLeast(queue: seq<Request>, disconnecting: set<nat>, c: Channel)
    requires forall r | r in queue :: r.given >= 0
    ensures GivenBack(queue, disconnecting, c) >= 0
  {
    if queue != [] {
      var r := queue[|queue| - 1];
      GivenBackAtLeast(queue[..|queue| - 1], disconnecting, c);
      AtMostTimes(0, r.given, Times(r.channels, c));
    }
  }

  /** The shares that a request is due of its limited channels in a round. */
  ghost function Shares(r: Request, quotas: map<Channel, int>, queue: seq<Request>, disconnecting: set<nat>, dt: nat): map<Channel, int>
    requires forall c | c in r.channels ::
               c in quotas && c.limit >= 0 && (c.limit > 0 ==> Weight(Connected(queue, disconnecting), c) > 0)
    reads r.channels
  {
    map c | c in r.channels && c.limit > 0 ::
      Due(c, quotas[c] + GivenBack(queue, disconnecting, c), dt, r.priority, Weight(Connected(queue, disconnecting), c))
  }

  /** What a request got in a round: all it still wanted, or the least of the shares that its priority is due of the
      quotas of its channels. */
  lemma SharesOfRound(cs: set<Channel>, quotas: map<Channel, int>, uses: map<Channel, int>, refills: map<Channel, int>,
                      given: map<Channel, int>, queue: seq<Request>, queue': seq<Request>, after: seq<Request>, dt: nat,
                      disconnecting: set<nat>, k: nat)
    requires RoundDone(cs, quotas, uses, refills, given, queue, queue', after, dt, disconnecting) && k < |after|
    ensures k < |Connected(queue, disconnecting)|
    ensures var r := Connected(queue, disconnecting)[k];
      && (forall c | c in r.channels ::
            c in quotas && c.limit >= 0 && (c.limit > 0 ==> Weight(Connected(queue, disconnecting), c) > 0))
      && var grant, shares := after[k].given - r.given, Shares(r, quotas, queue, disconnecting, dt);
         && 0 <= grant <= r.Owed() && (forall c | c in shares :: grant <= shares[c])
         && (grant == r.Owed() || exists c | c in shares :: grant == shares[c])
  {
    hide *;
    RoundFair(cs, quotas, uses, refills, given, queue, queue', after, dt, disconnecting, k);
    var r := Connected(queue, disconnecting)[k];
    forall c | c in r.channels
      ensures c in quotas && c.limit >= 0 && (c.limit > 0 ==> Weight(Connected(queue, disconnecting), c) > 0 && Limits(c) && c.tmp != 0)
      ensures c.limit > 0 ==>
                Share(c, r.priority)
                == Due(c, quotas[c] + GivenBack(queue, disconnecting, c), dt, r.priority, Weight(Connected(queue, disconnecting), c))
    {
      InChannels(Connected(queue, disconnecting), k, c);
      ShareIsDue(cs, quotas, uses, refills, given, queue, queue', after, dt, disconnecting, c, r.priority);
    }
    SharesAre(r, quotas, queue, disconnecting, dt);
    FairIs(r, after[k], Shares(r, quotas, queue, disconnecting, dt));
  }

  lemma SharesAre(r: Request, quotas: map<Channel, int>, queue: seq<Request>, disconnecting: set<nat>, dt: nat)
    requires forall c | c in r.channels ::
               c in quotas && c.limit >= 0 && (c.limit > 0 ==> Weight(Connected(queue, disconnecting), c) > 0)
    ensures var shares := Shares(r, quotas, queue, disconnecting, dt);
      && shares.Keys == (set c | c in r.channels && c.limit > 0)
      && forall c | c in shares ::
           c in quotas && shares[c] == Due(c, quotas[c] + GivenBack(queue, disconnecting, c), dt, r.priority,
                                           Weight(Connected(queue, disconnecting), c))
  {
  }

  lemma RoundFair(cs: set<Channel>, quotas: map<Channel, int>, uses: map<Channel, int>, refills: map<Channel, int>,
                  given: map<Channel, int>, queue: seq<Request>, queue': seq<Request>, after: seq<Request>, dt: nat,
                  disconnecting: set<nat>, k: nat)
    requires RoundDone(cs, quotas, uses, refills, given, queue, queue', after, dt, disconnecting) && k < |after|
    ensures |Connected(queue, disconnecting)| == |after| && FairGrant(Connected(queue, disconnecting)[k], after[k])
  {
    hide Round, Connected, FairGrant, Unfinished;
  }

  /** A fair grant, with the shares worked out. */
  lemma FairIs(r: Request, r': Request, shares: map<Channel, int>)
    requires shares.Keys == set c | c in r.channels && c.limit > 0
    requires FairGrant(r, r') && forall c | c in shares :: Limits(c) && Share(c, r.priority) == shares[c]
    requires forall c | c in r.channels :: c.limit >= 0
    ensures var grant := r'.given - r.given;
      && 0 <= grant <= r.Owed()
      && (forall c | c in shares :: grant <= shares[c])
      && (grant == r.Owed() || exists c | c in shares :: grant == shares[c])
  {
    hide Share;
  }

  lemma InChannels(queue: seq<Request>, k: nat, c: Channel)
    requires k < |queue| && c in queue[k].channels
    ensures c in Channels(queue)
  {
    assert queue[k] in queue;
  }

  lemma ShareIsDue(cs: set<Channel>, quotas: map<Channel, int>, uses: map<Channel, int>, refills: map<Channel, int>,
                   given: map<Channel, int>, queue: seq<Request>, queue': seq<Request>, after: seq<Request>, dt: nat,
                   disconnecting: set<nat>, c: Channel, priority: int)
    requires RoundDone(cs, quotas, uses, refills, given, queue, queue', after, dt, disconnecting)
    requires c in Channels(Connected(queue, disconnecting))
    ensures c in cs && c.limit >= 0 && quotas.Keys == cs
    ensures c.limit > 0 ==>
              && Weight(Connected(queue, disconnecting), c) > 0 && Limits(c) && c.tmp != 0
              && Share(c, priority)
                 == Due(c, quotas[c] + GivenBack(queue, disconnecting, c), dt, priority, Weight(Connected(queue, disconnecting), c))
  {
    hide GivenBack, Granted, Connected, Unfinished, Weight, Refill, Budget, Max, Min, AllFair, Channels;
  }

  /** The part of what channel c has to give out, with `left` over from before, that a priority is due. */
  function Due(c: Channel, left: int, dt: nat, priority: int, weight: int): int
    requires c.limit >= 0 && weight > 0
    reads c`limit
  {
    Max(Budget(left, c.limit, dt), 0) * priority / weight
  }

  /** A round takes no more out of a channel than its quota and what came in, and leaves no debt where there was none. */
  lemma NoDebt(cs: set<Channel>, quotas: map<Channel, int>, uses: map<Channel, int>, refills: map<Channel, int>,
               given: map<Channel, int>, queue: seq<Request>, queue': seq<Request>, after: seq<Request>, dt: nat,
               disconnecting: set<nat>, c: Channel)
    requires RoundDone(cs, quotas, uses, refills, given, queue, queue', after, dt, disconnecting)
    requires c in cs && forall r | r in queue :: r.given >= 0
    ensures c.quotaLeft + c.used - c.refilled - c.returned <= quotas[c] + uses[c] - refills[c] - given[c]
    ensures quotas[c] >= 0 ==>
              && c.quotaLeft >= 0
              && c.used - uses[c] <= quotas[c] + (c.refilled - refills[c]) + (c.returned - given[c])
    ensures c.limit >= 0 && refills[c] <= c.refilled <= refills[c] + Refill(c.limit, dt)
  {
    GivenBackAtLeast(queue, disconnecting, c);
    var back := GivenBack(queue, disconnecting, c);
    hide GivenBack, Granted, Connected, Unfinished, AllFair, Refill, Channels, Weight;
    assert c.limit > 0 ==> c.returned == given[c] + back;
  }

  /** In a round a channel in use gains what its limit in bytes a second brings in so many milliseconds, to the nearest byte;
      it saves up what three seconds bring at most, and the rest is lost. */
  lemma RoundRate(cs: set<Channel>, quotas: map<Channel, int>, uses: map<Channel, int>, refills: map<Channel, int>,
                  given: map<Channel, int>, queue: seq<Request>, queue': seq<Request>, after: seq<Request>, dt: nat,
                  disconnecting: set<nat>, c: Channel)
    requires RoundDone(cs, quotas, uses, refills, given, queue, queue', after, dt, disconnecting)
    requires c in cs && c.limit > 0
    ensures if c in Channels(Connected(queue, disconnecting)) then
              var had, gained, used := quotas[c] + c.returned - given[c], c.refilled - refills[c], c.used - uses[c];
              && c.limit * dt - 500 < 1000 * gained <= c.limit * dt + 500
              && c.quotaLeft + used <= 3 * c.limit
              && (had + gained <= 3 * c.limit ==> c.quotaLeft + used == had + gained)
              && (had + gained > 3 * c.limit ==> c.quotaLeft + used == 3 * c.limit)
            else c.refilled == refills[c]
  {
    hide GivenBack, Granted, Connected, Unfinished, AllFair, Refill, Channels, Weight;
  }

  /** Books in which no less came in than was given out. */
  lemma BooksOpen(cs: set<Channel>)
    requires forall c | c in cs :: c.Valid()
    ensures var quotas, uses, refills, given := Quotas(cs), Uses(cs), Refills(cs), Returns(cs);
      && uses.Keys == refills.Keys == cs
      && forall c | c in cs :: quotas[c] + uses[c] <= refills[c] + given[c]
  {
  }

  /** They balance after a round too. */
  lemma BooksClosed(cs: set<Channel>, quotas: map<Channel, int>, uses: map<Channel, int>, refills: map<Channel, int>,
                    given: map<Channel, int>, queue: seq<Request>, queue': seq<Request>, after: seq<Request>, dt: nat,
                    disconnecting: set<nat>)
    requires RoundDone(cs, quotas, uses, refills, given, queue, queue', after, dt, disconnecting)
    requires quotas.Keys == uses.Keys == refills.Keys == given.Keys == cs
    requires forall c | c in cs :: quotas[c] + uses[c] <= refills[c] + given[c]
    requires forall r | r in queue :: r.given >= 0
    ensures forall c | c in cs :: c.Valid()
  {
    hide RoundDone;
    forall c | c in cs
      ensures c.Valid()
    {
      NoDebt(cs, quotas, uses, refills, given, queue, queue', after, dt, disconnecting, c);
    }
  }

  /** The bytes that requests hold through a channel, and all they asked of it. */
  function Held(requests: seq<Request>, c: Channel): int {
    if requests == [] then 0
    else Held(requests[..|requests| - 1], c) + requests[|requests| - 1].given * Times(requests[|requests| - 1].channels, c)
  }

  function Asked(requests: seq<Request>, c: Channel): int {
    if requests == [] then 0
    else Asked(requests[..|requests| - 1], c) + requests[|requests| - 1].requestSize * Times(requests[|requests| - 1].channels, c)
  }

  /** What peers are told of finished requests. */
  function Tell(done: seq<Request>): seq<(nat, int)> {
    if done == [] then []
    else Tell(done[..|done| - 1]) + [(done[|done| - 1].peer, done[|done| - 1].given)]
  }

  function Backwards(requests: seq<Request>): (r: seq<Request>)
    ensures |r| == |requests|
  {
    if requests == [] then [] else [requests[|requests| - 1]] + Backwards(requests[..|requests| - 1])
  }

  /** How often a channel is among those of a new request. */
  function Mentions(channels: seq<Channel?>, c: Channel): (r: nat)
    ensures r <= |channels| && (r == 0 <==> c !in channels)
  {
    if channels == [] then 0 else Mentions(channels[..|channels| - 1], c) + if channels[|channels| - 1] == c then 1 else 0
  }

  /** The limit in force after some events. */
  function LimitAfter(events: seq<Event>, c: Channel, limit: int): int {
    if events == [] then limit
    else
      var e := events[|events| - 1];
      if e.Limit? && e.channel == c then e.limit else LimitAfter(events[..|events| - 1], c, limit)
  }

  /** The bytes a limit brings in while time passes, of which a round sees three seconds at most. */
  function RefillBy(e: Event, limit: int): (r: int)
    ensures r >= 0
  {
    if e.Tick? && limit > 0 then Refill(limit, if e.dt > 3000 then 3000 else e.dt) else 0
  }

  function Inflow(events: seq<Event>, c: Channel, limit: int): (r: int)
    ensures r >= 0
  {
    if events == [] then 0
    else
      Inflow(events[..|events| - 1], c, limit) + RefillBy(events[|events| - 1], LimitAfter(events[..|events| - 1], c, limit))
  }

  /** What a limit brings in while time passes, in thousandths of a byte: `limit` for each millisecond of a round, three
      seconds of it at most, and half a byte that rounding may add. */
  function Allowance(events: seq<Event>, c: Channel, limit: int): int {
    if events == [] then 0
    else
      var e := events[|events| - 1];
      var l := LimitAfter(events[..|events| - 1], c, limit);
      Allowance(events[..|events| - 1], c, limit) + if e.Tick? && l > 0 then l * Min(e.dt, 3000) + 500 else 0
  }

  lemma {:induction false} InflowAllowed(events: seq<Event>, c: Channel, limit: int)
    ensures 1000 * Inflow(events, c, limit) <= Allowance(events, c, limit)
  {
    if events != [] {
      InflowAllowed(events[..|events| - 1], c, limit);
      hide Refill, LimitAfter;
    }
  }

  /** The bytes new requests ask of a channel. */
  function AskedOf(e: Event, c: Channel): int {
    if e.Submit? then e.blk * Mentions(e.channels, c) else 0
  }

  function AskedBy(events: seq<Event>, c: Channel): int {
    if events == [] then 0 else AskedBy(events[..|events| - 1], c) + AskedOf(events[|events| - 1], c)
  }

  /** The channel has a limit now and is never freed of it. */
  predicate AlwaysLimited(events: seq<Event>, c: Channel, limit: int) {
    limit > 0 && forall e | e in events && e.Limit? && e.channel == c :: e.limit > 0
  }

  /** The books of a channel at some time, with what the requests in the queue hold and ask of it. */
  datatype Ledger = Ledger(quota: int, used: int, refilled: int, returned: int, limit: int, held: int, asked: int)

  ghost function LedgerOf(c: Channel, queue: seq<Request>): Ledger
    reads c
  {
    Ledger(c.quotaLeft, c.used, c.refilled, c.returned, c.limit, Held(queue, c), Asked(queue, c))
  }

  ghost function Ledgers(cs: set<Channel>, queue: seq<Request>): (m: map<Channel, Ledger>)
    reads cs
    ensures m.Keys == cs
  {
    map c | c in cs :: LedgerOf(c, queue)
  }

  lemma LedgersAre(cs: set<Channel>, queue: seq<Request>)
    ensures forall c | c in cs ::
              Ledgers(cs, queue)[c] == Ledger(c.quotaLeft, c.used, c.refilled, c.returned, c.limit, Held(queue, c), Asked(queue, c))
  {
    hide Held, Asked;
  }

  /** From ledger a to ledger b: what was refilled and asked is given, and while there was a limit, what was delivered is
      what the requests held and got less what they hold now and gave back. */
  predicate Step(a: Ledger, b: Ledger, inflow: int, asked: int, limited: bool, delivered: int) {
    && b.quota >= Min(a.quota, 0)
    && b.quota + b.used - b.refilled - b.returned <= a.quota + a.used - a.refilled - a.returned
    && 0 <= b.refilled - a.refilled <= inflow
    && 0 <= b.returned - a.returned <= a.asked + asked - b.asked
    && 0 <= b.used - a.used
    && (limited ==> b.held + delivered == a.held + (b.used - a.used) - (b.returned - a.returned))
  }

  lemma StepTwice(a: Ledger, b: Ledger, c: Ledger, inflow1: int, asked1: int, limited1: bool, delivered1: int,
                  inflow2: int, asked2: int, limited2: bool, delivered2: int)
    requires Step(a, b, inflow1, asked1, limited1, delivered1) && Step(b, c, inflow2, asked2, limited2, delivered2)
    ensures Step(a, c, inflow1 + inflow2, asked1 + asked2, limited1 && limited2, delivered1 + delivered2)
  {
  }

  /** From the books `start` to the books `now` of all channels, by a run of events. */
  ghost predicate Ran(start: map<Channel, Ledger>, now: map<Channel, Ledger>, events: seq<Event>, done: seq<Request>) {
    && start.Keys == now.Keys
    && forall c | c in start ::
         && now[c].limit == LimitAfter(events, c, start[c].limit)
         && Step(start[c], now[c], Inflow(events, c, start[c].limit), AskedBy(events, c),
                 AlwaysLimited(events, c, start[c].limit), Held(done, c))
  }

  /** And by one event. */
  ghost predicate Served(start: map<Channel, Ledger>, now: map<Channel, Ledger>, e: Event, done: seq<Request>) {
    && start.Keys == now.Keys
    && forall c | c in start ::
         && now[c].limit == (if e.Limit? && e.channel == c then e.limit else start[c].limit)
         && Step(start[c], now[c], RefillBy(e, start[c].limit), AskedOf(e, c), start[c].limit > 0, Held(done, c))
  }

  lemma RanNone(start: map<Channel, Ledger>)
    ensures Ran(start, start, [], []) && Tell([]) == []
  {
  }

  lemma {:induction false} HeldJoins(a: seq<Request>, b: seq<Request>, c: Channel)
    ensures Held(a + b, c) == Held(a, c) + Held(b, c)
  {
    if b == [] {
      assert a + b == a;
    } else {
      assert (a + b)[..|a + b| - 1] == a + b[..|b| - 1];
      HeldJoins(a, b[..|b| - 1], c);
    }
  }

  lemma {:induction false} TellJoins(a: seq<Request>, b: seq<Request>)
    ensures Tell(a + b) == Tell(a) + Tell(b)
  {
    if b == [] {
      assert a + b == a;
    } else {
      assert (a + b)[..|a + b| - 1] == a + b[..|b| - 1];
      TellJoins(a, b[..|b| - 1]);
    }
  }

  /** One event more. */
  lemma OneMore(events: seq<Event>, i: nat, c: Channel, limit: int)
    requires i < |events|
    ensures LimitAfter(events[..i + 1], c, limit)
            == if events[i].Limit? && events[i].channel == c then events[i].limit else LimitAfter(events[..i], c, limit)
    ensures Inflow(events[..i + 1], c, limit) == Inflow(events[..i], c, limit) + RefillBy(events[i], LimitAfter(events[..i], c, limit))
    ensures AskedBy(events[..i + 1], c) == AskedBy(events[..i], c) + AskedOf(events[i], c)
    ensures AlwaysLimited(events[..i + 1], c, limit) ==> AlwaysLimited(events[..i], c, limit)
  {
    assert events[..i + 1][..i] == events[..i];
  }

  /** A limit that was never taken away is still there. */
  lemma {:induction false} StillLimited(events: seq<Event>, c: Channel, limit: int)
    requires AlwaysLimited(events, c, limit)
    ensures LimitAfter(events, c, limit) > 0
  {
    if events != [] {
      StillLimited(events[..|events| - 1], c, limit);
      assert events[|events| - 1] in events;
    }
  }

  lemma RanMore(start: map<Channel, Ledger>, before: map<Channel, Ledger>, now: map<Channel, Ledger>, events: seq<Event>, i: nat,
                done: seq<Request>, more: seq<Request>)
    requires i < |events| && Ran(start, before, events[..i], done) && Served(before, now, events[i], more)
    ensures Ran(start, now, events[..i + 1], done + more)
  {
    hide Step, LimitAfter, Inflow, AskedBy, AlwaysLimited, Held, RefillBy, AskedOf;
    forall c | c in start
      ensures now[c].limit == LimitAfter(events[..i + 1], c, start[c].limit)
      ensures Step(start[c], now[c], Inflow(events[..i + 1], c, start[c].limit), AskedBy(events[..i + 1], c),
                   AlwaysLimited(events[..i + 1], c, start[c].limit), Held(done + more, c))
    {
      OneMore(events, i, c, start[c].limit);
      HeldJoins(done, more, c);
      var e, l := events[i], before[c].limit;
      StepTwice(start[c], before[c], now[c], Inflow(events[..i], c, start[c].limit), AskedBy(events[..i], c),
                AlwaysLimited(events[..i], c, start[c].limit), Held(done, c), RefillBy(e, l), AskedOf(e, c), l > 0, Held(more, c));
      if AlwaysLimited(events[..i + 1], c, start[c].limit) {
        StillLimited(events[..i], c, start[c].limit);
      } else {
        StepFree(start[c], now[c], Inflow(events[..i + 1], c, start[c].limit), AskedBy(events[..i + 1], c),
                 AlwaysLimited(events[..i], c, start[c].limit) && l > 0, Held(done + more, c));
      }
    }
  }

  lemma StepFree(a: Ledger, b: Ledger, inflow: int, asked: int, limited: bool, delivered: int)
    requires Step(a, b, inflow, asked, limited, delivered)
    ensures Step(a, b, inflow, asked, false, delivered)
  {
  }

  lemma {:induction false} HeldAtLeast(requests: seq<Request>)
    requires forall r | r in requests :: 0 <= r.given <= r.requestSize
    ensures forall c :: 0 <= Held(requests, c) <= Asked(requests, c)
  {
    if requests != [] {
      var r := requests[|requests| - 1];
      HeldAtLeast(requests[..|requests| - 1]);
      forall c
        ensures 0 <= r.given * Times(r.channels, c) <= r.requestSize * Times(r.channels, c)
      {
        AtMostTimes(0, r.given, Times(r.channels, c));
        AtMostTimes(r.given, r.requestSize, Times(r.channels, c));
      }
    }
  }

  /** What a run comes to for each channel. */
  lemma RanAll(start: map<Channel, Ledger>, now: map<Channel, Ledger>, events: seq<Event>, done: seq<Request>)
    requires Ran(start, now, events, done) && forall c | c in now :: now[c].asked >= 0
    ensures forall c | c in start ::
      && c in now && now[c].limit == LimitAfter(events, c, start[c].limit) && now[c].quota >= Min(start[c].quota, 0)
      && 0 <= 1000 * (now[c].refilled - start[c].refilled) <= Allowance(events, c, start[c].limit)
      && 0 <= now[c].returned - start[c].returned <= start[c].asked + AskedBy(events, c)
      && 0 <= now[c].used - start[c].used
           <= Max(start[c].quota, 0) + (now[c].refilled - start[c].refilled) + (now[c].returned - start[c].returned)
      && (AlwaysLimited(events, c, start[c].limit) ==>
            && now[c].held + Held(done, c)
               == start[c].held + (now[c].used - start[c].used) - (now[c].returned - start[c].returned)
            && 1000 * (now[c].held + Held(done, c))
               <= 1000 * (start[c].held + Max(start[c].quota, 0)) + Allowance(events, c, start[c].limit))
  {
    hide LimitAfter, Inflow, AskedBy, AlwaysLimited, Held, Allowance;
    forall c | c in start
      ensures 1000 * Inflow(events, c, start[c].limit) <= Allowance(events, c, start[c].limit)
    {
      InflowAllowed(events, c, start[c].limit);
    }
  }

  lemma GivenFits(queue: seq<Request>)
    ensures (forall r | r in queue :: r.Waiting()) ==> forall r | r in queue :: 0 <= r.given <= r.requestSize
    ensures Backwards(Dispatched([])) == []
  {
  }

  lemma TellNone()
    ensures Tell([]) == [] && forall c :: Held([], c) == 0
  {
  }

  lemma {:induction false} ToldBackwards(requests: seq<Request>)
    ensures Tell(Backwards(requests)) == Reversed(requests)
    ensures forall c :: Held(Backwards(requests), c) == Held(requests, c)
  {
    if requests != [] {
      var last, rest := requests[|requests| - 1], Backwards(requests[..|requests| - 1]);
      ToldBackwards(requests[..|requests| - 1]);
      TellJoins([last], rest);
      assert [last][..0] == [];
      forall c
        ensures Held([last] + rest, c) == Held(rest, c) + last.given * Times(last.channels, c)
      {
        HeldJoins([last], rest, c);
      }
    }
  }

  lemma TimesMore(channels: seq<Channel>, d: Channel, c: Channel)
    ensures Times(channels + [d], c) == Times(channels, c) + if d == c then 1 else 0
  {
    assert (channels + [d])[..|channels|] == channels;
  }

  /** A request is queued with the limited ones of its channels. */
  lemma {:induction false} MentionsLimited(channels: seq<Channel?>, c: Channel)
    ensures Times(Limited(channels), c) <= Mentions(channels, c)
    decreases |channels|
  {
    if channels != [] {
      var n := |channels| - 1;
      MentionsLimited(channels[..n], c);
      var limited := Limited(channels[..n]);
      if channels[n] != null && channels[n].limit > 0 {
        TimesMore(limited, channels[n], c);
        assert Limited(channels) == limited + [channels[n]];
      } else {
        assert Limited(channels) == limited;
      }
    }
  }

  lemma SubmitServed(cs: set<Channel>, start: map<Channel, Ledger>, queue: seq<Request>, queue': seq<Request>, e: Event, r: Request)
    requires e.Submit? && e.blk > 0 && r.given == 0 && r.requestSize == e.blk && r.channels == Limited(e.channels)
    requires queue' == queue || queue' == queue + [r]
    requires start == Ledgers(cs, queue)
    ensures Served(start, Ledgers(cs, queue'), e, [])
  {
    TellNone();
    LedgersAre(cs, queue);
    LedgersAre(cs, queue');
    hide Held, Asked, Ledgers, Times, Mentions;
    forall c | c in cs
      ensures Held(queue', c) == Held(queue, c) && 0 <= AskedOf(e, c) + Asked(queue, c) - Asked(queue', c)
    {
      MentionsLimited(e.channels, c);
      AtMostTimes(0, e.blk, Mentions(e.channels, c));
      if queue' == queue + [r] {
        OneAsked(queue, r, c);
        TimesAtMost(e.blk, Times(r.channels, c), Mentions(e.channels, c));
      }
    }
  }

  lemma OneAsked(queue: seq<Request>, r: Request, c: Channel)
    ensures Held(queue + [r], c) == Held(queue, c) + r.given * Times(r.channels, c)
    ensures Asked(queue + [r], c) == Asked(queue, c) + r.requestSize * Times(r.channels, c)
  {
    assert (queue + [r])[..|queue|] == queue;
  }

  lemma TimesAtMost(p: nat, a: nat, b: nat)
    requires a <= b
    ensures p * a <= p * b
  {
    assert p * b == p * a + p * (b - a);
  }

  lemma LimitServed(cs: set<Channel>, start: map<Channel, Ledger>, queue: seq<Request>, e: Event)
    requires e.Limit? && start.Keys == cs
    requires forall c | c in cs ::
               start[c] == Ledger(c.quotaLeft, c.used, c.refilled, c.returned, start[c].limit, Held(queue, c), Asked(queue, c))
               && c.limit == if e.channel == c then e.limit else start[c].limit
    ensures Served(start, Ledgers(cs, queue), e, [])
  {
    TellNone();
    LedgersAre(cs, queue);
    hide Held, Asked, Ledgers;
  }

  /** One round, for all channels. */
  ghost predicate RoundServed(start: map<Channel, Ledger>, now: map<Channel, Ledger>, dt: nat, done: seq<Request>) {
    && start.Keys == now.Keys
    && forall c | c in start ::
         && now[c].limit == start[c].limit
         && Step(start[c], now[c], if start[c].limit > 0 then Refill(start[c].limit, dt) else 0, 0, start[c].limit > 0, Held(done, c))
  }

  lemma TickServed(start: map<Channel, Ledger>, now: map<Channel, Ledger>, e: Event, done: seq<Request>)
    requires e.Tick? && RoundServed(start, now, if e.dt > 3000 then 3000 else e.dt, done)
    ensures Served(start, now, e, done)
  {
    hide Step, Held;
  }

  lemma NobodyServed(start: map<Channel, Ledger>, dt: nat)
    ensures RoundServed(start, start, dt, Backwards(Dispatched([])))
  {
  }

  /** What requests hold, before and after the grants of a round. */
  lemma {:induction false} HeldGranted(before: seq<Request>, after: seq<Request>, c: Channel)
    requires |before| == |after| && forall k | 0 <= k < |after| :: after[k].channels == before[k].channels
    ensures Held(after, c) == Held(before, c) + Granted(before, after, c)
  {
    if after != [] {
      var n := |after| - 1;
      HeldGranted(before[..n], after[..n], c);
      GrantSplits(before[n].given, after[n].given, Times(before[n].channels, c));
    }
  }

  lemma GrantSplits(a: int, b: int, t: nat)
    ensures b * t == a * t + (b - a) * t
  {
  }

  lemma {:induction false} HeldFinished(after: seq<Request>, c: Channel)
    ensures Held(after, c) == Held(Unfinished(after), c) + Held(Dispatched(after), c)
  {
    if after != [] {
      var last, rest := after[|after| - 1], after[..|after| - 1];
      HeldFinished(rest, c);
      hide Finished;
      OneAsked(Unfinished(rest), last, c);
      OneAsked(Dispatched(rest), last, c);
      assert Finished(last) ==> Unfinished(after) == Unfinished(rest) && Dispatched(after) == Dispatched(rest) + [last];
      assert !Finished(last) ==> Unfinished(after) == Unfinished(rest) + [last] && Dispatched(after) == Dispatched(rest);
    }
  }

  lemma {:induction false} AskedFinished(after: seq<Request>, c: Channel)
    requires forall r | r in after :: r.requestSize >= 0
    ensures Asked(Unfinished(after), c) <= Asked(after, c)
  {
    if after != [] {
      var last, rest := after[|after| - 1], after[..|after| - 1];
      AskedFinished(rest, c);
      hide Finished;
      OneAsked(Unfinished(rest), last, c);
      assert Finished(last) ==> Unfinished(after) == Unfinished(rest);
      assert !Finished(last) ==> Unfinished(after) == Unfinished(rest) + [last];
      AtMostTimes(0, last.requestSize, Times(last.channels, c));
    }
  }

  lemma {:induction false} AskedSame(before: seq<Request>, after: seq<Request>, c: Channel)
    requires |before| == |after|
    requires forall k | 0 <= k < |after| :: after[k].channels == before[k].channels && after[k].requestSize == before[k].requestSize
    ensures Asked(after, c) == Asked(before, c)
  {
    if after != [] {
      AskedSame(before[..|after| - 1], after[..|after| - 1], c);
    }
  }

  /** Requests that leave give back what they hold, and ask no more. */
  lemma {:induction false} HeldDropped(queue: seq<Request>, disconnecting: set<nat>, c: Channel)
    requires forall r | r in queue :: 0 <= r.given <= r.requestSize
    ensures Held(queue, c) == Held(Connected(queue, disconnecting), c) + GivenBack(queue, disconnecting, c)
    ensures 0 <= GivenBack(queue, disconnecting, c) <= Asked(queue, c) - Asked(Connected(queue, disconnecting), c)
  {
    if queue != [] {
      var last, rest := queue[|queue| - 1], queue[..|queue| - 1];
      HeldDropped(rest, disconnecting, c);
      assert last.peer in disconnecting ==> Connected(queue, disconnecting) == Connected(rest, disconnecting);
      assert last.peer !in disconnecting ==> Connected(queue, disconnecting) == Connected(rest, disconnecting) + [last];
      OneAsked(Connected(rest, disconnecting), last, c);
      AtMostTimes(0, last.given, Times(last.channels, c));
      AtMostTimes(last.given, last.requestSize, Times(last.channels, c));
    }
  }

  lemma {:induction false} HeldOutside(requests: seq<Request>, c: Channel)
    requires forall r | r in requests :: c !in r.channels
    ensures Held(requests, c) == 0 && Asked(requests, c) == 0
  {
    if requests != [] {
      var last := requests[|requests| - 1];
      HeldOutside(requests[..|requests| - 1], c);
      assert last in requests;
      TimesNone(last.channels, c);
    }
  }

  lemma {:induction false} GrantedOutside(before: seq<Request>, after: seq<Request>, c: Channel)
    requires |before| == |after| && forall r | r in before :: c !in r.channels
    ensures Granted(before, after, c) == 0
  {
    if before != [] {
      var last := before[|before| - 1];
      GrantedOutside(before[..|before| - 1], after[..|before| - 1], c);
      assert last in before;
      TimesNone(last.channels, c);
    }
  }

  /** What the sums come to over a round. */
  lemma RoundSums(queue: seq<Request>, before: seq<Request>, after: seq<Request>, queue': seq<Request>, disconnecting: set<nat>, c: Channel)
    requires before == Connected(queue, disconnecting) && |before| == |after| && queue' == Unfinished(after)
    requires forall r | r in queue :: 0 <= r.given <= r.requestSize
    requires forall k | 0 <= k < |after| :: after[k].channels == before[k].channels && after[k].requestSize == before[k].requestSize
    ensures Held(queue', c) + Held(Backwards(Dispatched(after)), c)
            == Held(queue, c) - GivenBack(queue, disconnecting, c) + Granted(before, after, c)
    ensures 0 <= GivenBack(queue, disconnecting, c) <= Asked(queue, c) - Asked(queue', c)
    ensures c !in Channels(before) ==> Granted(before, after, c) == 0
  {
    ConnectedIn(queue, disconnecting);
    HeldDropped(queue, disconnecting, c);
    HeldGranted(before, after, c);
    HeldFinished(after, c);
    ToldBackwards(Dispatched(after));
    AskedSame(before, after, c);
    forall r | r in after
      ensures r.requestSize >= 0
    {
      var k :| 0 <= k < |after| && after[k] == r;
      assert before[k] in queue;
    }
    AskedFinished(after, c);
    if c !in Channels(before) {
      GrantedOutside(before, after, c);
    }
  }

  /** One channel in use over a round. */
  lemma OneServed(cs: set<Channel>, quotas: map<Channel, int>, uses: map<Channel, int>, refills: map<Channel, int>,
                  given: map<Channel, int>, queue: seq<Request>, queue': seq<Request>, after: seq<Request>, dt: nat,
                  disconnecting: set<nat>, c: Channel)
    requires RoundDone(cs, quotas, uses, refills, given, queue, queue', after, dt, disconnecting)
    requires c in cs && forall r | r in queue :: 0 <= r.given <= r.requestSize
    ensures quotas.Keys == uses.Keys == refills.Keys == given.Keys == cs
    ensures Step(Ledger(quotas[c], uses[c], refills[c], given[c], c.limit, Held(queue, c), Asked(queue, c)),
                 Ledger(c.quotaLeft, c.used, c.refilled, c.returned, c.limit, Held(queue', c), Asked(queue', c)),
                 if c.limit > 0 then Refill(c.limit, dt) else 0, 0, c.limit > 0, Held(Backwards(Dispatched(after)), c))
  {
    var before := Connected(queue, disconnecting);
    GrantsKeep(before, after, Channels(before));
    RoundSums(queue, before, after, queue', disconnecting, c);
    hide *;
    BooksStep(cs, quotas, uses, refills, given, queue, before, after, dt, disconnecting, c, Held(queue, c), Held(queue', c), Asked(queue, c),
              Asked(queue', c), Held(Backwards(Dispatched(after)), c));
  }

  /** The books of a round that moved these amounts. */
  lemma BooksStep(cs: set<Channel>, quotas: map<Channel, int>, uses: map<Channel, int>, refills: map<Channel, int>,
                  given: map<Channel, int>, queue: seq<Request>, before: seq<Request>, after: seq<Request>, dt: nat,
                  disconnecting: set<nat>, c: Channel, held: int, held': int, asked: int, asked': int, told: int)
    requires quotas.Keys == uses.Keys == refills.Keys == given.Keys == cs && |before| == |after| && c in cs
    requires Round(cs, quotas, uses, refills, given, queue, before, after, dt, disconnecting)
    requires held' + told == held - GivenBack(queue, disconnecting, c) + Granted(before, after, c)
    requires 0 <= GivenBack(queue, disconnecting, c) <= asked - asked'
    requires c !in Channels(before) ==> Granted(before, after, c) == 0
    ensures Step(Ledger(quotas[c], uses[c], refills[c], given[c], c.limit, held, asked),
                 Ledger(c.quotaLeft, c.used, c.refilled, c.returned, c.limit, held', asked'),
                 if c.limit > 0 then Refill(c.limit, dt) else 0, 0, c.limit > 0, told)
  {
    hide GivenBack, Granted, Refill, Channels, Weight;
  }

  lemma GrantsKeep(before: seq<Request>, after: seq<Request>, cs: set<Channel>)
    requires |before| == |after| && AllFair(before, after, cs)
    ensures forall k | 0 <= k < |after| ::
              && after[k].channels == before[k].channels && after[k].requestSize == before[k].requestSize
              && before[k].given <= after[k].given <= after[k].given + after[k].Owed()
  {
    forall k | 0 <= k < |after|
      ensures && after[k].channels == before[k].channels && after[k].requestSize == before[k].requestSize
              && before[k].given <= after[k].given <= after[k].given + after[k].Owed()
    {
      assert FairGrant(before[k], after[k]);
    }
  }

  /** The finished requests got no more than they asked for. */
  lemma FinishedFit(cs: set<Channel>, quotas: map<Channel, int>, uses: map<Channel, int>, refills: map<Channel, int>,
                    given: map<Channel, int>, queue: seq<Request>, queue': seq<Request>, after: seq<Request>, dt: nat,
                    disconnecting: set<nat>)
    requires RoundDone(cs, quotas, uses, refills, given, queue, queue', after, dt, disconnecting)
    requires forall r | r in queue :: 0 <= r.given <= r.requestSize
    ensures forall r | r in Backwards(Dispatched(after)) :: 0 <= r.given <= r.requestSize
  {
    var before := Connected(queue, disconnecting);
    GrantsKeep(before, after, Channels(before));
    ConnectedIn(queue, disconnecting);
    hide RoundDone, Connected, Unfinished, AllFair;
    forall k | 0 <= k < |after|
      ensures 0 <= after[k].given <= after[k].requestSize
    {
      assert before[k] in before;
    }
    BackwardsIn(after);
  }

  lemma {:induction false} BackwardsIn(after: seq<Request>)
    ensures forall r | r in Backwards(Dispatched(after)) :: r in after
  {
    DispatchedIn(after);
    AllBackwards(Dispatched(after));
  }

  lemma {:induction false} DispatchedIn(after: seq<Request>)
    ensures forall r | r in Dispatched(after) :: r in after
  {
    if after != [] { DispatchedIn(after[..|after| - 1]); }
  }

  lemma {:induction false} AllBackwards(requests: seq<Request>)
    ensures forall r | r in Backwards(requests) :: r in requests
  {
    if requests != [] { AllBackwards(requests[..|requests| - 1]); }
  }

  /** A round, for the channels in use and all others. */
  lemma AllServed(cs: set<Channel>, start: map<Channel, Ledger>, cs1: set<Channel>, quotas: map<Channel, int>, uses: map<Channel, int>,
                  refills: map<Channel, int>, given: map<Channel, int>, queue: seq<Request>, queue': seq<Request>,
                  after: seq<Request>, dt: nat, disconnecting: set<nat>)
    requires cs1 <= cs == start.Keys && cs1 == Channels(queue) && Channels(queue') <= cs1
    requires RoundDone(cs1, quotas, uses, refills, given, queue, queue', after, dt, disconnecting)
    requires quotas.Keys == uses.Keys == refills.Keys == given.Keys == cs1
    requires forall c | c in cs1 ::
               start[c] == Ledger(quotas[c], uses[c], refills[c], given[c], c.limit, Held(queue, c), Asked(queue, c))
    requires forall c | c in cs - cs1 ::
               start[c] == Ledger(c.quotaLeft, c.used, c.refilled, c.returned, c.limit, Held(queue, c), Asked(queue, c))
    requires forall r | r in queue :: 0 <= r.given <= r.requestSize
    ensures RoundServed(start, Ledgers(cs, queue'), dt, Backwards(Dispatched(after)))
  {
    hide RoundDone, Held, Asked, Backwards, Dispatched, Channels, Refill, Step;
    LedgersAre(cs, queue');
    forall c | c in cs
      ensures Step(start[c], Ledgers(cs, queue')[c], if start[c].limit > 0 then Refill(start[c].limit, dt) else 0, 0,
                   start[c].limit > 0, Held(Backwards(Dispatched(after)), c))
    {
      if c in cs1 {
        OneServed(cs1, quotas, uses, refills, given, queue, queue', after, dt, disconnecting, c);
      } else {
        OutsideServed(cs1, quotas, uses, refills, given, queue, queue', after, dt, disconnecting, c);
        StepNone(start[c], if start[c].limit > 0 then Refill(start[c].limit, dt) else 0);
      }
    }
  }

  lemma StepNone(a: Ledger, inflow: int)
    requires inflow >= 0
    ensures Step(a, a, inflow, 0, a.limit > 0, 0)
  {
  }

  /** Requests in the queue hold and ask nothing of a channel that is not theirs. */
  lemma OutsideServed(cs: set<Channel>, quotas: map<Channel, int>, uses: map<Channel, int>, refills: map<Channel, int>,
                      given: map<Channel, int>, queue: seq<Request>, queue': seq<Request>, after: seq<Request>, dt: nat,
                      disconnecting: set<nat>, c: Channel)
    requires RoundDone(cs, quotas, uses, refills, given, queue, queue', after, dt, disconnecting)
    requires cs == Channels(queue) && Channels(queue') <= cs && c !in cs
    ensures Held(queue, c) == Held(queue', c) == Held(Backwards(Dispatched(after)), c) == 0
    ensures Asked(queue, c) == Asked(queue', c) == 0
  {
    var before := Connected(queue, disconnecting);
    GrantsKeep(before, after, Channels(before));
    ConnectedIn(queue, disconnecting);
    BackwardsIn(after);
    hide RoundDone, Connected, AllFair, Unfinished;
    forall r | r in after
      ensures c !in r.channels
    {
      var k :| 0 <= k < |after| && after[k] == r;
      assert before[k] in queue;
    }
    HeldOutside(queue, c);
    HeldOutside(queue', c);
    HeldOutside(Backwards(Dispatched(after)), c);
  }

  lemma EventParts(e: Event, cs: set<Channel>)
    requires EventOk(e, cs)
    ensures e.Submit? ==> e.blk > 0 && e.priority > 0 && |e.channels| == 5 && forall c: Channel? | c in e.channels && c != null :: c in cs
    ensures e.Limit? ==> e.channel in cs && e.limit >= 0
  {
  }

  lemma MoreChannels(queue: seq<Request>, queue': seq<Request>, channels: seq<Channel?>, r: Request, cs: set<Channel>)
    requires Channels(queue) <= cs && (forall c: Channel? | c in channels && c != null :: c in cs)
    requires r.channels == Limited(channels) && (queue' == queue || queue' == queue + [r])
    ensures Channels(queue') <= cs
  {
  }

  /** The requests that are left use no new channels. */
  lemma RoundChannels(cs: set<Channel>, quotas: map<Channel, int>, uses: map<Channel, int>, refills: map<Channel, int>,
                      given: map<Channel, int>, queue: seq<Request>, queue': seq<Request>, after: seq<Request>, dt: nat,
                      disconnecting: set<nat>)
    requires RoundDone(cs, quotas, uses, refills, given, queue, queue', after, dt, disconnecting)
    ensures Channels(queue') <= cs
  {
    var before := Connected(queue, disconnecting);
    UnfinishedIn(after);
    hide Round, Connected, Unfinished;
    forall r | r in queue'
      ensures forall c | c in r.channels :: c in cs
    {
      var k :| 0 <= k < |after| && after[k] == r;
      assert FairGrant(before[k], after[k]);
    }
  }
}
