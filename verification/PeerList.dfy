/** The list of known peers: which to connect to next, and which to forget when the list grows. */
module PeerList {
  import opened Common

  const TRACKER: nat := 0x1
  const DHT: nat := 0x2
  const PEX: nat := 0x4
  const LSD: nat := 0x8
  const RESUME_DATA: nat := 0x10

  /** What the choice of a peer looks at. `local` and `asRank` stand for facts about its address. */
  datatype Peer = Peer(address: nat, port: nat, connected: bool, banned: bool, webSeed: bool, connectable: bool, seed: bool,
                       failcount: nat, source: nat, lastConnected: nat, trustPoints: int, local: bool, asRank: int)

  /** The settings of the session. A maximum of 0 is none. */
  datatype Settings = Settings(maxFailcount: nat, noPrivilegedPorts: bool, blockedPorts: set<nat>, minReconnectTime: nat,
                               maxPeers: nat, hasAsDb: bool)

  predicate HasFlag(source: nat, flag: nat)
    requires flag > 0
  {
    source / flag % 2 == 1
  }

  function SourceRank(source: nat): nat {
    (if HasFlag(source, TRACKER) then 32 else 0) + (if HasFlag(source, LSD) then 16 else 0)
    + (if HasFlag(source, DHT) then 8 else 0) + (if HasFlag(source, PEX) then 4 else 0)
  }

  predicate IsConnectCandidate(s: Settings, p: Peer, finished: bool) {
    && !p.connected && !p.banned && !p.webSeed && p.connectable && !(p.seed && finished) && p.failcount < s.maxFailcount
    && p.port !in s.blockedPorts
    && !(s.noPrivilegedPorts && p.port < 1024 && p.source == DHT)
  }

  predicate ShouldEraseImmediately(p: Peer) {
    p.source == RESUME_DATA
  }

  predicate IsEraseCandidate(s: Settings, p: Peer, finished: bool) {
    !p.connected && !IsConnectCandidate(s, p, finished) && (p.failcount > 0 || p.source == RESUME_DATA)
  }

  /** Whether lhs is better to erase than rhs. */
  predicate ComparePeerErase(lhs: Peer, rhs: Peer) {
    if lhs.failcount != rhs.failcount then lhs.failcount > rhs.failcount
    else if (lhs.source == RESUME_DATA) != (rhs.source == RESUME_DATA) then lhs.source == RESUME_DATA
    else if lhs.connectable != rhs.connectable then !lhs.connectable
    else lhs.trustPoints < rhs.trustPoints
  }

  /** Whether lhs is better to connect to than rhs. */
  predicate ComparePeer(s: Settings, finished: bool, distance: nat -> int, lhs: Peer, rhs: Peer) {
    if lhs.failcount != rhs.failcount then lhs.failcount < rhs.failcount
    else if lhs.local != rhs.local then lhs.local
    else if lhs.lastConnected != rhs.lastConnected then lhs.lastConnected < rhs.lastConnected
    else if SourceRank(lhs.source) != SourceRank(rhs.source) then SourceRank(lhs.source) > SourceRank(rhs.source)
    else if !finished && s.hasAsDb && lhs.asRank != rhs.asRank then lhs.asRank > rhs.asRank
    else distance(lhs.address) < distance(rhs.address)
  }

  /** What makes a peer better to connect to: first fewer failures, then being local, then a connection longer ago, then the
      better source, the tracker before the local network, that before the DHT, that before other peers; then, while
      downloading, the faster network, and last the smaller distance. */
  lemma ConnectPrefers(s: Settings, finished: bool, distance: nat -> int, a: Peer, b: Peer)
    ensures a.failcount < b.failcount ==> ComparePeer(s, finished, distance, a, b)
    ensures a.failcount == b.failcount && a.local && !b.local ==> ComparePeer(s, finished, distance, a, b)
    ensures a.failcount == b.failcount && a.local == b.local && a.lastConnected < b.lastConnected ==> ComparePeer(s, finished, distance, a, b)
    ensures a.failcount == b.failcount && a.local == b.local && a.lastConnected == b.lastConnected ==>
              var x, y := a.source, b.source;
              && (x % 2 > y % 2 ==> ComparePeer(s, finished, distance, a, b))
              && (x % 2 == y % 2 && x / 8 % 2 > y / 8 % 2 ==> ComparePeer(s, finished, distance, a, b))
              && (x % 2 == y % 2 && x / 8 % 2 == y / 8 % 2 && x / 2 % 2 > y / 2 % 2 ==> ComparePeer(s, finished, distance, a, b))
              && (x / 2 % 2 == y / 2 % 2 && x % 2 == y % 2 && x / 8 % 2 == y / 8 % 2 && x / 4 % 2 > y / 4 % 2 ==>
                    ComparePeer(s, finished, distance, a, b))
    ensures a.failcount == b.failcount && a.local == b.local && a.lastConnected == b.lastConnected && a.source == b.source ==>
              && (!finished && s.hasAsDb && a.asRank > b.asRank ==> ComparePeer(s, finished, distance, a, b))
              && ((finished || !s.hasAsDb || a.asRank == b.asRank) && distance(a.address) < distance(b.address) ==>
                    ComparePeer(s, finished, distance, a, b))
  {
  }

  /** What makes a peer better to forget: first more failures, then being known from resume data only, then not being
      connectable, and last less trust. */
  lemma ErasePrefers(a: Peer, b: Peer)
    ensures a.failcount > b.failcount ==> ComparePeerErase(a, b)
    ensures a.failcount == b.failcount && a.source == 16 != b.source ==> ComparePeerErase(a, b)
    ensures a.failcount == b.failcount && (a.source == 16 <==> b.source == 16) && !a.connectable && b.connectable ==> ComparePeerErase(a, b)
    ensures a.failcount == b.failcount && (a.source == 16 <==> b.source == 16) && a.connectable == b.connectable && a.trustPoints < b.trustPoints ==>
              ComparePeerErase(a, b)
  {
  }

  /** Better-to-connect is a strict weak order. */
  lemma ConnectOrder(s: Settings, finished: bool, distance: nat -> int, a: Peer, b: Peer, c: Peer)
    ensures !ComparePeer(s, finished, distance, a, a)
    ensures ComparePeer(s, finished, distance, a, b) ==> !ComparePeer(s, finished, distance, b, a)
    ensures ComparePeer(s, finished, distance, a, b) && ComparePeer(s, finished, distance, b, c) ==> ComparePeer(s, finished, distance, a, c)
    ensures !ComparePeer(s, finished, distance, a, b) && !ComparePeer(s, finished, distance, b, c) ==> !ComparePeer(s, finished, distance, a, c)
  {
    hide SourceRank;
  }

  /** Better-to-erase is a strict weak order. */
  lemma EraseOrder(a: Peer, b: Peer, c: Peer)
    ensures !ComparePeerErase(a, a)
    ensures ComparePeerErase(a, b) ==> !ComparePeerErase(b, a)
    ensures ComparePeerErase(a, b) && ComparePeerErase(b, c) ==> ComparePeerErase(a, c)
    ensures !ComparePeerErase(a, b) && !ComparePeerErase(b, c) ==> !ComparePeerErase(a, c)
  {
  }

  /** What a scan has found so far: the best peer to connect to, the one to forget in the end, the size of the list, and the
      peers forgotten on the way. */
  datatype Findings = Findings(best: Option<Peer>, worst: Option<Peer>, size: int, erased: seq<Peer>)

  predicate Full(s: Settings, size: int) {
    s.maxPeers > 0 && 100 * size >= 95 * s.maxPeers
  }

  /** A peer may be forgotten if the list is nearly full and the one to forget so far is not better to forget. */
  predicate MayGo(s: Settings, finished: bool, x: Findings, pe: Peer) {
    Full(s, x.size) && IsEraseCandidate(s, pe, finished) && (x.worst.Some? ==> !ComparePeerErase(x.worst.value, pe))
  }

  /** One more peer. Of equals the later one is taken. */
  function Seen(s: Settings, finished: bool, now: int, distance: nat -> int, x: Findings, pe: Peer): Findings {
    if MayGo(s, finished, x, pe) && ShouldEraseImmediately(pe) then x.(size := x.size - 1, erased := x.erased + [pe])
    else
      x.(worst := if MayGo(s, finished, x, pe) then Some(pe) else x.worst,
         best := if Eligible(s, pe, finished, now) && (x.best.Some? ==> !ComparePeer(s, finished, distance, x.best.value, pe))
                 then Some(pe) else x.best)
  }

  function SeenAll(s: Settings, finished: bool, now: int, distance: nat -> int, size: int, scanned: seq<Peer>): Findings {
    if scanned == [] then Findings(None, None, size, [])
    else Seen(s, finished, now, distance, SeenAll(s, finished, now, distance, size, scanned[..|scanned| - 1]), scanned[|scanned| - 1])
  }

  lemma SeenMore(s: Settings, finished: bool, now: int, distance: nat -> int, size: int, scanned: seq<Peer>, pe: Peer)
    ensures SeenAll(s, finished, now, distance, size, scanned + [pe])
            == Seen(s, finished, now, distance, SeenAll(s, finished, now, distance, size, scanned), pe)
  {
    assert (scanned + [pe])[..|scanned|] == scanned;
  }

  function CountCandidates(s: Settings, peers: seq<Peer>, finished: bool): nat {
    if peers == [] then 0
    else CountCandidates(s, peers[..|peers| - 1], finished) + if IsConnectCandidate(s, peers[|peers| - 1], finished) then 1 else 0
  }

  function CountSeeds(peers: seq<Peer>): nat {
    if peers == [] then 0 else CountSeeds(peers[..|peers| - 1]) + if peers[|peers| - 1].seed then 1 else 0
  }

  lemma {:induction false} CountsSplit(s: Settings, a: seq<Peer>, b: seq<Peer>, finished: bool)
    ensures CountCandidates(s, a + b, finished) == CountCandidates(s, a, finished) + CountCandidates(s, b, finished)
    ensures CountSeeds(a + b) == CountSeeds(a) + CountSeeds(b)
  {
    if b == [] {
      assert a + b == a;
    } else {
      assert (a + b)[..|a + b| - 1] == a + b[..|b| - 1];
      CountsSplit(s, a, b[..|b| - 1], finished);
    }
  }

  function Without(peers: seq<Peer>, i: nat): (r: seq<Peer>)
    requires i < |peers|
    ensures |r| == |peers| - 1
  {
    peers[..i] + peers[i + 1..]
  }

  lemma CountsWithout(s: Settings, peers: seq<Peer>, i: nat, finished: bool)
    requires i < |peers|
    ensures CountCandidates(s, Without(peers, i), finished)
            == CountCandidates(s, peers, finished) - if IsConnectCandidate(s, peers[i], finished) then 1 else 0
    ensures CountSeeds(Without(peers, i)) == CountSeeds(peers) - if peers[i].seed then 1 else 0
  {
    var a, p, b := peers[..i], [peers[i]], peers[i + 1..];
    assert peers == a + p + b && p[..0] == [];
    CountsSplit(s, a + p, b, finished);
    CountsSplit(s, a, p, finished);
    CountsSplit(s, a, b, finished);
    assert CountCandidates(s, p, finished) == if IsConnectCandidate(s, peers[i], finished) then 1 else 0;
    assert CountSeeds(p) == if peers[i].seed then 1 else 0;
  }

  /** The list in the order a scan from index r visits it. */
  function Rotation(peers: seq<Peer>, r: nat): (s: seq<Peer>)
    requires r <= |peers|
    ensures |s| == |peers|
  {
    peers[r..] + peers[..r]
  }

  lemma RotationSteps(peers: seq<Peer>, r: nat)
    requires r < |peers|
    ensures Rotation(peers, r)[0] == peers[r]
    ensures Rotation(peers, r + 1) == Rotation(peers, r)[1..] + [peers[r]]
    ensures Rotation(Without(peers, r), r) == Rotation(peers, r)[1..]
  {
  }

  lemma RotationWraps(peers: seq<Peer>)
    ensures Rotation(peers, |peers|) == Rotation(peers, 0) == peers
  {
  }

  /** May be connected to now. */
  predicate Eligible(s: Settings, p: Peer, finished: bool, now: int) {
    && IsConnectCandidate(s, p, finished)
    && !(p.lastConnected != 0 && now - p.lastConnected < (p.failcount + 1) * s.minReconnectTime)
  }

  class Policy {
    const settings: Settings
    var peers: seq<Peer>
    var roundRobin: nat
    var numConnectCandidates: int
    var numSeeds: int
    var finished: bool

    ghost predicate Valid()
      reads `peers, `numConnectCandidates, `numSeeds, `finished
    {
      && numConnectCandidates == CountCandidates(settings, peers, finished)
      && numSeeds == CountSeeds(peers)
    }

    constructor (settings: Settings)
      ensures Valid() && peers == [] && this.settings == settings && roundRobin == 0 && !finished
    {
      this.settings := settings;
      peers, roundRobin, numConnectCandidates, numSeeds, finished := [], 0, 0, 0, false;
    }

    /** Takes a peer out of the list and moves the round robin index along. */
    method ErasePeer(i: nat)
      requires Valid() && i < |peers|
      modifies `peers, `roundRobin, `numConnectCandidates, `numSeeds
      ensures Valid() && peers == Without(old(peers), i)
      ensures var r := if old(roundRobin) > i then old(roundRobin) - 1 else old(roundRobin);
              roundRobin == if r >= |old(peers)| then 0 else r
    {
      hide CountCandidates, CountSeeds;
      CountsWithout(settings, peers, i, finished);
      if peers[i].seed {
        numSeeds := numSeeds - 1;
      }
      if IsConnectCandidate(settings, peers[i], finished) {
        numConnectCandidates := numConnectCandidates - 1;
      }
      if roundRobin > i {
        roundRobin := roundRobin - 1;
      }
      if roundRobin >= |peers| {
        roundRobin := 0;
      }
      peers := peers[..i] + peers[i + 1..];
    }

    ghost function Found(candidate: int, eraseCandidate: int, erased: seq<Peer>): Findings
      reads `peers
    {
      Findings(if 0 <= candidate < |peers| then Some(peers[candidate]) else None,
               if 0 <= eraseCandidate < |peers| then Some(peers[eraseCandidate]) else None, |peers|, erased)
    }

    /** Two indices into the list, or -1: of a peer that may be connected to, and of one that may be forgotten later. */
    ghost predicate Indices(candidate: int, eraseCandidate: int, now: int)
      reads `peers, `finished
    {
      && -1 <= candidate < |peers| && -1 <= eraseCandidate < |peers|
      && (candidate != -1 ==> Eligible(settings, peers[candidate], finished, now))
      && (eraseCandidate != -1 ==>
            IsEraseCandidate(settings, peers[eraseCandidate], finished) && !ShouldEraseImmediately(peers[eraseCandidate]))
    }

    /** Looks at one peer. It may be forgotten at once, or become one of the candidates. */
    method ScanPeer(candidate: int, eraseCandidate: int, now: int, distance: nat -> int, ghost erased: seq<Peer>)
      returns (candidate': int, eraseCandidate': int, ghost gone: bool)
      requires Valid() && roundRobin < |peers| && Indices(candidate, eraseCandidate, now)
      modifies `peers, `roundRobin, `numConnectCandidates, `numSeeds
      ensures Valid() && Indices(candidate', eraseCandidate', now)
      ensures roundRobin == (if gone then old(roundRobin) else old(roundRobin) + 1)
      ensures peers == (if gone then Without(old(peers), old(roundRobin)) else old(peers))
      ensures gone ==> IsEraseCandidate(settings, old(peers)[old(roundRobin)], finished) && ShouldEraseImmediately(old(peers)[old(roundRobin)])
      ensures Found(candidate', eraseCandidate', if gone then erased + [old(peers)[old(roundRobin)]] else erased)
              == Seen(settings, finished, now, distance, old(Found(candidate, eraseCandidate, erased)), old(peers)[old(roundRobin)])
    {
      hide CountCandidates, CountSeeds, SourceRank, ComparePeer, ComparePeerErase, IsConnectCandidate, IsEraseCandidate,
           ShouldEraseImmediately, Valid;
      ErasedKinds(settings, peers[roundRobin], finished, now);
      var pe := peers[roundRobin];
      var current := roundRobin;
      candidate', eraseCandidate', gone := candidate, eraseCandidate, false;
      // at least 95 percent of the places are taken
      if settings.maxPeers > 0 && 100 * |peers| >= 95 * settings.maxPeers {
        if IsEraseCandidate(settings, pe, finished)
           && (eraseCandidate == -1 || !ComparePeerErase(peers[eraseCandidate], pe)) {
          if ShouldEraseImmediately(pe) {
            if eraseCandidate > current { eraseCandidate' := eraseCandidate - 1; }
            if candidate > current { candidate' := candidate - 1; }
            gone := true;
            ErasePeer(current);
            return;
          } else {
            eraseCandidate' := current;
          }
        }
      }
      roundRobin := roundRobin + 1;
      if !IsConnectCandidate(settings, pe, finished) { return; }
      if candidate != -1 && ComparePeer(settings, finished, distance, peers[candidate], pe) { return; }
      if pe.lastConnected != 0 && now - pe.lastConnected < (pe.failcount + 1) * settings.minReconnectTime { return; }
      candidate' := current;
    }

    /** The scan of up to 300 peers from the round robin index on: what is found among them. */
    method Scan(now: int, distance: nat -> int)
      returns (candidate: int, eraseCandidate: int, ghost scanned: seq<Peer>, ghost erased: seq<Peer>)
      requires Valid()
      modifies `peers, `roundRobin, `numConnectCandidates, `numSeeds
      ensures Valid() && Indices(candidate, eraseCandidate, now)
      ensures Found(candidate, eraseCandidate, erased) == SeenAll(settings, finished, now, distance, |old(peers)|, scanned)
      ensures var n := |old(peers)|;
        scanned == Rotation(old(peers), if old(roundRobin) < n then old(roundRobin) else 0)[..if n < 300 then n else 300]
      ensures roundRobin <= |peers|
      ensures Rotation(old(peers), if old(roundRobin) < |old(peers)| then old(roundRobin) else 0)[|scanned|..] <= Rotation(peers, roundRobin)
      ensures Forgotten(settings, finished, old(peers), peers, erased)
    {
      hide CountCandidates, CountSeeds, ComparePeer, Rotation, Walk, Without, Valid, IsConnectCandidate, IsEraseCandidate, Eligible, Forgotten,
           Indices, Seen, SeenAll, Found;
      if roundRobin >= |peers| {
        roundRobin := 0;
      }
      ghost var order, peers0 := Rotation(peers, roundRobin), peers;
      candidate, eraseCandidate := -1, -1;
      var iterations: nat := if |peers| < 300 then |peers| else 300;
      ghost var rest: seq<Peer>, kept: seq<Peer> := order, [];
      scanned, erased := [], [];
      ScanStart(now, distance);
      WalkStart(peers, roundRobin, order);
      while iterations > 0
        invariant Valid() && Indices(candidate, eraseCandidate, now) && Walk(peers, roundRobin, order, scanned, rest, kept)
        invariant Found(candidate, eraseCandidate, erased) == SeenAll(settings, finished, now, distance, |peers0|, scanned)
        invariant |scanned| + iterations == (if |peers0| < 300 then |peers0| else 300) && iterations <= |rest|
        invariant Forgotten(settings, finished, peers0, peers, erased)
        decreases iterations
      {
        WalkWraps(peers, roundRobin, order, scanned, rest, kept);
        if roundRobin >= |peers| {
          roundRobin := 0;
        }
        ghost var pe, peers1, at := peers[roundRobin], peers, roundRobin;
        WalkSteps(peers, roundRobin, order, scanned, rest, kept);
        SeenMore(settings, finished, now, distance, |peers0|, scanned, pe);
        ghost var gone;
        candidate, eraseCandidate, gone := ScanPeer(candidate, eraseCandidate, now, distance, erased);
        if gone {
          ForgetOne(settings, finished, peers0, peers1, erased, at);
          erased := erased + [pe];
        } else {
          kept := kept + [pe];
        }
        scanned, rest := scanned + [pe], rest[1..];
        iterations := iterations - 1;
      }
      WalkEnd(peers, roundRobin, order, scanned, rest, kept);
    }

    /** Chooses the peer to connect to next among up to 300 peers from the round robin index on, forgetting stale peers
        of a crowded list on the way. Returns its index, or the size of the list if there is none. */
    method FindConnectCandidate(now: int, distance: nat -> int) returns (r: nat, ghost scanned: seq<Peer>, ghost erased: seq<Peer>)
      requires Valid()
      modifies `peers, `roundRobin, `numConnectCandidates, `numSeeds
      ensures Valid() && r <= |peers|
      ensures var n := |old(peers)|;
        scanned == Rotation(old(peers), if old(roundRobin) < n then old(roundRobin) else 0)[..if n < 300 then n else 300]
      ensures var x := SeenAll(settings, finished, now, distance, |old(peers)|, scanned);
        && (if x.best.Some? then r < |peers| && peers[r] == x.best.value else r == |peers|)
        && erased == x.erased + (if x.worst.Some? then [x.worst.value] else []) && |peers| == |old(peers)| - |erased|
      ensures multiset(old(peers)) == multiset(peers) + multiset(erased)
      ensures r < |peers| ==>
                && MayConnect(settings, peers[r], finished, now)
                && forall q | q in scanned && Eligible(settings, q, finished, now) ::
                     !ComparePeer(settings, finished, distance, q, peers[r])
      ensures r == |peers| ==> forall q | q in scanned :: !MayConnect(settings, q, finished, now)
      ensures forall e | e in erased :: MayForget(settings, e, finished)
      ensures erased != [] ==> Full(settings, |old(peers)|)
      ensures forall k | 0 <= k < |erased| - 1 :: erased[k].source == 16
      ensures Full(settings, |peers|) ==>
                forall q | q in scanned && MayForget(settings, q, finished) && q.source != 16 ::
                  erased != [] && !ComparePeerErase(q, erased[|erased| - 1])
    {
      hide CountCandidates, CountSeeds, ComparePeer, ComparePeerErase, Rotation, Valid, IsEraseCandidate, Eligible, Forgotten, SeenAll, Full,
           ShouldEraseImmediately, MayConnect, MayForget;
      var candidate, eraseCandidate;
      candidate, eraseCandidate, scanned, erased := Scan(now, distance);
      ForgottenSome(settings, finished, old(peers), peers, erased);
      FindingsOk(settings, finished, now, distance, |old(peers)|, scanned);
      FullFewer(settings, |peers| - 1, |peers|);
      forall q: Peer
        ensures Eligible(settings, q, finished, now) <==> MayConnect(settings, q, finished, now)
        ensures IsEraseCandidate(settings, q, finished) <==> MayForget(settings, q, finished)
        ensures ShouldEraseImmediately(q) <==> q.source == 16
      {
        EligibleIs(settings, q, finished, now);
      }
      if eraseCandidate > -1 {
        ForgetLast(old(peers), erased, candidate, eraseCandidate, now);
        erased := erased + [peers[eraseCandidate]];
        if candidate > eraseCandidate { candidate := candidate - 1; }
        ErasePeer(eraseCandidate);
      }
      r := if candidate == -1 then |peers| else candidate;
    }

    lemma ScanStart(now: int, distance: nat -> int)
      ensures Indices(-1, -1, now) && Found(-1, -1, []) == SeenAll(settings, finished, now, distance, |peers|, [])
      ensures Forgotten(settings, finished, peers, peers, [])
    {
    }

    /** The erase candidate can go: it is not the candidate. */
    lemma ForgetLast(peers0: seq<Peer>, erased: seq<Peer>, candidate: int, eraseCandidate: int, now: int)
      requires Indices(candidate, eraseCandidate, now) && eraseCandidate > -1
      requires Forgotten(settings, finished, peers0, peers, erased)
      ensures candidate != eraseCandidate
      ensures multiset(peers0) == multiset(Without(peers, eraseCandidate)) + multiset(erased + [peers[eraseCandidate]])
      ensures var candidate' := if candidate > eraseCandidate then candidate - 1 else candidate;
        candidate > -1 ==> candidate' < |Without(peers, eraseCandidate)| && Without(peers, eraseCandidate)[candidate'] == peers[candidate]
    {
      WithoutOne(peers, eraseCandidate);
    }
  }

  /** What it takes for a peer to be one to connect to, field by field; and to connect to it now. */
  predicate Suitable(s: Settings, p: Peer, finished: bool) {
    && !p.connected && !p.banned && !p.webSeed && p.connectable && (p.seed ==> !finished)
    && p.failcount < s.maxFailcount && p.port !in s.blockedPorts
    && (s.noPrivilegedPorts && p.source == 2 ==> p.port >= 1024)
  }

  predicate MayConnect(s: Settings, p: Peer, finished: bool, now: int) {
    Suitable(s, p, finished) && (p.lastConnected > 0 ==> p.lastConnected + (p.failcount + 1) * s.minReconnectTime <= now)
  }

  /** A peer that may be forgotten: not connected and not one to connect to, after a failure or from resume data only. */
  predicate MayForget(s: Settings, p: Peer, finished: bool) {
    !p.connected && !Suitable(s, p, finished) && (p.failcount >= 1 || p.source == 16)
  }

  lemma EligibleIs(s: Settings, p: Peer, finished: bool, now: int)
    ensures Eligible(s, p, finished, now) <==> MayConnect(s, p, finished, now)
    ensures IsEraseCandidate(s, p, finished) <==> MayForget(s, p, finished)
    ensures ShouldEraseImmediately(p) <==> p.source == 16
  {
  }

  lemma FullFewer(s: Settings, fewer: int, size: int)
    requires fewer <= size
    ensures Full(s, fewer) ==> Full(s, size)
  {
  }

  /** The best peer found is the best there is: no other that may be connected to is better. The one to forget is stale, and
      while the list is full no other that may be forgotten is better to forget. */
  lemma {:induction false} FindingsOk(s: Settings, finished: bool, now: int, distance: nat -> int, size: int, scanned: seq<Peer>)
    ensures var x := SeenAll(s, finished, now, distance, size, scanned);
      && x.size == size - |x.erased|
      && (x.best.None? ==> forall q | q in scanned :: !Eligible(s, q, finished, now))
      && (x.best.Some? ==>
            && Eligible(s, x.best.value, finished, now)
            && forall q | q in scanned && Eligible(s, q, finished, now) :: !ComparePeer(s, finished, distance, q, x.best.value))
      && (x.worst.Some? ==> IsEraseCandidate(s, x.worst.value, finished) && !ShouldEraseImmediately(x.worst.value))
      && (forall e | e in x.erased :: IsEraseCandidate(s, e, finished) && ShouldEraseImmediately(e))
      && (x.worst.Some? || x.erased != [] ==> Full(s, size))
      && (Full(s, x.size) ==>
            forall q | q in scanned && IsEraseCandidate(s, q, finished) && !ShouldEraseImmediately(q) ::
              x.worst.Some? && !ComparePeerErase(q, x.worst.value))
  {
    if scanned != [] {
      var rest, pe := scanned[..|scanned| - 1], scanned[|scanned| - 1];
      FindingsOk(s, finished, now, distance, size, rest);
      var x, y := SeenAll(s, finished, now, distance, size, rest), SeenAll(s, finished, now, distance, size, scanned);
      SeenMore(s, finished, now, distance, size, rest, pe);
      assert rest + [pe] == scanned;
      hide SeenAll, IsEraseCandidate, ShouldEraseImmediately, Eligible, ComparePeer, ComparePeerErase, Full;
      FullFewer(s, y.size, x.size);
      FullFewer(s, x.size, size);
      ConnectOrder(s, finished, distance, pe, pe, pe);
      EraseOrder(pe, pe, pe);
      ErasedKinds(s, pe, finished, now);
      forall q | q in rest
        ensures x.best.Some? && !ComparePeer(s, finished, distance, q, x.best.value) && !ComparePeer(s, finished, distance, x.best.value, pe) ==>
                  !ComparePeer(s, finished, distance, q, pe)
        ensures x.worst.Some? && !ComparePeerErase(q, x.worst.value) && !ComparePeerErase(x.worst.value, pe) ==> !ComparePeerErase(q, pe)
      {
        if x.best.Some? { ConnectOrder(s, finished, distance, q, x.best.value, pe); }
        if x.worst.Some? { EraseOrder(q, x.worst.value, pe); }
      }
      if x.best.Some? { ConnectOrder(s, finished, distance, x.best.value, pe, pe); }
      if x.worst.Some? { EraseOrder(x.worst.value, pe, pe); }
    }
  }

  lemma ErasedKinds(s: Settings, p: Peer, finished: bool, now: int)
    ensures IsEraseCandidate(s, p, finished) ==> !Eligible(s, p, finished, now)
  {
  }

  /** The peers forgotten so far are all stale; the others are still in the list. */
  ghost predicate Forgotten(s: Settings, finished: bool, peers0: seq<Peer>, peers: seq<Peer>, erased: seq<Peer>) {
    && multiset(peers0) == multiset(peers) + multiset(erased)
    && forall e | e in erased :: IsEraseCandidate(s, e, finished) && ShouldEraseImmediately(e)
  }

  lemma ForgottenSome(s: Settings, finished: bool, peers0: seq<Peer>, peers: seq<Peer>, erased: seq<Peer>)
    requires Forgotten(s, finished, peers0, peers, erased)
    ensures multiset(peers0) == multiset(peers) + multiset(erased)
    ensures forall e | e in erased :: IsEraseCandidate(s, e, finished) && ShouldEraseImmediately(e)
  {
  }

  lemma WithoutOne(peers: seq<Peer>, i: nat)
    requires i < |peers|
    ensures multiset(peers) == multiset(Without(peers, i)) + multiset{peers[i]}
  {
    assert peers == peers[..i] + [peers[i]] + peers[i + 1..];
  }

  lemma ForgetOne(s: Settings, finished: bool, peers0: seq<Peer>, peers: seq<Peer>, erased: seq<Peer>, i: nat)
    requires Forgotten(s, finished, peers0, peers, erased) && i < |peers|
    requires IsEraseCandidate(s, peers[i], finished) && ShouldEraseImmediately(peers[i])
    ensures Forgotten(s, finished, peers0, Without(peers, i), erased + [peers[i]])
  {
    hide IsEraseCandidate, ShouldEraseImmediately;
    WithoutOne(peers, i);
  }

  /** A scan in the given order: what was scanned, what is left of it, and which of the scanned peers are kept. */
  ghost predicate Walk(peers: seq<Peer>, r: nat, order: seq<Peer>, scanned: seq<Peer>, rest: seq<Peer>, kept: seq<Peer>) {
    r <= |peers| && Rotation(peers, r) == rest + kept && order == scanned + rest
  }

  lemma WalkStart(peers: seq<Peer>, r: nat, order: seq<Peer>)
    requires r <= |peers| && order == Rotation(peers, r)
    ensures Walk(peers, r, order, [], order, []) && |order| == |peers|
  {
  }

  lemma WalkWraps(peers: seq<Peer>, r: nat, order: seq<Peer>, scanned: seq<Peer>, rest: seq<Peer>, kept: seq<Peer>)
    requires Walk(peers, r, order, scanned, rest, kept) && rest != []
    ensures |peers| > 0 && r <= |peers| && Walk(peers, if r >= |peers| then 0 else r, order, scanned, rest, kept)
  {
    RotationWraps(peers);
  }

  /** The scan goes on with the first of the rest, whether that peer goes or stays. */
  lemma WalkSteps(peers: seq<Peer>, r: nat, order: seq<Peer>, scanned: seq<Peer>, rest: seq<Peer>, kept: seq<Peer>)
    requires Walk(peers, r, order, scanned, rest, kept) && rest != [] && r < |peers|
    ensures Walk(Without(peers, r), r, order, scanned + [peers[r]], rest[1..], kept)
    ensures Walk(peers, r + 1, order, scanned + [peers[r]], rest[1..], kept + [peers[r]])
  {
    RotationSteps(peers, r);
    hide Rotation, Without;
    NextScanned(scanned, rest, kept, peers[r]);
  }

  lemma WalkEnd(peers: seq<Peer>, r: nat, order: seq<Peer>, scanned: seq<Peer>, rest: seq<Peer>, kept: seq<Peer>)
    requires Walk(peers, r, order, scanned, rest, kept)
    ensures |scanned| <= |order| && scanned == order[..|scanned|]
    ensures r <= |peers| && order[|scanned|..] <= Rotation(peers, r)
  {
  }

  /** The scan goes on with the first of the rest. */
  lemma NextScanned(scanned: seq<Peer>, rest: seq<Peer>, kept: seq<Peer>, pe: Peer)
    requires rest != [] && (rest + kept)[0] == pe
    ensures rest[0] == pe && (rest + kept)[1..] == rest[1..] + kept
    ensures (rest + kept)[1..] + [pe] == rest[1..] + (kept + [pe])
    ensures scanned + rest == scanned + [pe] + rest[1..]
  {
  }
}
