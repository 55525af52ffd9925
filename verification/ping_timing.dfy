/** The ping actor of `pingpong_tcp_timing.cpp`: it stamps every ping it
    sends (`t1`), records the pong actor's stamp from every pong (`t2`) and
    stamps every pong's arrival (`t3`). After `max_pongs` pongs it hands the
    three series to the listener, which prints the latency report. Clock
    readings are parameters of the handlers. */
module PingTiming {
  import opened Sums
  import opened LatencyReport

  /** An actor handle; only its identity matters here. */
  type Actor = nat

  datatype Ping = Ping(sink: Actor, t1: seq<int>, t2: seq<int>, t3: seq<int>, quit: bool)

  /** A freshly spawned ping actor: empty series, no peer yet. */
  function Spawn(): (p: Ping)
    ensures p.t1 == [] && p.t2 == [] && p.t3 == [] && !p.quit
  {
    Ping(0, [], [], [], false)
  }

  /** The `hello` handler remembers the pong actor and asks itself to start;
      the series are untouched. */
  function OnHello(p: Ping, sink: Actor): (r: Ping)
    requires !p.quit
    ensures r.sink == sink && r.t1 == p.t1 && r.t2 == p.t2 && r.t3 == p.t3 && !r.quit
  {
    p.(sink := sink)
  }

  /** The `start` handler sends the first ping and stamps it. */
  function OnStart(p: Ping, now: int): (r: Ping)
    requires !p.quit
    ensures r.t1 == p.t1 + [now] && r.t2 == p.t2 && r.t3 == p.t3
    ensures r.sink == p.sink && !r.quit
  {
    p.(t1 := p.t1 + [now])
  }

  /** The answer to a pong: the series for the listener (followed by quit),
      or the next ping. */
  datatype Reply = Finish(t1: seq<int>, t2: seq<int>, t3: seq<int>) | NextPing

  /** A pong as it reaches the ping actor: the clock when it arrives, the
      pong actor's stamp, and the clock when the next ping is stamped. */
  datatype Pong = Pong(arrival: int, remote: int, resend: int)

  /** The `pong` handler: the arrival goes to `t3` and the remote stamp to
      `t2`; when `t3` then holds exactly `max_pongs` entries the series go
      out and the actor quits, otherwise the next ping is stamped into `t1`
      and sent. */
  function OnPong(p: Ping, pong: Pong, maxPongs: nat): (r: (Ping, Reply))
    requires !p.quit
    ensures r.0.t3 == p.t3 + [pong.arrival] && r.0.t2 == p.t2 + [pong.remote]
    ensures r.0.quit <==> |p.t3| + 1 == maxPongs
    ensures r.0.t1 == p.t1 + (if r.0.quit then [] else [pong.resend])
    ensures r.1.Finish? <==> r.0.quit
    ensures r.1.Finish? ==> r.1 == Finish(r.0.t1, r.0.t2, r.0.t3)
  {
    var p' := p.(t3 := p.t3 + [pong.arrival], t2 := p.t2 + [pong.remote]);
    if |p'.t3| == maxPongs then
      (p'.(quit := true), Finish(p'.t1, p'.t2, p'.t3))
    else (p'.(t1 := p'.t1 + [pong.resend]), NextPing)
  }

  /** Exactly one ping is in flight: every ping but the last has been
      answered, and each answer filled `t2` and `t3` together. */
  predicate Outstanding(p: Ping)
  {
    !p.quit && |p.t2| == |p.t3| && |p.t1| == |p.t3| + 1
  }

  /** The start handler leaves one ping in flight. */
  lemma StartOutstanding(sink: Actor, now: int)
    ensures Outstanding(OnStart(OnHello(Spawn(), sink), now))
    ensures OnStart(OnHello(Spawn(), sink), now).t1 == [now]
  {
  }

  /** The ping actor handling a series of pongs, one reply each, until it
      quits. A new ping is only ever the reply to a pong. */
  function Pongs(p: Ping, pongs: seq<Pong>, maxPongs: nat): (r: (Ping, seq<Reply>))
    decreases |pongs|
  {
    if |pongs| == 0 || p.quit then (p, [])
    else
      var step := OnPong(p, pongs[0], maxPongs);
      var rest := Pongs(step.0, pongs[1..], maxPongs);
      (rest.0, [step.1] + rest.1)
  }

  /** The arrival stamps and remote stamps of a series of pongs. */
  function Arrivals(pongs: seq<Pong>): (s: seq<int>)
    ensures |s| == |pongs| && forall i :: 0 <= i < |pongs| ==> s[i] == pongs[i].arrival
  {
    if |pongs| == 0 then [] else [pongs[0].arrival] + Arrivals(pongs[1..])
  }

  function Remotes(pongs: seq<Pong>): (s: seq<int>)
    ensures |s| == |pongs| && forall i :: 0 <= i < |pongs| ==> s[i] == pongs[i].remote
  {
    if |pongs| == 0 then [] else [pongs[0].remote] + Remotes(pongs[1..])
  }

  /** With one ping in flight and `n = max_pongs - |t3|` pongs still to go,
      the actor answers `min(|pongs|, n)` pongs, and the `n`-th answer, and
      only it, hands over the series. */
  lemma {:induction false} PongsReplies(p: Ping, pongs: seq<Pong>, maxPongs: nat)
    requires Outstanding(p) && |p.t3| < maxPongs
    ensures |Pongs(p, pongs, maxPongs).1| == Smaller(|pongs|, maxPongs - |p.t3|)
    ensures forall i :: 0 <= i < |Pongs(p, pongs, maxPongs).1| ==>
      (Pongs(p, pongs, maxPongs).1[i].Finish? <==> i == maxPongs - |p.t3| - 1)
    ensures Pongs(p, pongs, maxPongs).0.quit <==> |pongs| >= maxPongs - |p.t3|
    decreases |pongs|
  {
    if |pongs| > 0 {
      var (p1, reply) := OnPong(p, pongs[0], maxPongs);
      if !p1.quit {
        PongsReplies(p1, pongs[1..], maxPongs);
        var replies := Pongs(p, pongs, maxPongs).1;
        var rest := Pongs(p1, pongs[1..], maxPongs).1;
        assert replies == [reply] + rest;
        forall i | 0 <= i < |replies|
          ensures replies[i].Finish? <==> i == maxPongs - |p.t3| - 1
        {
          if i > 0 {
            assert replies[i] == rest[i - 1];
          }
        }
      }
    }
  }

  /** One pong handled, then the rest. */
  lemma PongsStep(p: Ping, pongs: seq<Pong>, maxPongs: nat)
    requires !p.quit && |pongs| > 0
    ensures var p1 := OnPong(p, pongs[0], maxPongs).0;
      Pongs(p, pongs, maxPongs).0 == if p1.quit then p1 else Pongs(p1, pongs[1..], maxPongs).0
  {
  }

  /** The stamps of the first `k` pongs: the first one's, then those of
      the `k - 1` after it. */
  lemma ArrivalsCons(pongs: seq<Pong>, k: nat)
    requires 0 < k <= |pongs|
    ensures Arrivals(pongs[..k]) == [pongs[0].arrival] + Arrivals(pongs[1..][..k - 1])
  {
    assert pongs[..k][1..] == pongs[1..][..k - 1];
  }

  lemma RemotesCons(pongs: seq<Pong>, k: nat)
    requires 0 < k <= |pongs|
    ensures Remotes(pongs[..k]) == [pongs[0].remote] + Remotes(pongs[1..][..k - 1])
  {
    assert pongs[..k][1..] == pongs[1..][..k - 1];
  }

  lemma AppendAssoc(s: seq<int>, x: int, t: seq<int>)
    ensures (s + [x]) + t == s + ([x] + t)
  {
  }

  /** Pong by pong, `t3` takes the arrival stamps in order... */
  lemma {:induction false} PongsArrivals(p: Ping, pongs: seq<Pong>, maxPongs: nat, k: nat)
    requires Outstanding(p) && |p.t3| < maxPongs
    requires k == Smaller(|pongs|, maxPongs - |p.t3|)
    ensures Pongs(p, pongs, maxPongs).0.t3 == p.t3 + Arrivals(pongs[..k])
    decreases |pongs|
  {
    if |pongs| == 0 {
      assert p.t3 + Arrivals(pongs[..0]) == p.t3;
    } else {
      var p1 := OnPong(p, pongs[0], maxPongs).0;
      PongsStep(p, pongs, maxPongs);
      ArrivalsCons(pongs, k);
      AppendAssoc(p.t3, pongs[0].arrival, Arrivals(pongs[1..][..k - 1]));
      if p1.quit {
        assert p1.t3 + Arrivals(pongs[1..][..0]) == p1.t3;
      } else {
        PongsArrivals(p1, pongs[1..], maxPongs, k - 1);
      }
    }
  }

  /** ...and `t2` the pong actor's stamps. */
  lemma {:induction false} PongsRemotes(p: Ping, pongs: seq<Pong>, maxPongs: nat, k: nat)
    requires Outstanding(p) && |p.t3| < maxPongs
    requires k == Smaller(|pongs|, maxPongs - |p.t3|)
    ensures Pongs(p, pongs, maxPongs).0.t2 == p.t2 + Remotes(pongs[..k])
    decreases |pongs|
  {
    if |pongs| == 0 {
      assert p.t2 + Remotes(pongs[..0]) == p.t2;
    } else {
      var p1 := OnPong(p, pongs[0], maxPongs).0;
      PongsStep(p, pongs, maxPongs);
      RemotesCons(pongs, k);
      AppendAssoc(p.t2, pongs[0].remote, Remotes(pongs[1..][..k - 1]));
      if p1.quit {
        assert p1.t2 + Remotes(pongs[1..][..0]) == p1.t2;
      } else {
        PongsRemotes(p1, pongs[1..], maxPongs, k - 1);
      }
    }
  }

  /** The series handed over have `max_pongs` entries each, so every `.at`
      of the report is in range; until then one ping is always in flight. */
  lemma {:induction false} PongsEnd(p: Ping, pongs: seq<Pong>, maxPongs: nat)
    requires Outstanding(p) && |p.t3| < maxPongs
    ensures var p' := Pongs(p, pongs, maxPongs).0;
      && (p'.quit ==> |p'.t1| == |p'.t2| == |p'.t3| == maxPongs && Differences(p'.t1, p'.t2, p'.t3).Report?)
      && (!p'.quit ==> Outstanding(p'))
    decreases |pongs|
  {
    if |pongs| > 0 {
      var (p1, reply) := OnPong(p, pongs[0], maxPongs);
      if !p1.quit {
        PongsEnd(p1, pongs[1..], maxPongs);
      }
    }
  }

  /** With `max_pongs` already passed (in particular `max_pongs == 0`) the
      equality test never fires: the actor pings forever and never reports. */
  lemma {:induction false} PongsNeverFinish(p: Ping, pongs: seq<Pong>, maxPongs: nat)
    requires Outstanding(p) && |p.t3| >= maxPongs
    ensures var (p', replies) := Pongs(p, pongs, maxPongs);
      && |replies| == |pongs|
      && (forall i :: 0 <= i < |replies| ==> replies[i] == NextPing)
      && Outstanding(p')
    decreases |pongs|
  {
    if |pongs| > 0 {
      var (p1, reply) := OnPong(p, pongs[0], maxPongs);
      PongsNeverFinish(p1, pongs[1..], maxPongs);
      var (p', replies) := Pongs(p, pongs, maxPongs);
      var (p'', rest) := Pongs(p1, pongs[1..], maxPongs);
      assert replies == [reply] + rest;
      forall i | 0 <= i < |replies|
        ensures replies[i] == NextPing
      {
        if i > 0 {
          assert replies[i] == rest[i - 1];
        }
      }
    }
  }
}
