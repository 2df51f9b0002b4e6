/** The fixed-size channel pool of the gRPC transport
    (google/cloud/bigtable_v2/services/bigtable/transports/pooled_grpc_asyncio.py):
    round-robin channel selection, replacing one channel, and the stub
    cache keyed by channel and method. Channels and stubs are named by
    numbers; creating one takes the next unused number. */
module PooledTransport {
  import opened Wrappers
  import Exceptions

  type Channel = nat

  /** A stub is identified by the order in which it was created. */
  type Stub = nat

  datatype StubKey = StubKey(channel: Channel, rpc: string)

  datatype Transport = Transport(
    pool: seq<Channel>,
    nextIdx: int,
    stubs: map<StubKey, Stub>,
    freshChannel: Channel,
    freshStub: Stub)

  /** What every public operation keeps: a non-empty pool, a round-robin
      position inside it, cached stubs only for channels in the pool, and
      a next channel number that no pooled channel has taken. */
  predicate Valid(t: Transport) {
    |t.pool| > 0 && 0 <= t.nextIdx < |t.pool|
    && (forall k :: k in t.stubs ==> k.channel in t.pool)
    && (forall c :: c in t.pool ==> c < t.freshChannel)
  }

  /** No channel sits in two slots. */
  predicate Distinct(pool: seq<Channel>) {
    forall i, j :: 0 <= i < j < |pool| ==> pool[i] != pool[j]
  }

  /** `__init__`: a pool size that is not positive is a `ValueError`;
      otherwise `pool_size` new channels and an empty cache. */
  function NewTransport(poolSize: int): (r: Result<Transport, string>)
    ensures r.Ok? <==> poolSize > 0
    ensures r.Ok? ==> Valid(r.value) && |r.value.pool| == poolSize && r.value.nextIdx == 0 && r.value.stubs == map[]
    ensures r.Ok? ==> Distinct(r.value.pool)
    ensures r.Err? ==> r.error == "invalid pool_size: " + Exceptions.IntToString(poolSize)
  {
    if poolSize <= 0 then Err("invalid pool_size: " + Exceptions.IntToString(poolSize))
    else Ok(Transport(seq(poolSize, k => k), 0, map[], poolSize, 0))
  }

  datatype Picked = Picked(t: Transport, channel: Channel)

  /** `next_channel`: the channel at the position, which then advances
      cyclically. */
  function NextChannel(t: Transport): (r: Picked)
    requires Valid(t)
    ensures Valid(r.t) && r.channel == t.pool[t.nextIdx]
    ensures r.t == t.(nextIdx := (t.nextIdx + 1) % |t.pool|)
  {
    Picked(t.(nextIdx := (t.nextIdx + 1) % |t.pool|), t.pool[t.nextIdx])
  }

  /** The channels `n` successive calls return. */
  function NextChannels(t: Transport, n: nat): (cs: seq<Channel>)
    requires Valid(t)
    ensures |cs| == n
    decreases n
  {
    if n == 0 then [] else
      var r := NextChannel(t);
      [r.channel] + NextChannels(r.t, n - 1)
  }

  /** A position `x < 2 * n` brought back into the pool by going round
      once. */
  function Wrap(x: int, n: int): int {
    if x < n then x else x - n
  }

  /** From a valid position, `(i + 1) % n` is the next slot round the
      pool. */
  lemma Advance(i: int, n: int)
    requires 0 <= i < n
    ensures (i + 1) % n == Wrap(i + 1, n)
  {
    if i + 1 == n {
      assert (i + 1) % n == 0;
    }
  }

  /** The `j`-th of successive calls returns the slot `j` places after the
      starting position, going round the pool once. */
  lemma {:induction false} NextChannelsCycle(t: Transport, n: nat)
    requires Valid(t)
    ensures forall j :: 0 <= j < n && j < |t.pool| ==> NextChannels(t, n)[j] == t.pool[Wrap(t.nextIdx + j, |t.pool|)]
    decreases n
  {
    if n > 0 {
      var r := NextChannel(t);
      Advance(t.nextIdx, |t.pool|);
      NextChannelsCycle(r.t, n - 1);
      var cs := NextChannels(t, n);
      var rest := NextChannels(r.t, n - 1);
      assert cs == [r.channel] + rest;
      forall j | 0 <= j < n && j < |t.pool| ensures cs[j] == t.pool[Wrap(t.nextIdx + j, |t.pool|)] {
        if j > 0 {
          assert cs[j] == rest[j - 1];
          assert Wrap(r.t.nextIdx + (j - 1), |t.pool|) == Wrap(t.nextIdx + j, |t.pool|);
        }
      }
    }
  }

  /** Any `len(pool)` successive calls use every slot of the pool exactly
      once, in pool order starting from the current position. */
  lemma RoundRobinVisitsEverySlot(t: Transport)
    requires Valid(t)
    ensures NextChannels(t, |t.pool|) == t.pool[t.nextIdx..] + t.pool[..t.nextIdx]
  {
    var n := |t.pool|;
    NextChannelsCycle(t, n);
    var rotated := t.pool[t.nextIdx..] + t.pool[..t.nextIdx];
    forall j | 0 <= j < n ensures NextChannels(t, n)[j] == rotated[j] {
      if j < n - t.nextIdx {
        assert rotated[j] == t.pool[t.nextIdx + j];
      } else {
        assert rotated[j] == t.pool[t.nextIdx + j - n];
      }
    }
  }

  datatype Replaced = Replaced(t: Transport, newChannel: Channel, closed: Channel)

  /** `replace_channel`: an index outside the pool is a `ValueError`;
      otherwise the slot gets the given channel (or a new one), the old
      channel is closed, and every stub cached for it is dropped. */
  function ReplaceChannel(t: Transport, idx: int, newChannel: Option<Channel>): (r: Result<Replaced, string>)
    ensures r.Ok? <==> 0 <= idx < |t.pool|
    ensures r.Ok? ==> r.value.t.pool == t.pool[idx := r.value.newChannel] && r.value.closed == t.pool[idx]
    ensures r.Ok? && newChannel.Some? ==> r.value.newChannel == newChannel.value
    ensures r.Ok? ==> forall k :: k in r.value.t.stubs <==> k in t.stubs && k.channel != t.pool[idx]
    ensures r.Ok? ==> forall k :: k in r.value.t.stubs ==> r.value.t.stubs[k] == t.stubs[k]
    ensures r.Ok? ==> r.value.t.nextIdx == t.nextIdx
    ensures r.Err? ==> r.error == "invalid channel_idx " + Exceptions.IntToString(idx) + " for pool size " + Exceptions.NatToString(|t.pool|)
  {
    if idx >= |t.pool| || idx < 0 then Err("invalid channel_idx " + Exceptions.IntToString(idx) + " for pool size " + Exceptions.NatToString(|t.pool|))
    else
      var nc := if newChannel.None? then t.freshChannel else newChannel.value;
      var closed := t.pool[idx];
      var stubs := map k | k in t.stubs && k.channel != closed :: t.stubs[k];
      Ok(Replaced(
        t.(pool := t.pool[idx := nc], stubs := stubs, freshChannel := if nc < t.freshChannel then t.freshChannel else nc + 1),
        nc, closed))
  }

  /** Replacing a channel keeps the transport valid: no stub of the
      closed channel survives unless that channel is still in the pool,
      and a channel passed in is never handed out again as a new one.
      Pooled channels stay distinct when the new channel is created or is
      not already pooled. */
  lemma ReplaceChannelValid(t: Transport, idx: int, newChannel: Option<Channel>)
    requires Valid(t) && 0 <= idx < |t.pool|
    ensures Valid(ReplaceChannel(t, idx, newChannel).value.t)
    ensures Distinct(t.pool) && (newChannel.None? || newChannel.value !in t.pool) ==>
      Distinct(ReplaceChannel(t, idx, newChannel).value.t.pool)
  {
    var r := ReplaceChannel(t, idx, newChannel).value;
    forall k | k in r.t.stubs ensures k.channel in r.t.pool {
      var i :| 0 <= i < |t.pool| && t.pool[i] == k.channel;
      assert i != idx && r.t.pool[i] == k.channel;
    }
    forall c | c in r.t.pool ensures c < r.t.freshChannel {
      var i :| 0 <= i < |r.t.pool| && r.t.pool[i] == c;
      if i != idx {
        assert t.pool[i] == c && t.pool[i] in t.pool;
      }
    }
    if Distinct(t.pool) && (newChannel.None? || newChannel.value !in t.pool) {
      forall i, j | 0 <= i < j < |r.t.pool| ensures r.t.pool[i] != r.t.pool[j] {
        if i != idx && j != idx {
          assert r.t.pool[i] == t.pool[i] && r.t.pool[j] == t.pool[j];
        } else if i == idx {
          assert t.pool[j] in t.pool;
        } else {
          assert t.pool[i] in t.pool;
        }
      }
    }
  }

  datatype Called = Called(t: Transport, stub: Stub, channel: Channel)

  /** The stub a method call goes through (`read_rows`, `mutate_rows` and
      the others): the next channel's cached stub for that rpc, created
      and cached on first use. */
  function StubFor(t: Transport, rpc: string): (r: Called)
    requires Valid(t)
    ensures Valid(r.t) && r.channel == t.pool[t.nextIdx] && r.t.pool == t.pool
    ensures r.t.nextIdx == (t.nextIdx + 1) % |t.pool|
    ensures StubKey(r.channel, rpc) in r.t.stubs && r.t.stubs[StubKey(r.channel, rpc)] == r.stub
    ensures StubKey(r.channel, rpc) in t.stubs ==> r.stub == t.stubs[StubKey(r.channel, rpc)] && r.t.stubs == t.stubs
    ensures forall k :: k in t.stubs ==> k in r.t.stubs && r.t.stubs[k] == t.stubs[k]
  {
    var p := NextChannel(t);
    var key := StubKey(p.channel, rpc);
    if key in t.stubs then Called(p.t, t.stubs[key], p.channel)
    else Called(p.t.(stubs := t.stubs[key := t.freshStub], freshStub := t.freshStub + 1), t.freshStub, p.channel)
  }

  /** The stubs `n` successive calls of one method go through. */
  function StubsFor(t: Transport, rpc: string, n: nat): (ss: seq<Stub>)
    requires Valid(t)
    ensures |ss| == n
    decreases n
  {
    if n == 0 then [] else
      var r := StubFor(t, rpc);
      [r.stub] + StubsFor(r.t, rpc, n - 1)
  }

  /** A call cycle later, the same method goes through the same stub
      again: each (channel, rpc) pair gets one stub, reused. */
  lemma StubReusedAfterCycle(t: Transport, rpc: string)
    requires Valid(t)
    ensures var n := |t.pool|; StubsFor(t, rpc, n + 1)[n] == StubsFor(t, rpc, n + 1)[0]
  {
    var first := StubFor(t, rpc);
    Advance(t.nextIdx, |t.pool|);
    StubsAfter(first.t, rpc, |t.pool|, StubKey(first.channel, rpc), first.stub);
  }

  /** After `m` further calls from a transport whose cache maps `key` to
      `s`, the cache still does, and the position has advanced by `m`. */
  lemma {:induction false} StubsAfter(t: Transport, rpc: string, m: nat, key: StubKey, s: Stub)
    requires Valid(t) && key in t.stubs && t.stubs[key] == s && key.rpc == rpc && m >= 1
    requires m <= |t.pool| && t.pool[Wrap(t.nextIdx + m - 1, |t.pool|)] == key.channel
    ensures StubsFor(t, rpc, m)[m - 1] == s
    decreases m
  {
    if m > 1 {
      var r := StubFor(t, rpc);
      Advance(t.nextIdx, |t.pool|);
      StubsAfter(r.t, rpc, m - 1, key, s);
    }
  }
}
