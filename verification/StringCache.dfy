/**
 The token provider of the trap receiver: the same cache behind a double-checked lock. The load runs under the
 write lock, so a reader waits for it. Every clock reading and every lock section is one step.
 */
module StringCache {
  import opened Common
  import opened TokenCache

  datatype Client =
    | Asking(began: int)
    | Queued(began: int)
    | Holding(began: int)
    | Checked(began: int, at: int)
    | Busy(began: int, at: int, begun: int)
    | Served(began: int, load: Load)

  datatype Cache = Cache(
    now: int,
    value: Option<Load>,
    expiresAt: int,
    writer: Option<nat>,
    clients: seq<Client>,
    loads: seq<Load>)

  datatype Act =
    | Pass(until: int)
    | Arrive
    | Peek(client: nat)
    | Acquire(client: nat)
    | Clock
    | Recheck
    | Finish

  function Empty(now: int): Cache {
    Cache(now, None, 0, None, [], [])
  }

  predicate Held(c: Cache) {
    c.writer.Some? && c.writer.value < |c.clients|
  }

  predicate Allowed(c: Cache, act: Act) {
    match act
    case Pass(until) => c.now <= until
    case Arrive => true
    case Peek(k) =>
      && k < |c.clients| && c.clients[k].Asking? && c.writer.None?
      && (c.clients[k].began < c.expiresAt ==> c.value.Some?)
    case Acquire(k) => k < |c.clients| && c.clients[k].Queued? && c.writer.None?
    case Clock => Held(c) && c.clients[c.writer.value].Holding?
    case Recheck =>
      && Held(c) && c.clients[c.writer.value].Checked?
      && (c.clients[c.writer.value].at < c.expiresAt ==> c.value.Some?)
    case Finish => Held(c) && c.clients[c.writer.value].Busy?
  }

  function Perform(ttl: int, c: Cache, act: Act): Cache
    requires Allowed(c, act)
  {
    match act
    case Pass(until) => c.(now := until)
    case Arrive => c.(clients := c.clients + [Asking(c.now)])
    case Peek(k) =>
      var began := c.clients[k].began;
      c.(clients := c.clients[k := if began < c.expiresAt then Served(began, c.value.value) else Queued(began)])
    case Acquire(k) => c.(writer := Some(k), clients := c.clients[k := Holding(c.clients[k].began)])
    case Clock =>
      var k := c.writer.value;
      c.(clients := c.clients[k := Checked(c.clients[k].began, c.now)])
    case Recheck =>
      var k := c.writer.value;
      var began, at := c.clients[k].began, c.clients[k].at;
      if at < c.expiresAt then c.(writer := None, clients := c.clients[k := Served(began, c.value.value)])
      else c.(clients := c.clients[k := Busy(began, at, c.now)])
    case Finish =>
      var k := c.writer.value;
      var load := Load(c.clients[k].at, c.clients[k].begun, c.now);
      c.(writer := None, value := Some(load), expiresAt := load.start + ttl, loads := c.loads + [load],
         clients := c.clients[k := Served(c.clients[k].began, load)])
  }

  predicate IsTrace(ttl: int, c: Cache, acts: seq<Act>)
    decreases acts
  {
    acts == [] || (Allowed(c, acts[0]) && IsTrace(ttl, Perform(ttl, c, acts[0]), acts[1..]))
  }

  function Outcome(ttl: int, c: Cache, acts: seq<Act>): Cache
    requires IsTrace(ttl, c, acts)
    decreases acts
  {
    if acts == [] then c else Outcome(ttl, Perform(ttl, c, acts[0]), acts[1..])
  }

  predicate StoreOk(ttl: int, c: Cache) {
    && Spaced(ttl, c.loads, c.now)
    && (if c.loads == [] then c.value == None && c.expiresAt == 0
        else c.value == Some(c.loads[|c.loads| - 1]) && c.expiresAt == c.loads[|c.loads| - 1].start + ttl)
  }

  predicate ClientOk(ttl: int, c: Cache, k: nat, client: Client) {
    && client.began <= c.now
    && (client.Holding? || client.Checked? || client.Busy? ==> c.writer == Some(k))
    && match client
       case Checked(began, at) => began <= at <= c.now && 0 < at
       case Busy(began, at, begun) =>
         && began <= at <= begun <= c.now && 0 < at && c.expiresAt <= at
         && (c.loads == [] || c.loads[|c.loads| - 1].finish <= begun)
       case Served(began, load) => Fresh(ttl, began, load)
       case _ => true
  }

  ghost predicate Sound(ttl: int, c: Cache) {
    && ttl > 0 && c.now > 0 && StoreOk(ttl, c)
    && (c.writer.Some? ==> c.writer.value < |c.clients|)
    && forall k: nat | k < |c.clients| :: ClientOk(ttl, c, k, c.clients[k])
  }

  lemma FinishKeepsStore(ttl: int, c: Cache)
    requires Sound(ttl, c) && Allowed(c, Finish)
    ensures StoreOk(ttl, Perform(ttl, c, Finish)) && Perform(ttl, c, Finish).now == c.now
  {
    assert ClientOk(ttl, c, c.writer.value, c.clients[c.writer.value]);
  }

  lemma StoreKept(ttl: int, c: Cache, act: Act)
    requires Sound(ttl, c) && Allowed(c, act)
    ensures StoreOk(ttl, Perform(ttl, c, act)) && Perform(ttl, c, act).now >= c.now
  {
    if act == Finish {
      FinishKeepsStore(ttl, c);
    } else {
      var c' := Perform(ttl, c, act);
      assert c'.loads == c.loads && c'.value == c.value && c'.expiresAt == c.expiresAt && c'.now >= c.now;
      hide Perform, Allowed, ClientOk;
    }
  }

  lemma ClientKept(ttl: int, c: Cache, act: Act, k: nat)
    requires Sound(ttl, c) && Allowed(c, act) && k < |Perform(ttl, c, act).clients|
    ensures ClientOk(ttl, Perform(ttl, c, act), k, Perform(ttl, c, act).clients[k])
  {
    if k < |c.clients| {
      assert ClientOk(ttl, c, k, c.clients[k]);
    }
  }

  lemma ActKeepsSound(ttl: int, c: Cache, act: Act)
    requires Sound(ttl, c) && Allowed(c, act)
    ensures Sound(ttl, Perform(ttl, c, act))
  {
    var c' := Perform(ttl, c, act);
    StoreKept(ttl, c, act);
    assert c'.writer.Some? ==> c'.writer.value < |c'.clients|;
    hide Perform, Allowed, ClientOk, StoreOk;
    forall k: nat | k < |c'.clients| ensures ClientOk(ttl, c', k, c'.clients[k]) {
      ClientKept(ttl, c, act, k);
    }
  }

  lemma {:induction false} TraceKeepsSound(ttl: int, c: Cache, acts: seq<Act>)
    requires Sound(ttl, c) && IsTrace(ttl, c, acts)
    ensures Sound(ttl, Outcome(ttl, c, acts))
    decreases acts
  {
    if acts != [] {
      ActKeepsSound(ttl, c, acts[0]);
      hide Sound, Perform, Allowed;
      TraceKeepsSound(ttl, Perform(ttl, c, acts[0]), acts[1..]);
    }
  }

  /**
   For every interleaving of any number of calls: loads never overlap, their recorded starts are at least `ttl`
   apart, and no call returns a value whose load finished more than `ttl` before the call began.
   */
  lemma DoubleCheckedIsFresh(ttl: int, begin: int, acts: seq<Act>)
    requires ttl > 0 && begin > 0 && IsTrace(ttl, Empty(begin), acts)
    ensures var c := Outcome(ttl, Empty(begin), acts);
            && Spaced(ttl, c.loads, c.now)
            && (forall k | 0 <= k < |c.clients| :: c.clients[k].Served? ==>
                  Fresh(ttl, c.clients[k].began, c.clients[k].load))
            && (forall k | 0 <= k < |c.clients| :: c.clients[k].Busy? && c.loads != [] ==>
                  c.loads[|c.loads| - 1].finish <= c.clients[k].begun
                  && c.loads[|c.loads| - 1].start + ttl <= c.clients[k].at)
            && (forall i, j | 0 <= i < |c.clients| && 0 <= j < |c.clients| ::
                  c.clients[i].Busy? && c.clients[j].Busy? ==> i == j)
  {
    TraceKeepsSound(ttl, Empty(begin), acts);
    var c := Outcome(ttl, Empty(begin), acts);
    forall k: nat | k < |c.clients| ensures ClientOk(ttl, c, k, c.clients[k]) {
    }
  }
}
