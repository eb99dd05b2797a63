/** The handle lifecycle of `CephRBDDiskUsage`: the optional cluster and
    pool (I/O context) handles, `_connect`, `_disconnect`, and a log of
    handle acquisitions and releases against which release discipline is
    checked.
 */
module Session {
  import opened Faults

  /** Connection parameters; in the source they come from the process
      environment, here the caller supplies them. */
  datatype Credentials = Credentials(monHost: string, key: string, clientName: string)

  /** A `rados.Rados` session object: the client name it was created for,
      the configuration set on it and whether `connect()` has succeeded. */
  datatype Cluster = Cluster(clientName: string, conf: map<string, string>, connected: bool)

  /** An I/O context opened on the named pool. */
  datatype Ioctx = Ioctx(pool: string)

  /** The kinds of handle the routine acquires. */
  datatype Handle = ClusterHandle | IoctxHandle | ImageHandle

  /** One entry of the lifecycle log. */
  datatype Event = Acquire(handle: Handle) | Release(handle: Handle)

  /** The object's fields `pool_name`, `cluster`, `ioctx`, plus the log of
      every acquisition and release made so far. */
  datatype State = State(
    poolName: string,
    cluster: Option<Cluster>,
    ioctx: Option<Ioctx>,
    log: seq<Event>)

  /** A step of the routine: the state it leaves and what it returned or raised. */
  datatype Run<+T> = Run(state: State, outcome: Result<T>)

  /** How each library call made while connecting turns out, decided by the
      cluster rather than by the routine. */
  datatype ClusterOracle = ClusterOracle(
    createRados: Result<()>,
    confSetMonHost: Result<()>,
    confSetKey: Result<()>,
    connect: Result<()>,
    openIoctx: Result<()>)

  const MonHostRequired: string := "CEPH_MON_HOST environment variable is required"
  const KeyRequired: string := "CEPH_KEY environment variable is required"

  /** The object as constructed: no handles, nothing logged. */
  function Fresh(poolName: string): (st: State)
    ensures st.poolName == poolName && Consistent(st) && Held(st) == [] && st.log == []
  {
    State(poolName, None, None, [])
  }

  /** States the routine can be in: a pool context is only ever held under a
      cluster session. */
  predicate Consistent(st: State) {
    st.ioctx.Some? ==> st.cluster.Some?
  }

  /** The handles a state holds, oldest first. */
  function Held(st: State): (hs: seq<Handle>) {
    (if st.cluster.Some? then [ClusterHandle] else []) + (if st.ioctx.Some? then [IoctxHandle] else [])
  }

  /** Every library call made while connecting succeeds. */
  predicate ClusterAccepts(o: ClusterOracle) {
    o.createRados.Ok? && o.confSetMonHost.Ok? && o.confSetKey.Ok? && o.connect.Ok? && o.openIoctx.Ok?
  }

  /** The library calls `_connect` makes, in the order it makes them. */
  function ClusterCalls(o: ClusterOracle): (calls: seq<Result<()>>) {
    [o.createRados, o.confSetMonHost, o.confSetKey, o.connect, o.openIoctx]
  }

  /** The first failing connect call, spelled out call by call. */
  lemma ClusterCallsFirstErr(o: ClusterOracle)
    ensures FirstErr(ClusterCalls(o)) ==
              if o.createRados.Err? then Some(o.createRados.exc)
              else if o.confSetMonHost.Err? then Some(o.confSetMonHost.exc)
              else if o.confSetKey.Err? then Some(o.confSetKey.exc)
              else if o.connect.Err? then Some(o.connect.exc)
              else if o.openIoctx.Err? then Some(o.openIoctx.exc)
              else None
  {
    var c0 := ClusterCalls(o);
    var c1 := [o.confSetMonHost, o.confSetKey, o.connect, o.openIoctx];
    var c2 := [o.confSetKey, o.connect, o.openIoctx];
    var c3 := [o.connect, o.openIoctx];
    var c4 := [o.openIoctx];
    assert c0[1..] == c1 && c1[1..] == c2 && c2[1..] == c3 && c3[1..] == c4 && c4[1..] == [];
    assert FirstErr(c4) == if o.openIoctx.Err? then Some(o.openIoctx.exc) else FirstErr([]);
    assert FirstErr(c3) == if o.connect.Err? then Some(o.connect.exc) else FirstErr(c4);
    assert FirstErr(c2) == if o.confSetKey.Err? then Some(o.confSetKey.exc) else FirstErr(c3);
    assert FirstErr(c1) == if o.confSetMonHost.Err? then Some(o.confSetMonHost.exc) else FirstErr(c2);
  }

  /** `_connect`. With a session already present it does nothing. Otherwise
      it rejects an empty monitor list, then an empty key, before creating a
      session; then creates the session, sets `mon_host` and `key`,
      connects and opens the pool, stopping at the first call that raises.
      The session handle is recorded as soon as it is created, so a later
      failure leaves it in place for `_disconnect` to release. */
  function Connect(st: State, cred: Credentials, o: ClusterOracle): (r: Run<()>)
    ensures r.state.poolName == st.poolName
    ensures st.cluster.Some? ==> r == Run(st, Ok(()))
    ensures st.cluster.None? && |cred.monHost| == 0 ==> r == Run(st, Err(RuntimeError(MonHostRequired, None)))
    ensures st.cluster.None? && |cred.monHost| > 0 && |cred.key| == 0 ==>
              r == Run(st, Err(RuntimeError(KeyRequired, None)))
    ensures r.outcome.Ok? <==>
              st.cluster.Some? || (|cred.monHost| > 0 && |cred.key| > 0 && ClusterAccepts(o))
    ensures st.cluster.None? && |cred.monHost| > 0 && |cred.key| > 0 ==>
              r.outcome == AsOutcome(FirstErr(ClusterCalls(o)))
    ensures st.cluster.None? && |cred.monHost| > 0 && |cred.key| > 0 && o.createRados.Ok? ==>
              r.state.cluster.Some? && r.state.cluster.value.clientName == cred.clientName
    ensures st.cluster.None? && !(|cred.monHost| > 0 && |cred.key| > 0 && o.createRados.Ok?) ==> r.state == st
    ensures st.cluster.None? ==>
              r.state.log == st.log
                             + (if r.state.cluster.Some? then [Acquire(ClusterHandle)] else [])
                             + (if r.outcome.Ok? then [Acquire(IoctxHandle)] else [])
    ensures st.cluster.None? && r.outcome.Ok? ==>
              && r.state.cluster == Some(Cluster(cred.clientName,
                                                 map["mon_host" := cred.monHost, "key" := cred.key],
                                                 true))
              && r.state.ioctx == Some(Ioctx(st.poolName))
    ensures r.outcome.Err? ==> r.state.ioctx == st.ioctx
    ensures Consistent(st) ==> Consistent(r.state)
    ensures st.log <= r.state.log
  {
    ClusterCallsFirstErr(o);
    if st.cluster.Some? then Run(st, Ok(()))
    else if |cred.monHost| == 0 then Run(st, Err(RuntimeError(MonHostRequired, None)))
    else if |cred.key| == 0 then Run(st, Err(RuntimeError(KeyRequired, None)))
    else if o.createRados.Err? then Run(st, Err(o.createRados.exc))
    else
      var created := Cluster(cred.clientName, map[], false);
      var s1 := st.(cluster := Some(created), log := st.log + [Acquire(ClusterHandle)]);
      if o.confSetMonHost.Err? then Run(s1, Err(o.confSetMonHost.exc))
      else
        var withMon := created.(conf := created.conf["mon_host" := cred.monHost]);
        var s2 := s1.(cluster := Some(withMon));
        if o.confSetKey.Err? then Run(s2, Err(o.confSetKey.exc))
        else
          var withKey := withMon.(conf := withMon.conf["key" := cred.key]);
          var s3 := s2.(cluster := Some(withKey));
          if o.connect.Err? then Run(s3, Err(o.connect.exc))
          else
            var s4 := s3.(cluster := Some(withKey.(connected := true)));
            if o.openIoctx.Err? then Run(s4, Err(o.openIoctx.exc))
            else Run(s4.(ioctx := Some(Ioctx(st.poolName)), log := s4.log + [Acquire(IoctxHandle)]), Ok(()))
  }

  /** `_disconnect`: closes the pool context if there is one, then shuts the
      session down if there is one, clearing each field. */
  function Disconnect(st: State): (r: State)
    ensures r.cluster.None? && r.ioctx.None? && r.poolName == st.poolName
    ensures Held(r) == []
    ensures st.cluster.None? && st.ioctx.None? ==> r == st
    ensures st.log <= r.log
  {
    var s1 := if st.ioctx.Some? then st.(ioctx := None, log := st.log + [Release(IoctxHandle)]) else st;
    if s1.cluster.Some? then s1.(cluster := None, log := s1.log + [Release(ClusterHandle)]) else s1
  }

  /** A second `_disconnect` changes nothing. */
  lemma DisconnectIdempotent(st: State)
    ensures Disconnect(Disconnect(st)) == Disconnect(st)
  {
  }

  /** Release order: the log records the pool context closed before the
      session is shut down, and nothing that was not held is released. */
  lemma DisconnectReleaseOrder(st: State)
    ensures Disconnect(st).log ==
              st.log
              + (if st.ioctx.Some? then [Release(IoctxHandle)] else [])
              + (if st.cluster.Some? then [Release(ClusterHandle)] else [])
  {
  }

  // ---------------------------------------------------------------------
  // Release discipline: replaying a log against a stack of held handles.
  // ---------------------------------------------------------------------

  /** Replays `evs` starting from the handles `open` (oldest first): an
      acquisition pushes, a release must pop the most recent handle of the
      same kind. `None` when a release does not match. */
  function Replay(open: seq<Handle>, evs: seq<Event>): (r: Option<seq<Handle>>)
    decreases |evs|
  {
    if |evs| == 0 then Some(open)
    else match evs[0]
      case Acquire(h) => Replay(open + [h], evs[1..])
      case Release(h) =>
        if |open| > 0 && open[|open| - 1] == h then Replay(open[..|open| - 1], evs[1..]) else None
  }

  /** Replaying a concatenation replays the halves in turn. */
  lemma {:induction false} ReplayAppend(open: seq<Handle>, a: seq<Event>, b: seq<Event>)
    ensures Replay(open, a + b) ==
              (match Replay(open, a)
               case Some(mid) => Replay(mid, b)
               case None => None)
    decreases |a|
  {
    if |a| == 0 {
      assert a + b == b;
    } else {
      assert (a + b)[0] == a[0] && (a + b)[1..] == a[1..] + b;
      match a[0]
      case Acquire(h) => ReplayAppend(open + [h], a[1..], b);
      case Release(h) =>
        if |open| > 0 && open[|open| - 1] == h {
          ReplayAppend(open[..|open| - 1], a[1..], b);
        }
    }
  }

  /** The events `Connect` logs take the held handles to those of its result. */
  lemma ConnectReplay(st: State, cred: Credentials, o: ClusterOracle)
    requires Consistent(st)
    ensures var r := Connect(st, cred, o);
      Replay(Held(st), r.state.log[|st.log|..]) == Some(Held(r.state))
  {
    var r := Connect(st, cred, o);
    var evs := r.state.log[|st.log|..];
    if st.cluster.None? && r.state.cluster.Some? {
      assert Held(st) == [];
      assert r.state.log == st.log + [Acquire(ClusterHandle)] + (if r.state.ioctx.Some? then [Acquire(IoctxHandle)] else []);
      var e1 := [Acquire(IoctxHandle)];
      if r.state.ioctx.Some? {
        assert evs == [Acquire(ClusterHandle)] + e1;
        assert [ClusterHandle] + [IoctxHandle] == [ClusterHandle, IoctxHandle];
        assert Replay([ClusterHandle], e1) == Replay([ClusterHandle, IoctxHandle], []);
        assert [] + [ClusterHandle] == [ClusterHandle];
        assert Replay([], [Acquire(ClusterHandle)]) == Replay([ClusterHandle], []);
        assert Held(r.state) == [ClusterHandle, IoctxHandle];
        ReplayAppend([], [Acquire(ClusterHandle)], e1);
      } else {
        assert evs == [Acquire(ClusterHandle)];
        assert [] + [ClusterHandle] == [ClusterHandle];
        assert Replay([], evs) == Replay([ClusterHandle], []);
        assert Held(r.state) == [ClusterHandle];
      }
    } else {
      assert r.state == st;
      assert evs == [];
    }
  }

  /** The events `Disconnect` logs release every held handle in reverse
      order of acquisition. */
  lemma DisconnectReplay(st: State)
    requires Consistent(st)
    ensures Replay(Held(st), Disconnect(st).log[|st.log|..]) == Some([])
  {
    var evs := Disconnect(st).log[|st.log|..];
    if st.ioctx.Some? {
      assert evs == [Release(IoctxHandle)] + [Release(ClusterHandle)];
      assert Held(st) == [ClusterHandle, IoctxHandle];
      assert Replay(Held(st), [Release(IoctxHandle)]) == Replay([ClusterHandle], []);
      assert Replay([ClusterHandle], [Release(ClusterHandle)]) == Replay([], []);
      ReplayAppend(Held(st), [Release(IoctxHandle)], [Release(ClusterHandle)]);
    } else if st.cluster.Some? {
      assert evs == [Release(ClusterHandle)];
      assert Held(st) == [ClusterHandle];
      assert Replay(Held(st), evs) == Replay([], []);
    } else {
      assert evs == [];
    }
  }
}
