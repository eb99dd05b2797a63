/** `CephRBDDiskUsage.get_rbd_disk_usage` and `get_image_usage_info`:
    connect, open the image, read its size, walk its extents, close the image,
    and release the connection on every exit path.
 */
module DiskUsage {
  import opened Faults
  import opened Extents
  import opened Reports
  import opened Session

  /** How every library call of one invocation turns out. `stat` yields the
      image size in bytes; `imageId` is the value of `image.id()`. */
  datatype Oracle = Oracle(
    cluster: ClusterOracle,
    openImage: Result<()>,
    stat: Result<nat>,
    scan: ScanOutcome,
    imageId: Result<string>)

  /** Message of the non-library error raised when an image is opened while
      no pool context is held. */
  const NoIoctx: string := "no I/O context is open"

  /** The library calls made inside the image block, in order: opening the
      image, `stat()` and `id()` (the extent walk never fails the block). */
  function ImageCalls(o: Oracle): (calls: seq<Result<()>>) {
    [o.openImage, Status(o.stat), Status(o.imageId)]
  }

  /** The first failing image-block call, spelled out call by call. */
  lemma ImageCallsFirstErr(o: Oracle)
    ensures FirstErr(ImageCalls(o)) ==
              if o.openImage.Err? then Some(o.openImage.exc)
              else if o.stat.Err? then Some(o.stat.exc)
              else if o.imageId.Err? then Some(o.imageId.exc)
              else None
  {
    var c0 := ImageCalls(o);
    var c1 := [Status(o.stat), Status(o.imageId)];
    var c2 := [Status(o.imageId)];
    assert c0[1..] == c1 && c1[1..] == c2 && c2[1..] == [];
    assert FirstErr(c2) == if o.imageId.Err? then Some(o.imageId.exc) else FirstErr([]);
    assert FirstErr(c1) == if o.stat.Err? then Some(o.stat.exc) else FirstErr(c2);
  }

  /** The exception one invocation raises before the library-error handler
      sees it, read off the state and the call outcomes alone: a held
      session is reused, and then the image block needs its pool context;
      otherwise the credential checks come first and then every connect and
      image-block call in order. `None` when nothing raises. */
  function Failure(st: State, cred: Credentials, o: Oracle): (f: Option<Exc>) {
    if st.cluster.Some? then
      (if st.ioctx.None? then Some(OtherError(NoIoctx)) else FirstErr(ImageCalls(o)))
    else if |cred.monHost| == 0 then Some(RuntimeError(MonHostRequired, None))
    else if |cred.key| == 0 then Some(RuntimeError(KeyRequired, None))
    else FirstErr(ClusterCalls(o.cluster) + ImageCalls(o))
  }

  /** `_connect` creates a session object in this invocation. */
  predicate CreatesSession(st: State, cred: Credentials, o: Oracle) {
    st.cluster.None? && |cred.monHost| > 0 && |cred.key| > 0 && o.cluster.createRados.Ok?
  }

  /** `_connect` runs to completion and opens the pool in this invocation. */
  predicate OpensPool(st: State, cred: Credentials, o: Oracle) {
    st.cluster.None? && |cred.monHost| > 0 && |cred.key| > 0 && ClusterAccepts(o.cluster)
  }

  /** The image is opened: a pool context is available to the image block
      (reused or freshly opened) and opening succeeds. */
  predicate OpensImage(st: State, cred: Credentials, o: Oracle) {
    o.openImage.Ok? && ((st.cluster.Some? && st.ioctx.Some?) || OpensPool(st, cred, o))
  }

  /** The acquisitions and releases one invocation makes, read off the state
      and the call outcomes alone: the session and the pool context as they
      are acquired, the image opened and closed inside the `with` block, then
      the pool context and the session released by `_disconnect`. */
  function Trace(st: State, cred: Credentials, o: Oracle): (evs: seq<Event>) {
    (if CreatesSession(st, cred, o) then [Acquire(ClusterHandle)] else [])
    + (if OpensPool(st, cred, o) then [Acquire(IoctxHandle)] else [])
    + (if OpensImage(st, cred, o) then [Acquire(ImageHandle), Release(ImageHandle)] else [])
    + (if st.ioctx.Some? || OpensPool(st, cred, o) then [Release(IoctxHandle)] else [])
    + (if st.cluster.Some? || CreatesSession(st, cred, o) then [Release(ClusterHandle)] else [])
  }

  /** The `with rbd.Image(ioctx, image_name) as image:` block. A failure to
      open raises without anything to close; once open, the image is closed
      on the way out whether `stat()` or `id()` raised or the report was
      built. A raising extent walk is absorbed by the fallback. */
  function WithImage(st: State, o: Oracle, imageName: string): (r: Run<Report>)
    ensures r.state.(log := st.log) == st
    ensures r.state.log == st.log || r.state.log == st.log + [Acquire(ImageHandle), Release(ImageHandle)]
    ensures r.state.log == st.log + [Acquire(ImageHandle), Release(ImageHandle)] <==>
              st.ioctx.Some? && o.openImage.Ok?
    ensures st.ioctx.None? ==> r.outcome == Err(OtherError(NoIoctx))
    ensures st.ioctx.Some? ==> Status(r.outcome) == AsOutcome(FirstErr(ImageCalls(o)))
    ensures r.outcome.Ok? <==> st.ioctx.Some? && o.openImage.Ok? && o.stat.Ok? && o.imageId.Ok?
    ensures r.outcome.Ok? ==>
              r.outcome.value == BuildReport(imageName, o.imageId.value, o.stat.value, UsedSize(o.scan, o.stat.value))
  {
    ImageCallsFirstErr(o);
    if st.ioctx.None? then Run(st, Err(OtherError(NoIoctx)))
    else if o.openImage.Err? then Run(st, Err(o.openImage.exc))
    else
      var closed := st.(log := st.log + [Acquire(ImageHandle), Release(ImageHandle)]);
      match o.stat
      case Err(e) => Run(closed, Err(e))
      case Ok(size) =>
        var used := UsedSize(o.scan, size);
        match o.imageId
        case Err(e) => Run(closed, Err(e))
        case Ok(id) => Run(closed, Ok(BuildReport(imageName, id, size, used)))
  }

  /** `get_rbd_disk_usage`: the body runs after `_connect`; a library error
      from either is re-raised as a `RuntimeError`, any other exception
      escapes as it is; `_disconnect` runs last on every path. */
  function GetRbdDiskUsage(st: State, cred: Credentials, o: Oracle, imageName: string): (r: Run<Report>)
    ensures r.state.cluster.None? && r.state.ioctx.None? && r.state.poolName == st.poolName
    ensures st.log <= r.state.log
    ensures r.outcome.Err? ==> !IsLibraryError(r.outcome.exc)
    ensures r.outcome.Err? <==> Failure(st, cred, o).Some?
    ensures r.outcome.Err? ==> r.outcome.exc == Wrap(Failure(st, cred, o).value)
    ensures r.outcome.Ok? ==>
              && SingleImage(r.outcome.value)
              && r.outcome.value.images[0].name == imageName
              && o.stat.Ok? && r.outcome.value.totalProvisionedSize == o.stat.value
    ensures r.state.log == st.log + Trace(st, cred, o)
  {
    FirstErrAppend(ClusterCalls(o.cluster), ImageCalls(o));
    var c := Connect(st, cred, o.cluster);
    var body := if c.outcome.Err? then Run(c.state, Err(c.outcome.exc)) else WithImage(c.state, o, imageName);
    var outcome := if body.outcome.Err? then Err(Wrap(body.outcome.exc)) else body.outcome;
    StepsFollowTrace(st, cred, o, imageName);
    Run(Disconnect(body.state), outcome)
  }

  /** The connect step, the image block and `_disconnect`, run one after the
      other, log exactly the invocation's trace. */
  lemma StepsFollowTrace(st: State, cred: Credentials, o: Oracle, imageName: string)
    ensures var c := Connect(st, cred, o.cluster);
      var body := if c.outcome.Err? then Run(c.state, Err(c.outcome.exc)) else WithImage(c.state, o, imageName);
      Disconnect(body.state).log == st.log + Trace(st, cred, o)
  {
    var c := Connect(st, cred, o.cluster);
    var body := if c.outcome.Err? then Run(c.state, Err(c.outcome.exc)) else WithImage(c.state, o, imageName);
    DisconnectReleaseOrder(body.state);
    var image := if OpensImage(st, cred, o) then [Acquire(ImageHandle), Release(ImageHandle)] else [];
    if st.cluster.Some? {
      assert c == Run(st, Ok(()));
      assert body.state.log == st.log + image;
      assert Trace(st, cred, o) == image
        + (if st.ioctx.Some? then [Release(IoctxHandle)] else []) + [Release(ClusterHandle)];
    } else if OpensPool(st, cred, o) {
      assert c.state.log == st.log + [Acquire(ClusterHandle)] + [Acquire(IoctxHandle)];
      assert body.state.log == c.state.log + image;
      assert Trace(st, cred, o) == [Acquire(ClusterHandle)] + [Acquire(IoctxHandle)] + image
        + [Release(IoctxHandle)] + [Release(ClusterHandle)];
    } else if CreatesSession(st, cred, o) {
      assert c.outcome.Err? && body.state == c.state;
      assert c.state.log == st.log + [Acquire(ClusterHandle)];
      assert Trace(st, cred, o) == [Acquire(ClusterHandle)]
        + (if st.ioctx.Some? then [Release(IoctxHandle)] else []) + [Release(ClusterHandle)];
    } else {
      assert c.outcome.Err? && body.state == st;
      assert Trace(st, cred, o) == (if st.ioctx.Some? then [Release(IoctxHandle)] else []);
    }
  }

  /** The invocation's trace split into what `_connect` acquires, the image
      block's open and close, and what `_disconnect` releases. */
  lemma TraceParts(st: State, cred: Credentials, o: Oracle)
    ensures var acquired := (if CreatesSession(st, cred, o) then [Acquire(ClusterHandle)] else [])
                            + (if OpensPool(st, cred, o) then [Acquire(IoctxHandle)] else []);
      var image := if OpensImage(st, cred, o) then [Acquire(ImageHandle), Release(ImageHandle)] else [];
      var released := (if st.ioctx.Some? || OpensPool(st, cred, o) then [Release(IoctxHandle)] else [])
                      + (if st.cluster.Some? || CreatesSession(st, cred, o) then [Release(ClusterHandle)] else []);
      && Trace(st, cred, o) == acquired + image + released
      && (forall k :: 0 <= k < |acquired| ==> acquired[k].Acquire? && acquired[k].handle != ImageHandle)
      && (forall k :: 0 <= k < |released| ==> released[k].Release? && released[k].handle != ImageHandle)
  {
  }

  /** The image is opened, and then closed, in an invocation exactly when no
      step before the open fails and the open succeeds. */
  lemma ImageOpenedIff(st: State, cred: Credentials, o: Oracle, imageName: string)
    ensures var evs := GetRbdDiskUsage(st, cred, o, imageName).state.log[|st.log|..];
      && (Acquire(ImageHandle) in evs <==> OpensImage(st, cred, o))
      && (Release(ImageHandle) in evs <==> OpensImage(st, cred, o))
  {
    var evs := GetRbdDiskUsage(st, cred, o, imageName).state.log[|st.log|..];
    assert evs == Trace(st, cred, o);
    TraceParts(st, cred, o);
    var acquired := (if CreatesSession(st, cred, o) then [Acquire(ClusterHandle)] else [])
                    + (if OpensPool(st, cred, o) then [Acquire(IoctxHandle)] else []);
    var image := if OpensImage(st, cred, o) then [Acquire(ImageHandle), Release(ImageHandle)] else [];
    var released := (if st.ioctx.Some? || OpensPool(st, cred, o) then [Release(IoctxHandle)] else [])
                    + (if st.cluster.Some? || CreatesSession(st, cred, o) then [Release(ClusterHandle)] else []);
    assert Acquire(ImageHandle) !in acquired && Release(ImageHandle) !in acquired;
    assert Acquire(ImageHandle) !in released && Release(ImageHandle) !in released;
    assert Acquire(ImageHandle) in image <==> OpensImage(st, cred, o);
    assert Release(ImageHandle) in image <==> OpensImage(st, cred, o);
  }

  /** The image is closed before `_disconnect` releases anything: in the
      invocation's log, the image's close precedes every release of the pool
      context or the session. */
  lemma ImageClosedBeforeDisconnect(st: State, cred: Credentials, o: Oracle, imageName: string)
    ensures var evs := GetRbdDiskUsage(st, cred, o, imageName).state.log[|st.log|..];
      forall i, j ::
        (0 <= i < |evs| && 0 <= j < |evs| && evs[i] == Release(ImageHandle)
         && evs[j].Release? && evs[j].handle != ImageHandle) ==> i < j
  {
    var evs := GetRbdDiskUsage(st, cred, o, imageName).state.log[|st.log|..];
    assert evs == Trace(st, cred, o);
    TraceParts(st, cred, o);
    var acquired := (if CreatesSession(st, cred, o) then [Acquire(ClusterHandle)] else [])
                    + (if OpensPool(st, cred, o) then [Acquire(IoctxHandle)] else []);
    var image := if OpensImage(st, cred, o) then [Acquire(ImageHandle), Release(ImageHandle)] else [];
    var released := (if st.ioctx.Some? || OpensPool(st, cred, o) then [Release(IoctxHandle)] else [])
                    + (if st.cluster.Some? || CreatesSession(st, cred, o) then [Release(ClusterHandle)] else []);
    forall i, j | 0 <= i < |evs| && 0 <= j < |evs| && evs[i] == Release(ImageHandle)
                  && evs[j].Release? && evs[j].handle != ImageHandle
      ensures i < j
    {
      assert evs == acquired + image + released;
    }
  }

  /** A complete run from a disconnected object: session, pool context and
      image are acquired in that order and released in the reverse order. */
  lemma FullRunLog(st: State, cred: Credentials, o: Oracle, imageName: string)
    requires st.cluster.None? && st.ioctx.None? && Proceeds(st, cred, o)
    ensures GetRbdDiskUsage(st, cred, o, imageName).state.log ==
              st.log + [Acquire(ClusterHandle), Acquire(IoctxHandle), Acquire(ImageHandle),
                        Release(ImageHandle), Release(IoctxHandle), Release(ClusterHandle)]
  {
  }

  /** Every library call of the invocation succeeds, starting either from a
      held session with its pool context or from no session with non-empty
      credentials. The extent walk is not among the conditions. */
  predicate Proceeds(st: State, cred: Credentials, o: Oracle) {
    && ((st.cluster.Some? && st.ioctx.Some?)
        || (st.cluster.None? && |cred.monHost| > 0 && |cred.key| > 0 && ClusterAccepts(o.cluster)))
    && o.openImage.Ok? && o.stat.Ok? && o.imageId.Ok?
  }

  /** The routine returns a report exactly when every library call it makes
      succeeds, and the report is the one built from the stat size, the image
      id and the extent walk's used size. */
  lemma SucceedsIff(st: State, cred: Credentials, o: Oracle, imageName: string)
    ensures GetRbdDiskUsage(st, cred, o, imageName).outcome.Ok? <==> Proceeds(st, cred, o)
    ensures Proceeds(st, cred, o) ==>
              GetRbdDiskUsage(st, cred, o, imageName).outcome
              == Ok(BuildReport(imageName, o.imageId.value, o.stat.value, UsedSize(o.scan, o.stat.value)))
  {
  }

  /** Fallback: when the extent walk raises, the routine still succeeds (if
      nothing else fails) and reports the whole image as used. */
  lemma ScanFailureAbsorbed(st: State, cred: Credentials, o: Oracle, imageName: string)
    requires Proceeds(st, cred, o) && o.scan.Failed?
    ensures var r := GetRbdDiskUsage(st, cred, o, imageName);
      && r.outcome.Ok?
      && r.outcome.value.totalUsedSize == o.stat.value
      && r.outcome.value.images[0].usedSize == r.outcome.value.images[0].provisionedSize
  {
  }

  /** Normal path bound: when the walk completes with disjoint records inside
      `[0, size)`, the reported used size does not exceed the provisioned size. */
  lemma UsedWithinProvisioned(st: State, cred: Credentials, o: Oracle, imageName: string)
    requires o.scan.Scanned? && o.stat.Ok?
    requires Disjoint(o.scan.extents) && Within(o.scan.extents, o.stat.value)
    ensures var r := GetRbdDiskUsage(st, cred, o, imageName);
      r.outcome.Ok? ==> r.outcome.value.totalUsedSize <= r.outcome.value.totalProvisionedSize
  {
  }

  /** An empty monitor list is rejected with the routine's own error (not
      wrapped), before any session object exists: the state comes back as it
      was and nothing was acquired or released. */
  lemma EmptyMonHostRejected(st: State, cred: Credentials, o: Oracle, imageName: string)
    requires st.cluster.None? && st.ioctx.None? && |cred.monHost| == 0
    ensures GetRbdDiskUsage(st, cred, o, imageName) == Run(st, Err(RuntimeError(MonHostRequired, None)))
  {
  }

  /** An empty key (with a non-empty monitor list) is rejected the same way. */
  lemma EmptyKeyRejected(st: State, cred: Credentials, o: Oracle, imageName: string)
    requires st.cluster.None? && st.ioctx.None? && |cred.monHost| > 0 && |cred.key| == 0
    ensures GetRbdDiskUsage(st, cred, o, imageName) == Run(st, Err(RuntimeError(KeyRequired, None)))
  {
  }

  /** A library error while opening the image, after a clean connect, is
      re-raised as a `RuntimeError` carrying its message; the pool context is
      then closed and the session shut down, in that order. */
  lemma ImageOpenErrorWrapped(st: State, cred: Credentials, o: Oracle, imageName: string)
    requires st.cluster.None? && st.ioctx.None?
    requires |cred.monHost| > 0 && |cred.key| > 0 && ClusterAccepts(o.cluster)
    requires o.openImage.Err? && IsLibraryError(o.openImage.exc)
    ensures var r := GetRbdDiskUsage(st, cred, o, imageName);
      && r.outcome == Err(RuntimeError(WrapPrefix + o.openImage.exc.msg, Some(o.openImage.exc)))
      && r.state.log == st.log + [Acquire(ClusterHandle), Acquire(IoctxHandle),
                                  Release(IoctxHandle), Release(ClusterHandle)]
  {
  }

  /** Splitting the new part of a log at an intermediate prefix. */
  lemma SliceSplit<T>(x: seq<T>, y: seq<T>, z: seq<T>)
    requires x <= y <= z
    ensures z[|x|..] == y[|x|..] + z[|y|..]
  {
  }

  /** Release discipline: from any reachable state, the acquisitions and
      releases one invocation logs release every handle held at the start
      and every handle acquired during the call, each exactly once and in
      reverse order of acquisition, whichever step failed. */
  lemma ReleaseBalanced(st: State, cred: Credentials, o: Oracle, imageName: string)
    requires Consistent(st)
    ensures var r := GetRbdDiskUsage(st, cred, o, imageName);
      Replay(Held(st), r.state.log[|st.log|..]) == Some([])
  {
    var c := Connect(st, cred, o.cluster);
    var body := if c.outcome.Err? then Run(c.state, Err(c.outcome.exc)) else WithImage(c.state, o, imageName);
    var fin := Disconnect(body.state);
    assert fin == GetRbdDiskUsage(st, cred, o, imageName).state;

    var connectEvs := c.state.log[|st.log|..];
    var imageEvs := body.state.log[|c.state.log|..];
    var releaseEvs := fin.log[|body.state.log|..];

    ConnectReplay(st, cred, o.cluster);
    assert Held(body.state) == Held(c.state);
    if imageEvs != [] {
      assert imageEvs == [Acquire(ImageHandle)] + [Release(ImageHandle)];
      var h := Held(c.state);
      assert Replay(h, [Acquire(ImageHandle)]) == Some(h + [ImageHandle]);
      assert (h + [ImageHandle])[..|h|] == h;
      assert Replay(h + [ImageHandle], [Release(ImageHandle)]) == Some(h);
      ReplayAppend(h, [Acquire(ImageHandle)], [Release(ImageHandle)]);
    }
    assert Replay(Held(c.state), imageEvs) == Some(Held(body.state));
    DisconnectReplay(body.state);

    SliceSplit(st.log, c.state.log, fin.log);
    SliceSplit(c.state.log, body.state.log, fin.log);
    ReplayAppend(Held(st), connectEvs, imageEvs + releaseEvs);
    ReplayAppend(Held(c.state), imageEvs, releaseEvs);
  }

  /** `get_image_usage_info`: the summary of the report, with the object's
      pool name; exceptions from the report step propagate. */
  function GetImageUsageInfo(st: State, cred: Credentials, o: Oracle, imageName: string): (r: Run<Summary>)
    ensures r.state == GetRbdDiskUsage(st, cred, o, imageName).state
    ensures r.state.cluster.None? && r.state.ioctx.None?
    ensures r.outcome.Err? <==> GetRbdDiskUsage(st, cred, o, imageName).outcome.Err?
    ensures r.outcome.Err? ==>
              r.outcome.exc == GetRbdDiskUsage(st, cred, o, imageName).outcome.exc
              && r.outcome.exc == Wrap(Failure(st, cred, o).value)
              && !IsLibraryError(r.outcome.exc)
    ensures r.outcome.Ok? ==>
              && r.outcome.value.error.None?
              && r.outcome.value.name == imageName
              && r.outcome.value.pool == st.poolName
              && SingleImage(r.outcome.value.rawData)
              && r.outcome.value.provisionedSize == r.outcome.value.rawData.totalProvisionedSize
              && r.outcome.value.usedSize == r.outcome.value.rawData.totalUsedSize
  {
    var u := GetRbdDiskUsage(st, cred, o, imageName);
    match u.outcome
    case Err(e) => Run(u.state, Err(e))
    case Ok(report) => Run(u.state, Ok(Summarize(report, imageName, st.poolName)))
  }

  /** The summary carries the report of the same invocation unmodified, and
      its sizes are the stat size and the extent walk's used size. */
  lemma UsageInfoRawData(st: State, cred: Credentials, o: Oracle, imageName: string)
    requires Proceeds(st, cred, o)
    ensures var r := GetImageUsageInfo(st, cred, o, imageName);
      && r.outcome.Ok?
      && r.outcome.value.rawData == GetRbdDiskUsage(st, cred, o, imageName).outcome.value
      && r.outcome.value.provisionedSize == o.stat.value
      && r.outcome.value.usedSize == UsedSize(o.scan, o.stat.value)
  {
  }

  /** Once the session object has been created from a disconnected state,
      whatever fails afterwards, the invocation's log opens with that session
      and closes with its shutdown. */
  lemma SessionShutDownOnEveryPath(st: State, cred: Credentials, o: Oracle, imageName: string)
    requires st.cluster.None? && st.ioctx.None?
    requires |cred.monHost| > 0 && |cred.key| > 0 && o.cluster.createRados.Ok?
    ensures var evs := GetRbdDiskUsage(st, cred, o, imageName).state.log[|st.log|..];
      |evs| >= 2 && evs[0] == Acquire(ClusterHandle) && evs[|evs| - 1] == Release(ClusterHandle)
  {
  }

  /** Each invocation on a freshly constructed object hands the object back in
      its constructed state (only the log has grown), so a second invocation
      with the same call outcomes gives the same result. */
  lemma RepeatedFromFresh(pool: string, cred: Credentials, o: Oracle, imageName: string)
    ensures var r := GetImageUsageInfo(Fresh(pool), cred, o, imageName);
      && r.state.(log := []) == Fresh(pool)
      && GetImageUsageInfo(r.state, cred, o, imageName).outcome == r.outcome
  {
  }
}
