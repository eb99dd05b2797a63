# Ceph RBD disk usage — a Dafny model

This project models `CephRBDDiskUsage` from `ceph-stat/ceph-stat/rbd_du.py`.
That class is a Python equivalent of `rbd du`. It does four things:

1. It connects to a Ceph cluster and opens an I/O context on a pool.
2. It opens an RBD image, reads its size, and walks its allocated extents
   with `diff_iterate` to add up the used bytes. If the walk raises, it falls
   back to "fully used".
3. It builds an `rbd du`-shaped report with one image entry, then releases
   the pool context and the session on every exit path.
4. It projects that report into a flat summary (`get_image_usage_info`).

The Ceph client libraries (librados, librbd) are foreign code. Each library
call the routine makes is therefore an *oracle* outcome supplied as input:
it either succeeds (with a value where the call returns one) or raises a
given exception. The model proves its properties for every combination of
outcomes.

Modules:

- `Faults` (`faults.dfy`): exceptions, `Option`, `Result`, and the
  library-error handler that re-raises `rados`/`rbd` errors as `RuntimeError`.
- `Extents` (`extents.dfy`): extent records and the `count_used_bytes`
  accumulation, written both as a fold and as a loop. It proves the bound
  "disjoint records inside `[0, size)` add up to at most `size`" by counting
  the byte addresses the records cover. It also holds the fallback to the
  full size.
- `Reports` (`reports.dfy`): the report, its single-image shape, and the
  summary projection.
- `Session` (`session.dfy`): the object's `cluster`/`ioctx` fields and
  `_connect`/`_disconnect`. It also keeps a log of handle acquisitions and
  releases, and a replay checker that accepts a log only when every release
  closes the most recently acquired handle still open.
- `DiskUsage` (`disk_usage.dfy`): `get_rbd_disk_usage` and
  `get_image_usage_info`, with the all-inputs lemmas about them.

The "no image data" branch of `get_image_usage_info` cannot be reached
through `get_rbd_disk_usage`. Every report that routine returns has exactly
one image (`DiskUsage.GetImageUsageInfo` proves the summary never carries an
`error`). `Reports.Summarize` still models that branch for arbitrary reports.

## Model

| member | source | states |
|---|---|---|
| Faults.Wrap | ceph-stat/ceph-stat/rbd_du.py:141-142 | a `rados`/`rbd` error becomes a `RuntimeError` whose message is "RBD operation failed: " followed by the original message and whose cause is the original exception (`raise ... from e`); any other exception passes unchanged; the result is never a library error |
| Extents.UsedBytes | ceph-stat/ceph-stat/rbd_du.py:115-118 | the callback total never exceeds the sum of all delivered lengths, and it is zero exactly when every record with `exists` set has length zero |
| Extents.CountUsedBytes | ceph-stat/ceph-stat/rbd_du.py:112-121 | a counter that starts at zero and adds `length` for each delivered record with `exists` set ends equal to the sum of lengths over the allocated records only |
| Extents.UsedBytesIsAllocatedSum | ceph-stat/ceph-stat/rbd_du.py:115-118 | the callback total equals the sum of `length` over the records whose `exists` is true; unallocated records contribute nothing |
| Extents.UsedBytesAppend | ceph-stat/ceph-stat/rbd_du.py:115-121 | the running total over a walk delivered in two parts is the sum of the totals of the parts |
| Extents.UsedBytesBounded | ceph-stat/ceph-stat/rbd_du.py:112-121 | if the allocated records are pairwise disjoint and lie inside the requested range `[0, size)`, the used size is at most `size` |
| Extents.CoveredSize | ceph-stat/ceph-stat/rbd_du.py:115-118 | for pairwise disjoint records, the number of byte addresses the allocated records cover equals the callback total |
| Extents.UsedSize | ceph-stat/ceph-stat/rbd_du.py:112-124 | a walk that raises gives exactly the stat size, whatever was counted before the failure; a completed walk gives the allocated-length sum, which is at most the size when the records are disjoint and in range |
| Extents.TenGiBImage | ceph-stat/ceph-stat/rbd_du.py:112-124 | a 10 GiB image with 1 GiB allocated then 9 GiB of hole reports 1 GiB used; a walk that raises reports the full 10 GiB |
| Reports.BuildReport | ceph-stat/ceph-stat/rbd_du.py:127-137 | the report has exactly one image entry, named as requested, with `size == provisioned_size == total_provisioned_size` equal to the stat size and `used_size == total_used_size` |
| Reports.BuildReportCharacterizes | ceph-stat/ceph-stat/rbd_du.py:127-137 | every report of that single-image shape is the one built from its own entry, so name, id, size and used size are recoverable from the report |
| Reports.Summarize | ceph-stat/ceph-stat/rbd_du.py:165-182 | the pool is the caller's and the raw data is the input report, unmodified; for a non-empty report the name, provisioned size and used size are those of `images[0]` and there is no `error`; for an empty one the name is the requested one, both sizes are 0 and the error is "No image data found in response" |
| Reports.SummarizeBuiltReport | ceph-stat/ceph-stat/rbd_du.py:165-173 | round trip: summarizing a built report recovers its image name, provisioned size and used size, and carries no error |
| Reports.SummaryMatchesTotals | ceph-stat/ceph-stat/rbd_du.py:165-173 | for a single-image report the summary's sizes are the report's totals |
| Session.Fresh | ceph-stat/ceph-stat/rbd_du.py:46-48 | a newly constructed object holds neither a session nor a pool context and has released nothing |
| Session.Connect | ceph-stat/ceph-stat/rbd_du.py:50-75 | with a session already present it changes nothing and succeeds; otherwise an empty monitor list raises its error first (even when the key is also empty), then an empty key raises, both before any session object exists; with both present the outcome is that of the first failing call among `Rados()`, the two `conf_set`s, `connect()` and `open_ioctx()`, in that order; once `Rados()` succeeds the session stays in `cluster` under the client name even if a later call raises, and the log records its acquisition (and the pool context's, on success); on success the session is connected and configured with `mon_host` and `key`, and a pool context for the object's pool is held |
| Session.Disconnect | ceph-stat/ceph-stat/rbd_du.py:77-84 | afterwards neither handle is held; with no handle held it changes nothing |
| Session.DisconnectReleaseOrder | ceph-stat/ceph-stat/rbd_du.py:77-84 | the pool context is closed before the session is shut down, and only the handles actually held are released |
| Session.DisconnectIdempotent | ceph-stat/ceph-stat/rbd_du.py:77-84 | a second `_disconnect` is a no-op |
| Session.ConnectReplay | ceph-stat/ceph-stat/rbd_du.py:68-75 | the acquisitions `_connect` logs take the held handles exactly to those of the resulting state, including after a partial connect that created the session but raised later |
| Session.DisconnectReplay | ceph-stat/ceph-stat/rbd_du.py:77-84 | from a consistent state, the releases `_disconnect` logs close every held handle in reverse order of acquisition |
| DiskUsage.WithImage | ceph-stat/ceph-stat/rbd_du.py:104-139 | the image block leaves the session and pool context unchanged; it logs an image open and its close exactly when the pool context is held and opening succeeds, and nothing otherwise; without a pool context it raises the non-library error, otherwise it raises the exception of the first failing call among open, `stat()` and `id()`, and on success returns the report built from the stat size, the id and the walk's used size |
| DiskUsage.GetRbdDiskUsage | ceph-stat/ceph-stat/rbd_du.py:101-144 | on every exit path both `cluster` and `ioctx` end as None; it raises exactly when some step fails, and then raises the handler's result for the first failing step (credential checks, then connect calls, then image calls), so library errors come out wrapped with their cause and nothing else is changed; a returned report has one entry named as requested, with provisioned totals equal to the stat size; its log is exactly the trace read off the call outcomes: the session and pool context as `_connect` acquires them, the image opened and closed when the open succeeds, then the pool context and the session released |
| DiskUsage.ImageOpenedIff | ceph-stat/ceph-stat/rbd_du.py:101-144 | the invocation's log shows the image opened, and shows it closed, exactly when no step before the open fails (credential checks, connect calls, or a missing pool context) and the open succeeds |
| DiskUsage.ImageClosedBeforeDisconnect | ceph-stat/ceph-stat/rbd_du.py:106-144 | the `with` block closes the image before `_disconnect` runs: in the invocation's log, the image's close precedes every release of the pool context or the session |
| DiskUsage.FullRunLog | ceph-stat/ceph-stat/rbd_du.py:101-144 | a run from a disconnected object in which every library call succeeds acquires the session, the pool context and the image in that order, then releases the image, the pool context and the session, and logs nothing else |
| DiskUsage.SucceedsIff | ceph-stat/ceph-stat/rbd_du.py:101-144 | the routine returns a report exactly when every library call it makes succeeds (a failing extent walk does not count), and the report is the one built from stat size, image id and used size |
| DiskUsage.ScanFailureAbsorbed | ceph-stat/ceph-stat/rbd_du.py:122-124 | when the extent walk raises and every other call succeeds, the routine still returns a report whose used size equals the provisioned size |
| DiskUsage.UsedWithinProvisioned | ceph-stat/ceph-stat/rbd_du.py:112-137 | when the walk completes with disjoint records inside `[0, size)`, a returned report's used total is at most its provisioned total |
| DiskUsage.EmptyMonHostRejected | ceph-stat/ceph-stat/rbd_du.py:59-60 | from a disconnected object, an empty monitor list makes the routine raise the unwrapped "CEPH_MON_HOST environment variable is required" error; the state is left as it was, with no session created and nothing released |
| DiskUsage.EmptyKeyRejected | ceph-stat/ceph-stat/rbd_du.py:61-62 | from a disconnected object, a non-empty monitor list with an empty key raises the unwrapped "CEPH_KEY environment variable is required" error, with no session created |
| DiskUsage.ImageOpenErrorWrapped | ceph-stat/ceph-stat/rbd_du.py:141-144 | a library error while opening the image after a clean connect surfaces as a `RuntimeError` with the wrapped message and the library error as its cause; the log shows session and pool context acquired, then the pool context closed and the session shut down |
| DiskUsage.ReleaseBalanced | ceph-stat/ceph-stat/rbd_du.py:101-144 | from any consistent state and for every outcome of every library call, the invocation releases every handle held at the start and every handle it acquired, each exactly once, in reverse order of acquisition |
| DiskUsage.SessionShutDownOnEveryPath | ceph-stat/ceph-stat/rbd_du.py:101-144 | from a disconnected object, once `Rados()` has succeeded, whatever fails afterwards (configuration, connect, pool open, image open, `stat()`, `id()`), the invocation's log starts with the session's acquisition and ends with its shutdown |
| DiskUsage.RepeatedFromFresh | ceph-stat/ceph-stat/rbd_du.py:101-144 | an invocation on a newly constructed object hands it back holding nothing, as constructed, so a second invocation with the same call outcomes returns the same result |
| DiskUsage.GetImageUsageInfo | ceph-stat/ceph-stat/rbd_du.py:160-182 | it leaves the object in the state `get_rbd_disk_usage` left and propagates that routine's exception unchanged; a returned summary has no `error` field, the requested name, the object's pool, a single-image raw report, and sizes equal to that report's totals |
| DiskUsage.UsageInfoRawData | ceph-stat/ceph-stat/rbd_du.py:160-173 | when every library call succeeds, the summary's raw data is the same invocation's report, unmodified, and its sizes are the stat size and the walk's used size |

## Left out

- Reading `CEPH_MON_HOST`, `CEPH_KEY` and `CEPH_CLIENT_NAME` from the environment, and the built-in default endpoint and key (rbd_du.py:55-57). The credentials are parameters here. Because the defaults exist, the emptiness errors fire in the source only for variables explicitly set to the empty string.
- The constructor's default pool name `"fzyun-aione"` (rbd_du.py:34): `Session.Fresh` takes the pool name as a parameter, so the default is one value among all those covered.
- The librados/librbd calls themselves (`Rados`, `conf_set`, `connect`, `open_ioctx`, `rbd.Image`, `stat`, `id`, `diff_iterate`). They are oracle outcomes: succeed (with the value where there is one) or raise a given exception.
- `rbd.RBD()` (rbd_du.py:105): its result is unused; its construction is assumed not to raise.
- Release calls (`ioctx.close()`, `cluster.shutdown()`, the image close at the end of the `with` block) are assumed not to raise. A raising release is not modelled.
- Opening an image while the object holds a session but no pool context is modelled as a non-library error that escapes unwrapped. This state arises only after a failed `_connect` called directly, without `_disconnect`. The routine does not specify which exception librbd raises when it is given no I/O context, so the model does not name one.
- Dictionary defaults in `get_image_usage_info` (`.get(..., default)` and the `"images" in ...` test): report entries are typed records that always carry these fields, so the defaults never apply.
- The `print` calls in `_connect`, `main`, JSON formatting and exit codes (rbd_du.py:185-223): console and process I/O.
- `format_output` of `get_rbd_disk_usage`: unused by the source.
- Python's truthiness test on handles in `_disconnect` is modelled as "is not None": handle objects are always truthy.
- Integer widths: sizes, offsets and lengths are unbounded naturals. librbd reports them as 64-bit unsigned values and Python integers do not wrap.
