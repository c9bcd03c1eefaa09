# Trierarch in Dafny

A model of the stateful core of Trierarch, and proofs of what it guarantees
over every run:

- the Wayland host: when client buffers are released and freed, which surfaces
  a composition shows, when frame callbacks complete, when frames are started,
  who owns explicit-sync objects, scan-out tokens, shared-memory pools and
  sub-surface links;
- the input-method bridge: its stream parser and its serial-gated queue;
- the launch side: shell quoting through several shells, chroot mounts and
  their cleanup, the PTY session registry with its reaper threads, and the two
  readers of `/proc/PID/stat`.

Each part has a value-level machine (`Exec` over all sequences of steps, with
everything the kernel, EGL, the GPU or a client decides given as inputs), whose
theorems range over every run. For each machine they say both what never goes
wrong and what does happen: what every part of the state is after a run is tied,
in the form "since such a step and until such another" (`Common.Since`), to the
requests and events of the run, and what is sent to what was asked for. Where the program changes state in place, a
class with the same fields and loops is proved to follow that machine step by
step: its `Valid()` says that its fields are exactly what `Exec` of the requests
so far gives, and every method keeps it.
Buffers (`HostRuntime`) and sub-surface links (`SubcompositorRuntime`) are modelled
with their pointers: counters and links are fields, a flush walks the links.

`dafny verify dfyconfig.toml` checks everything.

## What turned out to be false, and exactly when

- A flush of the deferred-release list drops every entry exactly when no entry
  but the oldest was enqueued again before it (`DeferredRelease.NothingLostIff`);
  otherwise the entries behind the repeat keep their buffer busy for good
  (`HostRuns.NothingLostInRunIff`, `HostRuns.LostIsNeverReturned`; a run that
  does it: `HostRuns.LeakingRunLoses`).
- A buffer is released or freed under the GPU exactly if some step of the run is
  taken while a guard on the state before it holds: the step ends the last use, or
  drops the last reference, of a buffer that no successful wait covers
  (`PrematureReleases.ReleasedUnderGpuIff`). It takes a failed wait, a failed
  swap that leaves reads behind, or a renderer that went away
  (`HostRuns.NoReleaseUnderGpu`, `PrematureReleases.HazardsReleaseEarly`). A fence
  or glFinish covers all earlier work of its own renderer and nothing else: reads
  of a renderer that went away stay uncovered for good
  (`PrematureReleases.OrphanedForGood`, `PrematureReleases.NewFenceCoversNothingOld`).
- After a failed frame and without a new request no frame ever starts unless one
  was wanted when it failed (`Repaint.FailedFrameRetriedIff`).
- A frame samples a scan-out token all of whose presentations have been released
  exactly if no commit presented it again since the last swapped frame
  (`TvgScanout.ReleasedThenSampledIff`, `TvgScanout.ReleasedThenSampled`); a token
  is released under the GPU exactly if a frame gets past its own wait while the
  token is in work that no wait has covered (`TvgScanout.ReleasedReadIff`): its
  wait fails, an earlier wait outside a frame did, or the renderer was replaced
  (`TvgScanout.FailedWaitReleasesRead`, `TvgScanout.LostFenceReleasesRead`), but
  not by a failed swap (`TvgScanout.NoReleaseUnderGpu`).
- An accepted shared-memory buffer has all its pixels in the pool exactly when
  its width is below 2^29 (`ShmPool.PixelsInsideIff`), and only then does its
  texture upload stay within the bytes it is given (`PixelUpload.UploadPixels`).
- A new sub-surface is drawn under its siblings, not over them
  (`SubsurfaceHistory.OrderKept`).
- Placing a sub-surface above a sibling works exactly when the sibling is not
  the topmost of the others; placing it below one draws it right over it
  (`Subcompositor.PlacedAboveIff`, `Subcompositor.PlacedBelowIsAbove`).
- Parents and children lists agree after a request exactly when it does not place
  a surface against itself (`Subcompositor.StepConsistentIff`,
  `Subcompositor.SelfPlacementRuns`), and parents stay free of cycles exactly when
  the new parent is not beneath the surface
  (`SurfaceAncestry.GetSubsurfaceAcyclicIff`, `SurfaceAncestry.CyclicRun`).
- v2 messages that wait for the first done share one commit, in which each string
  replaces the one before and each deletion too: they reach the application as typed
  exactly if the last of each is all they amount to (`TextDelivery.BatchAsTypedIff`,
  `TextDelivery.FirstStringLost`).
- v2 input is delivered to an activation it was not typed into exactly if an
  activate arrived while input was queued and a done came before anything else
  settled the queue (`ImeBridge.CrossesActivationIff`, `ImeBridge.CrossingRun`).
- A session lookup can answer Ok after `close` took the id away: exactly if it had
  read the registry before and loads `closed` before anybody sets it
  (`SessionRegistry.LateOkIff`, `SessionRegistry.LateOkRun`).
- Running the chroot cleanup twice restores all mounts except exactly where the
  session had covered a guest mount on `dev/pts` by binding a bare `dev`
  (`ChrootMounts.SessionRestoresIff`).

## Model

| member | source | states |
|---|---|---|
| `DeferredRelease.VisitedIsLongestDistinctSuffix` | wayland-host/src/buffer_shm.c:33-78 | What a flush visits is the longest duplicate-free suffix of the enqueues, newest first, and one older repeated entry if there is one. |
| `DeferredRelease.VisitedAtMostEnqueued` | wayland-host/src/buffer_shm.c:42-78 | No buffer is dropped more often than it was enqueued, on any sequence of enqueues. |
| `DeferredRelease.NothingLostIff` | wayland-host/src/buffer_shm.c:46-78 | Every enqueue is dropped exactly once if and only if at most the oldest entry is enqueued again. |
| `DeferredRelease.DeferredList.Defer` | wayland-host/src/buffer_shm.c:42-62 | Linking through the buffer's own field, also when it is linked already and the chain becomes cyclic, keeps the chain tied to the enqueue history. |
| `DeferredRelease.DeferredList.Take` | wayland-host/src/buffer_shm.c:64-68 | The chain is detached from its head before the walk. |
| `DeferredRelease.Unlink` | wayland-host/src/buffer_shm.c:71-73 | One step of the walk: the link is read and cleared, and the walk ends exactly at the oldest entry or at one met before, so on every chain, cyclic or not. |
| `BufferLifetime.UnrefCounts` | wayland-host/src/buffer_shm.c:85-95 | Storage goes exactly with the last holder and never while in use; the counts still equal the holders. |
| `BufferLifetime.EndUseCounts` | wayland-host/src/buffer_shm.c:311-319 | Ending a use turns it into a bare reference that the caller still has to drop. |
| `BufferLifetime.AddReferenceCounts` | wayland-host/src/buffer_shm.c:80-83 | A new reference belongs to the caller until it is stored. |
| `BufferLifetime.ReplacePendingCounts` | wayland-host/src/surface.c:62-78 | Replacing the pending buffer exchanges the caller's reference for the old one. |
| `BufferLifetime.BeginUseCounts` | wayland-host/src/surface.c:376-425 | Promoting pending to current carries the reference over and adds one use. |
| `BufferLifetime.DropCurrentCounts` | wayland-host/src/surface.c:271-288 | Letting go of a current buffer leaves its use and reference outstanding for the list or the releaser. |
| `HostSteps.AttachKeeps` | wayland-host/src/surface.c:102-140 | attach keeps counts equal to holders, and no event under the GPU; what it makes the surface show is `ShownContent`. |
| `HostSteps.SetPendingKeeps` | wayland-host/src/surface.c:62-78 | So does replacing the pending buffer, the same buffer included. |
| `HostSteps.CommitKeeps` | wayland-host/src/surface.c:376-425 | So does commit in all its branches: same buffer, replacement, first buffer, detach. |
| `HostSteps.DestroySurfaceKeeps` | wayland-host/src/surface.c:271-288 | So does destroying a surface, with its fence wait. |
| `HostSteps.NewBufferKeeps` | wayland-host/src/egl_buffer.c:51-69 | So does creating a buffer or the wrapper of an EGL buffer, which starts with the cache's one reference. |
| `EglCache.CacheIs` | wayland-host/src/egl_buffer.c:11-19 | In every run the cache is exactly the map from resources to their owning wrappers: one entry per resource, no wrapper twice. |
| `EglCache.SameWrapper` | wayland-host/src/egl_buffer.c:42-50 | All lookups of a resource until it goes return the wrapper its first lookup made. |
| `EglCache.NewWrapperAfterGone` | wayland-host/src/egl_buffer.c:21-36 | After a resource went its wrapper is never returned again, even if the address is reused. |
| `EglCache.WrapperCache.FindCached` | wayland-host/src/egl_buffer.c:11-19 | The loop finds the entry of the resource, or none. |
| `EglCache.WrapperCache.FromResource` | wayland-host/src/egl_buffer.c:42-69 | Returns the resource's owner and makes one only if there is none. |
| `EglCache.WrapperCache.ResourceDestroyed` | wayland-host/src/egl_buffer.c:21-36 | The wrapper's own entry leaves the list, and the resource has no owner. |
| `HostSteps.DestroyBufferKeeps` | wayland-host/src/egl_buffer.c:21-36 | So does losing the wl_buffer (after a wait for an EGL wrapper), with surfaces still holding the storage. |
| `HostSteps.WaitIdleGood` | wayland-host/src/renderer.c:491-502 | After a successful wait in a clean run the GPU reads nothing. |
| `HostSteps.FlushKeeps` | wayland-host/src/buffer_shm.c:64-78 | A flush keeps the counts; what it steps over is accounted as lost. |
| `HostSteps.DrawKeeps` | wayland-host/src/renderer.c:817-849 | Whatever a frame samples stays in use and covered by its fence. |
| `HostSteps.RenderKeeps` | wayland-host/src/renderer.c:744-852 | Wait, flush, draw, swap in this order keep the invariant for every outcome of the frame. |
| `HostSteps.DestroyRendererKeeps` | wayland-host/src/renderer.c:464-473 | Replacing the renderer keeps it as long as no reads are outstanding. |
| `HostRuns.RunKeeps` | wayland-host/src/surface.c:362-434 | The buffer invariant holds after every sequence of requests, frames and destructions. |
| `HostRuns.CountsAreHolders` | wayland-host/src/buffer_shm.c:42-95 | In every reachable state references and busy_users are exactly the numbers of holders, and storage exists exactly while somebody holds the buffer. |
| `HostRuns.NothingDangles` | wayland-host/src/surface.c:376-425 | What a surface shows or has attached is never freed storage. |
| `HostRuns.ReleasesAreLastUse` | wayland-host/src/buffer_shm.c:311-319 | A release event goes out only for a buffer no surface shows any more. |
| `HostRuns.NoReleaseUnderGpu` | wayland-host/src/renderer.c:744-758 | In every run without a lost fence no buffer is released or freed while a frame may still sample it. |
| `ShownContent.AttachCommitShows` | wayland-host/src/surface.c:102-140 | After attach and commit, in every run, the surface shows exactly what was attached, nothing for a null attach; every other surface is unchanged, and what it showed before is deferred unless it is shown again. |
| `ShownContent.RunSurfaces` | wayland-host/src/surface.c:362-434 | What each request or frame does to each surface and to the deferred list, in every run. |
| `ShownContent.SecondCommitIdle` | wayland-host/src/surface.c:376-384 | A commit without a new attach changes nothing at all. |
| `ShownContent.SurfaceSince` | wayland-host/src/surface.c:301-330 | A surface is there from its creation until it is destroyed. |
| `ShownContent.AttachedSince` | wayland-host/src/surface.c:102-140 | A buffer is pending from the attach that named it exactly until the next attach, commit or end of the surface. |
| `ShownContent.DetachingSince` | wayland-host/src/surface.c:122-124 | So is a null attach. |
| `ShownContent.ShownSince` | wayland-host/src/surface.c:376-425 | A buffer is shown from the commit that found it pending exactly until a commit of something else, or of nothing, or the end of the surface. |
| `ShownContent.ReadSince` | wayland-host/src/renderer.c:811-852 | The GPU reads a buffer from a frame that shows it exactly until a successful wait for its fence or a glFinish; reads of a renderer that went away never end. |
| `ReleaseNotices.ReleasedAtLastUse` | wayland-host/src/buffer_shm.c:311-319 | In every run each step sends the release of a buffer, once, exactly if it ends its last use, on the wire exactly if the wl_buffer is alive, and frees the storage exactly if it takes the last holder away. |
| `ReleaseNotices.ResourceSince` | wayland-host/src/buffer_shm.c:142-147 | A wl_buffer is alive from its creation exactly until it is destroyed, and never again. |
| `PrematureReleases.FlushDrops` | wayland-host/src/buffer_shm.c:64-78 | A flush takes from each buffer as many uses and references as it visits it, and frees it with the last. |
| `PrematureReleases.FlushReads` | wayland-host/src/buffer_shm.c:64-78 | A flush sends a premature event exactly if its entries are all the remaining uses of a buffer being read. |
| `PrematureReleases.StepReadsIff` | wayland-host/src/surface.c:271-288 | Each step (frame, surface or buffer destroy, attach, commit) lets something go under the GPU exactly when its guard on the state before holds. |
| `PrematureReleases.ReleasedUnderGpuIff` | wayland-host/src/renderer.c:744-852 | In every run, clean or not, some release or free is premature exactly if some prefix of the run meets the guard of its next step. |
| `PrematureReleases.HazardsReleaseEarly` | wayland-host/src/renderer.c:817-830 | A failed swap with reads outstanding, or a replaced renderer, does let a release go out early. |
| `PrematureReleases.OrphanedForGood` | wayland-host/src/renderer.c:464-489 | Reads of a renderer that went away count as uncovered in every continuation, whatever is drawn and waited for. |
| `PrematureReleases.NewFenceCoversNothingOld` | wayland-host/src/renderer.c:491-502 | A fenced frame of the new renderer and its successful wait do not make the release of such a buffer safe. |
| `HostRuns.NothingLostInRunIff` | wayland-host/src/buffer_shm.c:46-78 | No deferred reference leaks in a run if and only if every flush found at most its oldest entry repeated. |
| `HostRuns.LostIsNeverReturned` | wayland-host/src/buffer_shm.c:64-78 | A reference a flush stepped over keeps its buffer allocated and busy in every continuation. |
| `HostRuns.LeakingRunLoses` | wayland-host/src/buffer_shm.c:46-78 | One surface that alternates two buffers four times between two frames loses a reference. |
| `HostRuntime.Compositor.VisitOne` | wayland-host/src/buffer_shm.c:71-76 | One turn on the heap: the link of the buffer is cleared, its counters drop, and the rest of the chain still leads to the predicted state; the buffer touched is live. |
| `HostRuntime.Compositor.WalkAll` | wayland-host/src/buffer_shm.c:70-77 | Following the links from the detached head ends on every chain and arrives at the predicted state. |
| `HostRuntime.Compositor.FlushDeferred` | wayland-host/src/buffer_shm.c:64-78 | The walk over linked heap buffers does what the run machine says of a flush, and touches live buffers only. |
| `HostRuntime.Compositor.CreateBuffer` | wayland-host/src/egl_buffer.c:42-70 | A new heap buffer with one reference, distinct from all others, extends the run. |
| `HostRuntime.Compositor.Attach` | wayland-host/src/surface.c:102-140 | Re-pointing the surface and counting references on the heap buffers is the attach step of the run. |
| `HostRuntime.Compositor.Commit` | wayland-host/src/surface.c:376-425 | The pointers, counters and links after a commit are those of the commit step; every buffer touched is live. |
| `HostRuntime.Compositor.DestroySurface` | wayland-host/src/surface.c:227-299 | Wait, release and unref on the heap buffers are the surface-destroy step; the pending buffer is still live when it is dropped. |
| `HostRuntime.Compositor.DestroyBuffer` | wayland-host/src/buffer_shm.c:142-147 | Losing the resource and its reference is the buffer-destroy step. |
| `HostRuntime.Compositor.Render` | wayland-host/src/renderer.c:744-852 | Wait, link walk, draw and swap are the frame step; tells whether it was presented. |
| `DrawOrder.ParticipatesInOutput` | wayland-host/src/surface.c:436-446 | The loop over parents decides exactly whether surface and all ancestors are open (or it is the visible cursor). |
| `DrawOrder.TreeCount` | wayland-host/src/renderer.c:724-737 | A tree draw reaches each surface below its root exactly once along an open chain, and no other; its order is `DrawnInOrder`. |
| `DrawOrder.PassCount` | wayland-host/src/renderer.c:782-802 | A pass draws each surface once per root it selects. |
| `DrawOrder.DrawnExactly` | wayland-host/src/renderer.c:782-809 | A composition draws a participating surface exactly as often as passes select its root (once without a layer), the cursor once, anything else never. |
| `DrawOrder.DrawnIffParticipates` | wayland-host/src/surface.c:436-446 | The bottom-up test and the top-down traversal agree on every forest and cursor state. |
| `DrawOrder.DrawnInOrder` | wayland-host/src/renderer.c:724-809 | For every forest the drawn sequence falls into backgrounds, tiny underlays, windows and bottom layers, top layers and overlays, and the cursor last and nowhere else; within each of them a surface comes before all its descendants, an earlier sibling with its whole branch before a later one, and the tree of an earlier root of the surface list before that of a later one. |
| `DrawOrder.BelowIsStrict` | wayland-host/src/renderer.c:724-737 | That order never puts two surfaces below each other. |
| `DrawOrder.RunPass` | wayland-host/src/renderer.c:782-802 | The loop over surfaces of one pass. |
| `DrawOrder.Compose` | wayland-host/src/renderer.c:782-809 | One composition draws exactly what the bottom-up test admits, in the order above. |
| `FrameCallbacks.RequeueUndoesLatch` | wayland-host/src/surface.c:448-471 | A failed swap puts back exactly what the latch took, in place. |
| `FrameCallbacks.RunKeeps` | wayland-host/src/surface.c:366-375 | Queue order and causality hold after every run of requests, commits, frames and destructions. |
| `FrameCallbacks.CallbacksInRequestOrder` | wayland-host/src/surface.c:80-100 | A surface's requests are its completions, then its committed, then its pending callbacks: each in one place, none lost, order kept across failed swaps. |
| `FrameCallbacks.DoneAtMostOnce` | wayland-host/src/surface.c:473-484 | No two completions of a run are for the same callback, whatever their surfaces, destroyed ones included. |
| `FrameCallbacks.DoneOnlyAfterShown` | wayland-host/src/renderer.c:811-853 | Each completion has its request, a later commit and, not cancelled before, a later swap that showed the surface. |
| `FrameCompletion.DoneIffShown` | wayland-host/src/surface.c:473-484 | In every run a callback completes exactly if it was requested, then committed and then, not cancelled, on a surface that a swapped composition drew; destroyed surfaces included. |
| `FrameCompletion.ShownIsDone` | wayland-host/src/renderer.c:811-853 | It completes by the end of the first such composition, before anything else is logged. |
| `FrameCompletion.LogIsTrace` | wayland-host/src/surface.c:80-100 | Apart from the completions the log is exactly the accepted requests and commits, the heeded cancels and the swapped compositions of the run, in order. |
| `FrameCompletion.NewestFirst` | wayland-host/src/surface.c:324 | The surface list holds the living surfaces, the newest first. |
| `FrameCompletion.DoneNewestFirst` | wayland-host/src/surface.c:473-484 | Completions of one composition go out surface by surface in that order. |
| `FrameCallbackRuntime.CallbackLists.RequestFrame` | wayland-host/src/surface.c:80-100 | The handler performs exactly the request step. |
| `FrameCallbackRuntime.CallbackLists.CommitCallbacks` | wayland-host/src/surface.c:366-375 | Pending callbacks go behind the committed ones; tells whether there were any. |
| `FrameCallbackRuntime.CallbackLists.CancelCallback` | wayland-host/src/surface.c:42-47 | A callback whose object goes leaves whichever list it is on; performs exactly the cancel step. |
| `FrameCallbackRuntime.CallbackLists.DestroySurfaceCallbacks` | wayland-host/src/surface.c:289-297 | A destroyed surface takes its three lists with it; performs exactly the destroy step. |
| `FrameCallbackRuntime.CallbackLists.LatchAll` | wayland-host/src/surface.c:448-461 | The loop latches exactly the participating surfaces. |
| `FrameCallbackRuntime.CallbackLists.RequeueAll` | wayland-host/src/surface.c:463-471 | The loop requeues every surface's presented callbacks. |
| `FrameCallbackRuntime.CallbackLists.SendAll` | wayland-host/src/surface.c:473-484 | The loop completes every presented callback in order. |
| `FrameCallbackRuntime.CallbackLists.LatchAndFinish` | wayland-host/src/renderer.c:811-853 | Latch, then send or requeue by the swap's outcome. |
| `FrameCallbackRuntime.CallbackLists.RenderCallbacks` | wayland-host/src/renderer.c:744-853 | A frame performs exactly the frame step, early exits included. |
| `Repaint.RunKeeps` | wayland-host/src/compositor.c:30-53 | From any good state every run keeps: at most one of scheduled, ready and rendering; a wanted frame is on its way; frames started stay within requests and eligibility events. |
| `Repaint.EveryRun` | wayland-host/src/compositor.c:241-283 | The same, from the initial flags. |
| `Repaint.RequestReachesFrame` | wayland-host/src/compositor.c:255-283 | A wanted frame stays wanted until it starts, and at most two awaited events pass first, also for a request made while rendering. |
| `Repaint.ThreeEventsStartFrame` | wayland-host/src/compositor.c:241-253 | Presentation, tick and begin, as far as each is awaited, start it. |
| `Repaint.UnwantedNeverStarts` | wayland-host/src/compositor.c:46-53 | Without a request no continuation starts a frame nobody wants. |
| `Repaint.WantedStarts` | wayland-host/src/compositor.c:241-283 | A wanted frame has started once as many awaited events passed as were due. |
| `Repaint.RequestStartsFrame` | wayland-host/src/compositor.c:255-263 | No request is lost: in every run, whatever the server was doing when the request came, three awaited events later a frame has started that had not before. |
| `Repaint.WantedSince` | wayland-host/src/compositor.c:241-283 | A frame is wanted from a request exactly until a frame starts, and being drawn from its start exactly until it is presented or fails, one frame at a time. |
| `Repaint.ScheduledIsArmed` | wayland-host/src/compositor.c:30-44 | The machine never waits for a timer that was not armed, or that has fired. |
| `Repaint.IdleUnlessFailed` | wayland-host/src/compositor.c:46-53 | While nothing is wanted neither timer nor ready flag is set, except exactly after a failed frame until a tick or request uses up what it left. |
| `Repaint.FailedFrameRetriedIff` | wayland-host/src/compositor.c:265-271 | After a failure, over all request-free continuations: a frame can start exactly if one was wanted when it failed, and then starts in each that brings the awaited events. |
| `Repaint.Server.TimerFired` | wayland-host/src/compositor.c:46-53 | The tick step on the flags. |
| `Repaint.Server.BeginRepaint` | wayland-host/src/compositor.c:241-253 | Begins exactly when a frame is ready. |
| `Repaint.Server.RequestRender` | wayland-host/src/compositor.c:255-263 | The request step on the flags. |
| `Repaint.Server.RepaintFailed` | wayland-host/src/compositor.c:265-271 | The failure step on the flags. |
| `Repaint.Server.FramePresented` | wayland-host/src/compositor.c:273-283 | The presentation step on the flags. |
| `ExplicitSync.RunKeeps` | wayland-host/src/explicit_sync.c:17-103 | Ownership of release objects and fences holds after every run. |
| `ExplicitSync.StepOwned` | wayland-host/src/surface.c:385-403 | Every request and destroy hook keeps pointers and bindings mutually inverse. |
| `ExplicitSync.StepFenced` | wayland-host/src/explicit_sync.c:57-75 | Every step keeps each fence either held once or closed once. |
| `ExplicitSync.ReleaseHasOneOwner` | wayland-host/src/explicit_sync.c:17-39 | A live release object is pointed to by exactly one surface or buffer, the one its binding names. |
| `ExplicitSync.PointersAreLive` | wayland-host/src/explicit_sync.c:22-30 | No surface or buffer points to a destroyed release object. |
| `ExplicitSync.ReleasedOnce` | wayland-host/src/explicit_sync.c:174-181 | An object gets at most one release event and is gone then. |
| `ExplicitSync.FenceClosedOnce` | wayland-host/src/explicit_sync.c:155-172 | Every fence received has one holder or was closed exactly once. |
| `ReleaseEvents.ReleasedIff` | wayland-host/src/explicit_sync.c:174-181 | In every run the release event of an object goes out exactly if some step releases a buffer that carries the object at that point. |
| `ReleaseEvents.ReleasedInOrder` | wayland-host/src/explicit_sync.c:174-181 | And in the order of those steps. |
| `ReleaseEvents.ReleaseCarriedSince` | wayland-host/src/surface.c:385-403 | A buffer carries a release object from the commit that brought them together exactly until the next commit of the buffer, its release or end, the end of the object, or the end of a surface that has the buffer pending. |
| `ReleaseEvents.ReleasePendingSince` | wayland-host/src/explicit_sync.c:77-103 | A surface holds a release object from the request that made it exactly until the next commit, or until object or surface go. |
| `ReleaseEvents.FenceHeldSince` | wayland-host/src/explicit_sync.c:57-75 | A surface holds a fence from the request that set it exactly until the next commit, or until sync object or surface go. |
| `ReleaseEvents.LivesSince` | wayland-host/src/explicit_sync.c:46-135 | Surfaces, buffers and sync objects are there from their creation exactly until they are destroyed. |
| `ReleaseEvents.OfferedIff` | wayland-host/src/explicit_sync.c:57-75 | The fences to account for are all that ever came with a request on a live surface. |
| `ReleaseEvents.ObjectsIff` | wayland-host/src/explicit_sync.c:77-103 | The release objects of a run are those of the granted requests. |
| `ExplicitSync.DestroyOwned` | wayland-host/src/explicit_sync.c:22-30 | Destroying an object leaves every other pointer and binding mutually inverse, and none to the object. |
| `ExplicitSync.DestroySurfaceFenced` | wayland-host/src/surface.c:278-295 | A destroyed surface's fence is closed once, and no other. |
| `ExplicitSync.SyncObjects.OnSetAcquireFence` | wayland-host/src/explicit_sync.c:57-75 | A first fence is kept, any other closed. |
| `ExplicitSync.SyncObjects.OnGetRelease` | wayland-host/src/explicit_sync.c:77-103 | A second release object before a commit is refused. |
| `ExplicitSync.SyncObjects.OnCommitBuffer` | wayland-host/src/surface.c:385-403 | Fence and release object move from the surface to its buffer. |
| `ExplicitSync.CommitBufferOwned` | wayland-host/src/explicit_sync.c:32-39 | Moving a release object to the buffer, and destroying the one it replaces, keeps one owner each. |
| `ExplicitSync.SyncObjects.OnReleaseBuffer` | wayland-host/src/explicit_sync.c:174-181 | The event is sent and the object destroyed. |
| `ExplicitSync.SyncObjects.OnDestroySurface` | wayland-host/src/surface.c:278-295 | Everything the surface owned is destroyed or closed, once. |
| `TvgScanout.FirstsExactly` | wayland-host/src/tvg_scanout.c:301-318 | The reference batch holds each presented token once. |
| `TvgScanout.FirstsInOrder` | wayland-host/src/tvg_scanout.c:301-344 | And in order of first presentation. |
| `TvgScanout.RunTracks` | wayland-host/src/tvg_scanout.c:301-344 | In every run: pending is the current batch reversed, and releases sent plus tokens in flight are the batches of all swapped frames, in order. |
| `TvgScanout.InflightEmptyAtEnd` | wayland-host/src/renderer.c:753-758 | Nothing is in flight when a frame ends; no list repeats a token or holds 0. |
| `TvgScanout.ReleasedAtNextFrame` | wayland-host/src/renderer.c:852 | A swapped frame's batch is released, once and in order, at the start of the next valid frame whatever becomes of that frame and whatever happens to the renderer in between, and not before. |
| `TvgScanout.SentPerBatch` | wayland-host/src/tvg_scanout.c:320-344 | Over a run a token is released as often as swapped frames carried it, less one while in flight. |
| `TvgScanout.ReleasedReadIff` | wayland-host/src/renderer.c:753-758 | In every run, replaced renderers and waits outside frames included, a token is released under the GPU exactly if some frame gets past its own wait while a token of the frame before is in work that no wait has covered. |
| `TvgScanout.NoReleaseUnderGpu` | wayland-host/src/renderer.c:753-758 | So never in a run whose waits all succeed and whose renderers go away only with nothing uncovered, failed swaps included. |
| `TvgScanout.FailedWaitReleasesRead` | wayland-host/src/tvg_scanout.c:320-331 | A failed wait of the frame does release a token that is being read. |
| `TvgScanout.LostFenceReleasesRead` | wayland-host/src/jni_bridge.c:94-105 | So does a frame whose own wait succeeds, after a replaced renderer or a failed wait outside a frame: no fence is left. |
| `TvgScanout.ReadSince` | wayland-host/src/renderer.c:744-758 | A token is read from a frame that draws it exactly until a successful wait for its fence or a glFinish of the same renderer. |
| `TvgScanout.RawIff` | wayland-host/src/tvg_scanout.c:301-318 | Presented since the last swapped frame, in terms of the run. |
| `TvgScanout.OwedIff` | wayland-host/src/tvg_scanout.c:320-344 | After the releases of any frame of any run, a token is still owed one exactly if it was presented again since, and all earlier ones went out. |
| `TvgScanout.ReleasedThenSampledIff` | wayland-host/src/renderer.c:757-852 | A frame that draws, whatever its swap does, samples a token all of whose presentations were released exactly if it was not presented again since the last swapped frame. |
| `TvgScanout.ReleasedThenSampled` | wayland-host/src/tvg_scanout.c:320-331 | It happens to a token that is shown once and stays shown. |
| `TvgScanout.Scanout.RememberPresented` | wayland-host/src/tvg_scanout.c:301-318 | The search and push; zero, known tokens and a failed allocation change nothing. |
| `TvgScanout.Scanout.BeginFrame` | wayland-host/src/tvg_scanout.c:320-331 | The loop sends the detached list from its head. |
| `TvgScanout.Scanout.EndFrame` | wayland-host/src/tvg_scanout.c:333-344 | The loop moves pending over, reversed. |
| `TvgScanout.Scanout.Render` | wayland-host/src/renderer.c:744-852 | A frame performs exactly the frame step for every outcome. |
| `TvgScanout.Scanout.WaitOutsideFrame` | wayland-host/src/surface.c:271-277 | A wait when a surface or EGL buffer goes uses up the fence and leaves the token lists alone. |
| `TvgScanout.Scanout.DestroyRenderer` | wayland-host/src/renderer.c:464-473 | The fence goes without a wait; the global token lists stay. |
| `ShmPool.AcceptsIff` | wayland-host/src/buffer_shm.c:163-168 | The wrapped 32- and 64-bit checks accept exactly the shapes the intended integer conditions accept, but for the wrapped row length. |
| `ShmPool.ByteEndIs` | wayland-host/src/buffer_shm.c:164 | The size_t sum is the true end, plus 2^64 if that is negative. |
| `ShmPool.PixelsInsideIff` | wayland-host/src/buffer_shm.c:163-168 | All pixels of an accepted buffer lie in the pool exactly when its width is below 2^29. |
| `ShmPool.OverflowAccepted` | wayland-host/src/buffer_shm.c:163-168 | A shape with an overflowing row length is accepted by every pool. |
| `ShmPool.PoolUnrefGood` | wayland-host/src/buffer_shm.c:97-102 | The mapping goes exactly when the last holder lets go. |
| `ShmPool.CreateBufferGood` | wayland-host/src/buffer_shm.c:159-211 | Creating a buffer keeps the pool invariant. |
| `ShmPool.ResizeGood` | wayland-host/src/buffer_shm.c:213-236 | Remapping repoints exactly the pool's own buffers and keeps every accepted shape accepted. |
| `ShmPool.RunGood` | wayland-host/src/buffer_shm.c:97-280 | The pool invariant holds after every interleaving of pool and buffer requests. |
| `ShmPool.BufferStaysMapped` | wayland-host/src/buffer_shm.c:213-236 | A live buffer's data is its offset in the kernel's current mapping of its pool, its pixels inside it (width below 2^29). |
| `ShmPool.PoolLivesWhileHeld` | wayland-host/src/buffer_shm.c:97-158 | A mapping exists exactly while its resource or a buffer does, and is unmapped once and whole. |
| `PoolHistory.BufferSince` | wayland-host/src/buffer_shm.c:159-211 | A buffer has the pool and shape of the request that was granted, exactly until its storage goes. |
| `PoolHistory.PoolSince` | wayland-host/src/buffer_shm.c:213-280 | A pool takes requests until its resource goes, and is mapped as its last granted create or resize said until its last holder goes. |
| `PoolHistory.RefusedChangesNothing` | wayland-host/src/buffer_shm.c:159-236 | A request that is not granted is answered with an error and changes nothing. |
| `ShmPoolRuntime.PoolHost.CreatePool` | wayland-host/src/buffer_shm.c:244-280 | Succeeds exactly for a positive size and a successful mmap. |
| `ShmPoolRuntime.PoolHost.RepointBuffers` | wayland-host/src/buffer_shm.c:232-235 | The loop rebases exactly the listed buffers. |
| `ShmPoolRuntime.PoolHost.Resize` | wayland-host/src/buffer_shm.c:213-236 | Succeeds exactly for a larger size and a successful mremap. |
| `ShmPoolRuntime.PoolHost.CreateBuffer` | wayland-host/src/buffer_shm.c:159-211 | Succeeds exactly for the shapes and formats accepted in unbounded integers. |
| `ShmPoolRuntime.PoolHost.DestroyPool` | wayland-host/src/buffer_shm.c:154-157 | Performs exactly the pool-destroy step. |
| `ShmPoolRuntime.PoolHost.DestroyStorage` | wayland-host/src/buffer_shm.c:113-140 | The buffer leaves its list and its pool, which is always still there. |
| `PixelUpload.Copy` | wayland-host/src/renderer.c:661-663 | Copies one row and touches nothing else. |
| `PixelUpload.Pack` | wayland-host/src/renderer.c:660-664 | The row loop leaves the same rows without their padding. |
| `PixelUpload.UploadPixels` | wayland-host/src/renderer.c:646-669 | For every accepted buffer the upload stays within the bytes it is given exactly if the row length did not overflow, and then reads the buffer's rows without padding, copied or not. |
| `Subcompositor.ListedIff` | wayland-host/src/subcompositor.c:120-145 | In a children list exactly when its owner is the parent. |
| `Subcompositor.PlacePermutes` | wayland-host/src/subcompositor.c:29-81 | Placing against another surface only permutes the list and keeps the order of the others. |
| `Subcompositor.StepConsistentIff` | wayland-host/src/subcompositor.c:29-112 | A step keeps parents and lists in agreement exactly when it is not a placement against itself. |
| `Subcompositor.RunConsistent` | wayland-host/src/subcompositor.c:29-145 | So they agree in every run in which no such placement was accepted. |
| `Subcompositor.SelfPlacementRuns` | wayland-host/src/subcompositor.c:29-81 | Both are accepted: above itself follows a null link, below itself leaves the surface in no list. |
| `Subcompositor.ListedExactlyOnce` | wayland-host/src/subcompositor.c:120-145 | Over a run a surface is in its parent's list once and in no other. |
| `Subcompositor.DestroyOrphans` | wayland-host/src/surface.c:249-262 | Destroying a surface orphans exactly its children, leaves the rest alone, and a later role destroy of an orphan touches no list. |
| `SubsurfaceHistory.ChildSince` | wayland-host/src/subcompositor.c:102-145 | A surface has the role from get_subsurface exactly until role or surface go, and its parent until then or until the parent goes. |
| `SubsurfaceHistory.OrderKept` | wayland-host/src/subcompositor.c:142 | A new child goes below its siblings, and nothing but a placement changes the order of those that stay. |
| `Subcompositor.PlacedAboveIff` | wayland-host/src/subcompositor.c:49-53 | Above a sibling: two places over it, or at the very bottom exactly if the sibling was topmost. |
| `Subcompositor.PlacedBelowIsAbove` | wayland-host/src/subcompositor.c:76-80 | Below a sibling: always right over it. |
| `Subcompositor.PlacedAgainstParent` | wayland-host/src/subcompositor.c:49-80 | Against the parent: top or bottom of the children. |
| `SurfaceAncestry.GetSubsurfaceAcyclicIff` | wayland-host/src/subcompositor.c:128 | An accepted request keeps parents free of cycles exactly when the parent is not beneath the surface. |
| `SurfaceAncestry.RunAcyclic` | wayland-host/src/subcompositor.c:120-145 | In runs that respect this the parents always form a forest. |
| `SurfaceAncestry.CyclicRun` | wayland-host/src/subcompositor.c:120-145 | Two accepted requests make a cycle. |
| `SceneForest.SceneIsForest` | wayland-host/src/renderer.c:724-737 | Without cycles every scene over the current surfaces is a forest with finite depths. |
| `SceneForest.RunDrawsWhatParticipates` | wayland-host/src/surface.c:436-446 | In every such run a composition draws a surface exactly when the bottom-up test says it participates. |
| `WlList.InsertRing` | wayland-host/src/subcompositor.c:49-53 | Link insertion puts an element right after the given link of a ring. |
| `WlList.RemoveRing` | wayland-host/src/subcompositor.c:49 | Link removal closes the ring over the gap. |
| `SubcompositorRuntime.SubsurfaceLinks.GetSubsurface` | wayland-host/src/subcompositor.c:120-145 | The links spell out the request step; refusals change nothing. |
| `SubcompositorRuntime.SubsurfaceLinks.PlaceAbove` | wayland-host/src/subcompositor.c:29-54 | The two link operations give exactly the placement of the run machine; accepted exactly for the parent or a sibling, and a null link is followed exactly if that is the surface itself. |
| `SubcompositorRuntime.SubsurfaceLinks.PlaceBelow` | wayland-host/src/subcompositor.c:56-81 | Likewise; against itself the links still spell out the (broken) state. |
| `SubcompositorRuntime.SubsurfaceLinks.DestroySubsurface` | wayland-host/src/subcompositor.c:102-112 | Unlinks from the parent if there is one; role and parent are gone. |
| `SubcompositorRuntime.SubsurfaceLinks.OrphanChildren` | wayland-host/src/surface.c:257-262 | The safe loop unlinks every child, reading the successor first. |
| `SubcompositorRuntime.SubsurfaceLinks.DestroySurface` | wayland-host/src/surface.c:227-262 | Performs exactly the destroy step on the links. |
| `ImeBridge.RunGood` | wayland-ime-bridge/src/main.c:71-326 | The queue invariant holds after every run of either protocol. |
| `ImeBridge.FifoExactlyOnce` | wayland-ime-bridge/src/main.c:71-208 | Every accepted message has one fate or waits, in order of arrival; at most 128 wait, and none at rest with a context and a serial. |
| `ImeBridge.CommitCarriesDoneCount` | wayland-ime-bridge/src/main.c:306-316 | Every v2 commit carries the number of done events received so far, modulo 2^32. |
| `ImeBridge.SentOnceToOwnContext` | wayland-ime-bridge/src/main.c:115-265 | v1 requests are the delivered messages, once, in order, each to the context it was typed into. |
| `ImeBridge.StraddlesIff` | wayland-ime-bridge/src/main.c:270-316 | In every v2 run queued input straddles activations exactly while an activate over queued input is unsettled. |
| `ImeBridge.CrossesActivationIff` | wayland-ime-bridge/src/main.c:270-316 | In every v2 run a message is delivered to an activation it was not typed into exactly if an activate over queued input was followed by a done before anything else settled the queue. |
| `ImeBridge.StaysHome` | wayland-ime-bridge/src/main.c:270-316 | Without an activate over queued input every delivery is at home. |
| `ImeBridge.CrossingRun` | wayland-ime-bridge/src/main.c:270-316 | Activate, a message, activate, done: it happens. |
| `BridgeHistory.GatesV1` | wayland-ime-bridge/src/main.c:214-265 | v1: context and serial are those of the latest events, and the gate is open from a commit_state exactly until an activate, a reset or the deactivate of the context. |
| `BridgeHistory.GatesV2` | wayland-ime-bridge/src/main.c:270-316 | v2: active from activate exactly until deactivate or unavailable, the gate open from the first done after the last activate. |
| `BridgeHistory.FateInRun` | wayland-ime-bridge/src/main.c:71-208 | In every run of either protocol each event throws the waiting input away, delivers all of it because the gate is open, or leaves it waiting, and which of the three is exact. |
| `BridgeHistory.SentWithLatestSerial` | wayland-ime-bridge/src/main.c:186-200 | Every v1 request carries the latest serial that came for its context. |
| `TextDelivery.BatchIsBuffered` | wayland-ime-bridge/src/main.c:118-180 | What one v2 batch does to the application: the last string and the last deletion of the batch, applied by its one commit. |
| `TextDelivery.TypingIsNet` | wayland-ime-bridge/src/main.c:126-160 | Typing any messages is one edit: bytes deleted before, text inserted, bytes deleted after the cursor. |
| `TextDelivery.BatchAsTypedIff` | wayland-ime-bridge/input-method-unstable-v2.xml:206-306 | A batch reaches every application as typed exactly if that one edit is its last string and last deletion. |
| `TextDelivery.OneMessageAsTyped` | wayland-ime-bridge/src/main.c:140-156 | A message alone always does: text, backspace, delete, return and tab. |
| `TextDelivery.FirstStringLost` | wayland-ime-bridge/src/main.c:118-180 | Two strings queued before the first done: the first is lost. |
| `TextDelivery.TextArrivesAsTyped` | wayland-ime-bridge/src/main.c:115-180 | In every v2 run whose done events find only such batches, any application text ends up as typing the delivered messages makes it. |
| `ImeBridge.TextBridge.ClearPendingMessages` | wayland-ime-bridge/src/main.c:71-82 | The loop discards the queue in order and resets the count. |
| `ImeBridge.TextBridge.OnMessage` | wayland-ime-bridge/src/main.c:84-113 | Refused exactly without an active context or with a full queue. |
| `ImeBridge.TextBridge.SendQueue` | wayland-ime-bridge/src/main.c:115-208 | The loop sends the queue in order. |
| `ImeBridge.TextBridge.TryCommitQueue` | wayland-ime-bridge/src/main.c:115-208 | Sends all or nothing, by context and serial. |
| `ImeBridge.TextBridge.OnResetV1` | wayland-ime-bridge/src/main.c:214-220 | Performs exactly the reset step. |
| `ImeBridge.TextBridge.OnCommitStateV1` | wayland-ime-bridge/src/main.c:225-232 | Performs exactly the serial step. |
| `ImeBridge.TextBridge.OnActivateV1` | wayland-ime-bridge/src/main.c:241-252 | Performs exactly the activation step. |
| `ImeBridge.TextBridge.OnDeactivateV1` | wayland-ime-bridge/src/main.c:253-265 | Performs exactly the deactivation step. |
| `ImeBridge.TextBridge.OnActivateV2` | wayland-ime-bridge/src/main.c:270-277 | Performs exactly the v2 activation step. |
| `ImeBridge.TextBridge.OnDeactivateV2` | wayland-ime-bridge/src/main.c:279-287 | Performs exactly the v2 deactivation step. |
| `ImeBridge.TextBridge.OnDoneV2` | wayland-ime-bridge/src/main.c:306-316 | Performs exactly the done step. |
| `ImeFraming.ParseResumes` | wayland-ime-bridge/src/main.c:403-439 | Parsing can stop after any byte and be resumed with what was left. |
| `ImeFraming.LeftoverFits` | wayland-ime-bridge/src/main.c:436 | What is left never fills the buffer: the full-buffer exit is unreachable. |
| `ImeFraming.ChunkIndependent` | wayland-ime-bridge/src/main.c:403-439 | However a stream is cut into reads, messages, leftover and first error are those of parsing it whole. |
| `ImeFraming.SettledIff` | wayland-ime-bridge/src/main.c:411-420 | Whether buffered bytes are an incomplete frame depends on the bytes alone, not on the bridge. |
| `ImeFraming.ChunkIndependentBetweenEvents` | wayland-ime-bridge/src/main.c:403-472 | With compositor events in between: what arrives between two of them may be cut into reads anyhow, anywhere in a run. |
| `ImeFraming.EncodeDecodes` | wayland-ime-bridge/src/main.c:393-432 | One encoded message decodes to itself. |
| `ImeFraming.ParseEncoded` | wayland-ime-bridge/src/main.c:403-439 | Parsing encoded messages is accepting exactly those messages. |
| `ImeFraming.DecodesIff` | wayland-ime-bridge/src/main.c:393-432 | A frame is well formed exactly if it encodes some message. |
| `ImeFraming.ParsedIsEncoded` | wayland-ime-bridge/src/main.c:403-439 | The converse: the bytes taken are the encoding of the messages accepted, and the client is dropped exactly at a length out of range, a frame that encodes nothing, or a full queue. |
| `ImeFraming.SkippedWhenInactive` | wayland-ime-bridge/src/main.c:411-436 | Without a text input frames are skipped by length alone, whatever they hold. |
| `ImeFraming.EncodedMessagesAreDelivered` | wayland-ime-bridge/src/main.c:115-439 | With a context and serial, any messages, encoded and cut anyhow, are delivered exactly, in order, with nothing left. |
| `ImeFraming.MoveDown` | wayland-ime-bridge/src/main.c:403-439 | The overlapping move keeps the unread bytes. |
| `ImeFraming.TakeFrame` | wayland-ime-bridge/src/main.c:411-433 | One frame on the byte buffer is one step of the parser. |
| `ImeFraming.DrainFrames` | wayland-ime-bridge/src/main.c:411-436 | The inner loop on the buffer is the parser; room is always left. |
| `ImeFraming.ReadAndDrain` | wayland-ime-bridge/src/main.c:403-439 | One read followed by the inner loop. |
| `ImeFraming.ConsumeClient` | wayland-ime-bridge/src/main.c:403-439 | All reads of a wake-up together are the parser on everything that arrived. |
| `ImeFraming.ServeClient` | wayland-ime-bridge/src/main.c:441-472 | Wake-ups with compositor events in between are the run of one connection. |
| `ShellQuoting.QuoteRuns` | native/src/privileged.rs:51-54 | A quoted value adds exactly that value to the word being read, whatever it contains (sections 2.2.2 and 2.2.3 of the POSIX.1-2017 Shell Command Language). |
| `ShellQuoting.LexPrefixed` | native/src/droidspaces.rs:232-244 | A plain prefix and a quoted value make one word. |
| `ShellQuoting.LexAround` | native/src/droidspaces.rs:232-244 | Commands around a separator are read independently. |
| `ShellQuoting.ShellWordsRoundTrip` | native/src/droidspaces.rs:591-597 | Lexing the quoted list gives back exactly the list, empty values and quotes included. |
| `ShellQuoting.CommandLexes` | native/src/chroot.rs:619-625 | A command line means its pieces, each a whole word. |
| `ShellQuoting.SequenceLexes` | native/src/droidspaces.rs:278-313 | Two commands in a row mean both, in order. |
| `DroidspacesCommands.AttachmentCheckMeans` | native/src/droidspaces.rs:232-244 | The first shell reads exactly the binary, the container and the whole script as words; the second tests every socket path, whatever it contains. |
| `DroidspacesCommands.TerminalCommandMeans` | native/src/droidspaces.rs:278-313 | All three branches, word for word at both shells: exports, container, user, script, environment and arguments. |
| `DroidspacesCommands.AudioScriptMeans` | native/src/droidspaces.rs:278-313 | The audio branch exports each variable and hands over to the user's login shell with the audio variables preserved. |
| `DroidspacesCommands.LaunchScriptMeans` | native/src/droidspaces.rs:278-313 | The launch script is the guest program with its environment and arguments, word for word. |
| `DroidspacesCommands.X11CommandMeans` | native/src/droidspaces.rs:315-350 | Through three shells: the words of the container command and of the guest script are exactly these, and the login shell gets the arguments unchanged. |
| `ChrootMounts.UmountUndoesMount` | native/src/chroot.rs:542-575 | Unmounting undoes a mount at each point, what `dev` hides included. |
| `ChrootMounts.CleanupUndoes` | native/src/chroot.rs:398-421 | One cleanup undoes exactly what preparation mounted. |
| `ChrootMounts.FlaggedWasFree` | native/src/chroot.rs:542-575 | A flag is set exactly where nothing was mounted before. |
| `ChrootMounts.PtsFlag` | native/src/chroot.rs:542-575 | And for `dev/pts` exactly if `dev` was bare or had nothing there. |
| `ChrootMounts.CleanupIdle` | native/src/chroot.rs:398-421 | A further cleanup only ever affects `dev/pts`. |
| `ChrootMounts.CleanupTimesIs` | native/src/chroot.rs:472-487 | What any number of cleanups leaves. |
| `ChrootMounts.SessionRestoresIff` | native/src/chroot.rs:398-421 | Wherever the script exits, all mount stacks are restored, except exactly for a repeated cleanup over a covered `dev/pts`. |
| `ChrootMounts.SessionSees` | native/src/chroot.rs:542-575 | After the mount steps every promised path of the session kind shows its own source, except where the guest had a mount already, and every other path is as it was. |
| `ChrootMounts.RunSession` | native/src/chroot.rs:472-487 | The script step by step, with its flags and traps, has that outcome. |
| `ChrootMounts.RunMounts` | native/src/chroot.rs:542-575 | The mount steps up to the exit set exactly the flags of the preparation. |
| `ChrootMounts.RunCleanup` | native/src/chroot.rs:398-421 | The cleanup loop over the flags. |
| `SessionRegistry.StepConsistent` | native/src/session.rs:153-270 | Every atomic step keeps registry and sessions in agreement and moves each session only forward. |
| `SessionRegistry.RunSafe` | native/src/session.rs:153-327 | All invariants hold after every interleaving of openers, writers, closers and reapers. |
| `SessionRegistry.IdsNeverReused` | native/src/session.rs:245-247 | Two sessions of a run never share an id. |
| `SessionRegistry.GoneForever` | native/src/session.rs:218-243 | An id that left the registry is never got from it again, by a lookup or a close. |
| `SessionRegistry.LateOkIff` | native/src/session.rs:231-243 | After that, `get_open_session` answers Ok for the id exactly in the calls whose registry get came before the removal and whose load of `closed` comes before anybody sets it. |
| `SessionRegistry.NoLateOk` | native/src/session.rs:231-243 | So in none once the session is closed. |
| `SessionRegistry.LateOkRun` | native/src/session.rs:231-243 | It happens: get, a close that answers true, then the load. |
| `SessionRegistry.CloseTrueOnce` | native/src/session.rs:218-229 | `close(id)` answers true at most once; afterwards the registry never yields the id, and lookups answer Ok exactly in the late calls above. |
| `SessionRegistry.SignalledOnce` | native/src/session.rs:251-269 | The hangup/terminate pair is sent at most once per session, never to a PRoot session, and only on behalf of a close. |
| `SessionRegistry.ExitIsFinal` | native/src/session.rs:302-327 | Once the exit is reported the session is closed, writerless and unregistered for good; it is reported once, nothing is written afterwards and no lookup answers Ok, not even one under way. |
| `SessionHistory.CloseFinishes` | native/src/session.rs:251-269 | A close that found its id is through after three operations of its thread, however interleaved: closed, unregistered, writer dropped and process signalled (or PRoot child taken), unless the reaper had closed the session first. |
| `SessionHistory.ReportedIff` | native/src/session.rs:302-327 | The exit of a session is reported, under its own id, exactly once its reaper has taken its five steps. |
| `SessionHistory.RegisteredSince` | native/src/session.rs:169-172 | An id is registered from its insertion exactly until the first close of it or the reaper's removal. |
| `SessionHistory.OpenSince` | native/src/session.rs:251-269 | The writer is there exactly until the closer or the reaper drops it; `closed` is set exactly by the closer's swap or the reaper's store, for good. |
| `SessionHistory.LookedUpSince` | native/src/session.rs:231-243 | A lookup is under way from its registry get exactly until its load of `closed`, and yields the session exactly if that finds it open. |
| `SessionHistory.NumberedInOrder` | native/src/session.rs:245-247 | Sessions are numbered from 1 in the order they are opened. |
| `SessionHistory.LogIsTrace` | native/src/session.rs:205-269 | The answers, writes, signals and reports of a run are exactly those its steps call for, in order. |
| `ProcStat.ScanReads` | session-supervisor/src/main.c:243-252 | The C loop reaches the wanted field past a non-numeric state and negative fields. |
| `ProcStat.SplitYields` | native/src/chroot.rs:652-654 | The whitespace iterator yields exactly that field. |
| `ProcStat.ReadersAgree` | native/src/chroot.rs:647-658 | On every well-formed line below 512 bytes, whatever the command name, both readers get the field's value. |
| `ProcStat.ScanFields` | session-supervisor/src/main.c:243-252 | The loop decides exactly whether the scanned value is the expected one. |
| `ProcStat.OwnerIsAlive` | session-supervisor/src/main.c:232-254 | Alive exactly if the scanned field is the expected start time. |
| `ProcStat.SuperviseOwner` | session-supervisor/src/main.c:232-254 | With one line read at launch and another at the check, name and every other field changed, the owner is judged alive exactly if the start times are equal: a live owner is never judged gone, a process that took over its number is. |

## Left out

- EGL, GL, JNI, mmap and mremap results, sockets, forking and waiting are inputs of the steps; what they do inside is not modelled. Failures of `wl_resource_create` are not modelled.
- Counters are unbounded: reference, busy and done counts do not wrap, except the v2 serial, which is taken modulo 2^32. Session ids are unbounded.
- size_t is taken as 64 bits, and the overflowing signed product in pool_create_buffer as two's complement wrap-around.
- Surfaces in HostRuntime are entries of a map that point at heap buffers; ExplicitSync, FrameCallbackRuntime and ShmPoolRuntime name their objects by ids in maps, so aliasing is modelled for buffers and sub-surface links only.
- GPU work is taken to complete in order within one renderer's context, so that a fence or glFinish covers everything the context did before; what a driver does with the reads of a destroyed context is not modelled, and they count as never covered.
- The explicit-sync, scan-out, pool, EGL-cache and callback machines are separate from the buffer machine: an explicit release goes out where HostRuns has its Released event.
- DrawOrder.ParticipatesInOutput: needs parents without cycles, because the loop of the code does not end on one; SceneForest says which runs give that.
- SubcompositorRuntime.SubsurfaceLinks.PlaceAbove: what the process does after following a null link is not modelled; after a self-placement the object is no longer Valid().
- Positions, damage, viewports, keyboard and pointer focus, xdg and layer-shell configuration.
- The one-shot mode of the IME bridge, v2 surrounding text, preedit and content type; `unavailable` behaves as deactivate. A v2 commit is taken to apply whatever its serial, and text is counted in bytes, as the protocol file says.
- The wayland command of droidspaces.rs; the lexer refuses unquoted expansions, which these commands do not use. Names that are not valid UTF-8.
- ChrootMounts.RunSession: a signal between a mount and its flag assignment, or inside cleanup, is not modelled.
- SessionRegistry is a machine of atomic steps on values, because its point is the interleaving of threads; memory order, the manager's Drop, resize and reader threads are not modelled, and signalling a pid after it was reaped is not excluded.
- ProcStat.OwnerIsAlive: asks for two characters after the command name, which the kernel always writes; the code would step past the end of the line without them. A command name with a line break is escaped by the kernel.
- Rootfs import, launchers of PipeWire and VirGL, probes, shims, the input reader and build scripts: plumbing around foreign calls.
