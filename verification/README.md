# go-containerregistry, verified models

This project models the parts of go-containerregistry that move container images between
stores and carry state or ordering guarantees, and proves what they promise. Code that
works step by step is modelled as methods and classes whose contracts tie them to
specification functions; what the source promises is then proved about those functions, for
all inputs, all runs and all interleavings.

| file | what it models |
|---|---|
| `Extract.dfy` | flattening layers in one top-down pass, against applying the changesets bottom-up as the section "Whiteouts" of "Image Layer Filesystem Changeset" in the OCI Image Format Specification says |
| `BlobStore.dfy`, `ManifestStore.dfy` | the in-memory registry: chunked uploads into a content-addressed store, and the manifest store |
| `PushServer.dfy`, `WriteProtocol.dfy` | `Write` and `WriteIndex` as request steps, interleaved with other clients |
| `MultiWritePlan.dfy`, `MultiWriteProtocol.dfy`, `MultiWriteProgress.dfy` | `MultiWrite`: the collection of blobs and manifest levels, the workers that push them stage by stage, and that they come to an end |
| `RegistryRefinement.dfy`, `ServedPush.dfy`, `SharedServer.dfy` | the registry's handlers as the server of those protocols, from the push to the pull: for one call, and for any number of them at once |
| `AnsweredPush.dfy`, `AnsweredMultiWrite.dfy` | that pushes succeed: all three calls when no request is lost |
| `Streams.dfy`, `MutateImage.dfy`, `Rebase.dfy` | streaming layers with any number of readers, lazily rewritten images, and rebasing |
| `Tarball.dfy`, `TarballReader.dfy`, `LegacyTarball.dfy` | writing a tarball, its size, reading it back, and the v1 format with its chained layer IDs |
| `Names.dfy` | parsing and printing references |
| `GcraneWalk.dfy`, `GcraneRename.dfy`, `GcraneDiff.dfy`, `GcraneQueue.dfy`, `GcraneSync.dfy` | which repositories gcrane copies, to where, and what of each; the producer and workers that do it, and all together |
| `Backoff.dfy` | retries with exponential backoff |
| `Common.dfy`, `Sorting.dfy` | bytes, options, results, injectivity; sorting by a string |

Check everything with `dafny verify dfyconfig.toml`.

## How the code is represented

- Hashes, JSON, gzip and tar are functions passed as parameters (a `Codec`, or `hash`).
  Where a theorem needs it, they are required to be injective, and to have the few other
  properties that predicates such as `Sane` and `Faithful` list. In `PushServer` a digest is its own content, so hashing is injective by construction
  and indexes are finite trees.
- What cannot be seen from the code is a parameter: `authority` (which strings are
  authorities, section 3.2 of RFC 3986), `random` (the numbers drawn for jitter), and what gzip
  does with a write after it was closed (`Streams.Codec.refuses`: either it takes the bytes, or
  it refuses them and then every later Close reports that error; this differs between releases
  of Go).
- `env` records what the accessors of the streaming layers answer. Computing an image asks the
  streams themselves; `MutateImage.Answers` ties the record to their state.
- Go maps are walked in any order: a loop picks any remaining key.
- Errors and panics (an index out of range, a nil pointer) are failures of a `Result` or a
  boolean result.
- A server's critical section is one step. A run of a protocol is any sequence of steps of
  its workers and of other clients.

## Where the code and its promises part

Each of these is proved: when the promise holds, and inputs for which it does not.

- `extract`: a directory put over a file of a lower layer leaves both in the output.
- `Rebase`: when the old base's history does not end, in the original, at the old base's last
  layer, layers or history are spliced wrongly; an old base without history stays in the image.
- `mutate.image.Layers`: two layers with equal contents and different digests are both
  listed as the later one.
- `stream.Layer`: its facts can change once they are available. A second reader opened before
  the first close overwrites them, and if gzip takes writes after it was closed, so does a
  single reader that copies between two closes.
- `tarball`: a foreign layer that shares its diff ID with a layer of another digest is read
  back as the wrong layer. A manifest that could not be assembled, because a layer has no diff
  ID or no file, is taken for complete the second time it is asked for
  (`CompressedImage.Manifest`).
- `NewTag`: a name of up to 255 letters gains `library/` when printed and may then be too long
  to be parsed.
- The registry: a digest stops returning the bytes put under a tag once a client puts
  different bytes with that digest as the target.
- `ExponentialBackoff`: its comment says that it stops after a sleep truncated by the cap has
  been completed (kubernetes_apimachinery_wait.go:107-111); in the code there is no sleep for a
  duration that the cap has cut (`Backoff.CutDurationIsNotSlept`, `Backoff.CapOfThreeIsNotSlept`).
- `recursiveCopy`: the number of workers is not checked; with none, the first task blocks for good.
  A repository that can be listed only at the second attempt is copied, but nothing below it is,
  and no error says so (`GcraneWalk.WalkedIsAll`, `GcraneWalk.SecondListingIsNotWalked`).

## Model

| member | source | states |
|---|---|---|
| Extract.InWhiteoutDir | pkg/v1/mutate/mutate.go:230-245 | true exactly when some directory name reached by repeated Dir is marked as tombstoned in the map |
| Extract.ExtractLayers | pkg/v1/mutate/mutate.go:159-228 | emits the entries of the top-down pass; succeeds exactly when every layer can be read, and on the topmost broken layer keeps what was emitted up to the break, an entry that is cut inside its contents included |
| Extract.BrokenLayer | pkg/v1/mutate/mutate.go:173-226 | what a layer that cannot be read, breaks between entries or is cut inside one adds to the output |
| Extract.JoinIsClean | pkg/v1/mutate/mutate.go:203 | joining a directory and a name is cleaning the elements one after the other, dots and double dots included |
| Extract.SkippedIffCovered | pkg/v1/mutate/mutate.go:205-216 | skipped entries are not remembered, and still the map answers as if every visited name were in it |
| Extract.PassEmits | pkg/v1/mutate/mutate.go:169-225 | the pass emits exactly the non-whiteout entries that nothing in a higher layer covers, each key once |
| Extract.OutputByNames | pkg/v1/mutate/mutate.go:191-225 | said of header names alone: an entry comes out exactly when it is not named ".wh.…" and no higher layer has a ".wh." marker for a name at or above it, a file at or above it, or, for a directory, the same directory |
| Extract.NoMarkerComesOut | pkg/v1/mutate/mutate.go:193-217 | whatever the layers hold, no entry named ".wh.…" comes out |
| Extract.OverlayHolds | pkg/v1/mutate/mutate.go:159-228 | the reference: applying changesets bottom-up leaves exactly the entries that no higher layer replaces or removes |
| Extract.OverlayIsEmitted | pkg/v1/mutate/mutate.go:159-228 | nothing of the bottom-up file system is lost by the pass |
| Extract.ExtractIsOverlay | pkg/v1/mutate/mutate.go:159-245 | for any stack of well-formed layers, the pass emits exactly the bottom-up file system if and only if no visible file lies under a directory of the same name in a higher layer |
| Extract.FileAndDirectoryAreBothEmitted | pkg/v1/mutate/mutate.go:197-216 | two concrete layers for which a file and the directory over it are both emitted |
| Extract.EmittedOnce | pkg/v1/mutate/mutate.go:205-218 | no entry is emitted twice, and without a clash no two entries share a path |
| Extract.EntryOrderIsIrrelevant | pkg/v1/mutate/mutate.go:172-226 | permuting the entries inside each layer does not change what is emitted |
| BlobStore.Blobs.Serve | pkg/registry/blobs.go:56-224 | reply and new maps of one request, for every verb and error branch |
| BlobStore.BufferIsAcceptedChunks | pkg/registry/blobs.go:141-187 | in every reachable state an upload buffer is the concatenation of the chunks accepted since its id was last freed, each starting where the one before ended |
| BlobStore.EveryBlobHashesToItsKey | pkg/registry/blobs.go:112-217 | in every reachable state every stored blob hashes to its key |
| BlobStore.BlobsAreNeverAltered | pkg/registry/blobs.go:112-217 | through any run a stored blob stays, with its bytes |
| BlobStore.RejectedChangesNothing | pkg/registry/blobs.go:56-224 | a rejected request changes neither map |
| BlobStore.UploadRoundTrip | pkg/registry/blobs.go:197-217 | after a successful PUT the id is free, and whatever follows, a GET of the digest returns the accepted chunks and the PUT's body |
| BlobStore.PostRoundTrip | pkg/registry/blobs.go:111-130 | a POST with a body and a digest is taken exactly when they match, and after any further requests a GET returns the body |
| BlobStore.UploadsDoNotInterfere | pkg/registry/blobs.go:141-217 | under any interleaving an upload's buffer is what its own session's requests alone would give |
| ManifestStore.Manifests.Serve | pkg/registry/manifest.go:53-169 | reply and new map of one request, for every verb and error branch |
| ManifestStore.IndexTypes | pkg/registry/manifest.go:134-135 | the two media types whose bodies are checked for their children |
| ManifestStore.ReachableStatesAreClosed | pkg/registry/manifest.go:130-159 | in every reachable state each stored index lists only digests that are keys of its repository |
| ManifestStore.KeysNeverDisappear | pkg/registry/manifest.go:115-163 | through any run the keys of a repository only grow |
| ManifestStore.BodyStays | pkg/registry/manifest.go:115-163 | one request replaces the body under a key if and only if it is an accepted PUT of other bytes to that key or with that digest |
| ManifestStore.KeyHoldsLastPut | pkg/registry/manifest.go:115-163 | after any run a key holds exactly what the last accepted PUT that wrote it stored, or what it held before |
| ManifestStore.DigestReturnsLastPut | pkg/registry/manifest.go:59-163 | a body put under a tag is returned by its digest after a run if and only if the last accepted PUT that wrote that key, if any, stored that body |
| ManifestStore.PutByTagGetByDigest | pkg/registry/manifest.go:59-163 | a body put under a tag is returned by its digest through any run in which no client puts different bytes with that digest as target |
| ManifestStore.OverwrittenDigestIsLost | pkg/registry/manifest.go:156-159 | one such PUT is enough for the digest to return other bytes |
| PushServer.MediaTypeKinds | pkg/v1/types/types.go:17-71 | which media types are an index, which an image, and which layers are not distributed |
| PushServer.PutEvolves | pkg/v1/remote/write.go:484-512 | committing a manifest whose blobs and children are there keeps the registry closed under references |
| PushServer.RootMeansTree | pkg/v1/remote/write.go:394-439 | in a closed registry the presence of the root manifest is the presence of its whole tree, which is what the existence shortcuts rely on |
| PushServer.UploadStepEvolves | pkg/v1/remote/write.go:313-392 | every request of an upload, retried or not, keeps integrity, and a finished upload means a stored blob |
| PushServer.ThreeAttempts | pkg/v1/remote/write.go:313-392 | a blob is looked for first unless it is streamed; then there are three attempts, and none after the third |
| WriteProtocol.LayerUploadsCover | pkg/v1/remote/write.go:70-101 | after leaving out foreign layers and repeated digests every distributable layer still has an upload, which looks for the blob first unless it is streamed |
| WriteProtocol.LayerUploadsAreNeeded | pkg/v1/remote/write.go:70-101 | no digest that is known is uploaded twice, and no foreign layer at all |
| WriteProtocol.ConfigIsStarted | pkg/v1/remote/write.go:103-128 | the config is uploaded with the layers exactly when all digests are known |
| WriteProtocol.WriteNeverStuck | pkg/v1/remote/write.go:98-134 | a Write always has a next step, and ends with an error when all its uploads have stopped and one has failed |
| WriteProtocol.WriteStepKeeps | pkg/v1/remote/write.go:98-134 | every step of Write keeps the registry closed and commits the manifest only when all its blobs are stored |
| WriteProtocol.ChildActionKeeps | pkg/v1/remote/write.go:401-433 | skipping an existing child, skipping one that is neither image nor index, descending and starting a Write all keep the invariant |
| WriteProtocol.CommitIndexKeeps | pkg/v1/remote/write.go:436-438 | an index is committed only after its image and index children, and this keeps the registry closed |
| WriteProtocol.PushStepKeeps | pkg/v1/remote/write.go:394-439 | every step of a push keeps integrity and the invariant of the whole stack of calls |
| WriteProtocol.PushKeepsIntegrity | pkg/v1/remote/write.go:45-134 | from a closed registry every state of every run is closed, and success means that the whole tree is there |
| RegistryRefinement.UploadRefines | pkg/registry/blobs.go:56-224 | every request of an upload, answered by the blob handler, is a step of the ideal registry the protocols are proved against, and the store keeps holding what that registry holds |
| RegistryRefinement.RequestsAreRouted | pkg/registry/blobs.go:34-45 | the requests of an upload are HEAD, POST, PATCH and PUT, reach the blob handler, and name the blob or the upload they are about |
| RegistryRefinement.PullsAreRouted | pkg/registry/blobs.go:34-45 | so are the requests of a pull |
| RegistryRefinement.CommitManifestRefines | pkg/registry/manifest.go:115-163 | the manifest handler takes a manifest if and only if it is no index with an unknown child; then it does what the ideal registry does, otherwise no manifest changes |
| RegistryRefinement.SatisfiedIsTaken | pkg/registry/manifest.go:130-154 | an index of images and indexes that are all there is not rejected |
| RegistryRefinement.PullGivesBackWhatWasPushed | pkg/registry/manifest.go:59-86 | while the ideal registry is closed, pulling a manifest gives its bytes, and then the bytes of every distributable blob and every child it refers to |
| ServedPush.AnyRequestMayBeLost | pkg/v1/remote/write.go:313-392 | every request of a push may fail before it reaches the registry or after it was served |
| ServedPush.UploadIsServed | pkg/registry/blobs.go:56-224 | any request of an upload to the handlers, answered, lost or failed, is a step of the ideal registry |
| ServedPush.CommitIsServed | pkg/registry/manifest.go:115-163 | any PUT of a manifest to the handlers, answered, lost or failed, is the ideal PUT or changes nothing |
| ServedPush.RunIsIdeal | pkg/v1/remote/write.go:45-134 | every run of Write or WriteIndex against the handlers is a run against the ideal registry |
| ServedPush.PushedIsServed | pkg/v1/remote/write.go:394-439 | after a successful push to the handlers, whatever other clients did meanwhile, pulling the root by its digest gives the whole tree byte for byte |
| ServedPush.MultiRunIsIdeal | pkg/v1/remote/multi_write.go:94-160 | every run of MultiWrite against the handlers, in any interleaving, is a run against the ideal registry |
| ServedPush.MultiWrittenIsServed | pkg/v1/remote/multi_write.go:36-160 | after a successful MultiWrite to the handlers with at least one worker, pulling any requested manifest by its digest gives the whole tree byte for byte |
| SharedServer.OthersHold | pkg/registry/manifest.go:115-163 | a step in one repository leaves what every other repository holds, over the common blobs, closed under references |
| SharedServer.RunInvariant | pkg/v1/remote/write.go:45-134 | in every state of every run of all those calls each repository is closed under references, and the invariant of every call holds |
| SharedServer.EveryPushIsServed | pkg/v1/remote/multi_write.go:36-160 | any number of Write, WriteIndex and MultiWrite calls at once, in any repositories and any interleaving: from the time a call succeeds, whatever the others do, all it pushed is pulled whole, byte for byte |
| SharedServer.NothingIsServedInPart | pkg/v1/remote/write.go:394-439 | at any time during such a run, failed calls included, a manifest that exists under its digest can be pulled with everything below it |
| SharedServer.FreshServerServesEveryPush | pkg/registry/registry.go:70-85 | the same from a registry that has just been started, with no assumption about it or about the other clients |
| AnsweredPush.UploadGoesOn | pkg/v1/remote/write.go:313-392 | what each answer of the registry makes of an upload: uploaded when the HEAD finds the blob, else POST, PATCH, PUT in turn, and never failed |
| AnsweredPush.UploadSucceeds | pkg/v1/remote/write.go:313-392 | any blob ends up stored and can be pulled, after a HEAD alone or HEAD, POST, PATCH and PUT under any free name |
| AnsweredPush.PushGoesOn | pkg/v1/remote/write.go:45-134 | every answered step keeps a Write or WriteIndex from failing and brings it nearer its end |
| AnsweredPush.SomeAnswer | pkg/v1/remote/write.go:394-439 | as long as it is not over there is a step to come |
| AnsweredPush.PushSucceeds | pkg/v1/remote/write.go:394-439 | Write and WriteIndex of a tree of images and indexes, every request answered and other clients active: never fails, ends within a bound given by the tree, and ends with the tree pushed and pulled whole |
| AnsweredPush.AnsweredIsServed | pkg/v1/remote/write.go:45-134 | these steps are among those that the safety results are about |
| AnsweredPush.FreshPushSucceeds | pkg/registry/registry.go:70-85 | in particular on a registry that has just been started |
| AnsweredMultiWrite.MultiGoesOn | pkg/v1/remote/multi_write.go:93-158 | every answered step of MultiWrite keeps all workers from failing and brings it nearer its end |
| AnsweredMultiWrite.MultiWriteSucceeds | pkg/v1/remote/multi_write.go:36-160 | MultiWrite with at least one worker, every request answered: never fails, ends within the bound, and ends with every requested tree pushed and pulled whole |
| AnsweredMultiWrite.AnsweredIsServed | pkg/v1/remote/multi_write.go:93-158 | these steps are among those that the safety results are about |
| MultiWritePlan.Collector.AddImageBlobs | pkg/v1/remote/multi_write.go:205-241 | adds exactly the distributable layers and the config |
| MultiWritePlan.Collector.AddIndexBlobs | pkg/v1/remote/multi_write.go:164-203 | never indexes out of range; succeeds exactly on trees of images and indexes; then level k has grown by exactly the digests k - lvl below the index, and the blobs by exactly those of its images |
| MultiWritePlan.Collect | pkg/v1/remote/multi_write.go:48-71 | for any order of the request, collects exactly the blobs and levels of all requested trees and sorts the request into images and indexes |
| MultiWritePlan.Plan | pkg/v1/remote/multi_write.go:36-71 | gives up exactly on references to more than one repository or on trees that cannot be pushed, and otherwise collects |
| MultiWritePlan.PlanHasLevelProperty | pkg/v1/remote/multi_write.go:164-203 | every child of an index at level k is a key of level k + 1, the requested indexes' children are keys of level 0, and all blobs are collected |
| MultiWriteProtocol.StagesAreOrdered | pkg/v1/remote/multi_write.go:94-158 | in the order of the stages, everything a manifest refers to belongs to an earlier stage |
| MultiWriteProtocol.CommitIsSatisfied | pkg/v1/remote/multi_write.go:118-144 | in every state a manifest about to be committed has all it refers to in the registry |
| MultiWriteProtocol.StageCompletes | pkg/v1/remote/multi_write.go:96-116 | with at least one worker, a stage that ends without an error has done every job |
| MultiWriteProtocol.SystemStepKeeps | pkg/v1/remote/multi_write.go:94-158 | every step of feeder, workers and stages keeps integrity and the invariant |
| MultiWriteProtocol.MultiWriteKeepsIntegrity | pkg/v1/remote/multi_write.go:36-160 | in every prefix of every interleaving with at least one worker the registry is closed, no commit is premature, and success means that every requested tree is there |
| MultiWriteProgress.NeverStuck | pkg/v1/remote/multi_write.go:93-144 | with at least one worker no state of a running push is stuck, not even when all workers have failed and jobs are left unsent |
| MultiWriteProgress.StepGetsOn | pkg/v1/remote/multi_write.go:93-144 | every step of feeder, workers and stages lowers a bound on the steps that are left, retries of uploads included |
| MultiWriteProgress.QueueIsBounded | pkg/v1/remote/multi_write.go:94-121 | the channel never holds more than twice as many jobs as there are workers |
| MultiWriteProgress.JobsStart | pkg/v1/remote/multi_write.go:97-131 | a worker looks for a blob before it uploads it, and commits a manifest at once |
| MultiWriteProgress.MultiWriteEnds | pkg/v1/remote/multi_write.go:93-158 | whatever other clients do, every run makes at most 13 steps for a job and one for each worker and stage besides, and stops only when it has succeeded or a worker has returned an error |
| Streams.Layer.Compressed | pkg/v1/stream/layer.go:121-126 | opens the stream once; a consumed layer refuses |
| Streams.Reader.CloseReader | pkg/v1/stream/layer.go:177-201 | on success sets digest, diff ID, size and consumed from what was fed and compressed so far; on any error of the inner closers leaves the layer alone |
| Streams.Reader.Handle | pkg/v1/stream/layer.go:150-201 | one act of the copying goroutine or the consumer, whatever other readers of the layer have done: the reader's new state and what the layer then holds |
| Streams.Session.Do | pkg/v1/stream/layer.go:121-201 | one event of a layer with all readers it has handed out: the new state of the layer and of every reader |
| Streams.FactsStayIffSafe | pkg/v1/stream/layer.go:79-201 | for any number of readers and any order of events: digest, diff ID and size never change once available, whatever the stream contains, if and only if all successful closes have the same copies behind them (one reader that copied nothing in between, or readers that copied nothing at all) |
| Streams.SafeFactsStay | pkg/v1/stream/layer.go:79-201 | in every safe run, with the chunks it has, the facts never change |
| Streams.OneReaderIsSafe | pkg/v1/stream/layer.go:138-201 | if gzip refuses late writes, every run with at most one reader is safe, however early it is closed |
| Streams.ReadingToTheEndIsSafe | pkg/v1/stream/layer.go:160-170 | a run is safe if its first successful close is made by the goroutine of the only reader opened by then |
| Streams.ReadToTheEnd | pkg/v1/stream/layer.go:138-201 | a stream read to its end by its only reader gives the layer the facts of all copied bytes, and no later event changes them |
| Streams.TwoReadersDisagree | pkg/v1/stream/layer.go:121-201 | two readers of one layer, each to its end: the second overwrites the facts of the first |
| Streams.EarlyClose | pkg/v1/stream/layer.go:160-201 | a close before the first chunk and another after it leave the facts alone if and only if gzip refuses the chunk |
| MutateImage.Image.Compute | pkg/v1/mutate/image.go:50-148 | asking the streams' own accessors, succeeds exactly when the stack has a meaning; then every wrapper of the stack is computed and remembers that meaning; on failure this wrapper is unchanged; computed wrappers are never touched |
| MutateImage.ManifestNamesConfig | pkg/v1/mutate/image.go:121-130 | the manifest of any stack of wrappers has digest and size of the config that the stack computes |
| MutateImage.ConfigIsFound | pkg/v1/mutate/image.go:242-254 | looking up the digest of the computed config finds that config |
| MutateImage.MediaTypeIsSet | pkg/v1/mutate/image.go:132-140 | an OCI media type is not written, a Docker one replaces the manifest's, any other leaves it |
| MutateImage.StreamedDescriptor | pkg/v1/stream/layer.go:108-113 | a streamed layer is described as a gzipped Docker layer with the digest and size that were read |
| MutateImage.CollectDiffIDs | pkg/v1/mutate/image.go:65-96 | stops at the first layer without a diff ID, otherwise appends diff IDs and history in order and fills the lookup map |
| MutateImage.CollectDescriptors | pkg/v1/mutate/image.go:98-140 | appends one overridden descriptor per added layer and fills the lookup map |
| MutateImage.Image.LayerByDiffID | pkg/v1/mutate/image.go:256-261 | on a computed image, finds the topmost wrapper's layer with that diff ID, else asks the base |
| MutateImage.Image.LayerByDigest | pkg/v1/mutate/image.go:242-254 | computes the stack, then finds the config file of this image, its own layer with that digest, or what the base finds |
| MutateImage.FindBlobFinds | pkg/v1/mutate/image.go:242-254 | a lookup by digest finds a layer of the list with that digest if and only if there is one, unless the digest is that of a config file of the stack |
| MutateImage.ManifestDigestsAreFound | pkg/v1/mutate/image.go:242-254 | every digest of a computed manifest finds a layer with that digest |
| MutateImage.Image.Layers | pkg/v1/mutate/image.go:152-182 | returns the lookup of every diff ID of a computable stack, and base layers followed by added slots of one that is not |
| MutateImage.ListedByParts | pkg/v1/mutate/image.go:149-182 | a base lists its layers; a wrapper that cannot be computed yet lists what is below it and then the layers of its addenda, nil ones included |
| MutateImage.EvalNeedsAllStreams | pkg/v1/mutate/image.go:65-96 | a stack can be computed if and only if all its streams answer |
| MutateImage.EvalStays | pkg/v1/mutate/image.go:50-53 | what has been computed is what the stack means as long as the streams' answers only get more |
| MutateImage.SessionsAnswer | pkg/v1/stream/layer.go:79-106 | the layers' accessors answer exactly what each layer's own events have made available |
| MutateImage.SafeStreamsOnlyExtend | pkg/v1/mutate/image.go:50-53 | when every stream is read safely, in any interleaving, the answers only get more, so what was computed at some time is what would be computed at any later time |
| MutateImage.ImageOutlivesReading | pkg/v1/mutate/image.go:50-182 | an image object stays valid while its streams are read safely, and what it has computed is what its wrappers mean at the end |
| MutateImage.ReadingOrderIsIrrelevant | pkg/v1/mutate/image.go:50-182 | two interleavings in which each stream goes through the same events give the same config, manifest and layers |
| MutateImage.StackIsAligned | pkg/v1/mutate/image.go:50-148 | through any stack over an aligned base, manifest digests, sizes and config diff IDs describe, position by position, the base's layers followed by the added ones |
| MutateImage.FindFinds | pkg/v1/mutate/image.go:256-261 | a lookup by diff ID finds a layer of the list with that diff ID if and only if there is one |
| MutateImage.ListingLooksUp | pkg/v1/mutate/image.go:165-181 | every listed layer has the diff ID of its position and is of the stack's layers |
| MutateImage.ListedLayersMatch | pkg/v1/mutate/image.go:152-182 | manifest digest, config diff ID and listed layer are of one layer at every position if and only if equal diff IDs in the stack come with equal digests |
| MutateImage.SameContentsTwiceListWrongly | pkg/v1/mutate/image.go:152-182 | they are not for two added layers with one diff ID and two digests |
| MutateImage.ReadStreamsAreLikeLayers | pkg/v1/mutate/image.go:50-148 | once all streams answer, config and manifest are those of the same image built from already computed layers |
| MutateImage.ReadStreamsListLikeLayers | pkg/v1/mutate/image.go:152-182 | and so is the listed layer at every position |
| Rebase.CreateAddendums | pkg/v1/mutate/rebase.go:116-144 | the kept pairs followed by what the trailing loop appends; out of range exactly when the history has more layers than the image |
| Rebase.KeptLayers | pkg/v1/mutate/rebase.go:120-136 | the layers kept are those from the smaller of the two cuts on |
| Rebase.CutIsExact | pkg/v1/mutate/rebase.go:116-144 | layers above the old base are right iff the cut in the history is not below them, history iff it is not above them; then each kept layer has its own history entry |
| Rebase.Rebase | pkg/v1/mutate/rebase.go:25-113 | when it succeeds; with which error it fails, decided by the first digest that is missing or different and only then by the histories; the wrappers it builds |
| Rebase.RefusedOnce | pkg/v1/mutate/rebase.go:25-113 | no two of those error conditions hold at once, and none when it succeeds |
| Rebase.PairsAgain | pkg/v1/mutate/image.go:65-119 | appending well-paired addenda and reading layers and history back pairs them up as before |
| Rebase.WrappersMean | pkg/v1/mutate/rebase.go:72-113 | config, manifest and layer list of the wrappers: each setting from the right image, the two lists one after the other, all aligned |
| Rebase.RebaseSplices | pkg/v1/mutate/rebase.go:25-144 | the result has new-base layers then the original's above the old base iff the cut is not below the old base's layers, and the same splice for history iff it is not above them; at equality every layer keeps its history entry; architecture, OS and OS version are the new base's, the config the original's, all else empty; the manifest describes every layer as itself |
| Rebase.RebasedLayersAreListed | pkg/v1/mutate/rebase.go:25-113 | Layers() of the rebased image lists at each position a layer with that position's diff ID, and the spliced layers exactly when equal diff IDs come with equal digests |
| Rebase.MatchedRebaseIsClean | pkg/v1/mutate/rebase.go:116-144 | on histories that match their layers nothing is left over and Append refuses nothing, so the method builds the wrappers of RebaseSplices |
| Rebase.OldBaseWithoutHistoryStays | pkg/v1/mutate/rebase.go:120-136 | with an old base without history the result has all of the original's layers |
| Tarball.DedupRefToImage | pkg/v1/tarball/write.go:332-350 | each image with exactly its tags, once each, and nothing else |
| Tarball.CalculateTarballSize | pkg/v1/tarball/write.go:311-330 | what all images come to, each once, with config and all layers in whole blocks with headers, plus the manifest and the trailer, in whatever order the map is walked |
| Tarball.CalculateSingleFileInTarSize | pkg/v1/tarball/write.go:432-440 | a header block and the contents rounded up to whole blocks |
| Tarball.TotalIsOrderFree | pkg/v1/tarball/write.go:314-323 | the sum does not depend on the order of the map |
| Tarball.WriteLayers | pkg/v1/tarball/write.go:162-207 | after one image, every layer met so far has a file with its digest, and bytes written plus the cost of repeated layers is the sum of all costs |
| Tarball.WriteImagesToTar | pkg/v1/tarball/write.go:148-219 | the archive holds every config and every layer and nothing else, ends with the manifest, and falls short of the full sum by exactly the repeated layers |
| Tarball.NothingRepeated | pkg/v1/tarball/write.go:180-183 | the cost of repeated layers is zero if and only if no digest occurs twice |
| Tarball.CalculatedSizeIsExactWithoutRepeats | pkg/v1/tarball/write.go:311-330 | in whatever order the images were written, the calculated size is the actual one plus the cost of every repeated layer, and exact if and only if no layer digest repeats |
| Tarball.DescribeImage | pkg/v1/tarball/write.go:225-276 | one manifest entry: config name, tags, layer file names, and the descriptors of foreign layers by diff ID |
| Tarball.JoinedMore | pkg/v1/tarball/write.go:280-282 | tags joined by commas, one after the other |
| Tarball.CalculateManifest | pkg/v1/tarball/write.go:222-285 | describes every image once, sorted by joined tags; fails if and only if some image has a foreign layer but another number of diff IDs than of layers |
| Sorting.SortBy | pkg/v1/tarball/write.go:278-282 | a sorted rearrangement, with the permutation that made it |
| Sorting.LessIsAscending | pkg/v1/tarball/write.go:278-282 | the order is ascending: at the first difference the lesser byte, or the end of the string, comes first |
| Tarball.MultiRefWrite | pkg/v1/tarball/write.go:90-107 | manifest, size and archive together, though each walks the map in an order of its own |
| Tarball.ArchiveByName | pkg/v1/tarball/write.go:148-219 | the files by name: configs under sha256: and their digest, layers under their digest with .tar.gz, both as the manifest entry says, and manifest.json at the end |
| Tarball.NotDistributed | pkg/v1/types/types.go:45-53 | the three media types of layers that are not distributed |
| TarballReader.ExtractFileFromTar | pkg/v1/tarball/image.go:197-227 | the first file of that name, or an error |
| TarballReader.FindDescriptor | pkg/v1/tarball/image.go:118-139 | without a tag the only entry; with one, the first entry with a tag of the same full name, unless a tag before it cannot be parsed |
| TarballReader.Open | pkg/v1/tarball/image.go:72-99 | loads manifest entry and config, and takes the image for compressed when its first layer is gzipped |
| TarballReader.CompressedImage.Manifest | pkg/v1/tarball/image.go:297-352 | the first call assembles the layers up to the first that cannot be had; later calls return what is there |
| TarballReader.AskTwice | pkg/v1/tarball/image.go:297-322 | after a failed first call the second succeeds with too few layers |
| TarballReader.FirstCallFails | pkg/v1/tarball/image.go:324-350 | the first call fails if and only if some layer has no diff ID, or no file and no entry in the layer sources |
| TarballReader.ReadIncompleteTarball | pkg/v1/tarball/image.go:72-352 | a tarball without its second layer: the first call names the missing file, the second returns the first layer alone |
| TarballReader.CompressedImage.LayerByDigest | pkg/v1/tarball/image.go:385-401 | the first layer of the manifest with that digest and its file |
| TarballReader.CompressedImage.Layers | pkg/v1/partial/compressed.go:109-123 | succeeds exactly when the manifest can be had, and looks every digest up again |
| TarballReader.DescriptorIsFound | pkg/v1/tarball/image.go:118-139 | reading by a tag finds the entry of the image with that tag when no full name is ambiguous |
| TarballReader.FilesAreFound | pkg/v1/tarball/write.go:148-208 | of the written files the first with an image's or layer's name has its contents |
| TarballReader.LayersReadBack | pkg/v1/tarball/image.go:297-352 | digests and sizes come back in order if and only if no foreign layer shares its diff ID with a layer of another digest |
| TarballReader.WhatIsReadBack | pkg/v1/tarball/image.go:324-336 | at each position the last foreign layer with the same diff ID comes back, or the layer itself if there is none |
| TarballReader.ReadBackTypes | pkg/v1/tarball/image.go:306-346 | whatever they were, config and layers come back with the media types of Docker, foreign layers with their recorded descriptors |
| TarballReader.TwoCompressionsClash | pkg/v1/tarball/image.go:324-336 | they do not for one content compressed twice, once as a foreign layer |
| TarballReader.TwoCompressionsReadAsOne | pkg/v1/tarball/image.go:324-336 | then both positions come back with the digest of the foreign one |
| TarballReader.WriteThenRead | pkg/v1/tarball/image.go:72-352 | written images read back by any tag: same config, digests and sizes under exactly that condition, and then the same contents |
| TarballReader.DistinctNamesAreUnambiguous | pkg/v1/tarball/image.go:118-139 | tags that NewTag parses to pairwise distinct full names are never confused |
| TarballReader.WriteThenReadByName | pkg/v1/tarball/image.go:72-352 | the round trip for images under tags with pairwise distinct names, with the parser of `Names` |
| LegacyTarball.EqualIDsEqualChains | pkg/legacy/tarball/write.go:57-68 | equal layer IDs come from equal chains of layers, from the base up, and equal raw configs |
| LegacyTarball.V1HasID | pkg/legacy/tarball/write.go:71-117 | the layers built one on the other carry exactly the chained ID and their parent's |
| LegacyTarball.V1Metadata | pkg/legacy/tarball/write.go:57-117 | every field of a layer's metadata: from its history entry, and for the top layer from the config file; the ID is the hash of digest, parent and, for the top layer, the raw config |
| LegacyTarball.EqualIDsShare | pkg/legacy/tarball/write.go:242-263 | equal IDs in any two images stand for the same position, contents and parent, and for top layers the same config |
| LegacyTarball.FilterEmpty | pkg/legacy/tarball/write.go:174-183 | the history entries that come with a layer, in order |
| LegacyTarball.SortedImages | pkg/legacy/tarball/write.go:321-358 | every image once, by config digest, with exactly its tags, sorted |
| LegacyTarball.OrdersAre | pkg/legacy/tarball/write.go:321-358 | the orders of images and tags, spelled out |
| LegacyTarball.SeenHasDir | pkg/legacy/tarball/write.go:260-263 | skipping a seen ID loses nothing: the directory that is there has the layer's contents, ID and parent |
| LegacyTarball.WriteLayers | pkg/legacy/tarball/write.go:240-287 | every layer of the image has a directory, none is written twice, and the files are named in order |
| LegacyTarball.AddTags | pkg/legacy/tarball/write.go:134-144 | the tags now stand for the layer and all other names for what they stood for |
| LegacyTarball.OwnerIsLast | pkg/legacy/tarball/write.go:213-298 | of the images with a tag of one name, the last in the order of writing is its owner |
| LegacyTarball.WriteImage | pkg/legacy/tarball/write.go:203-299 | one image: succeeds exactly when it can be written, and is then complete |
| LegacyTarball.MultiWrite | pkg/legacy/tarball/write.go:194-316 | succeeds if and only if every image has layers, a history that is empty or matches them, and diff IDs for its foreign layers; then images and tags are in order, every file named in the manifest is there with its contents, nothing else is, no directory is written twice, each name in the repositories file stands for the top layer of the last image that claims it, and no other name is there |
| LegacyTarball.ParentsAreThere | pkg/legacy/tarball/write.go:245-293 | the written layer directories are closed under Parent |
| Names.GrammarsAreDisjoint | pkg/name/digest.go:68-96 | no string is accepted by both NewTag and NewDigest, whatever the options |
| Names.OrderOfAttemptsIsIrrelevant | pkg/name/ref.go:40-49 | trying the digest before the tag gives the same result |
| Names.RepositoryAccepted | pkg/name/repository.go:72-101 | NewRepository read backwards: what exactly is accepted, and as what |
| Names.AllowedCharacters | pkg/name/repository.go:23-25 | the characters of repositories, tags and digests |
| Names.RegistryAccepted | pkg/name/registry.go:108-128 | which registries are accepted, and as what: the default one for an empty name, index.docker.io for docker.io |
| Names.RepositoryPrinted | pkg/name/repository.go:40-57 | a repository prints as index.docker.io/library/ and its name, without library/ when it has a slash, and with its own registry unless that is docker.io |
| Names.TagPrinted | pkg/name/tag.go:52-108 | a tag prints as its repository does, with a colon and the tag, or latest when it is missing or empty |
| Names.DigestPrinted | pkg/name/digest.go:53-96 | a digest prints as its repository does, with @ and the digest; a tag before it is dropped |
| Names.TagHasParts | pkg/name/tag.go:72-108 | every accepted tag is made of such parts |
| Names.TagAccepted | pkg/name/tag.go:72-108 | NewTag read backwards: what exactly is accepted, and as what |
| Names.DigestParts | pkg/name/digest.go:68-96 | NewDigest read backwards: what exactly is accepted, and as what |
| Names.RepositoryRejected | pkg/name/repository.go:72-101 | why a repository is rejected, in the order of the checks |
| Names.TagRejected | pkg/name/tag.go:72-108 | why a tag is |
| Names.DigestRejected | pkg/name/digest.go:68-96 | why a digest is |
| Names.RepositoryNormalForm | pkg/name/repository.go:40-101 | a printed repository parses to the same printed name if and only if it stays within 255 characters, and otherwise not at all |
| Names.TagNormalForm | pkg/name/tag.go:52-108 | printing a parsed tag and parsing it again gives the same printed name if and only if its repository as printed stays within 255 characters |
| Names.DigestNormalForm | pkg/name/digest.go:53-96 | printing a parsed digest and parsing it again always gives the same printed name |
| Names.ReferenceNormalForm | pkg/name/ref.go:40-49 | the same for any reference, with that one exception for tags |
| Names.LongNameDoesNotParseAgain | pkg/name/repository.go:40-69 | 250 letters are a tag whose printed name is not |
| Names.StrictTagPrintsItself | pkg/name/tag.go:72-108 | under strict validation a tag prints as it was written if and only if its registry was not written as docker.io |
| GcraneDiff.SubtractStringLists | pkg/gcrane/copy.go:323-334 | the elements of the first list that are not in the second, in order |
| GcraneDiff.DiffImages | pkg/gcrane/copy.go:298-319 | a digest that is missing with all its tags, one that is there with the tags it lacks, and no others |
| GcraneDiff.Destination.CopyImages | pkg/gcrane/copy.go:208-250 | sends the task's puts in order and stops at the first failing request: the destination after exactly those that took effect; succeeds exactly when no request fails |
| GcraneDiff.PutsAreTheDifference | pkg/gcrane/copy.go:189-250 | the tasks copy a missing digest or a missing or different tag, and nothing that is there already |
| GcraneDiff.RunIsDetermined | pkg/gcrane/copy.go:137-151 | the destination after agreeing copies in any order, with any repetitions, is determined |
| GcraneDiff.SyncReachesSource | pkg/gcrane/copy.go:189-250 | however the puts of the tasks are ordered and repeated, the destination has every wanted digest and every wanted tag on its digest, and is otherwise unchanged |
| GcraneDiff.SecondDiffIsEmpty | pkg/gcrane/copy.go:298-319 | a second difference is empty |
| GcraneWalk.Walk | pkg/v1/google/list.go:214-255 | the names that the walk comes to, in order |
| GcraneWalk.WalkedIsAll | pkg/gcrane/copy.go:115-133 | every repository is reached if and only if none with others below it fails to be listed at first |
| GcraneWalk.WalkedIsUnder | pkg/v1/google/list.go:224-229 | every name reached starts with the root's |
| GcraneWalk.SecondListingIsNotWalked | pkg/gcrane/copy.go:115-124 | below a child that is listed at the second attempt nothing is reached |
| GcraneRename.ReplacesFirst | pkg/gcrane/copy.go:292 | strings.Replace with a count of one replaces the first occurrence |
| GcraneRename.ReplacesNothing | pkg/gcrane/copy.go:292 | and nothing when there is none |
| GcraneRename.RenamedBelow | pkg/gcrane/copy.go:286-294 | a repository below the source goes to the same place below the destination, if and only if that is a good name |
| GcraneRename.RenamedTargetsAreDistinct | pkg/gcrane/copy.go:162-173 | different repositories go to different ones, so the jobs of a walk have distinct targets |
| GcraneSync.NilMeansSynced | pkg/gcrane/copy.go:107-250 | when the run of the workers on the tasks of all repositories ends with nil, in any interleaving and with any failed and retried attempts, each target has every wanted digest and tag, is otherwise unchanged, and a second difference is empty |
| GcraneSync.OnlyTheDifferencesAreWritten | pkg/gcrane/copy.go:107-250 | in every state of every run, failed ones included, nothing has been written to a target that was not to be copied there, and no other repository has changed |
| GcraneSync.GoodRunsSucceed | pkg/gcrane/copy.go:107-250 | when no request fails, a run with at least one worker goes on until recursiveCopy returns nil |
| GcraneQueue.StepKeeps | pkg/gcrane/copy.go:107-204 | every step keeps every task in exactly one place: unsent, queued, in hand, executed or failed |
| GcraneQueue.NeverStuck | pkg/gcrane/copy.go:107-204 | with at least one worker no reachable unfinished state is stuck, even after all workers have failed |
| GcraneQueue.GoodRunsSucceed | pkg/gcrane/copy.go:107-160 | when no copy fails and nobody cancels, a run with at least one worker ends only with nil and every task executed once |
| GcraneQueue.QueueIsBounded | pkg/gcrane/copy.go:101 | the channel never holds more than twice as many tasks as there are workers |
| GcraneQueue.SuccessMeansAllExecuted | pkg/gcrane/copy.go:137-160 | a nil result means that every queued task was executed exactly once |
| GcraneQueue.FailedListingIsAnError | pkg/gcrane/copy.go:109-143 | a listing may fail for good at any time, and the result is then an error |
| GcraneQueue.NothingExecutedTwice | pkg/gcrane/copy.go:137-151 | in every state no task has been executed or has failed more often than it was queued |
| GcraneQueue.StuckWithoutWorkers | pkg/gcrane/copy.go:101 | without workers the start is stuck if and only if there is a task |
| GcraneQueue.RunsEnd | pkg/gcrane/copy.go:107-204 | every run is finite, with a bound linear in tasks and workers |
| Backoff.Jitter | pkg/internal/retry/wait/kubernetes_apimachinery_wait.go:32-38 | between the duration and the duration stretched by the factor, which is 1 if not positive, and as far up as the random number says, rounded down |
| Backoff.Backoff.Step | pkg/internal/retry/wait/kubernetes_apimachinery_wait.go:76-99 | sleeps the old duration with jitter; multiplies, caps and counts down the fields |
| Backoff.Retry | pkg/internal/retry/retry.go:59-77 | stops at the first result that is not to be retried or after the last step, returns the last result, and sleeps a jittered prefix of the schedule |
| Backoff.CallsAreBounded | pkg/internal/retry/wait/kubernetes_apimachinery_wait.go:112-123 | at most Steps calls, and exactly Steps possible without a cap |
| Backoff.CallsExactly | pkg/internal/retry/wait/kubernetes_apimachinery_wait.go:76-123 | with whole factors there can be more than n calls if and only if there are more than n steps and the duration times the factor to the n stays within the cap |
| Backoff.CutDurationIsNotSlept | pkg/internal/retry/wait/kubernetes_apimachinery_wait.go:107-123 | once the cap cuts a duration the schedule is over: its sleeps are durations that were not cut, none above the cap |
| Backoff.CapOfThreeIsNotSlept | pkg/internal/retry/wait/kubernetes_apimachinery_wait.go:107-123 | doubling from 2 with a cap of 3 sleeps once, for 2 |
| Backoff.ScheduleIsGeometric | pkg/internal/retry/wait/kubernetes_apimachinery_wait.go:76-99 | the n-th planned sleep is the initial duration times the factor to the n |
| Backoff.ScheduleGrowsWithinCap | pkg/internal/retry/wait/kubernetes_apimachinery_wait.go:76-99 | planned sleeps never decrease and never exceed a positive cap that the initial duration respects |
| Backoff.SumOfGeometric | pkg/internal/retry/wait/kubernetes_apimachinery_wait.go:112-123 | the planned sleeps add up to the geometric sum |
| Backoff.TotalSleepIsBounded | pkg/internal/retry/wait/kubernetes_apimachinery_wait.go:112-123 | total sleep is at most (1 + jitter) times the geometric sum of the sleeps taken |

## Left out

- HTTP, authentication, keychains, the Docker daemon, command lines, logging and progress reports: input and output with little state of their own.
- The byte formats of gzip, tar and JSON, SHA-256 and URL parsing: parameters, see above.
- Extract.ExtractIsOverlay: layers with an opaque whiteout, a whiteout that is a directory, or an entry at or below another non-directory or whiteout of the same layer are outside the claim, because the code does not follow the specification there; `Extract.ExtractLayers` models what it does with them.
- MultiWriteProtocol.MultiWriteKeepsIntegrity: a manifest requested under a digest must have that digest, since the server does not check it; likewise for `WriteProtocol.PushKeepsIntegrity`.
- RegistryRefinement.UploadRefines: one upload is followed as the pushing client makes it, in one chunk; other clients' chunked uploads are covered by `BlobStore.BufferIsAcceptedChunks`.
- ServedPush.PushedIsServed: other clients are held to what pushes guarantee, that the registry stays closed and blobs and manifests addressed by digest stay; `SharedServer` needs no such assumption, but has no clients other than pushes.
- AnsweredPush.PushSucceeds: a new upload gets a name that no open upload has (the registry draws a random number), other clients leave the open uploads of the call alone, and nothing is mounted; the same holds for `AnsweredMultiWrite.MultiWriteSucceeds`.
- PushServer.UploadStepEvolves: the steps allow more than the code does (any request may fail before or after it took effect, a streamed layer may be retried, and the config of an image with streamed layers may be started at any time), and mounting from another repository is one way for a blob to appear.
- MutateImage.Image.LayerByDiffID: lookups by diff ID before anything has computed the image fall through to the base and are not modelled.
- Streams.Session.Do: an act of a reader is one step; that closing blocks while the compressed stream is not read, and data races between a consumer's Close and the goroutine, are not modelled.
- MutateImage.CollectDescriptors: a layer without a size or media type is not modelled, every known layer has a descriptor.
- Rebase.RebaseSplices: histories that do not match their layers are covered by `Rebase.CreateAddendums` and `Rebase.Rebase` but not by the splice; the base images' own lookups are by position.
- Tarball.CalculateTarballSize: file names of at most 100 characters and sizes under 8 GiB, as in the ustar Interchange Format of POSIX pax; integers are unbounded, and manifest sizes are true.
- TarballReader.Open: the uncompressed image is returned but its layers are not modelled; a gzip-layered image takes that path only without layers.
- LegacyTarball.MultiWrite: layer metadata written for an ID may carry another image's history entry, since the ID does not depend on history.
- GcraneDiff.SyncReachesSource: the source does not change during the copy, and no tag stands on two digests; copying a manifest with all it refers to is one put.
- GcraneSync.NilMeansSynced: no target of the copy is also a source of it, and targets are written to by this copy alone, so that it does not matter when each is listed.
- Backoff.Retry: factors are whole numbers and durations whole nanoseconds without overflow, where floating point is exact; the predicate sees the error alone.
- Common.Injective: hashes are assumed free of collisions wherever a theorem requires this of its codec.
- pkg/v1/layout, pkg/v1/validate, pkg/v1/cache, platform matching, index rewriting, fakes and random images: they would add easier members, or (the cache) do not keep the promise at all.
