# Storage state of oelala-storage: a verified model

The project models the state layer of the storage service and proves what its parts promise together:
several indexed stores that must agree with simple maps, and the loops and protocols that move data
through them.

| module | file of the service | subject |
|---|---|---|
| `Dedup` | internal/dedup | content-addressed blobs with reference counts |
| `Listing` | internal/api/server.go | prefix, delimiter and marker pagination |
| `ByteRange` | internal/api/server.go | the `Range` header and chunked downloads (section 14.1.2 of RFC 9110) |
| `Transfer` | internal/sync, internal/storage | chunked streams, readers with short reads, header sniffing |
| `PeerSync`, `SyncLimit` | internal/sync | object listings, pulls between many nodes, convergence and its exact condition |
| `Metering` | internal/metering | the bounded event window against its log, across restarts |
| `Metadata`, `FlatKeys` | internal/metadata | object records and the per-user index in one flat key space |
| `Buckets`, `Accounting` | internal/bucket, internal/api/server.go | quotas under concurrent uploads, usage against ownership |
| `Webhook` | internal/webhook | bounded queue, two workers, retries |
| `ApiKeys` | internal/apikeys | two indexes, delayed touches, revocation |
| `Collector` | internal/gc | garbage collection across three structures |
| `Prelude`, `MapSums`, `Text`, `Decimals` | | shared vocabulary: sums over maps, byte order on keys, decimal numbers |

How to read it. Code that updates fields or runs loops is a class or a method with loop invariants; its
contract equates the new state with a transaction on values (`...Txn`, `...Step`, `Apply`, `Next`), and the
theorems are lemmas about those transactions, over single steps and over whole runs. A `char` stands for one
byte, and `Text.Less` is the byte-wise key order of Go and of Badger. A Badger transaction is one atomic update of
a map, an iterator visits `SortedKeys`, a clock reading is an argument, and SHA-256 is an arbitrary function; where
its collision freedom matters it is an explicit hypothesis.

Where the code does not do what one would expect, the code is kept and the exact condition is proved:

* moving a deduplicated object onto itself deletes it (`Dedup.MoveIsRenameIff`);
* a suffix range of an empty file is granted as bytes 0 to -1, a pair that no `Content-Range` can carry
  (`ByteRange.AcceptedRangeInside`), and numbers beyond 64 bits are refused although the standard cuts them
  (`ByteRange.ParserMeetsStandard`, `ByteRange.ChunkedDownload`);
* first-contact pulls between all nodes converge under every schedule exactly when no content name lies below another as a
  file path, and each object either has fewer than 1000 content names before it in the order of the directory walk or is on
  every node to begin with (`SyncLimit.ConvergenceIff`); any other object can stay away for good from a node that lacks it
  (`SyncLimit.LeftBehind`); a single pull is complete exactly when each object was there already or is among the first 1000
  listed with nothing in its way (`PeerSync.PullCompleteIff`); pulls never repair different bytes under one name
  (`PeerSync.PullsAgreeIff`); and because listed hashes are empty a push sends everything or nothing
  (`PeerSync.ChoosePushes`);
* a restart changes the metering window exactly when it holds more than 10000 events, its own keys do not ascend, or an
  event it has dropped, and not replaced by one of its own, comes above its least key (`Metering.RestartRebuildsIff`, over whole runs
  `Metering.WindowAlwaysNewestIff`);
* names with colons can share keys: two buckets exactly when one is the other's beginning up to a colon, two users exactly
  when one's index prefix begins the other's (`FlatKeys.BucketsCollideIff`, `FlatKeys.BucketScanIff`, `FlatKeys.UserScanIff`,
  `FlatKeys.UserEntriesCollideIff`); reads of the deduplicating store and lookups and listings of the metadata are right
  over all runs exactly when no names in use share keys (`Dedup.GetAfterAnyRunIff`, `Metadata.RunsFaithfulIff`), and a
  bucket's listing exactly when no object of another bucket stands under its prefix (`Metadata.ListByBucketShows`);
* overwriting another owner's object leaves a stale index entry (`Metadata.PutKeepsIndexExactIff`), and a user's recorded
  usage is what the metadata reports plus what overwrites took exactly when nothing that the user put and has not deleted
  since belongs to someone else (`Accounting.UsageIsReported`);
* deleting somebody else's object unbalances the recorded usage (`Accounting.DeleteBalancedIff`), and every overwrite
  leaves the old size recorded (`Accounting.UsageConservation`);
* concurrent uploads overshoot a quota by up to (n-1) times the largest body, and do reach that
  (`Buckets.OvershootBound`, `Buckets.OvershootAttained`);
* a repeated API key id leaves an older key that revoking cannot reach (`ApiKeys.CreateAgreesIff`,
  `ApiKeys.RepeatedIdEscapesRevoke`); acceptance stays right whatever follows exactly when no creation repeats the hash of
  another key or the id of an active key with a different hash (`ApiKeys.AlwaysRightIff`).

## Model

| member | source | states |
|---|---|---|
| Dedup.RunConsistent | internal/dedup/store.go:109-330 | After any sequence of stores, deletes and moves, every count equals the number of references naming the blob and is at least 1, every reference has its record, and records and files exist for the same hashes, each file hashing to its name; no collision freedom is assumed |
| Dedup.StoreCorrect | internal/dedup/store.go:191-233 | From a consistent state a store cannot fail, keeps the invariant, writes the reference with its time, gives a new blob that time while an existing one keeps its own, names the content and disturbs no other name, including overwrites by equal and by different content |
| Dedup.DeleteCorrect | internal/dedup/store.go:268-297 | A delete cannot fail, keeps the invariant and removes exactly one name |
| Dedup.MoveCorrect | internal/dedup/move.go:12-80 | A move fails exactly without a source, keeps the invariant, renames with overwrite and keeps the creation time; a self-move removes the name |
| Dedup.ReleaseBalanced | internal/dedup/store.go:300-330 | Giving up one reference always finds its record, stays exact for the remaining references and removes no file one of them needs |
| Dedup.SameHashMoveKeepsBlob | internal/dedup/move.go:47-53 | Overwriting an equal reference by a move finds a count of at least 2, so the surviving blob stays |
| Dedup.RefinesPlainMap | internal/dedup/store.go:109-330 | After any run whose contents do not collide the store is the plain map that the operations describe |
| Dedup.RefinementNeedsInjectivity | internal/dedup/store.go:131-160 | The store refines the plain map on all runs exactly when the digest is injective |
| Dedup.MoveIsRenameIff | internal/dedup/move.go:33-76 | A move is a rename of the map exactly when source and destination names differ or there is no source |
| Dedup.GetAfterAnyRun | internal/dedup/store.go:237-265 | For names that share no reference key, a read after any run gives the content last stored at or moved to that bucket and key with its hash, or not found |
| Dedup.GetAfterAnyRunIff | internal/dedup/store.go:93-100 | Over any set of names, with or without colons, all reads after all runs are right exactly when no two of the names share a reference key |
| Dedup.ColonFreeApart | internal/dedup/store.go:98-100 | Names in buckets without colons share no reference key, whatever the object keys |
| Dedup.StatsMeaning | internal/dedup/store.go:381-432 | Logical bytes are the lengths of all named contents, blobs are the distinct contents, never more than the references, and nothing is saved exactly when no non-empty content is shared |
| Dedup.Store.Put | internal/dedup/store.go:109-234 | The step-by-step store is the transaction; from a valid store it succeeds and updates the plain map |
| Dedup.Store.Rename | internal/dedup/move.go:12-80 | The step-by-step move is the transaction and keeps the store valid |
| Dedup.Store.Remove | internal/dedup/store.go:268-297 | The step-by-step delete is the transaction and removes the name from the plain map |
| Dedup.Store.Get | internal/dedup/store.go:237-265 | Reads through reference and file; from a valid store it gives the plain map's content and its digest |
| Dedup.Store.DecrementRefCount | internal/dedup/store.go:300-330 | Works on the transaction's view of the records, with the file removed at once |
| Dedup.Store.GetStats | internal/dedup/store.go:381-432 | The accumulated statistics equal the sums over records, with the meaning of `StatsMeaning` |
| Listing.ListObjects | internal/api/server.go:772-850 | The handler with its filter, sort, marker and grouping loops returns the page described on values |
| Listing.PageMeaning | internal/api/server.go:793-842 | A page is the next stretch of the answer above the marker, truncated exactly when more is left, and its next marker leaves exactly the rest |
| Listing.ClampMaxKeys | internal/api/server.go:777-782 | A page size that is absent, zero or negative counts as 1000, one above 10000 as 10000 |
| Listing.PaginationComplete | internal/api/server.go:772-842 | Following the markers ends and delivers exactly the objects that have the prefix and nowhere after it the delimiter, each once, in strictly ascending key order, for every page size |
| Listing.CutIsShortestStop | internal/api/server.go:815-820 | The common prefix of a key is the shortest stretch beyond the prefix that ends in the delimiter |
| Listing.DirectMeaning | internal/api/server.go:811-822 | A key is listed as an object exactly when there is no delimiter or it occurs nowhere after the prefix |
| Listing.CutOrder | internal/api/server.go:811-828 | No cut is a proper prefix of another, so over sorted keys different cuts are in order |
| Listing.CommonPrefixesPartition | internal/api/server.go:811-828 | The unmarked page's common prefixes are strictly ascending, and each matching key is a direct object under none of them or lies under exactly one |
| Listing.EveryPageAscending | internal/api/server.go:811-828 | Common prefixes are strictly ascending on every page although nothing sorts them |
| Listing.LaterPagesAddNoPrefix | internal/api/server.go:793-828 | A later page has no common prefix that the first page did not have |
| Listing.PageCuts | internal/api/server.go:793-828 | A page's common prefixes are exactly the cuts of the matching keys above its marker |
| Listing.StartIndex | internal/api/server.go:793-805 | The marker loop finds where the objects above the marker begin |
| Listing.Group | internal/api/server.go:811-828 | The grouping loop with its seen set separates direct objects and first appearances of cuts |
| ByteRange.AcceptedRangeInside | internal/api/server.go:1150-1193 | An accepted range lies inside the file exactly when the file is not empty; otherwise it is the suffix case 0 to -1. All intermediate values are typed as 64-bit |
| ByteRange.ParserMeetsStandard | internal/api/server.go:1150-1193 | However the numbers of a range specifier are spelled, leading zeros included, the parser selects what RFC 9110 section 14.1.2 names, except exactly for numbers beyond 64 bits |
| ByteRange.AcceptedMeans | internal/api/server.go:1150-1193 | Conversely, every accepted header is `bytes=` and a specifier, with signs in front of its numbers tolerated, and gets exactly the bytes of that specifier |
| ByteRange.OthersRefused | internal/api/server.go:1151-1160 | So other units, headers without a dash, and lists of ranges are refused |
| ByteRange.ServeMeaning | internal/api/server.go:586-619 | Without the header the whole file is served, to a refused one nothing, and otherwise exactly the bytes of the specifier that the header spells |
| ByteRange.ParseFromTo | internal/api/server.go:1174-1189 | A printed first-last pair parses back to the first position and the last one cut to the file |
| ByteRange.ChunkServed | internal/api/server.go:599-619 | What one chunk request is answered with, for every position and chunk size |
| ByteRange.ChunkedDownload | internal/api/server.go:586-619 | Fetching consecutive chunks until refused yields the whole file in the rounded-up number of parts, exactly when the rounded-up size fits in 64 bits |
| Transfer.Reader.Read | internal/sync/server.go:241-248 | A read delivers the next bytes under any short-read behaviour; with none planned it fills the buffer as the byte reader does |
| Transfer.ReadFull | internal/storage/content_type.go:94-105 | Reads until the buffer is full or the data ends, whatever the single reads deliver |
| Transfer.DetectFromReader | internal/storage/content_type.go:94-105 | The content type is sniffed from at most 512 bytes at the front of the data, and nothing else is consumed |
| Transfer.SendAll | internal/sync/server.go:144-181 | Sends the metadata and then non-empty chunks of at most 64 KiB whose payload is the content |
| Transfer.Copy | internal/storage/store.go:79-85 | Appends exactly the remaining bytes to the file and to the hasher and reports how many |
| Transfer.FileStore.GetObject | internal/sync/server.go:132-181 | Streams exactly the stored bytes behind their metadata, reports that there are none, or refuses an expected hash, as stored objects carry none |
| Transfer.Collect | internal/sync/server.go:184-207 | Collects the payload in order and the last metadata of any stream |
| Transfer.LastMetaStands | internal/sync/server.go:184-207 | Metadata that comes later in a stream replaces earlier metadata, and data does not |
| Transfer.PayloadOfPieces | internal/sync/replicator.go:219-232 | However a content is cut into chunks, the received payload is the content |
| Transfer.FileStore.Put | internal/storage/store.go:46-113 | Writing header then rest stores exactly the reader's bytes and reports their length, their digest and the type of their first bytes |
| Transfer.FileStore.Download | internal/sync/replicator.go:209-237 | A pull of one object stores exactly the peer's bytes, and fails without a change exactly for a missing object or a listed hash |
| Transfer.FileStore.Upload | internal/sync/replicator.go:293-353 | A push of one object stores exactly the sender's bytes at the peer |
| Transfer.FileStore.PushObject | internal/sync/server.go:184-222 | Stores the payload under the last metadata and answers with its hash, or refuses a stream without any |
| PeerSync.ListObjects | internal/sync/server.go:68-129 | The nested loops return, in the order of the walk and each once, the objects of the named bucket, or of all content buckets, with the prefix, modified at or after the time if one is given, with size and time, none if empty hashes are excluded, and of these the first up to the limit; more is reported as soon as the limit is reached |
| PeerSync.ListingMeaning | internal/sync/server.go:76-122 | That selection, without a limit, over any directories and request |
| PeerSync.FirstContactListing | internal/sync/replicator.go:172-180 | The request of a first pull lists exactly the content objects, each once |
| PeerSync.PullCompleteIff | internal/sync/replicator.go:172-207 | A pull brings all content exactly when each object was there already, or is among the first 1000 listed with no file or directory in its way; it never replaces an object |
| PeerSync.PullArrives | internal/sync/replicator.go:172-207 | Of what a listing names, a pull brings exactly what was not there, is among the first 1000 and has nothing in its way, with the bytes of the peer, and it brings nothing else |
| PeerSync.SincePullIff | internal/sync/replicator.go:172-207 | A pull that sends the time of the last one brings exactly the content modified at or after that time that was not there, is among the first 1000 of these and has nothing in its way |
| PeerSync.Node.PullFrom | internal/sync/replicator.go:182-204 | Whatever downloads fail, the node then holds what it held, unchanged, and the listed content it lacked that the peer has, whose download succeeds and that nothing blocks, with the bytes of the peer; objects and bytes are counted |
| PeerSync.Node.PullFromPeer | internal/sync/replicator.go:172-207 | The request of a pull and its loop together: the first 1000 content objects modified at or after the last time are pulled |
| PeerSync.PullsConverge | internal/sync/replicator.go:172-237 | In any interleaving of listing, checking, fetching and storing, listings in any order made while other pulls store, at every moment original objects and internal buckets are unchanged, every gained object is some node's original and no file stands in another's way; once all ordered pairs have pulled, the union fits one listing and none of its names lies below another, all nodes hold the union |
| PeerSync.PullsAgreeIff | internal/sync/replicator.go:182-204 | The finished pulls of a union that fits one listing leave all nodes with equal content, bytes included, exactly when no two nodes started with different bytes under one name and no name lies below another |
| SyncLimit.ConvergenceIff | internal/sync/replicator.go:172-204 | With listings in the order of the walk, all finished runs over every schedule end with the union everywhere exactly when no name lies below another and each object has fewer than 1000 names of the union before it or was on every node |
| SyncLimit.LeftBehind | internal/sync/server.go:112-117 | An object with at least 1000 names of the union before it has, for each node that lacks it, a run of complete pulls that never brings it there |
| SyncLimit.SmallOrSame | internal/sync/replicator.go:172-180 | A union that fits one listing is enough for that, and so is starting with the same names |
| SyncLimit.AnswerOrdered | internal/sync/server.go:76-122 | The listing loops over sorted directories and sorted walks answer in one order of names, whatever the request filters out |
| SyncLimit.BeforeTotal | internal/storage/store.go:156-204 | The order in which buckets are listed and their files walked is a strict total order of names |
| SyncLimit.EntriesInByteOrder | internal/storage/store.go:176-184 | The modelled order goes through a directory by the byte order of its entries' names, as the walk does |
| SyncLimit.DirectoriesDescend | internal/storage/store.go:176-184 | Below a directory it goes on in the same way |
| PeerSync.StepsDecrease | internal/sync/replicator.go:172-237 | Every step of every pull brings the whole system closer to the end |
| PeerSync.NothingBlocks | internal/sync/replicator.go:172-237 | An unfinished pull can always take a step |
| PeerSync.ChoosePushes | internal/sync/replicator.go:243-282 | As listed hashes are empty, a push sends all content to a peer that lists nothing and nothing to any other |
| PeerSync.OneConnectionPerAddress | internal/sync/replicator.go:101-111 | No address is contacted twice and no available one is left out |
| PeerSync.FirstIsContacted | internal/sync/replicator.go:101-111 | The peer contacted at an address is the first available one with it |
| PeerSync.UniquePeers | internal/sync/replicator.go:101-111 | The loop keeps the first available peer of each address |
| Metering.RestartTransparent | internal/metering/persistent.go:31-120 | Over any run of records and restarts with ascending keys and a window of at most 10000, the window is always the newest events, the log is all of them in order, and one more restart rebuilds the same window |
| Metering.RestartRebuildsIff | internal/metering/persistent.go:74-113 | Whatever was recorded and for every window size, a restart rebuilds the window exactly when it fits the warm-up limit, its keys ascend, and nothing dropped comes above its least key |
| Metering.WindowAlwaysNewestIff | internal/metering/persistent.go:31-120 | Over any run of records and restarts the window is the newest events at every moment exactly when every restart meets that condition |
| Metering.RestartNeedsAscendingKeys | internal/metering/persistent.go:46-71 | While nothing is trimmed, a restart rebuilds the window exactly when the keys ascended |
| Metering.RestartNeedsSmallWindow | internal/metering/persistent.go:74-113 | For ascending keys a restart rebuilds the window exactly when the window size or the number of events is within the warm-up limit |
| Metering.KeyOrder | internal/metering/persistent.go:51-52 | For times from 1970 on the zero-padded keys sort by time, then by event type |
| Metering.ChronologicalKeysAscend | internal/metering/persistent.go:51-52 | Keys ascend exactly when the events are chronological |
| Metering.PersistentMeter.constructor | internal/metering/persistent.go:31-120 | Reading the log backwards up to the limit and replaying it forwards builds the newest window |
| Metering.PersistentMeter.RecordEvent | internal/metering/persistent.go:46-71 | Writes the log entry and then the window; for an ascending key both then hold the event as the newest |
| Metering.PushKeepsLast | internal/metering/meter.go:72-76 | Trimming and appending keeps the newest events |
| Metering.Meter.Record | internal/metering/meter.go:65-85 | Stamps an event without time by the clock; the window is then the newest events up to its size, that one last |
| Metering.Meter.Replay | internal/metering/persistent.go:110-113 | Replaying events given newest first leaves the newest of them in order |
| Metering.PersistentMeter.ReadNewest | internal/metering/persistent.go:77-104 | The reverse iteration reads the newest events of the log, newest first, up to the limit |
| Metering.Meter.GetSummary | internal/metering/meter.go:163-197 | The counts, bytes and credits are those of the user's own events in the window since the time, each storage type apart and the generations joined |
| Metering.Meter.GetEvents | internal/metering/meter.go:142-160 | Exactly the window's events of that user that are not before the first and not after the second time, in order and as often as they occur |
| Metering.TotalMeaning | internal/metering/meter.go:180-194 | A summary keeps count and bytes of each storage type apart and joins the generations with their credits, every event of a known type once |
| Metering.SelectedMeaning | internal/metering/meter.go:142-160 | That selection over any sequence of events |
| Metering.OwnSelected | internal/metering/meter.go:172-178 | A summary is about the events of the user since the time, as `GetEvents` without an end |
| Metering.OthersLeaveNoTrace | internal/metering/meter.go:172-178 | Another user's event leaves a user's summary unchanged |
| FlatKeys.RefKeysApart | internal/dedup/store.go:93-100 | References of colon-free buckets are named apart, and never like blobs |
| FlatKeys.ObjectKeysApart | internal/metadata/store.go:74-76 | Object keys agree exactly where bucket and key agree as one text; for colon-free buckets they are injective |
| FlatKeys.UserKeysApart | internal/metadata/store.go:82-84 | Index keys of one user agree exactly where bucket and key agree as one text; for colon-free users and buckets they are injective |
| FlatKeys.BucketsCollideIff | internal/metadata/store.go:74-84 | Two buckets can share an object, reference or index key exactly when one lies within the other up to a colon |
| FlatKeys.UserEntriesCollideIff | internal/metadata/store.go:78-84 | Two users can share an index key exactly when one's prefix begins the other's |
| FlatKeys.BucketScanIff | internal/metadata/store.go:166-176 | A bucket's scan can meet another bucket's records exactly when one name lies within the other, and all of them exactly when the scanned one does; without colons it meets exactly the bucket's own |
| FlatKeys.UserScan | internal/metadata/store.go:197-207 | A user's scan meets no object record, and for colon-free users exactly that user's index entries |
| FlatKeys.UserScanIff | internal/metadata/store.go:197-207 | A user's scan can meet another user's entries exactly when one prefix begins the other, and all of them exactly when the scanned one does |
| FlatKeys.ColonUserLeaks | internal/metadata/store.go:197-207 | So a scan meets every entry of a user whose id continues it with the separator |
| FlatKeys.UserKeyParses | internal/metadata/store.go:208-214 | The parse in the user listing undoes the packing exactly when the bucket has no colon, whatever the object key |
| Metadata.RunRepresents | internal/metadata/store.go:87-154 | After any run over names and users whose keys are apart the flat key space holds exactly the records of the primary map and the index |
| Metadata.RunsFaithfulIff | internal/metadata/store.go:87-237 | Over any names and users, colons or not, all lookups and user listings after all runs are right exactly when no two object names and no two index entries share a key |
| Metadata.ColonFreeApart | internal/metadata/store.go:74-84 | Buckets and users without colons, with any object keys, are kept apart |
| Metadata.ListByUserShows | internal/metadata/store.go:197-237 | For any user id, a listing shows exactly the existing objects whose index key for that user is stored, each once, although the parse may cut at another colon |
| Metadata.FollowMeaning | internal/metadata/store.go:208-222 | Wherever the parse cuts an index key, the lookup finds exactly the object packed behind the user's prefix |
| Metadata.ListByUserMeaning | internal/metadata/store.go:197-237 | It contains every owned object, and is exactly the owned ones just when no index key leads the user to somebody else's object |
| Metadata.PutKeepsIndexExactIff | internal/metadata/store.go:93-105 | A put keeps the index exact exactly when it does not take an object from its owner |
| Metadata.UserListingExact | internal/metadata/store.go:197-251 | On runs that change no owner, over names whose keys are apart, listing and storage used are exactly the owned objects and the sum of their sizes |
| Metadata.ListByBucketShows | internal/metadata/store.go:166-194 | A bucket's listing shows exactly the objects under its prefix, each once, and these are its own exactly when no other bucket's object stands there |
| Metadata.ListExpiredShows | internal/metadata/store.go:254-285 | The expired listing shows exactly the objects that have an expiry time before now, each once |
| Metadata.Store.Put | internal/metadata/store.go:87-106 | Writes record and index entry, so the key space represents the updated map and index |
| Metadata.Store.Delete | internal/metadata/store.go:133-154 | Removes the record and its owner's index entry |
| Metadata.Store.Get | internal/metadata/store.go:109-130 | Gives the primary map's record |
| Metadata.Store.ListByBucket | internal/metadata/store.go:166-194 | The scanning loop returns the records under the bucket's prefix |
| Metadata.Store.ListExpired | internal/metadata/store.go:254-285 | The scanning loop lists, of whatever the key space represents, exactly the objects that have an expiry time before now, each once |
| Metadata.Store.ListByUser | internal/metadata/store.go:197-237 | The scanning loop returns the listing on values |
| Metadata.Store.GetUserStorageUsed | internal/metadata/store.go:240-251 | Adds up the user's listing |
| Buckets.OvershootBound | internal/bucket/store.go:153-204 | Over all interleavings, a user's accounted and pending bytes never exceed the quota plus (n-1) times the largest body; one upload at a time keeps the quota |
| Buckets.OvershootAttained | internal/api/server.go:350-361 | That bound is reached by n uploads that all pass the check first |
| Buckets.Store.AddUsage | internal/bucket/store.go:153-184 | Adds bytes and files to that user alone, never below zero, creating an unknown user with the 2 GiB of the free tier |
| Buckets.Store.CheckQuota | internal/bucket/store.go:187-204 | Passes exactly when usage plus request stay within the recorded quota, or for a user without a record within 2 GiB |
| Buckets.Store.Create | internal/bucket/store.go:54-87 | Refuses an existing user; a new record is the user's, unused, with the given tier and the given quota or that tier's 2, 50, 200 or 1024 GiB |
| Buckets.Store.Update | internal/bucket/store.go:124-150 | Changes tier and quota, to the given one or the tier's 2, 50, 200 or 1024 GiB, but never the usage; without either the quota stays |
| Accounting.UsageConservation | internal/api/server.go:399-421 | When owners delete, recorded bytes and files equal what the user owns plus exactly what accepted overwrites took, and agree precisely when none of the user's objects was overwritten |
| Accounting.UsageIsReported | internal/api/server.go:399-421 | End to end over runs of uploads and owners' deletes: recorded bytes and files are what the metadata store reports plus what overwrites took, exactly when no object that the user put and has not deleted since belongs to someone else, as when no put takes an object from its owner |
| Accounting.IndexRecords | internal/metadata/store.go:93-154 | When owners delete, the index records for a user exactly what that user put and has not deleted since |
| Accounting.DeleteBalanced | internal/api/server.go:673-716 | The owner's delete subtracts exactly the recorded size, without meeting the clamp |
| Accounting.DeleteBalancedIff | internal/api/server.go:664-716 | A delete keeps everyone balanced exactly when the owner deletes, or the object has no owner and the deleter has nothing recorded |
| Accounting.ReportedIsOwned | internal/metadata/store.go:240-251 | The reported storage and listing length are never less than what the user owns, and equal to it exactly without a stale index entry |
| Accounting.ColonFreeRequest | internal/api/server.go:335-349 | Requests without colons in bucket and user are within a realm whose keys are apart |
| Accounting.Server.PutObject | internal/api/server.go:323-455 | Refuses with the quota exactly a request that has a body and a user and for which used plus body exceeds the quota, and then, as for an empty body, leaves all three stores alone; otherwise stores file and record under owner, size and expiry, charges body and one file to the user, if any, and keeps files and records matched and every balance |
| Accounting.PutIsCheckThenAccount | internal/api/server.go:350-421 | An upload is the check and then the accounting of the upload protocol whose overshoot is bounded, or a refused check |
| Accounting.SequentialQuota | internal/api/server.go:350-421 | Over any uploads and deletes one after the other, every user who starts within the quota stays within it |
| Accounting.UserMeaning | internal/api/server.go:340-348 | The user of a request is the header or, without one, the path segment after `users/` |
| Accounting.Server.DeleteObject | internal/api/server.go:656-729 | Reports a missing file and then changes nothing; otherwise file and record go, and the recorded size, or else the size of the file, and one file are given back to the user of the request, which keeps all balances when the owner deletes |
| Webhook.DispatcherSafe | internal/webhook/webhook.go:99-214 | In every interleaving of any number of emits, their single sends, both workers and a stop, each offered job is in exactly one place, the queue stays within 256, a job is posted at most M times and pauses at most the backoff unit times M(M-1)/2 in all |
| Webhook.OutcomesExplained | internal/webhook/webhook.go:142-214 | A job is delivered exactly by an accepted post, given up exactly by a bad address, the last allowed post or a full queue at its retry, and dropped exactly by a full queue at its offer; outcomes stand |
| Webhook.OneJobPerMatch | internal/webhook/webhook.go:142-151 | In every run a target was offered a job of its own, or still waits for its offer, once for every emit it is for, times how often it is configured: without a filter all emits, otherwise those of its listed types, none while disabled; and each job stays a job for its target |
| Webhook.MatchingMeaning | internal/webhook/webhook.go:142-145 | An emit is for the targets without a filter and those whose filter lists the type, in order and as often as they are configured |
| Webhook.QueueIsFifo | internal/webhook/webhook.go:146-205 | In every run the jobs that workers took and then those still queued are, in order, the jobs as they were queued, new and repeated ones |
| Webhook.RetriesExact | internal/webhook/webhook.go:172-205 | A worker with a job has behind it exactly as many posts as its attempt says, and pauses of 1, 2, ... backoff units after them |
| Webhook.EmitQueues | internal/webhook/webhook.go:142-151 | An emit that nothing interrupts queues one job per target in order as far as there is room and drops the rest |
| Webhook.EmitSafe | internal/webhook/webhook.go:124-152 | An emit that nothing interrupts is one of the runs and accounts for one job per target left, queued or dropped |
| Webhook.DrainBounded | internal/webhook/webhook.go:142-214 | Once no new emit begins only boundedly many steps remain |
| Webhook.DrainedWhenStuck | internal/webhook/webhook.go:142-214 | Without a stop, when no step is possible every offer has been made and every job is settled: nothing blocks on a full queue |
| Webhook.Dispatcher.EmitEvent | internal/webhook/webhook.go:124-152 | A whole emit queues, in the order of the configuration, a first attempt for every target without a filter or with the type in it, as far as the queue has room for 256, drops the rest, and does nothing when disabled |
| Webhook.Dispatcher.BeginEmit | internal/webhook/webhook.go:124-145 | The loop over targets finds, in order and as often as configured, those without a filter and those whose filter lists the type, and none when disabled |
| Webhook.Dispatcher.OfferNext | internal/webhook/webhook.go:146-150 | One non-blocking send queues the job or drops it; the state stays valid and the remaining work shrinks |
| Webhook.Dispatcher.Deliver | internal/webhook/webhook.go:172-214 | Posting, counting the attempt and pausing or giving up is the finish step; the state stays valid and the remaining work shrinks |
| Webhook.Dispatcher.Retry | internal/webhook/webhook.go:199-205 | The next attempt is queued, or given up when the queue is full; the state stays valid and the remaining work shrinks |
| Webhook.Dispatcher.constructor | internal/webhook/webhook.go:99-121 | Fills in 3 attempts and 5 seconds where they are zero and starts empty |
| Webhook.Dispatcher.TakeJob | internal/webhook/webhook.go:160-168 | A worker takes the oldest queued job; the state stays valid and the remaining work shrinks |
| Webhook.Dispatcher.MatchesFilter | internal/webhook/webhook.go:222-232 | True exactly for an empty filter or one that lists the type |
| ApiKeys.AcceptsExactlyLive | internal/apikeys/store.go:76-269 | With fresh ids and hashes, after any run with touches delayed at will, both indexes hold the same records and exactly the keys created and not revoked or deleted since are accepted |
| ApiKeys.DeadStaysDead | internal/apikeys/store.go:151-269 | No later touch or other operation brings a dead key back |
| ApiKeys.RevokedOrDeletedIsDead | internal/apikeys/store.go:212-269 | Revoking or deleting kills that key and no other |
| ApiKeys.CreateAgreesIff | internal/apikeys/store.go:97-104 | Creating keeps the indexes in agreement exactly for a new id with a new hash, or for both of one existing record |
| ApiKeys.RepeatedIdEscapesRevoke | internal/apikeys/store.go:83-104 | After a repeated id and revoking it, the new hash is dead, and the older one is accepted exactly when it was before and differs |
| ApiKeys.AlwaysRightIff | internal/apikeys/store.go:76-269 | After every part of a run and whatever touches, revocations and deletions follow, acceptance is the created and not revoked or deleted keys, exactly when no creation had the hash of another key or the id of an active key with another hash |
| ApiKeys.AcceptedAsCreated | internal/apikeys/store.go:76-177 | On the runs of that condition an accepted record has the id, name, permissions and time of its creation, no expiry and the time of its last touch |
| ApiKeys.TouchKeeps | internal/apikeys/store.go:151-177 | A delayed touch changes the time of the last use of that key in both indexes and nothing else |
| ApiKeys.Store.ValidateKey | internal/apikeys/store.go:114-148 | Accepts exactly a stored, active key that has no expiry or is not past it, by the digest of the secret, and returns the record both indexes hold |
| ApiKeys.Store.UpdateLastUsed | internal/apikeys/store.go:151-177 | The delayed touch writes the id's record with the new time into both indexes, or does nothing when the id is gone |
| ApiKeys.Store.CreateKey | internal/apikeys/store.go:76-111 | Writes an active record without expiry, with the given permissions, under both keys; with fresh id and hash the indexes stay in agreement |
| ApiKeys.Store.RevokeKey | internal/apikeys/store.go:212-241 | Writes the id's record, no longer active, into both indexes, and reports an unknown id |
| ApiKeys.Store.DeleteKey | internal/apikeys/store.go:244-269 | Removes the id and the hash of its record from the indexes, and reports an unknown id |
| Collector.Collector.RunOnce | internal/gc/collector.go:106-202 | An object is removed exactly by a real pass when it has an expiry time before now and its file is there and can be removed; files, metadata, index and counters change accordingly, and a dry pass only counts |
| Collector.PassLeaves | internal/gc/collector.go:136-178 | A pass takes exactly the objects with an expiry time before now and a removable file, and leaves all others as they are |
| Collector.StaysIff | internal/gc/collector.go:106-178 | Over any passes an object stays exactly when it has no file or no expiry time, or every pass came no later than that time or could not remove the file; so it goes with the first later pass that can |
| Collector.SecondPassIdle | internal/gc/collector.go:106-178 | A second pass at the same time with the same failures removes nothing |
| Collector.PassesCompose | internal/gc/collector.go:106-178 | Two passes at any times leave what one pass at the later time would have left |
| Collector.ListingsAfterPass | internal/metadata/store.go:133-154 | The index and, where keys are apart, every user's listing lose exactly the collected objects, and an exact index stays exact |

## Left out

- Crashes and failed commits: `decrementRefCount` removes the blob file before its transaction commits, so claims are for committed operations; disk and database failures are not modelled.
- JSON encoding, Badger internals, SHA-256 and HMAC: values stand for their encodings, transactions are atomic, digests are arbitrary functions.
- Integer widths outside `ByteRange`: sizes, counters and quotas are unbounded; a quota in GiB large enough to overflow 64 bits is not modelled.
- File paths: files are keyed by bucket and key; two pairs that join to the same path are not identified, a key that is a directory above another key is told apart in `PeerSync` only, and empty directories and directory walk errors are left out.
- Content type tables, ETags, conditional requests, Content-Disposition, signed URLs, permissions and tags: branch lookups beside the state.
- `X-Dedup: true` on ordinary buckets, and HTTP moves together with metadata, usage or collection: writes and later operations then go to different stores, so no agreement is claimed for such runs; `Accounting` models the ordinary file route only.
- Incremental synchronisation: what one later pull brings is `PeerSync.SincePullIff`; convergence is claimed for first contact only, because the listing is cut at 1000 and the last-sync time comes from the local clock.
- Handshake, discovery and connections: transport around the pulls.
- PeerSync.PullsConverge: the pulls of a run have no RPC errors.
- Metering.RestartRebuildsIff: leaves out the 90-day expiry, failed writes and `RecordGeneration`, which is not persisted; event handlers and event metadata are not modelled.
- Buckets.OvershootBound: the quota is fixed during the run; creating or changing buckets in between, bucket deletion and listing are left out.
- Webhook.Dispatcher.EmitEvent: the method runs its sends one after the other; sends that other steps separate are `BeginEmit` and `OfferNext`, and the theorems are about all orders of those.
- Webhook.DispatcherSafe: job numbers, outcomes and counts are bookkeeping of the model; payloads, signatures and the shutdown wait are left out, and a stop may leave queued jobs unsent.
- ApiKeys.Store.ValidateKey: the touch it spawns is an event of its own that may run at any later point or never; key generation and display prefixes are parameters or left out.
- Collector.Collector.RunOnce: the last-run time and duration are left out, and metadata deletion does not fail.
- Floating-point percentages and size formatting.
