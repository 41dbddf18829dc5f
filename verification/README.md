# Verification of the transcode orchestrator's core

A Dafny model of the parts of the transcode orchestrator whose correctness does not show from
reading one function: the Redis record codec and its stores, the preset registration protocol,
Bitmovin's goroutines and channels, the Hybrik job compiler and the MediaConvert transformations.
`dafny verify dfyconfig.toml` checks the whole project.

## How the model is laid out

Code that computes a value is a function. Code that works step by step is a method, proved equal to
a function or to an outright property; objects that the source updates in place are classes.
Concurrency is a state machine with one step per Redis command, channel operation or remote call,
and what is said of it holds in every interleaving.

- **Text, Decimal, Wrappers, MapOrders** – the parts of Go's `strings`, `strconv` and `fmt` that the
  rest leans on, the result types, and the orders in which a Go map may be read.
- **Codec, RoundTrip, ZeroValues, PresetMaps, JobRecord, PresetSettings** – the record codec over a schema
  of tagged fields: `Codec` has the loops of the source and the functions they compute; `RoundTrip`
  proves what saving and loading do to each other for every schema, and `ZeroValues` what `omitempty`
  leaves out, by the values alone; the other three instantiate it for preset maps, for jobs and for the
  HDR settings of a preset, down to the keys and texts stored. The main law is stronger than a round trip.
  HMSET merges, so what is read back after a save is what was read before with the saved record laid over
  it (`SaveOverlaysStoredRecord`), and the round trip is an exact consequence.
- **Repositories, Stores, PresetDiscipline** – the preset-map repositories of Redis and of the test
  double, as state machines and as classes, and the refinement between them, which holds exactly on the
  runs whose names and mappings are non-empty and whose updates cover the stored providers; and exactly
  which saves and deletions keep a preset map's hash and index entry together when they overlap.
- **Registration, ReportedIds, StoredExtensions, Service** – any number of concurrent `newPreset` requests
  over single commands, exactly when the ids they report stay the ids stored, where stored extensions
  come from, and the handler's code tied to the steps of one request, from its lookup to its answer.
- **JobScores, JobListing, JobStore, JobDiscipline, JobRepository, ListedJobs** – the scores of jobs as IEEE 754
  double-precision numbers, what a listing selects by them and how it compares with the test double,
  job creation, deletion and listing in every interleaving, exactly which creations and deletions are
  safe to issue, the repository's code tied to the commands, and what listed jobs read as.
- **SpliceCollector, OutputFanIn** – Bitmovin's two fan-ins: the buffered channel of trim workers and
  the unbuffered error channel with its WaitGroup and closer.
- **Paging** – the listing loop shared by the three muxing enrichers.
- **Elements, JobGraph, AudioElements, Assemblers, JobRequests** – Hybrik's layers of elements as a graph,
  the audio encodes found again by hash, the assemblers from job outputs to element groups, and the whole
  job request, refusals included.
- **TranscodeTargets, Modifiers** – the modifier pipeline as functions on values, and as it runs: over
  copied targets that share mutable video targets and HDR10 blocks through pointers.
- **Scanner, MasterDisplay** – leftmost non-overlapping matching, and the master-display parser on it.
- **PathNames, OutputGroups, AudioSplit, Crop** – MediaConvert's output names and groups, channel
  splitting and cropping.

## What the code does that its intent does not say

Each is proved with its exact condition or shown by a concrete instance.

- A struct field tagged without `expand` is written as text and never read back
  (`RoundTrip.UnexpandedStructIsLost`): whatever `SourceInfo` a job has (`db/types.go:49`), `GetJob`
  answers it empty (`JobRecord.SourceInfoIsLost`, and `JobRecord.SourceInfoComesBackEmpty` on one job).
  The whole condition for a job to come back as it was is `JobRecord.JobReturnsExactlyWhenCarried`.
- Zero settings are omitted when a preset is saved and HMSET leaves what it is not given, so an update of
  a local preset never turns Dolby Vision off (`PresetSettings.DolbyVisionIsNeverTurnedOff`), and HDR10
  settings read back as the update made them exactly when it sets some, with a master display if one is
  stored, or none were set before (`PresetSettings.UpdatedExactly`).
- A preset response can report an id that a concurrent request has meanwhile replaced. All reported ids
  stay the ids stored, in every run, if and only if the requests do not contend for the provider; that
  is read off the requests before any of them runs (`ReportedIds.ReportedIdsStayExactly`), and from
  every contended start a run replaces a reported id (`ReportedIds.ContendedIdIsReplaced`).
- A job deletion issued while a creation of the id is under way can leave an index entry without a
  hash, and a creation issued while a deletion is under way can leave either without the other. From
  every state reached by issuing only tasks with no task of the other kind under way for their id, the
  next task keeps hash and index in agreement, however such tasks go on, if and only if it is again one
  of those, whether or not ids are used again (`JobDiscipline.SafeExactlyWhenPermitted`). While ids are
  not used again, an entry left without its hash stays for good, whatever else is issued
  (`JobDiscipline.OverlappingDeleteOrphans`, `JobDiscipline.OrphanIsForGood`).
- The same faults befall preset maps, whose saves look before they write: an update of a name that is
  not stored may overlap a deletion, and every other save of the name may not
  (`PresetDiscipline.SafeExactlyWhenPermitted`). What is left over is not left for good: an update or a
  deletion mends a hash without an index entry, and a creation an entry without a hash
  (`PresetDiscipline.MendedExactly`).
- A listing can select a job created before its `Since`: not for a `Since` in milliseconds nor for the
  zero one of an unfiltered listing (`JobListing.MillisecondsAreSharp`), but whenever the last
  millisecond before `Since` has the same score (`JobListing.SelectsExactlyWhenSharp`), as for a
  nanosecond after a millisecond of our day (`JobListing.BlurredSinceSelectsEarlierJob`).
- When two or more Bitmovin outputs fail, and only then, output workers are left blocked
  (`OutputFanIn.LeaksExactlyWhenTwoOutputsFailed`), as in the execution of
  `OutputFanIn.SecondFailureBlocks`.
- Hybrik outputs that share a preset name lose all files but the last
  (`Assemblers.OutputsSurviveExactly`).
- An element is unreachable from the job's source exactly when an earlier layer is empty
  (`JobGraph.ReachableExactly`), as the packager of a job without outputs
  (`JobGraph.PackagerOfNothingIsUnreachable`).
- The variable-rate limits enclose the bitrate exactly for bitrates above -1000; from there down the
  lower limit lies above it (`TranscodeTargets.VariableBitrateBrackets`).
- The job status of MediaConvert names a file other than the output's base name whenever the name does
  not carry its container's extension (`OutputGroups.ListedAtBaseNameExactly`), as for an mp4 output
  called `clip.mov` (`OutputGroups.MisnamedOutputIsListedElsewhere`).
- Splitting a WAV description drops its normalization (`AudioSplit.Split`).
- Cropping an odd source by an odd number on its near side alone leaves the source by a pixel
  (`Crop.CropIsEvenAndInside`), as one pixel off the left of five (`Crop.OddCropLeavesTheSource`).

## Model

| member | source | states |
|---|---|---|
| Text.JoinOfSplit | db/redis/storage/redis.go:178-280 | joining undoes splitting on any separator, for any text |
| Text.ListSurvivesExactlyWhenSeparable | db/redis/storage/redis.go:178-280 | a string list survives being joined and split on `%%%` if and only if it is non-empty, no element contains `%%%` and only the last may end in `%` |
| Text.ListText | db/redis/storage/redis.go:178-179 | a list is written as its elements with `%%%` between them |
| Decimal.ParseOfPrintInt | db/redis/storage/redis.go:181-301 | an integer printed and parsed comes back exactly when it fits 64 signed bits |
| Decimal.ParseOfPrintUint | db/redis/storage/redis.go:181-307 | a natural number printed and parsed comes back exactly when it fits 64 bits |
| Decimal.DigitsInjective | provider/hybrik/preset_mapping.go:43 | numbers used in generated names print alike only when equal |
| Decimal.DigitsAreDecimal | db/redis/storage/redis.go:181 | the text of a number is its decimal digits, and one digit more is ten times the number and that digit |
| Decimal.ParseIntExactly | db/redis/storage/redis.go:296-301 | a text parses as an integer if and only if it is an optional sign and at least one digit, of that value, within 64 signed bits |
| Decimal.ParseUintExactly | db/redis/storage/redis.go:302-307 | a text parses as a natural number if and only if it is at least one digit, of that value, below 2^64 |
| Decimal.ParseBoolExactly | db/redis/storage/redis.go:284-289 | exactly the twelve spellings of Go's `ParseBool` parse |
| Codec.MapToFieldList | db/redis/storage/redis.go:108-122 | the loop computes exactly the prefixed entries of a map; an empty map is an error |
| Codec.StructFieldToFieldList | db/redis/storage/redis.go:126-188 | one turn of the save loop: skipped, expanded with its prefix, refused, or written as text |
| Codec.StructToFieldList | db/redis/storage/redis.go:124-190 | the save loop computes the field list of a struct, or the first field's error |
| Codec.LoadMap | db/redis/storage/redis.go:217-239 | the loop merges exactly the entries under the prefix, in whatever order they are read, and leaves a nil map nil when there are none |
| Codec.LoadStructField | db/redis/storage/redis.go:242-320 | one turn of the load loop |
| Codec.LoadStruct | db/redis/storage/redis.go:241-323 | the load loop fills the destination field by field, or stops at the first field's error |
| RoundTrip.ApartExactlyWhenDisjoint | db/redis/storage/redis.go:118-172 | the syntactic test on field keys and map prefixes holds if and only if no key can belong to both |
| RoundTrip.SavedKeysAreOwned | db/redis/storage/redis.go:124-190 | a field writes only keys of its own patterns, through nested structs and maps |
| RoundTrip.LoadFieldReadsOwnKeys | db/redis/storage/redis.go:241-323 | a field reads only keys of its own patterns: hashes that agree on them load alike |
| RoundTrip.LoadFieldAfterSave | db/redis/storage/redis.go:108-323 | for one field: load after save over any stored hash is the loaded value overlaid by the saved one |
| RoundTrip.LoadAfterSave | db/redis/storage/redis.go:108-323 | the same for all fields of any well-formed schema, under any prefix |
| RoundTrip.SaveOverlaysStoredRecord | db/redis/storage/redis.go:77-86 | saving a record over a stored hash and loading it gives the stored record overlaid by the saved one |
| RoundTrip.FreshSaveOverlaysDestination | db/redis/storage/redis.go:194-323 | saving into a fresh hash and loading gives the destination overlaid by the record |
| RoundTrip.RoundTripExactlyInDomain | db/redis/storage/redis.go:124-323 | a record comes back into a blank destination with its pointers allocated if and only if it is in the codec's domain |
| RoundTrip.SaveSucceedsExactlyWhenSavable | db/redis/storage/redis.go:112-170 | saving fails exactly on empty maps that are not omitted and on fields that cannot be expanded |
| RoundTrip.TextAlwaysLoads | db/redis/storage/redis.go:276-320 | a schema whose leaves are text or lists loads from any hash without error |
| RoundTrip.UnexpandedStructIsLost | db/types.go:49 | a struct field tagged without expand does not survive unless it is zero |
| RoundTrip.TopLevelMapRoundTrip | db/redis/storage/redis.go:98-122 | a non-empty map saved by itself loads back into a nil map |
| RoundTrip.MapReturnsExactlyWhenNamed | db/redis/storage/redis.go:144-265 | a non-empty map field, nested at any depth, comes back into a nil map if and only if its joined path is not empty |
| ZeroValues.ZeroExactly | db/redis/storage/redis.go:147 | a value equals its type's zero if and only if it is "", false, 0, a nil or empty list, a nil map or pointer, or a struct of such |
| ZeroValues.OmittedExactlyWhenZero | db/redis/storage/redis.go:146-156 | an expanded `omitempty` struct writes nothing when its fields are all zero in that sense, and all its fields when one is not |
| ZeroValues.WritesNothingExactlyWhenZero | db/redis/storage/redis.go:146-156 | such a struct, if a value of each of its fields that is not zero would show, writes nothing if and only if it is zero |
| ZeroValues.RoundTripIntoZeroExactly | db/redis/storage/redis.go:124-323 | into a destination that is zero in that sense, with its pointers allocated, a record comes back if and only if it is in the codec's domain |
| ZeroValues.UnsavedInDomainExactlyWhenZero | db/redis/storage/redis.go:133-186 | a field that is not saved, or not read back, is in the domain if and only if it is zero in that sense |
| JobRecord.SchemaIsWellFormed | db/types.go:14-75 | no two of a job's fields share a key of its hash, its creation time's included, through its two nested structs and two maps |
| JobRecord.JobReturnsExactlyWhenCarried | db/redis/job.go:23-56 | every job can be saved, and GetJob answers it as it was if and only if it holds no source info, no splice, nothing in the fields tagged "-", no map that is empty but not nil, and labels that survive their separator |
| JobRecord.SourceInfoIsLost | db/types.go:49 | whatever source info a job is saved with, it is answered without |
| JobRecord.SourceInfoComesBackEmpty | db/types.go:49 | the same of one job with a high-definition source |
| JobRecord.FirstStoredByTheirKeys | db/types.go:15-28 | a saved job has its id, name, provider and provider job id as text under `jobID`, `name`, `providerName` and `providerJobID` |
| JobRecord.LaterStoredByTheirKeys | db/types.go:39-60 | and its later text fields under their own keys |
| PresetSettings.DolbyVisionStored | db/types.go:274-326 | enabled Dolby Vision is stored as `preset_video_dolbyvision_enabled` = `true`; disabled, it leaves nothing |
| PresetSettings.Hdr10Stored | db/types.go:273-321 | HDR10 settings are stored whole under their four keys when any is set, but for an empty master display, and leave nothing otherwise |
| PresetSettings.DolbyVisionIsNeverTurnedOff | db/redis/localpreset.go:19-45 | over any stored hash, what is read after an update is on if either the update or the stored preset was |
| PresetSettings.UpdateLaysHdr10Over | db/redis/localpreset.go:19-45 | over any stored hash, the settings read after an update are the old ones if it sets none, and else its own, but for a master display that it leaves empty |
| PresetSettings.UpdatedExactly | db/redis/localpreset.go:19-45 | they are as the update made them if and only if it sets some, with a master display if one is stored, or none were set before |
| ListedJobs.ListedJobReturnsExactlyWhenCarried | db/redis/job.go:49-83 | in every interleaving, a job that a listing answers reads as the job created if and only if the codec carries it |
| ListedJobs.StoredJobsAreListed | db/redis/job.go:72-83 | a selected job that is still stored when the listing ends is answered with the hash its record was saved as |
| PresetMaps.SchemaIsWellFormed | db/types.go:344-360 | the tags of a preset map give keys and a map prefix that cannot clash |
| PresetMaps.EncodedExactlyWhenMapped | db/redis/storage/redis.go:113-115 | a preset map can be saved exactly when its provider mapping is non-empty |
| PresetMaps.EncodedByItsKeys | db/types.go:348-360 | the hash saved for a preset map has its name and extension under their keys, each provider's id under its prefixed key, and nothing else |
| PresetMaps.WriteMerges | db/redis/presetmap.go:25-38 | writing a preset map over a stored one merges the provider mappings and replaces the rest |
| PresetMaps.WriteFresh | db/redis/presetmap.go:25-38 | a preset map written to an absent key reads back as itself |
| Repositories.HashWriteMergesItsOwnRecordOnly | db/redis/presetmap.go:32 | the hash write merges into its own record and changes no other |
| Repositories.IndexWriteKeepsRecords | db/redis/presetmap.go:36 | the index write changes no record |
| Repositories.CreateStores | db/redis/presetmap.go:11-38 | a create stores the very record and indexes its name, or is refused for a stored name or an empty mapping and changes nothing; other records stay |
| Repositories.UpdateMerges | db/redis/presetmap.go:18-38 | an update takes name and extension from the new record and lays its ids over the stored ones, or is refused and changes nothing; other records stay |
| Repositories.DeleteForgetsExactly | db/redis/presetmap.go:40-50 | a deletion removes exactly the record and its index entry, or answers not found and changes nothing |
| Repositories.MergeIsReplacementWhenCovering | db/dbtest/fake_db.go:114-123 | merging is the test double's replacement if and only if the update covers the stored provider keys |
| Repositories.StepsAgreeExactlyWhenAgreeable | db/redis/presetmap.go:11-77 | from related states one operation replies alike and keeps the states related if and only if it is agreeable |
| Repositories.RunsAgreeExactlyWhenAgreeable | db/dbtest/fake_db.go:100-155 | over whole runs Redis refines the in-memory repository exactly on the agreeable runs |
| Stores.RedisRepository.CreatePresetMap | db/redis/presetmap.go:11-16 | the commands issued reply and act as the Redis state machine's create |
| Stores.RedisRepository.UpdatePresetMap | db/redis/presetmap.go:18-23 | the same for update |
| Stores.RedisRepository.DeletePresetMap | db/redis/presetmap.go:40-50 | the same for delete |
| Stores.RedisRepository.GetPresetMap | db/redis/presetmap.go:52-59 | the same for get, which changes nothing |
| Stores.RedisRepository.ListPresetMaps | db/redis/presetmap.go:61-77 | lists each indexed record that is found, once per name |
| Stores.ListingIsTheReply | db/redis/presetmap.go:61-77 | such a listing, as a set, is the state machine's reply |
| Stores.MemoryRepository.CreatePresetMap | db/dbtest/fake_db.go:100-112 | the test double's map updates reply and act as the in-memory state machine |
| Stores.MemoryRepository.UpdatePresetMap | db/dbtest/fake_db.go:114-123 | the same for update |
| Stores.MemoryRepository.DeletePresetMap | db/dbtest/fake_db.go:135-144 | the same for delete |
| PresetDiscipline.CommandsActOnKeep | db/redis/presetmap.go:25-49 | HMSET, SADD, DEL and SREM act on which names are stored and indexed as the tasks' steps do |
| PresetDiscipline.AloneIsTheOperation | db/redis/presetmap.go:11-50 | with nobody beside it a task is the repository's create, update or delete, and replies alike |
| PresetDiscipline.SafeExactlyWhenPermitted | db/redis/presetmap.go:11-50 | from every state that permitted tasks lead to, issuing a save or deletion keeps hash and index in agreement in every continuation by permitted tasks if and only if no task of the other kind is under way for the name, but for saves that cannot write: of records without providers, and updates still to look up a name that is not stored |
| PresetDiscipline.AgreeAtRest | db/redis/presetmap.go:11-50 | under that discipline, with nothing under way, the index names exactly the records stored |
| PresetDiscipline.MendedExactly | db/redis/presetmap.go:11-50 | a lone task mends a name's disagreement exactly when it is not refused: updates and deletions a missing index entry, creations a missing hash |
| Registration.CommandsActOnStore | db/redis/presetmap.go:25-38 | the two writing commands act on what names read as in the way the protocol's steps say |
| Registration.InvIsInductive | service/preset.go:94-153 | every step of any request keeps the invariant, only grows the store and only adds to the ids ever returned |
| Registration.StoredProvidersOnlyGrow | service/preset.go:94-153 | in every interleaving stored names and provider keys are never lost |
| Registration.AnsweredProvidersStayStored | service/preset.go:136-153 | once a request is answered 200, every provider it reported without an error is stored and listed from then on, with an id that provider returned for that name |
| Registration.CreatedPresetsAreNeverDisowned | service/preset.go:140-156 | a request that created anything is answered 200, and a 400 touched no provider |
| Registration.RunsAreBounded | service/preset.go:94-164 | no run takes more steps than its requests have commands and calls left |
| Registration.AtRestExactlyWhenAllAnswered | service/preset.go:94-164 | nothing more can happen exactly when every request is answered |
| ReportedIds.ReportedIdsStayExactly | service/preset.go:94-153 | over all runs from any start, every id reported for a provider is and stays the id stored if and only if the requests do not contend for it at the start |
| ReportedIds.ReportedIdStays | service/preset.go:136-153 | in particular when the provider was mapped from the start or no other request for the name lists it |
| ReportedIds.ContendedIdIsReplaced | service/preset.go:136-153 | from every contended start some run ends with a reported id replaced |
| StoredExtensions.ExtensionsComeFromRequests | service/preset.go:94-153 | in every run a stored extension is the one stored at first, or for a name absent at first that of some request for the name |
| Service.GetMissingProviders | service/preset.go:169-177 | the append loop computes the requested providers without a mapping, in order |
| Service.MissingAreTheUnmapped | service/preset.go:169-177 | a provider is missing exactly when it is requested and not mapped, as often as it is requested |
| Service.MissingInOrder | service/preset.go:169-177 | the missing providers are the requested ones at the unmapped places, in the order requested |
| Service.MergeStored | service/service.go:150-152 | the merge loop overwrites the record's ids with the stored ones |
| Service.CallProviders | service/preset.go:120-138 | the provider loop takes the request through its remote calls |
| Service.Begin | service/preset.go:94-118 | the lookup takes the request through its first step |
| Service.UpdatePresetMapResolvingConflicts | service/service.go:144-160 | the conflict path acts as the protocol's steps run alone; the final store has every stored id as it was, the record's own ids for the other providers, and the record's extension |
| Service.Finish | service/preset.go:140-156 | the writing phase acts as the protocol's steps run alone, with the same status |
| Service.NewPreset | service/preset.go:73-164 | the whole handler acts as the steps of one request run alone; on a 200 the record read from Redis has the request's extension for a new name and else the stored one, and its mapping is the old one with exactly the ids of the successful calls; the response has an entry for each provider according to its outcome |
| Service.AloneReportsWhatItStores | service/preset.go:94-164 | a lone request answers 400 exactly for a new name without an extension, changes nothing unless it answers 200, has an entry for exactly the providers asked for or mapped, and each id it reports is the one then stored |
| Service.AloneStoresOutcomes | service/preset.go:94-153 | a lone request answered 200 stores the extension and the mapping just said and changes no other name |
| Service.AloneReportsOutcomes | service/preset.go:101-138 | what a lone request not answered 400 reports of each provider is decided by the stored mapping and the outcomes of its calls, in order |
| JobScores.ToFloatIsNearest | db/redis/job.go:34 | for every integer, negative ones too, the conversion answers a number that a double represents, none is nearer, and of two as near it takes the even one |
| JobScores.ScoresAreMonotone | db/redis/job.go:34 | scores never reorder two times |
| JobScores.MillisecondsStayApart | db/redis/job.go:19-34 | scores of times in milliseconds are ordered exactly as the times, over all of int64 |
| JobScores.SpacingOfOurDay | db/redis/job.go:34 | from 2^60 to 2^61 nanoseconds neighbouring scores are 256 apart |
| JobScores.NanosecondsAreBlurred | db/redis/job.go:61 | two times a nanosecond apart with one score |
| JobListing.SelectsExactlyWhenSharp | db/redis/job.go:60-68 | every past job is in range exactly when created at or after `Since`, if and only if `Since` is scored above the last millisecond before it |
| JobListing.MillisecondsAreSharp | db/redis/job_test.go:283 | that is so of every `Since` in milliseconds, and of the zero `Since` of an unfiltered listing |
| JobListing.SharpUnlessJustAfterMillisecond | db/redis/job.go:61 | and of every other, unless it lies within some two microseconds after a millisecond |
| JobListing.ListingSelectsByCreation | db/redis/job.go:58-71 | for a sharp `Since` a listing selects past jobs at or after `Since`, in creation order, at most `Limit`, and omits one only when the limit is full of jobs no younger |
| JobListing.BlurredSinceSelectsEarlierJob | db/redis/job.go:61 | a nanosecond after a millisecond of our day is not sharp and selects an earlier job |
| JobListing.MemoryJobs.FindJob | db/dbtest/fake_db.go:69-82 | the scan finds the first job with the id |
| JobListing.MemoryJobs.ShiftDown | db/dbtest/fake_db.go:51-53 | shifting in place closes the gap |
| JobListing.MemoryJobs.DeleteJob | db/dbtest/fake_db.go:43-56 | exactly the first job with the id is removed, or nothing changes |
| JobListing.MemoryJobs.ListJobs | db/dbtest/fake_db.go:84-98 | the loop answers the jobs at or after `Since`, cut at the limit |
| JobListing.ListingsAgree | db/dbtest/fake_db.go:84-98 | for a sharp `Since`, Redis answers as many jobs as the test double, with the same creation times in the same order, and the very same jobs when no two were created in one millisecond |
| JobStore.StepKeepsInv | db/redis/job.go:23-47 | every command of any task, and every new task, keeps the invariant |
| JobStore.GapsAreExactlyMidOperation | db/redis/job.go:23-47 | in every reachable state a hash without an index entry is exactly a job mid-creation, and an index entry without a hash exactly one mid-deletion |
| JobStore.AgreeAtRest | db/redis/job.go:23-47 | with nothing under way, hashes and index name the same jobs |
| JobDiscipline.SafeExactlyWhenPermitted | db/redis/job.go:23-47 | from every state that permitted tasks lead to, ids used again or not, issuing a creation or deletion keeps hash and index in agreement in every continuation by permitted tasks if and only if it is permitted: no task of the other kind is under way for the id |
| JobDiscipline.AgreeAtRestWithReuse | db/redis/job.go:23-47 | under that discipline alone, with nothing under way, hashes and index name the same jobs |
| JobDiscipline.OverlappingDeleteBreaks | db/redis/job.go:29-46 | beside any unreturned creation a deletion can end with the id indexed and its hash gone |
| JobDiscipline.CreateDuringDeleteBreaks | db/redis/job.go:29-46 | a creation between DEL and ZREM can end with a hash that is not indexed |
| JobDiscipline.OverlappingDeleteOrphans | db/redis/job.go:29-46 | from any state reached without using ids again, an overlapping deletion can leave an entry with nothing under way for it |
| JobDiscipline.OrphanIsForGood | db/redis/job.go:23-47 | while ids are not used again, no sequence of steps mends such an entry |
| JobStore.ListingLosesOnlyDeleted | db/redis/job.go:58-83 | a listing answers only jobs as their creation saved them, and of those selected leaves out only ones deleted by its end |
| JobStore.ReadsComeFromTheStore | db/redis/job.go:73-81 | a job is returned only if its hash was in the store when read |
| JobStore.AnsweredExactly | db/redis/job.go:72-82 | the answer holds exactly the hashes found |
| JobStore.IndexHoldsCreationTimes | db/redis/job.go:34 | in every reachable state the index scores are the creation times |
| JobStore.EveryListingSelectsByCreation | db/redis/job.go:58-71 | so in every run a listing with a sharp `Since` selects and orders the jobs created by the time it read its clock by creation time |
| JobRepository.RedisJobs.CreateJob | db/redis/job.go:15-36 | the method issues the creation's commands, in order |
| JobRepository.RedisJobs.DeleteJob | db/redis/job.go:38-47 | the method issues the deletion's commands |
| JobRepository.RedisJobs.ListJobs | db/redis/job.go:72-82 | the loop reads and answers as the listing's steps |
| JobRepository.CreateStores | db/redis/job.go:15-36 | a creation with an id lays the job's details and its id over the hash and scores the id by its creation time unless it is indexed; one without an id changes nothing |
| JobRepository.DeleteForgets | db/redis/job.go:38-47 | a deletion removes exactly the hash and the index entry, or answers not found and changes nothing |
| JobRepository.DeleteUndoesCreate | db/redis/job.go:15-47 | creating a job and deleting it gives the store back |
| SpliceCollector.SendNeverBlocks | provider/bitmovin/bitmovin.go:313-336 | a pending worker can always send, whatever the collector does |
| SpliceCollector.AtRestExactlyWhenAllReceived | provider/bitmovin/bitmovin.go:313-364 | the collector never waits for ever: nothing more can happen exactly when every report was received, which is after one send and one receive each |
| SpliceCollector.ReceivedIsAnArrivalOrder | provider/bitmovin/bitmovin.go:353-364 | when nothing more can happen, what was received is a permutation of the positions |
| SpliceCollector.SpliceOrderForEveryArrival | provider/bitmovin/bitmovin.go:353-370 | for every arrival order the sorted list is in splice order at positions 0 to n-1 with one main entry, the first to arrive |
| SpliceCollector.Collect | provider/bitmovin/bitmovin.go:302-378 | nothing to splice gives the source, one range its stream, more the concatenation; any failed trim gives the error of the first failure to arrive |
| OutputFanIn.CreateOutput | provider/bitmovin/bitmovin.go:459-531 | a worker that does not fail makes each stream of its preset, audio before video, followed by its filters 0 to k-1, then the container lookup and the muxing; one that fails makes a proper beginning of these that ends in the call that failed |
| OutputFanIn.PlanIsTheOnlyOne | provider/bitmovin/bitmovin.go:459-531 | there is one such sequence of calls for a preset, as long as the worker counts |
| OutputFanIn.StartedWithItsCalls | provider/bitmovin/bitmovin.go:384-399 | a worker is started with as many calls left as that sequence has |
| OutputFanIn.NoPanicAndAtMostOneSend | provider/bitmovin/bitmovin.go:384-407 | in every interleaving no worker sends on the closed channel, none sends twice and the WaitGroup stays non-negative |
| OutputFanIn.StartedOnlyAfterEveryOutput | provider/bitmovin/bitmovin.go:409-438 | the encoding is started only when every worker has gone without an error |
| OutputFanIn.RunsAreBounded | provider/bitmovin/bitmovin.go:384-415 | executions are bounded by the work left |
| OutputFanIn.RestIsStartedOrFailed | provider/bitmovin/bitmovin.go:409-415 | an execution that cannot continue has started the encoding, exactly when nobody failed, or has failed |
| OutputFanIn.ErrorFreeRunsStart | provider/bitmovin/bitmovin.go:384-438 | error-free executions end by starting the encoding |
| OutputFanIn.LeaksExactlyWhenTwoOutputsFailed | provider/bitmovin/bitmovin.go:409-414 | at rest a worker is left blocked exactly when two or more outputs failed |
| OutputFanIn.SecondFailureBlocks | provider/bitmovin/bitmovin.go:384-414 | an execution of two outputs that ends with the second's worker and the closer blocked |
| Paging.ListAll | provider/bitmovin/internal/container/mp4.go:53-66 | the loop ends having fetched exactly the list, in order, in one call for each hundred begun, unless one of those calls fails |
| Paging.Enrich | provider/bitmovin/internal/container/progressive_webm.go:52-95 | one file per listed item is appended, or on a failure those before it |
| JobGraph.CreateJobReq | provider/hybrik/hybrik.go:186-224 | the loops build the flattened layers and the links between neighbours |
| JobGraph.EnrichWithPackaging | provider/hybrik/packaging.go:78-101 | one element is added, fed by the whole last layer |
| JobGraph.EdgesJoinNeighbours | provider/hybrik/hybrik.go:190-208 | an edge leads from u to v if and only if they are in neighbouring layers |
| JobGraph.EdgesAscend | provider/hybrik/hybrik.go:190-215 | both ends of an edge are listed, the source first |
| JobGraph.Acyclic | provider/hybrik/hybrik.go:186-208 | no path returns to its start |
| JobGraph.ReachableExactly | provider/hybrik/hybrik.go:186-208 | an element is reachable from the source if and only if no earlier layer is empty |
| JobGraph.WholeJobIsReachable | provider/hybrik/hybrik.go:186-224 | with non-empty groups every element is reachable |
| JobGraph.PackagerIsTheSink | provider/hybrik/packaging.go:89-101 | packaging's incoming edges are from exactly the last layer and none leaves it |
| AudioElements.AudioElementsFrom | provider/hybrik/preset_mapping.go:156-191 | one encode per hash of a used configuration, numbered in its UID and file name, for any iteration orders; without collisions it fails exactly on a bitrate that is not a number |
| AudioElements.FilesDiffer | provider/hybrik/preset_mapping.go:178 | two encodes never write one file, whatever their codecs |
| AudioElements.OneEncodePerConfiguration | provider/hybrik/preset_mapping.go:156-191 | without collisions there is one encode per distinct configuration, each with its own file |
| AudioElements.FoundAgainExactlyWithoutCollision | provider/hybrik/element_assemblers.go:96-110 | every used configuration finds its own encode if and only if no two used ones share a hash |
| Assemblers.OutputCfgsFrom | provider/hybrik/job_mapping.go:76-98 | one configuration per preset name, from the last output to name it; an unknown preset is an error |
| Assemblers.OutputsSurviveExactly | provider/hybrik/job_mapping.go:91-94 | every output keeps its file if and only if no two outputs with one preset name different files |
| Assemblers.DolbyVisionOnAllPresets | provider/hybrik/hdr.go:135-153 | mixed presets are refused, and otherwise the answer is whether all are Dolby Vision |
| Assemblers.DefaultElementAssembler | provider/hybrik/element_assemblers.go:27-43 | one numbered transcode per configuration, in any iteration order |
| Assemblers.DolbyVisionLegacyElementAssembler | provider/hybrik/legacy_dovi.go:37-83 | one element holding a numbered transcode per file name, if every preset can be transcoded; otherwise a refusal, unless each file has one that can |
| Assemblers.DolbyVisionElementAssembler | provider/hybrik/element_assemblers.go:45-150 | quality control and audio first, then one encode per file with the streams its audio hash names; it succeeds when every preset can be transcoded and every used bitrate is a number |
| Assemblers.MuxedWithOwnAudio | provider/hybrik/element_assemblers.go:87-110 | without collisions a preset with audio is muxed with its own configuration's encode |
| Assemblers.DefaultJobIsDistinct | provider/hybrik/element_assemblers.go:30-42 | all UIDs of a default job differ, with or without packaging |
| Assemblers.LegacyJobIsDistinct | provider/hybrik/legacy_dovi.go:82-84 | the same for the legacy Dolby Vision job |
| Assemblers.DolbyVisionJobIsDistinct | provider/hybrik/element_assemblers.go:64-150 | the same for the Dolby Vision job that is switched off |
| JobRequests.CreateJobReqFrom | provider/hybrik/hybrik.go:124-226 | refused exactly, and in this order, for an unrecognised storage, execution features that do not parse, an unknown preset, presets of both kinds, or (unless Dolby Vision outputs share a file) a preset that cannot be built; a request begins with the source, then transcodes the file of every output that is the last of its preset and of no other, in the one Encode of a Dolby Vision job, and ends with a packager, fed by exactly the last group, if and only if the job is packaged; its elements have distinct UIDs, its edges join neighbouring groups, and with outputs all is reachable from the source |
| TranscodeTargets.PipelineInOrder | provider/hybrik/preset_mapping.go:105-153 | the pipeline is rate control, HDR, MXF, each run or not |
| TranscodeTargets.PipelineIsSafeAndComplete | provider/hybrik/preset_mapping.go:58-127 | for every preset no nil pointer is followed, success has an exact condition, and every applicable effect is in the final target |
| TranscodeTargets.SafeExactlyWhenHdrComesFirst | provider/hybrik/mxf.go:24-27 | over every order and choice of the modifiers, an HDR10 target that none refuses ends in a nil block if and only if MXF comes before HDR |
| TranscodeTargets.VariableBitrateBrackets | provider/hybrik/rate_control.go:43-58 | the limits are ten percent off the bitrate, rounded toward zero, no product overflows, and they enclose it if and only if it is above -1000 |
| TranscodeTargets.RefusedExactly | provider/hybrik/preset_mapping.go:58-127 | the assemblers refuse exactly the presets whose transcode fails |
| TranscodeTargets.TranscodedExactly | provider/hybrik/preset_mapping.go:58-127 | a preset is transcoded if and only if its container, rate control, numbers, GOP and profile are written as the code accepts them |
| TranscodeTargets.TranscodedAs | provider/hybrik/preset_mapping.go:58-127 | every field of the final target is then told from the preset's own texts |
| Modifiers.EnrichWithRateControl | provider/hybrik/rate_control.go:25-54 | for any number of targets each becomes what the modifier makes of it, through its pointer |
| Modifiers.EnrichWithHDRMetadata | provider/hybrik/hdr.go:39-94 | the same, with new HDR10 blocks that nothing else points to; it fails only on a profile other than main10 |
| Modifiers.ModifyForMXFSources | provider/hybrik/mxf.go:10-33 | the same for copies whose pointers lead to the shared blocks |
| Modifiers.TranscodePayloadFrom | provider/hybrik/preset_mapping.go:58-110 | the code runs without following nil, succeeds exactly for an acceptable preset, and its payload has the one target that the preset's texts tell, with a ten-bit encoder exactly for HDR10 or Dolby Vision |
| Scanner.ScanIsExact | provider/mediaconvert/hdr.go:49 | matches that cannot overlap are all found, each at its position |
| Scanner.PositionsAscend | provider/mediaconvert/hdr.go:49 | matches are found from left to right |
| Scanner.ScanOfConcatenated | provider/mediaconvert/hdr.go:49 | scanning concatenated texts finds them back |
| MasterDisplay.PrefixMatchesExactlyTokens | provider/mediaconvert/hdr.go:21-25 | the expression matches at a position exactly the tokens spelled "G(", "B(", "R(", "WP(" or "L(", digits, ",", digits, ")" |
| MasterDisplay.MatchesAreExactlyTheTokens | provider/mediaconvert/hdr.go:49 | the matches are exactly the tokens written in the string |
| MasterDisplay.PartsHoldNumbers | provider/mediaconvert/hdr.go:63-71 | each part of a match yields its number, refused beyond 64 bits |
| MasterDisplay.CollectSubmatch | provider/mediaconvert/hdr.go:54-73 | one submatch is passed over, stored or refused |
| MasterDisplay.CollectSubmatches | provider/mediaconvert/hdr.go:53-74 | a match stores its numbers under the whole and its group |
| MasterDisplay.ParseMasterDisplay | provider/mediaconvert/hdr.go:46-93 | the nested loops compute the answer for the matches |
| MasterDisplay.ParsesExactly | provider/mediaconvert/hdr.go:46-93 | over all strings, parsing succeeds if and only if all five groups occur and every matched number fits 64 bits |
| MasterDisplay.LastTokenCounts | provider/mediaconvert/hdr.go:73 | the numbers answered for a group are those written last |
| MasterDisplay.PrintedTextParsesExactly | provider/mediaconvert/hdr.go:46-93 | printed groups, in any order and number, parse if and only if all five occur and fit |
| MasterDisplay.ParseInvertsPrint | provider/mediaconvert/hdr.go:46-93 | and give back the values printed |
| MasterDisplay.WrittenDisplayComesBack | provider/mediaconvert/hdr.go:46-93 | a display written with those letters, its groups in any order, is answered with each field as it was: green, blue, red, white point and luminance |
| PathNames.NameRestoredExactly | provider/mediaconvert/mediaconvert.go:190-192 | name modifier and extension give the base name back if and only if the name carries the extension and from its first occurrence only repeats it |
| PathNames.OnlyAtEndCarries | provider/mediaconvert/mediaconvert.go:190-192 | in particular when the extension occurs only at the end |
| PathNames.ExtIsTheLast | provider/mediaconvert/mediaconvert.go:190 | an extension is what follows the last dot of the last element, with its dot, or empty if there is no dot |
| PathNames.BaseIsTheLastElement | provider/mediaconvert/mediaconvert.go:191 | a base name is the last element between slashes, "." of an empty path and "/" of slashes alone |
| OutputGroups.CollectByContainer | provider/mediaconvert/mediaconvert.go:154-182 | the first loop files each output under its container, in job order, or fails on one without settings or container |
| OutputGroups.OutputGroupsFrom | provider/mediaconvert/mediaconvert.go:153-251 | one group per container, for any iteration order: CMAF for cmfc and HLS for m3u8 at the destination, a file group under "m" for mp4, mov, webm and mxf, each with its outputs' names in job order; it fails exactly on an unresolved output or an unsupported container |
| OutputGroups.ExtensionIsGivenWithoutDot | provider/mediaconvert/mediaconvert.go:190-199 | an output's extension is that of its file name without the dot |
| OutputGroups.GroupingIsAStablePartition | provider/mediaconvert/mediaconvert.go:178-201 | each output has exactly one place, in its container's group, and groups keep job order |
| OutputGroups.JobFilesFrom | provider/mediaconvert/mediaconvert.go:316-353 | the nested loops compute the files of the groups |
| OutputGroups.EchoedJobListsItsFiles | provider/mediaconvert/mediaconvert.go:316-353 | when the provider echoes the groups, the files are those of the job's outputs, group by group |
| OutputGroups.ListsEveryFileOutputOnce | provider/mediaconvert/mediaconvert.go:316-398 | the files listed for an echoed job, with their multiplicities, are those that its mp4, mov and webm outputs are listed as |
| OutputGroups.FilesAreExactlyTheOutputs | provider/mediaconvert/mediaconvert.go:316-353 | a file is listed for an echoed job if and only if it is some mp4, mov or webm output's |
| OutputGroups.FilesAreAtBaseNames | provider/mediaconvert/mediaconvert.go:190-353 | when such outputs carry their extension, the paths listed are exactly destination, "m" and their base names |
| OutputGroups.ListedAtBaseNameExactly | provider/mediaconvert/mediaconvert.go:326-328 | an output is listed at destination, "m" and base name if and only if its name carries its container's extension |
| AudioSplit.Unmute | provider/mediaconvert/preset_mapping.go:319-323 | a fresh copy with one channel opened; the given gains stay |
| AudioSplit.Split | provider/mediaconvert/preset_mapping.go:325-354 | n descriptions with the n gain rows, at 0 for the one open channel and -60 elsewhere, sharing one codec object that now says one channel, reading n channels in |
| AudioSplit.RowsSplitTheInput | provider/mediaconvert/preset_mapping.go:337-346 | each row opens one channel and each channel is open in one row |
| Crop.CropIsEvenAndInside | provider/mediaconvert/preset_mapping.go:242-268 | the rectangle is even, is within one of the offsets on every side, and is inside the source under an exact condition |
| Crop.LeftAloneExactly | provider/mediaconvert/preset_mapping.go:242-253 | nothing is cropped exactly when all offsets are zero or a dimension is not positive |

## Left out

- Time and floating-point leaves of the codec: their text formats are not modelled, so they are not kinds of leaf here.
- Nil and empty slices are one value; the codec cannot tell them apart either.
- The codec's destination is a value that the load loops rebuild field by field, so aliasing between parts of a destination is not captured.
- `Overlays` of presets, whose slice cannot be expanded: saving one is an error.
- The serialisation of `video.Framerate`, `video.Crop` and `timecode.Splice`.
- Errors of the Redis connection and of the network; every Redis command here succeeds.
- The test double's error switch, and its sharing of record pointers with its callers: records here are values.
- The clock: creation times and the present are parameters; of a job created after a listing read its clock nothing is promised.
- JobListing.ListingsAgree: of jobs created in the same millisecond only the times agree, because Redis orders them by id and the test double by insertion.
- JobRecord.JobReturnsExactlyWhenCarried: a job's creation time stands for its printed text; that Go's `time` parses what it prints is not modelled.
- Registration.StoredProvidersOnlyGrow: the requests are `newPreset` ones; a `deletePreset` beside them, which takes names away, is modelled only as far as the hash and the index entry go.
- JobRequests.CreateJobReqFrom: whether a location's storage is recognised and whether execution features parse are parameters, because URL and JSON parsing are not modelled.
- Modifiers.RunModifier: runs on the single target that the code builds; the three modifiers themselves are proved for any number.
- JobRepository.RedisJobs.ListJobs: what ZRANGEBYSCORE answers is a parameter that satisfies its documented order.
- Remote calls of Bitmovin, Hybrik and MediaConvert succeed with an id or fail; the fields of their payloads that play no part in a property, and Bitmovin's concatenation call itself, are not modelled.
- Fields of Hybrik's video target that no modifier reads or writes, such as its size and GOP settings.
- Payload text of the Dolby Vision elements, and the contents of storage locations, compute tags and execution features.
- Lower-casing beyond ASCII letters.
- Local presets, but for the HDR settings of their videos, and preset summaries: both repeat the preset-map repository.
- HTTP handlers, swagger responses, configuration, tracing, provider registration and the codec tables of the providers.
