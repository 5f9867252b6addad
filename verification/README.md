# repohost, verified

repohost publishes apt and yum repositories by rewriting objects in a key/value bucket. This project models the code
that decides what is written, and proves what a repository relies on:

- the two version orders, loops and all, as the total preorders they are meant to be;
- pruning by rank, and that pruning after every upload is pruning once at the end, exactly as far as ties and, for yum,
  lowered epochs allow;
- that an index reads back as what was written, since it is the only memory the apt publisher has, and what a reader finds
  in a Release file and in a repomd.xml;
- the two publishers as state machines over a store that may fail at any call: what holds after every successful run,
  what holds at every moment between two writes, and what running an operation again leaves that was interrupted any
  number of times;
- that an apt and a yum repository share a bucket without noticing each other.

## How it is modelled

| module | what it holds |
|---|---|
| Text, Numbers, Paths, Sorting, Wrappers | the few functions of Go's library that the code calls |
| Lexicographic, DebVersion, RpmVersion | the version orders: normal forms, the order on them, and the loops that compute it |
| Ranking, Retention, RetentionLaws | pruning: the counting specification, the method, and the laws the publishers need |
| Arrivals | items arriving one by one, pruned after each: what may be left, with ties or without |
| Control, ControlRoundTrip, Ar, DebFiles | control paragraphs and ar archives, read and written, and which member of a .deb counts |
| Storage, Outcome | buckets, writes, a store that serves so many calls and then fails, and how operations end |
| Apt, AptKeys, AptPublisher | the apt publisher: plans, keys, and the class that carries the plans out |
| AptState, AptInvariant, AptRuns, AptReleaseText, AptRelease, AptRetention, AptHealing, AptRemoval | what its runs keep, and what running an operation again does |
| AptOwnFields | what a control paragraph with a Filename of its own leads to |
| Yum, YumKeys, YumPublisher | the yum publisher, likewise |
| YumSafety, YumState, YumRuns, YumDocuments, YumRetention, YumEpochs, YumHealing, YumRemoval | what its runs keep, and what holds in between |
| AptInstance, YumInstance | libraries and packages that meet the hypotheses below, and runs that show why some of these are needed |
| Interleaving, AptProgram, YumProgram, Coexistence | both publishers as programs of single store calls, taking turns |

An operation is given as a *plan*: the writes it makes in a given bucket, in order, and whether it gets to its end. The
methods of the two `Publisher` classes follow the source's control flow and are proved to make exactly the writes of the
plan, or, when the store fails them, the first so many. The theorems about runs are about plans.

Byte strings are `string`s of which only ASCII letters are folded and ASCII white space is trimmed. Digests, compression,
JSON, XML, the reading of a .deb's control file and of an RPM header, sorting, signing and the order of a listing are
function parameters; dates and timestamps are arguments. A repository is described independently of the bucket: for apt
by a map from indexes to the .deb files in them, for yum by the entries of the manifest.

## Hypotheses

- Library functions: what is compressed, encoded or marshalled can be read back; digests are words, and for yum
  different contents have different SHA-256 sums; a listing names each key once; `slices.SortFunc` permutes its input and
  sorts it when the comparison is an order. AptInstance and YumInstance give libraries of which all this is true, and
  files for every package.
- Epochs in runs are not negative, and those of RPMs fit a machine integer. The comparisons themselves need only epochs
  less than 2^63 apart; `CompareIsKeyOrderExact` and `CompareIsTrueOrderExact` show what happens otherwise.
- Package names, versions and architectures keep to the character sets of Debian and RPM, as far as `GoodPackage`,
  `GoodName`, `GoodHeader` and `SafeHeader` say. No two packages then share a file; without any one of the three conditions
  that `GoodHeader` adds some do (`DashInVersionCollides`, `DashInReleaseCollides`, `DotInArchitectureCollides`). Crash
  safety needs only `SafeHeader`: no tag of an RPM holds a slash, and its name does not begin with a dot. One name and
  architecture is one group of builds as long as no name holds a NUL (`GroupKeyInjective`).
- A control paragraph does not carry the five fields that Add appends, and no line of a value ends in CR.
  `EntryFieldsExact` says when an index entry is of its file, and `OwnFilenameDeletes` what happens otherwise: pruning
  deletes whatever the paragraph names. `RoundTripExact` shows that the condition on CRs is needed, and `DoubleCRStays`
  that the parser does not see to it.
- Component and distribution are single path elements, and a bucket holds one distribution. What a reader finds in a
  Release file is stated for settings, components and architectures that stay on one line.
- KeepVersions and the signer do not change during a run, except where crash safety is concerned: there they may.
- What the indexes hold after any sequence of Adds and Removes is stated by what *stands*: what the last Remove left, and
  what was added since. It is stated as two bounds, and as one set when no tie is at the cut: when no version is among the
  newest keepVersions or not as versions that compare as equal to it count as newer or not. Different versions do compare
  as equal: 1 and 01, for one, or 1.0 and 1_0 (`SpellingsTie`, `TiedAdds`). For yum these bounds are for runs in which a
  build that stands is not added again at a lower epoch. Whatever the epochs, where nothing ties the newest are listed
  exactly as long as no Add takes a listed build down below one that is not listed (`OnlineIsOfflineExact`); when one does,
  a build that is newer is lost (`LoweredEpochLosesNewer`), as in the run of `LoweredAdd`.
- A run, where one is mentioned, starts in an empty bucket.

## Model

| member | source | states |
|---|---|---|
| DebVersion.VerRevCmp | internal/deb/version.go:67-117 | the loop computes the lexicographic order of (weighted non-digit run, number) pairs, a missing pair counting as empty run and 0; it ends on all strings |
| DebVersion.DigitPass | internal/deb/version.go:99-105 | the first differing digit decides between numbers of the same length, of any length, without reading them as integers |
| DebVersion.LongerNumber | internal/deb/version.go:89-111 | leading zeros aside, the number with digits left is the larger |
| DebVersion.TildeComesFirst | internal/deb/version.go:119-134 | after any common beginning a tilde comes before the end and before every other character but a digit |
| DebVersion.EndComesNext | internal/deb/version.go:119-134 | the end comes before every character but a tilde and a digit |
| DebVersion.LettersComeBeforeOthers | internal/deb/version.go:119-134 | letters come in byte order, before the other characters, and these in byte order |
| DebVersion.NumberAgainstOther | internal/deb/version.go:71-87 | where no number is under way, a digit comes after a tilde and before any other character |
| DebVersion.NumbersDecide | internal/deb/version.go:89-116 | whole numbers in the same place decide by their values, and when these are the same, what follows does |
| DebVersion.ComponentOrderZero | internal/deb/version.go:67-117 | two components compare as equal exactly when their normal forms are the same |
| DebVersion.CompareVersionStrings | internal/deb/version.go:31-42 | epoch, upstream version and revision are compared in this order, by the loop |
| DebVersion.SplitOfPrint | internal/deb/version.go:44-62 | a version is cut at its first colon and last dash: epoch, upstream version and revision come back from the text they were put together to, for every int64 epoch, if and only if the revision has no dash |
| DebVersion.SplitLeniently | internal/deb/version.go:44-62 | what is no number before a colon belongs to the version, and the epoch is 0 |
| DebVersion.UpstreamComesFirst | internal/deb/version.go:31-42 | without epochs the upstream versions decide, and the revisions when these do not |
| DebVersion.EpochComesFirst | internal/deb/version.go:31-42 | different epochs less than 2^63 apart decide, whatever follows them |
| DebVersion.CompareIsKeyOrderExact | internal/deb/version.go:31-62 | the result is the order of (epoch, upstream, revision) keys if and only if the machine subtraction of the epochs does not overflow |
| DebVersion.SignedEpochsBreakTheOrder | internal/deb/version.go:31-62 | two versions with signed epochs each of which sorts before the other |
| DebVersion.CompareAntisymmetric | internal/deb/version.go:31-42 | on all strings: 0 exactly on equal keys, and antisymmetric if and only if the epochs are not 2^63 apart |
| DebVersion.CompareTransitive | internal/deb/version.go:31-42 | transitive on all strings whose epochs are pairwise less than 2^63 apart |
| DebVersion.NumbersCompare | internal/deb/version.go:89-111 | versions that are numbers compare as numbers, with however many zeros they are written; they tie when they are the same number |
| RpmVersion.SkipSeparators | internal/rpm/version.go:109-116 | separators end where it says, and skipping them leaves the tokens as they are |
| RpmVersion.CompareSegment | internal/rpm/version.go:163-205 | one segment, its kind chosen by the first string alone, decides as the first tokens of both do, or leaves the rest to decide |
| RpmVersion.NumericOrder | internal/rpm/version.go:194-204 | trimmed length, then byte order, is the order of the numbers, whatever their length |
| RpmVersion.NumbersCompare | internal/rpm/version.go:194-204 | components that are numbers compare as numbers, with however many zeros they are written |
| RpmVersion.TildeComesFirst | internal/rpm/version.go:119-134 | after any common beginning a tilde comes before the end, before a caret, and before a word or a number that is set off by a separator |
| RpmVersion.CaretComesNext | internal/rpm/version.go:137-157 | a caret comes after the end and before such a word or number |
| RpmVersion.WordsComeBeforeNumbers | internal/rpm/version.go:163-219 | the end comes before words, and words before numbers |
| RpmVersion.WordsDecide | internal/rpm/version.go:163-205 | whole words after a common beginning and a separator decide by their bytes, and when these are the same, what follows does |
| RpmVersion.NumbersDecide | internal/rpm/version.go:163-205 | whole numbers do by their values |
| RpmVersion.SeparatorsTie | internal/rpm/version.go:109-116 | which characters separate two parts does not matter; between digits and letters, or before a tilde or a caret, it does not matter whether any do |
| RpmVersion.VerCmp | internal/rpm/version.go:67-107 | the loop computes the lexicographic order of token lists under Tilde < End < Caret < Alpha < Num; it ends on all strings |
| RpmVersion.ComponentOrderZero | internal/rpm/version.go:67-107 | two components compare as equal exactly when their token lists are the same |
| RpmVersion.CompareVersionStrings | internal/rpm/version.go:31-42 | epoch, version and release are compared in this order, by the loop |
| RpmVersion.SplitLeniently | internal/rpm/version.go:44-61 | what is no number before a colon belongs to the version, which ends at the first dash |
| RpmVersion.VersionComesFirst | internal/rpm/version.go:31-42 | without epochs the versions decide, and the releases when these do not |
| RpmVersion.CompareIsTrueOrderExact | internal/rpm/version.go:31-42 | the result is the fieldwise order if and only if the machine subtraction of the epochs does not overflow |
| RpmVersion.CompareAntisymmetric | internal/rpm/version.go:31-42 | 0 exactly on the same epoch and the same tokens, and antisymmetric if and only if the epochs are not 2^63 apart |
| RpmVersion.CompareTransitive | internal/rpm/version.go:31-42 | transitive when the epochs are pairwise less than 2^63 apart |
| RpmVersion.SplitOfPrint | internal/rpm/metadata.go:154-156 | splitEVR undoes EVR() if and only if the version has no dash |
| RpmVersion.ComparePrinted | internal/rpm/version.go:47-61 | comparing printed EVR strings is comparing the fields they were printed from |
| Retention.SortStable | internal/retention/retention.go:46-51 | the sorted indices are newest first, equal ones in input order |
| Retention.PositionIsRank | internal/retention/retention.go:46-58 | an item's place in its sorted group is the number of items that are newer, or as new and earlier |
| Retention.DropOf | internal/retention/retention.go:42-59 | a group loses exactly the items with keep or more ahead of them |
| Retention.Prune | internal/retention/retention.go:34-71 | both results are those of the counting specification, in whatever order the map of groups is walked |
| RetentionLaws.PruneByRank | internal/retention/retention.go:23-33 | both results keep input order; item i is removed exactly when keep or more items of its group are newer, or as new and earlier |
| RetentionLaws.PruneSplits | internal/retention/retention.go:61-70 | together the results are a permutation of the input |
| RetentionLaws.Cap | internal/retention/retention.go:23-33 | no group retains more than keep items |
| RetentionLaws.PruneAgain | internal/apt/apt.go:216-229 | pruning what has been pruned removes nothing |
| RetentionLaws.PruneOutranked | internal/apt/apt.go:216-229 | an item outranked by a full group is removed again, and nothing else |
| RetentionLaws.RetainedIsTop | internal/retention/retention.go:34-71 | without ties, what is retained is the top of a set, whatever the order of the list |
| Ranking.StreamStepExact | internal/retention/retention.go:34-71 | keeping the top after an arrival that takes the place of its namesake is keeping the top of all if and only if the arrival does not take something at the top down below something that is not there |
| Ranking.FallingLoses | internal/retention/retention.go:34-71 | when it does, what is first below the top belongs to the top of all, comes before the arrival, and is lost |
| Arrivals.SettledStep | internal/apt/apt.go:207-229 | an arrival that takes the place of namesakes no newer than itself, and the pruning after it, keep this: what has few rivals is listed, nothing is listed that has many newer, and of any version's newer ones all are listed or keepVersions |
| Arrivals.LeavesWithinBounds | internal/apt/apt.go:207-229 | whatever the order of the arrivals, and however the list is reordered between them, the outcome lies between two sets that the arrivals determine |
| Arrivals.TiesYield | internal/retention/retention.go:46-58 | what is listed is not driven out by later arrivals that only tie with it |
| Arrivals.LastGoes | internal/retention/retention.go:46-58 | what arrives last goes when keepVersions of the others are as new |
| Arrivals.OrderMattersExactlyForTies | internal/apt/apt.go:207-229 | some reordering of the operations changes the outcome if and only if there is a tie at the cut |
| Control.ParseParagraph | internal/deb/control.go:222-251 | the loop reads the fields up to the end of the paragraph, and gets past at least one line from a line that is not blank |
| Control.ParseFile | internal/deb/control.go:166-188 | the loop over paragraphs ends and reads what the recursive specification reads |
| Control.WriteStanza | internal/deb/control.go:191-208 | the builder writes the specified stanza |
| Control.WritePackages | internal/apt/apt.go:264-273 | the builder writes the specified index, with a blank line between stanzas |
| ControlRoundTrip.ParsedIsWellFormed | internal/deb/control.go:222-251 | fields that were read from a paragraph are in the form that printing preserves |
| ControlRoundTrip.RoundTripExact | internal/deb/control.go:166-251 | reading back a printed list of packages gives the same list, names, versions and architectures included, if and only if no line of a value ends in CR |
| ControlRoundTrip.DoubleCRStays | internal/deb/control.go:253-261 | of two CRs at the end of a line one stays in the value that is read |
| ControlRoundTrip.FieldLine | internal/deb/control.go:238-248 | a line with a name, a colon and a value adds that field, with or without a blank before the value, of which no more than one is dropped |
| ControlRoundTrip.FoldedLine | internal/deb/control.go:229-237 | a line that starts with a blank or a tab is added to the value before it as it is, and is an error where there is none |
| ControlRoundTrip.NoColonLine | internal/deb/control.go:238-241 | any other line without a colon is an error |
| ControlRoundTrip.BlankLine | internal/deb/control.go:166-231 | a blank line ends a paragraph, and any number of them may stand before one |
| ControlRoundTrip.ControlNeeds | internal/deb/control.go:154-220 | a printed paragraph is read as the package of the name, version and architecture it gives, whatever fields follow, and is an error if and only if one of the three is empty; what comes after the first empty line does not matter |
| ControlRoundTrip.BlankStart | internal/deb/control.go:154-162 | a text that starts with a blank line is no control file |
| ControlRoundTrip.PrintedField | internal/deb/control.go:190-208 | a field is printed as its name, a colon, and its value after a blank, which is left out before an empty line |
| ControlRoundTrip.FileText | internal/apt/apt.go:264-273 | between stanzas there is one empty line |
| Ar.ReadAr | internal/deb/ar.go:45-92 | the loop ends on every input and returns the specified members or the specified error |
| Ar.ArchiveIsSliced | internal/deb/ar.go:45-92 | members are in-bounds, disjoint slices of the archive, in order, with room for a header before each |
| Ar.WriteAr | internal/testing/debtest/debtest.go:91-121 | the writer writes the specified archive, padding included |
| Ar.WritableExact | internal/testing/debtest/debtest.go:110-121 | which members fit the fixed-width header |
| Ar.ArRoundTripExact | internal/deb/ar.go:45-92 | reading what the writer wrote gives back the members if and only if no name ends in a blank or a slash |
| Ar.HeaderText | internal/testing/debtest/debtest.go:110-121 | the header is the name, the constant fields, the size and the end mark, each filled up with blanks |
| Ar.MembersAreAligned | internal/testing/debtest/debtest.go:110-121 | the data follows, and a line feed exactly where the next member would start at an odd offset |
| Ar.ShortTail | internal/deb/ar.go:50-59 | white space shorter than a header may follow the last member; anything else there is a truncated header |
| Ar.PaddingMayLack | internal/deb/ar.go:81-89 | the last member may lack its padding |
| Ar.CutShort | internal/deb/ar.go:76-79 | a member cut short fails the whole archive, whatever members stand before it |
| Ar.BadHeader | internal/deb/ar.go:61-75 | so does a header that does not end as headers do or, if it does, states no size |
| DebFiles.FirstControlCounts | internal/deb/control.go:65-84 | in an archive of any members, the first whose name begins with control.tar says what package the file holds, and if it cannot be read, or describes none, the file holds none |
| DebFiles.NoControl | internal/deb/control.go:65-84 | a file without such a member holds no package |
| AptInstance.EveryPackageHasADeb | internal/testing/debtest/debtest.go:91-107 | a .deb of three members, the second of them control.tar, is read as the package it was made for |
| Storage.Store.Put | internal/storage/storage.go:46-47 | overwrites one object, or fails and changes nothing |
| Storage.Store.Delete | internal/storage/storage.go:54-56 | removes one object, which need not exist, or fails and changes nothing |
| Storage.Store.Get | internal/storage/storage.go:49-52 | the object, or that there is none |
| Storage.Store.List | internal/storage/storage.go:58-60 | the keys that begin with the prefix, in the backend's order |
| Outcome.EndsAtPrefix | internal/apt/apt.go:82-120 | however an operation ends, it has made the first so many writes of its plan, and all of them if it succeeds |
| AptKeys.PoolPathInjective | internal/apt/apt.go:277-284 | two packages have the same pool key if and only if component, name, version and architecture agree |
| AptKeys.PoolPathText | internal/apt/apt.go:277-284 | a package is put below its component, the first letter of its name or the first four if these begin with lib, and its name, as name_version_architecture.deb |
| AptKeys.IndexKeyText | internal/apt/apt.go:287-289 | where an index is |
| AptKeys.IndexKeyInjective | internal/apt/apt.go:287-289 | different indexes, and an index and its compressed copy, have different keys |
| AptKeys.SplitBinaryPathInverts | internal/apt/release.go:176-186 | splitBinaryPath gets component and architecture back from an index key |
| AptKeys.SplitBinaryPathExact | internal/apt/release.go:174-186 | a component and an architecture are read from exactly the paths that end in /binary-, the architecture, a slash and a name, the component being all that stands before, slashes included |
| AptKeys.IndexFileExact | internal/apt/release.go:60-63 | the objects that count as indexes are those called Packages or Packages.gz |
| AptKeys.ComponentDirExact | internal/apt/apt.go:135-136 | an index lies under a component's prefix if and only if it is of that component |
| Sorting.SortedKeys | internal/apt/release.go:188-195 | the keys of a set come out in byte order, in whatever order the set is walked |
| AptPublisher.SortEntries | internal/apt/release.go:121-123 | the same entries, ascending by path |
| AptPublisher.Publisher.Rewrite | internal/apt/apt.go:222-241 | pool files are deleted before the index and then its copy are written; cut off, only the first of these writes are made |
| AptPublisher.Publisher.UpdateIndex | internal/apt/apt.go:199-241 | reading, replacing, pruning and rewriting make the writes of the plan |
| AptPublisher.Publisher.PublishRelease | internal/apt/release.go:45-93 | the Release written is the one specified for the bucket as it is now: components, architectures and sorted entries gathered by the loop |
| AptPublisher.Publisher.PutRelease | internal/apt/release.go:88-116 | Release, InRelease and Release.gpg are written in this order; a signer that fails stops after what is written |
| AptPublisher.Publisher.Add | internal/apt/apt.go:82-120 | a bad .deb changes nothing; otherwise upload, index and Release as planned, or a prefix; it reads nothing but its index and what lies below the distribution's directory |
| AptPublisher.Publisher.Remove | internal/apt/apt.go:128-194 | the writes of the plan, or a prefix; the count is that of the first so many indexes, which are those whose pool files are gone, on success all of them; it reads nothing but below the component's directory and the distribution's |
| AptState.IndexReadsBack | internal/apt/apt.go:245-261 | an index written from valid packages is read back as the same entries |
| AptState.EntryFieldsExact | internal/apt/apt.go:103-115 | what is read in an index entry is the key, size and digests of the file that was added if and only if the control paragraph itself says nothing else under those names, in whatever case |
| AptOwnFields.NamedIsDeleted | internal/apt/apt.go:216-229 | an Add that prunes an entry leaves no object under the key the entry names, in whatever bucket |
| AptOwnFields.OwnFilenameDeletes | internal/apt/apt.go:82-241 | two Adds, file by file: the first names any object below pool/ as its file, the second drives it out and the object is gone |
| AptInvariant.RewriteRepresents | internal/apt/apt.go:222-241 | rewriting one index leaves every index and the pool in agreement, other indexes untouched |
| AptRuns.AddRepresents | internal/apt/apt.go:82-120 | an Add takes a bucket that holds a repository to one that holds it with the package added and the index pruned |
| AptRuns.RemoveRepresents | internal/apt/apt.go:128-194 | a Remove takes it to one without the package in any index of the component, and counts what went |
| AptRuns.UnreadableIndex | internal/apt/apt.go:199-205 | an Add to an index that cannot be read uploads the package and does nothing else |
| AptRuns.RemoveStops | internal/apt/apt.go:140-147 | a Remove stops at an index that cannot be read |
| AptRuns.RunRepresents | internal/apt/apt.go:82-194 | after every run of Adds and Removes the bucket holds exactly the repository that the run describes |
| AptRuns.IndexesHold | internal/apt/apt.go:199-241 | every entry's file is there with the recorded size and digests; no name and version twice in an index; no name over the cap |
| AptRuns.PoolHolds | internal/apt/apt.go:82-241 | every pool file belongs to one entry of one index, and to no other |
| AptRuns.ReachableAgrees | internal/apt/apt.go:82-241 | in every reachable state, as read from the bucket: each entry holds, and each pool file is named by an entry |
| AptRuns.AddAllowed | internal/apt/apt.go:216-221 | in every such state the versions an Add compares can be ordered |
| AptRetention.OnlineBounds | internal/apt/apt.go:128-241 | after any sequence of Adds and Removes the stored index lists every version with fewer than keepVersions rivals among those standing, and only versions with fewer than keepVersions newer ones among them |
| AptRetention.OnlineIsOffline | internal/apt/apt.go:128-241 | and without a tie at the cut exactly the newest keepVersions versions of each name among those standing |
| AptRetention.UncappedListsAll | internal/apt/apt.go:207-229 | with keepVersions 0 the index lists all that stands |
| AptRetention.AddsStand | internal/apt/apt.go:199-241 | of Adds only, in whatever order, all stands that was ever added |
| AptRetention.RemoveBringsNothingBack | internal/apt/apt.go:128-194 | a Remove takes the version it names from the stored indexes of its component, and what it frees is not filled from what was pruned |
| AptRetention.OrderMattersExactlyForTies | internal/apt/apt.go:199-241 | some other order of the same Adds leaves another index if and only if there is a tie at the cut |
| AptRetention.SpellingsTie | internal/deb/version.go:89-111 | 1 and 01 of one package are a tie at the cut when there is room for one |
| AptInstance.TiedAdds | internal/apt/apt.go:199-241 | two such Adds, file by file: which version the index lists depends on which came first |
| AptRetention.StoredIsLastAdded | internal/apt/apt.go:82-194 | after any sequence of Adds and Removes every entry of the stored index names a file, and its bytes are those last added under the entry's name and version |
| AptRelease.ReleaseIsDigest | internal/apt/release.go:45-93 | Release lists every Packages and Packages.gz once, sorted, with size and digests of the stored bytes; its architectures are exactly those with an index |
| AptReleaseText.ReleaseReadsBack | internal/apt/release.go:117-174 | a Release file is one paragraph in which Origin, Label, Suite, Codename, Date, Architectures, Components and Description say what they should, or are missing when there is nothing to say, and MD5Sum, SHA1 and SHA256 hold one line per entry, in order, of that entry's own digest, size and path |
| AptRelease.ReleaseAnnounces | internal/apt/release.go:42-140 | read as a control paragraph, the Release file of a bucket that holds a repository gives the settings, exactly the architectures that have an index, these components and the configured ones, and for every index and compressed copy, by path, the digests and the size of the bytes that are stored |
| AptRelease.SignaturesFollow | internal/apt/release.go:84-116 | at no moment of publishing is there a new InRelease or Release.gpg beside an old Release |
| AptRelease.AddPublishes | internal/apt/apt.go:82-120 | a completed Add leaves Release files that describe the bucket it leaves, and the Release file, read where it is stored, announces the repository with the package added |
| AptRelease.RemovePublishes | internal/apt/apt.go:128-194 | so does a completed Remove that removes something: the Release file announces the repository without the package |
| AptHealing.PruneRepeats | internal/apt/apt.go:207-229 | adding a package again to what was kept changes nothing, except that it may be pruned once more |
| AptHealing.CutKeepsUnderway | internal/apt/apt.go:82-241 | an Add stopped after any of its writes, in a state that such an Add has left, leaves such a state again |
| AptHealing.RetriedAddHeals | internal/apt/apt.go:82-241 | an Add stopped after any of its writes, any number of times and at any dates, and then run to its end ends in the bucket of one uninterrupted Add of the last date |
| AptRemoval.AttemptExact | internal/apt/apt.go:128-194 | where a Remove is stopped decides: an index is done with once it has been written, its copy is left behind if it has not been, and nothing else changes |
| AptRemoval.RetriedRemoveExact | internal/apt/apt.go:128-194 | after any tries at a Remove, stopped anywhere and at any dates, a Remove run again does and reports what is left as long as an index lists the package, and ends in the bucket of one that was never stopped if and only if no copy was left behind; once no index lists the package it does nothing and reports 0, so that Release files not written by then stay as they are |
| YumKeys.PoolPathInjective | internal/yum/yum.go:341-344 | two packages have the same key if and only if name, version, release and architecture agree |
| YumKeys.PoolPathText | internal/yum/yum.go:339-344 | a package is put below the first letter of its name, in lower case, as name-version-release.architecture.rpm |
| YumKeys.DashInVersionCollides | internal/rpm/metadata.go:159-161 | moving a dash between name and version gives two packages with the same key, of which one meets every condition and the other all but that on versions |
| YumKeys.DashInReleaseCollides | internal/rpm/metadata.go:159-161 | likewise for a dash in the release |
| YumKeys.DotInArchitectureCollides | internal/rpm/metadata.go:159-161 | likewise for a dot in the architecture |
| YumKeys.GroupKeyInjective | internal/yum/yum.go:107 | two entries are in one group for pruning if and only if name and architecture agree |
| YumKeys.HrefInjective | internal/yum/yum.go:244-245 | a document's key gives away its digest and its kind |
| YumPublisher.Publisher.WriteMeta | internal/yum/yum.go:234-258 | the document is written under its digest, and the checksums and sizes returned are those of what is written |
| YumPublisher.Publisher.Publish | internal/yum/yum.go:157-208 | documents, repomd.xml, signature and manifest are written in this order, then stale documents are deleted; cut off, a prefix |
| YumPublisher.Publisher.CleanupMetadata | internal/yum/yum.go:303-316 | exactly the metadata documents that are not kept are deleted, in listing order |
| YumPublisher.ReplaceOrAppendEntry | internal/yum/yum.go:329-337 | the loop drops entries of the location and appends the new one |
| YumPublisher.Publisher.Add | internal/yum/yum.go:83-118 | a bad .rpm changes nothing; otherwise the writes of the plan, or a prefix; it reads the manifest and lists repodata/, and nothing else |
| YumPublisher.Publisher.Remove | internal/yum/yum.go:125-153 | the writes of the plan, or a prefix; the count is that of the entries if all their files were deleted, else 0; it reads the manifest and lists repodata/, and nothing else |
| YumSafety.DocumentKeeps | internal/yum/yum.go:244-248 | writing a document under its digest never changes one that repomd.xml names |
| YumSafety.CleanupKeeps | internal/yum/yum.go:303-316 | no state during the cleaning up lacks what the new repomd.xml names |
| YumSafety.AddKeeps | internal/yum/yum.go:83-208 | every state on the way through an Add is safe |
| YumSafety.RemoveKeeps | internal/yum/yum.go:125-208 | every state on the way through a Remove is safe |
| YumSafety.CrashSafe | internal/yum/yum.go:157-316 | safety survives any run of operations, each cut off anywhere, under changing settings |
| YumSafety.RepomdNamesWhatIsThere | internal/yum/yum.go:157-316 | in every such state a repomd.xml that is there names three documents that are there, with matching checksum, open-checksum and sizes |
| YumSafety.EndsAsAttempt | internal/yum/yum.go:83-153 | however the publisher's methods end, the bucket is one that crash safety covers |
| YumState.PublishIs | internal/yum/yum.go:157-316 | publishing sweeps away all old documents and leaves exactly the new ones |
| YumState.CompareEntriesLaws | internal/yum/yum.go:158-166 | the comparison that sorts the documents is a total preorder |
| YumRuns.AddRepresents | internal/yum/yum.go:83-118 | a completed Add takes a bucket that holds a repository to one that holds it with the package added and pruned |
| YumRuns.RemoveRepresents | internal/yum/yum.go:125-153 | a completed Remove takes it to one without the package, and counts what went |
| YumRuns.UnreadableManifest | internal/yum/yum.go:272-291 | with a manifest that cannot be read an Add uploads the package, which keeps to the hypotheses above, and does nothing else, and a Remove does nothing |
| YumRuns.RunRepresents | internal/yum/yum.go:83-208 | after every run of successful operations the bucket holds exactly the manifest that the run describes |
| YumRuns.ReachableAgrees | internal/yum/yum.go:83-208 | manifest entries and objects under Packages/ are in bijection, stored bytes have the recorded digest and size, locations are unique, the cap holds, and the documents list the manifest in order |
| YumDocuments.SortedInTurn | internal/yum/yum.go:158-166 | the documents list packages by name, then by architecture, then by version, oldest first |
| YumDocuments.AddPublishes | internal/yum/yum.go:83-258 | after a completed Add at a time ts the repomd.xml has the revision ts and names three documents, primary, filelists and other, with timestamp ts, checksum, open-checksum and sizes; each is there and lists the manifest with the package added; there are no other documents; the signature is of this repomd.xml |
| YumDocuments.RemovePublishes | internal/yum/yum.go:125-258 | likewise after a completed Remove that removes something |
| YumDocuments.SignatureFollows | internal/yum/yum.go:186-198 | at no moment of publishing is there a new signature beside an old repomd.xml |
| YumRuns.AddAllowed | internal/yum/yum.go:104-109 | in every such state the versions an Add compares can be ordered |
| YumRetention.OnlineBounds | internal/yum/yum.go:83-153 | after any sequence of Adds and Removes in which no build that stands is added again at a lower epoch, the stored manifest lists every build with fewer than keepVersions rivals among those standing, and only builds with fewer than keepVersions newer ones among them |
| YumRetention.OnlineIsOffline | internal/yum/yum.go:83-153 | and without a tie at the cut exactly the newest keepVersions builds of each name and architecture among those standing |
| YumRetention.UncappedListsAll | internal/yum/yum.go:102-115 | with keepVersions 0 the manifest lists all that stands, whatever the epochs |
| YumRetention.AddsStand | internal/yum/yum.go:83-118 | of Adds only that keep epochs, in whatever order, all stands that was ever added |
| YumRetention.RemoveBringsNothingBack | internal/yum/yum.go:125-153 | a Remove takes what it names from the stored manifest, and what it frees is not filled from what was pruned |
| YumRetention.OrderMattersExactlyForTies | internal/yum/yum.go:83-118 | when a build added again keeps its epoch: some other order of the same Adds leaves another manifest if and only if there is a tie at the cut |
| YumInstance.LastEpochIsListed | internal/yum/yum.go:93-115 | two Adds, file by file, of one file at two epochs: the last one is listed, so that without a tie the order decides where epochs change |
| YumRetention.SpellingsTie | internal/rpm/version.go:109-204 | releases 1 and 01, and versions 1.0 and 1_0, are ties at the cut when there is room for one |
| YumInstance.TiedAdds | internal/yum/yum.go:83-118 | two such Adds, file by file: which build the manifest lists depends on which came first |
| YumEpochs.OnlineIsOfflineExact | internal/yum/yum.go:83-153 | when no two builds that stand tie, whatever the epochs: the stored manifest lists the newest keepVersions of each name and architecture among those standing after every operation of a run of Adds and Removes if and only if no Add in it takes one of them down below a build that stands and is not one of them |
| YumEpochs.LoweredEpochLosesNewer | internal/yum/yum.go:83-118 | the first Add that does so leaves the build listed, and one that is newer, and should be listed, not |
| YumEpochs.RaisedNeverFalls | internal/yum/yum.go:83-118 | an Add at an epoch that is no lower does not do so |
| YumInstance.LoweredAdd | internal/yum/yum.go:83-118 | three Adds, file by file, a build at epoch 5, another, and the first one again at epoch 0: the manifest lists it, while the newest of those standing is the other |
| YumRetention.StoredIsLastAdded | internal/yum/yum.go:93-102 | the bytes stored for a listed entry are those last added under its location |
| YumHealing.RepeatedPruning | internal/yum/yum.go:102-115 | adding again what has just been added keeps the same entries, in whatever order they were written |
| YumHealing.CutAdd | internal/yum/yum.go:83-208 | where an interrupted Add can have got to: some uploading and pruning, or that and some publishing |
| YumHealing.CutKeepsUnderway | internal/yum/yum.go:83-208 | an Add stopped after any of its writes, in a state that such an Add has left, leaves such a state again |
| YumHealing.RetriedAddHeals | internal/yum/yum.go:83-208 | an Add stopped after any of its writes, any number of times, and then run to its end, at any time, ends in the bucket of one uninterrupted Add of that time, up to the order of entries in the documents and the manifest |
| YumHealing.RetriedAddHealsExactly | internal/yum/yum.go:83-208 | and in exactly that bucket when no two builds of one name and architecture compare as equal |
| YumRemoval.RetriedRemoveExact | internal/yum/yum.go:125-208 | a Remove run again does, and reports, what an uninterrupted one does if every attempt before was stopped before the manifest was written; if the last one got further it does nothing and reports 0, and the bucket is the finished one but for stale documents, and finished if and only if that attempt was not stopped |
| Interleaving.EachAsIfAlone | README.md:23-24 | two programs with keys of their own, taking turns in any order on one bucket: each is where it would be alone |
| AptProgram.ReadsInRegion | internal/apt/apt.go:82-241 | what the methods Add and Remove read besides lies below dists/ |
| AptProgram.AloneIsRun | internal/apt/apt.go:82-241 | call by call, an apt run alone ends in the bucket of its plans and touches only keys below pool/ and dists/ |
| YumProgram.AloneIsRun | internal/yum/yum.go:83-316 | call by call, a yum run alone ends in the bucket of its plans and touches only keys below Packages/ and repodata/ |
| Coexistence.NeitherNotices | README.md:23-24 | at any moment of any interleaving each repository is as its own publisher alone would have left it |
| Coexistence.EachItsOwnRepository | README.md:23-24 | once both are done, the bucket is the union of the two buckets they would have made alone |

## Left out

- S3 and GCS clients, pagination, the command line, logging and Docker fixtures: the Store contract stands in for the
  backends.
- Hash functions, gzip, xz, zstd, tar, OpenPGP, JSON and XML encodings and the RPM header reader: parameters, with the
  hypotheses above. Compression and marshalling do not fail.
- The contents of the three yum documents, field by field: each is a function of its kind and the entries.
- Unicode white space and case folding, and the replacement of invalid UTF-8 by the JSON encoder.
- Sizes in a listing, which no caller looks at, and the text of error messages, of which the kind is kept.
- Storage.Store.Put: a write whose outcome the caller does not learn is covered as either of two cut-off points, just
  before it and just after it.
- Several distributions in one bucket, a signer or a KeepVersions that changes between operations of a run that is to
  stay in agreement, and two writers of the same format: the code promises nothing for these.
- That a detached signature always fits the repomd.xml beside it: it does not between the two writes, the repomd.xml being
  written first, nor where an operation is stopped there. `SignatureFollows` and `SignaturesFollow` say what does hold.
- AptPublisher.Publisher.UpdateIndex: where versions that have to be ordered have epochs 2^63 or more apart the comparison
  is no order and the library's sort promises nothing; excluded, unless nothing is pruned.
- AptPublisher.Publisher.Add: likewise.
- YumPublisher.Publisher.Add: likewise.
- YumEpochs.OnlineIsOfflineExact: builds that tie are excluded, and so from every statement about runs in which a build is
  added again at a lower epoch: which of them is listed depends on how the library's sort leaves ties.
- YumRetention.OrderMattersExactlyForTies: builds added again at another epoch are excluded; there the last epoch is the one
  that stands, so that the order of the Adds decides what is to be listed in the first place.
- YumRuns.RunRepresents: operations that fail after a write are excluded; crash safety covers them.
