# A verified model of the Omarchy package pipeline

This project models, in Dafny, the parts of the package pipeline whose correctness rests on a protocol, a
parser or an accounting argument, and proves what those parts promise.

- **Signed updates** (`Transaction`, `ChannelState`, `SystemVersion`, `ConfigLines`, `PacmanConfig`,
  `Rewritten*`, `Rewrite*`, `UnendedLines`, `InstalledConfig`): staging, applying and recovering an update as
  sequences of atomic file writes with a crash after any of them; the per-channel marks against replay; and the
  rewrite of pacman.conf that a commit installs.
- **Symbolic links** (`Resolution`, `ContainedLinks`, `Disk`, `RecipeSources`, `ArchiveSafety`, `GitSource`):
  checks that look at one link at a time, against a small-step model of pathname resolution (section 4.13 of the
  Base Definitions of POSIX.1-2017) in the tree that is then written.
- **Git recipes** (`GitTree`, `RecipeLoader`, `RecipeProof`, `RecipeCapture`, `CapturedFiles`, `Capture*`;
  `GitHub`, `GitHubTrees`, `RecipePublication`, `RecipeAudit`): capturing a directory of a commit and verifying
  the capture; publishing a directory to a branch and auditing it. The hashes are arbitrary functions without
  collisions among the objects at hand.
- **Dependencies** (`RuntimeDependencies`): the worklist over an index of providers, as a least set.
- **Data movement** (`ArtifactUpload`, `FrozenInputs`, `AbiInventory`, `Reproducibility`, `CatalogJson`):
  resumed uploads, transfer budgets, chunked inventories, chunked comparison and the rewriting of JSON escapes.

`Values`, `Text`, `Sums` and `Hexadecimal` hold what the others share.

What the proofs bring to light about the code:

- A pacman.conf whose last line lacks its newline is rewritten as it is, and what is written next continues
  that line. `RewriteResults.SettledIff` says exactly which inputs lose their signature requirement or their
  server that way; `SignatureLost` and `ServerLost` are two of them. Unowned sections are kept all the same.
- Rewriting twice gives the same bytes only if the owned sections already came first in the signed order
  (`RewriteResults.RewriteAgainIff`); a present section that the signed order puts after a missing one makes the
  second rewrite fail.
- `Stage` ignores whether the old metadata could be removed. If it could not, `Apply` can install a
  configuration that was rendered for another manifest (`StagedTransaction.UnremovedInstalls`).
- A state without a `channels` object belongs to one channel, and a commit to another forgets its marks
  (`ChannelState.CommitPreservesOthersIff`, `UnkeyedStableForgotten`).
- `extractRecipeSource` tests the ancestors of an entry only against earlier entries; together with its later
  steps the outcome nevertheless does not depend on the order (`RecipeSources.ExtractRecipeSource`).
- `commitRecipeTree` leaves a root without files as it was, though `roots` names it
  (`RecipePublication.CommitRecipeTree`).
- `tree_entries` in Python reads more than the verifier's parser accepts, so that a capture may be refused for
  its tree entries; `CaptureRecipe.VerifierReadsIff` says exactly when.

## Model

| member | source | states |
|---|---|---|
| `StagedTransaction.Machine.RecoverPending` | omarchy/manifest-client/transaction.go:313-344 | A recovery that crashes after any number of writes leaves the disk of that index in the sequence of disks; it reports success exactly when all writes happened and no marker is left |
| `StagedTransaction.Machine.Stage` | omarchy/manifest-client/transaction.go:48-117 | Likewise for staging: the disk left by a crash at any write, and the exact condition of success |
| `StagedTransaction.Machine.Apply` | omarchy/manifest-client/transaction.go:119-227 | Likewise for applying, the closing recovery included |
| `StagedTransaction.RecoveryIsAtomic` | omarchy/manifest-client/transaction.go:313-344 | At every point of a recovery the committed pair of configuration and state is the same; recovering again, from there or from the end, gives the same disk |
| `StagedTransaction.StageKeepsCommitted` | omarchy/manifest-client/transaction.go:90-115 | Wherever staging stops, the committed pair is untouched, and, as long as old metadata can be removed, metadata on disk comes with its own plan and staged configuration |
| `StagedTransaction.ApplyIsAtomic` | omarchy/manifest-client/transaction.go:119-227 | Wherever applying stops, the committed pair is the old one, or the new state with the rewrite of exactly the bytes found; the marker write alone decides which |
| `StagedTransaction.MarkedIsRecoverable` | omarchy/manifest-client/transaction.go:215-222 | The marker an admitted Apply writes can be recovered: the staged configuration has the digest the marker records |
| `StagedTransaction.UnremovedMetadataIff` | omarchy/manifest-client/transaction.go:93-97 | When the old metadata and plan cannot be removed, the metadata still vouches for what is staged exactly if the staged configuration did not change |
| `StagedTransaction.UnremovedInstalls` | omarchy/manifest-client/transaction.go:93-97 | An Apply that admits that disk installs the newly staged bytes under the old manifest's digest; they are the old manifest's rewrite in just that case |
| `StagedTransaction.ForeignInstalled` | omarchy/manifest-client/transaction.go:93-97 | Whatever the hash, there are an environment and a disk on which the next admitted Apply installs a configuration that is not its manifest's rewrite |
| `StagedTransaction.MetadataAlone` | omarchy/manifest-client/transaction.go:93-103 | When only the metadata stays, Apply refuses until the new plan is written, and then admits the disk exactly if that plan has the old digest and Apply would have admitted the disk before |
| `StagedTransaction.EventIsAtomic` | omarchy/manifest-client/transaction.go:48-227 | Every operation, cut short anywhere, is one step of an installer that changes configuration and state at once |
| `StagedTransaction.RunRefinesAtomic` | omarchy/manifest-client/transaction.go:48-344 | For every run of operations from an absent state, each cut short anywhere, in which old metadata can be removed and no two configurations collide, the committed pair is what the atomic installer holds after the abstract events, the disk keeps its invariant, and the commits form a run of admissible transactions |
| `StagedTransaction.PastRecoveryAllOrNothing` | omarchy/manifest-client/transaction.go:52-54 | In every such run, once an operation is past its opening recovery, the two files are the atomic installer's pair and no marker is left |
| `StagedTransaction.NoManifestCommitsTwice` | omarchy/manifest-client/transaction.go:119-227 | In every such run no signed manifest is committed twice, where a digest determines its transaction |
| `InstalledConfig.InstalledIsSigned` | omarchy/manifest-client/transaction.go:48-344 | From a commit made from a configuration that ends well until the next edit or commit, whatever crashes, the configuration has one section for each signed repository, its signed server as the only active source, and signatures required |
| `ChannelState.StoredState.SaveChannelState` | omarchy/manifest-client/client.go:127-147 | The saved channel reads back as saved and every other keyed channel reads as before |
| `ChannelState.CommitTouchesOneChannel` | omarchy/manifest-client/client.go:127-147 | A commit replaces its own channel's entry and leaves the entries of all others |
| `ChannelState.SequenceRises` | omarchy/manifest-client/client.go:1316-1325 | In every run of commits, a later commit of a channel has a greater sequence |
| `ChannelState.MarksNeverFall` | omarchy/manifest-client/transaction.go:196-214 | In every run the stored sequence, system mark and OPR mark of a channel never fall, authorised recovery included |
| `ChannelState.MarksAttained` | omarchy/manifest-client/transaction.go:196-202 | Each stored mark is the sequence of some commit of that channel |
| `ChannelState.ChangedBytesAreNewer` | omarchy/manifest-client/client.go:1326-1337 | A commit that changes the system or OPR digest without authorised recovery has a sequence above every one the channel ever applied |
| `ChannelState.VersionNeverFalls` | omarchy/manifest-client/client.go:1338-1340 | Over any stretch of a run without authorised recovery a channel's system version does not decrease, through empty versions too |
| `ChannelState.CommitPreservesOthersIff` | omarchy/manifest-client/client.go:101-147 | A commit preserves what all other channels read exactly if the state is empty, keyed, or belongs to the committed channel |
| `ChannelState.UnkeyedStableForgotten` | omarchy/manifest-client/client.go:101-147 | A stable state without keys is forgotten by an edge commit, after which any stable transaction is fresh |
| `SystemVersion.CompareSystemVersion` | omarchy/manifest-client/client.go:1344-1364 | The loops compute the order by three numbers, then by the text |
| `SystemVersion.OrderTotal` | omarchy/manifest-client/client.go:1344-1364 | The comparison is antisymmetric and zero only on equal strings |
| `SystemVersion.OrderTransitive` | omarchy/manifest-client/client.go:1344-1364 | The comparison is transitive |
| `SystemVersion.EmptyLeast` | omarchy/manifest-client/client.go:1338-1364 | The empty version is strictly below every other |
| `PacmanConfig.ParseSections` | omarchy/manifest-client/config.go:117-136 | The loop yields the sections and the prefix text of the parsed configuration |
| `PacmanConfig.ParsedIsConfig` | omarchy/manifest-client/config.go:117-136 | Parsing loses no line: the lines of prefix and sections, in order, are the input |
| `PacmanConfig.ParsedWritten` | omarchy/manifest-client/config.go:117-136 | Parsing the written lines of any configuration gives it back |
| `PacmanConfig.CheckSubsequence` | omarchy/manifest-client/config.go:186-197 | The greedy test succeeds exactly if some order-preserving choice of positions exists |
| `PacmanConfig.RenderOwnedSection` | omarchy/manifest-client/config.go:138-180 | The loop with its two flags writes the lines of the rendered section |
| `PacmanConfig.RewriteConfig` | omarchy/manifest-client/config.go:34-101 | The rewrite succeeds exactly on rewritable input, and then returns the output that the results below are about |
| `RewriteResults.UnownedKept` | omarchy/manifest-client/config.go:34-101 | For every input that rewrites, the prefix and all unowned sections are in the output read again, in place and byte for byte, with at most newlines added at their ends |
| `RewriteResults.OneSectionEach` | omarchy/manifest-client/config.go:34-101 | For every input that rewrites, each signed repository has exactly one section in the output |
| `RewriteResults.SettledIff` | omarchy/manifest-client/config.go:138-184 | All owned sections of the output have the signed server as their only source and require signatures exactly if nothing is glued to an unended last line, or what is glued is the signature line and the line takes it |
| `RewriteResults.TerminatedEndsWell` | omarchy/manifest-client/config.go:138-184 | Input that ends in a newline always meets that condition |
| `RewriteResults.OnlySignedServers` | omarchy/manifest-client/config.go:103-180 | Under that condition every active Server or Include line of the output is the one signed server of an owned section |
| `RewriteResults.RewriteAgainIff` | omarchy/manifest-client/config.go:34-101 | Rewriting the output succeeds with the same bytes exactly if the input ended well and its owned sections were the first in the signed order |
| `RewriteResults.SignatureLost` | omarchy/manifest-client/config.go:138-180 | An input on which the signature line is glued to the last line, so that the repository is left without it |
| `RewriteResults.ServerLost` | omarchy/manifest-client/config.go:138-180 | An input on which the server line is glued to the last line, so that the repository is left without it |
| `Resolution.PassingLinksContain` | worker/recipe_capture.go:91-126 | If each link of a tree passes when followed from its own directory, no path without `..` leaves the root, from any directory, through any nesting of links |
| `Resolution.ContainedNeverOutside` | worker/recipe_capture.go:91-126 | A resolution that ends inside the root is inside it at every step |
| `Resolution.WalkPasses` | worker/recipe_capture.go:91-126 | Any check that goes on in step with the kernel from one component to the next lets a link pass: the kernel stops inside the root, or stands where the check does; both walkers below are instances |
| `ContainedLinks.ValidateContainedLinks` | worker/recipe_capture.go:91-126 | The loops accept exactly the link maps in which each link's own walk is accepted |
| `ContainedLinks.AcceptedLinksContainAll` | worker/recipe_capture.go:91-126 | If the links of a tree are accepted, every path without `..` resolves inside the root, and resolution ends |
| `ContainedLinks.LexicalWalkAcceptedIff` | worker/recipe_capture.go:91-126 | A walk that meets no link is accepted exactly if its components are valid and no prefix climbs above the root |
| `ContainedLinks.RejectedIff` | worker/recipe_capture.go:91-126 | A walk through any links is rejected exactly if it comes to a component that leaves the root, is invalid, or leads to a link that was followed before, is one too many or is absolute |
| `RecipeSources.ExtractRecipeSource` | worker/recipe_sources.go:118-193 | Extraction succeeds exactly if the archive has the announced entries and size, distinct good entries none of which lies below a file or link, and accepted links; the tree written is then the archive's, no path in it leaves the root, and no link is created before all of this is known |
| `ArchiveSafety.ResolveArchiveLinkTarget` | services/pipeline/archive-safety.ts:27-50 | The loop computes the lexical walk, with the same refusals |
| `ArchiveSafety.ResolveCanonicalArchivePath` | services/pipeline/archive-safety.ts:52-91 | The loop computes the canonical walk, and terminates |
| `ArchiveSafety.CanonicalAgreesWithLexical` | services/pipeline/archive-safety.ts:27-91 | Where no visited component is a link or a file in the way, the canonical walk is the lexical one |
| `ArchiveSafety.AcceptedLinksContainAll` | services/pipeline/archive-safety.ts:52-91 | If all links of a listing resolve canonically, every path without `..` resolves inside the root |
| `GitSource.ValidateGitSourceEntries` | services/pipeline/git-source.ts:79-144 | Accepts exactly the listings within limits, with good distinct paths, no entry below another and links that resolve; every path without `..` then resolves inside the checkout |
| `GitTree.ParseRecipeGitTree` | worker/recipe_capture.go:67-85 | The loop reads the entries that the parse relation gives, or fails with it |
| `GitTree.PrintParse` | worker/recipe_capture.go:67-85 | Printing the entries of an accepted raw tree gives back its bytes |
| `GitTree.ParseInjective` | worker/recipe_capture.go:67-85 | Different raw trees never parse to the same entries |
| `GitTree.ParsesIff` | worker/recipe_capture.go:67-85 | A raw tree parses to given printable entries with distinct names exactly if it is their print |
| `RecipeLoader.Loader.Load` | worker/recipe_capture.go:138-169 | A loaded object has the referenced size and digest and is counted once; a refusal or an exceeded budget is reported only when it is one |
| `RecipeProof.Walker.Run` | worker/recipe_capture.go:268-300 | The recursive walk with its counters and maps computes the proof walk |
| `RecipeProof.WalkFills` | worker/recipe_capture.go:268-300 | The walk collects exactly the files that a lookup, component by component, finds below the directory |
| `RecipeProof.WalkUses` | worker/recipe_capture.go:241-300 | Every directory below is among the supplied trees and is marked as used |
| `RecipeCapture.CheckFiles` | worker/recipe_capture.go:183-200 | The loop accepts exactly the inventories within limits and without duplicates |
| `RecipeCapture.CheckParents` | worker/recipe_capture.go:201-207 | The loop accepts exactly the inventories in which no file is an ancestor of another |
| `RecipeCapture.LoadTrees` | worker/recipe_capture.go:220-240 | All supplied trees are loaded and parsed exactly if they are good and distinct within the proof budget; the transfer budget is never what stops it |
| `CapturedFiles.Materialize` | worker/recipe_capture.go:129-358 | Succeeds exactly on acceptable captures, never for want of transfer budget; it then writes the manifest's files and links and nothing else, no path among them leaves the root, and nothing is written otherwise |
| `CaptureGuarantees.ExactlyTheTree` | worker/recipe_capture.go:212-317 | An accepted capture holds at every path what the Git tree of its commit holds below its directory, the same mode, bytes with the entry's identity, and nothing else |
| `CaptureGuarantees.EveryTreeUsed` | worker/recipe_capture.go:241-303 | Every supplied tree lies on the way to the directory or below it |
| `CaptureGuarantees.SameEntriesIff` | worker/recipe_capture.go:67-85 | Two proven directories have the same identity exactly if they have the same parsed entries |
| `CaptureGuarantees.SameCommitSameFiles` | worker/recipe_capture.go:129-317 | Two accepted captures of one commit and directory hold the same files |
| `CaptureRecipe.ReadTreeEntries` | services/pipeline/capture-recipe.py:40-53 | The loop reads the entries that the Python parse relation gives, or fails with it |
| `CaptureRecipe.ParsersAgree` | services/pipeline/capture-recipe.py:40-53 | Where the Python and the Go parser both accept, they read the same entries |
| `CaptureRecipe.VerifierReadsIff` | worker/recipe_capture.go:67-85 | A tree that the Python parser read is accepted by the Go parser exactly if its entries have distinct names, none empty or with a slash, and modes without NUL |
| `CaptureRecipe.Capture` | services/pipeline/capture-recipe.py:56-134 | The program with its nested functions and counters computes the capture that the next row is about |
| `CaptureRoundTrip.CapturedIsAccepted` | services/pipeline/capture-recipe.py:83-134 | A captured directory within the limits that only the verifier has (on tree entries, depth, number of directories, file sizes and links) is accepted by it, and the files rebuilt are the files captured, with their modes |
| `RecipePublication.OneRoot` | services/pipeline/github-pr.ts:60-71 | With accepted roots every file lies below exactly one of them |
| `RecipePublication.BuildableIff` | services/pipeline/github-pr.ts:82-104 | For publishable files, all new directories can be built exactly if no file lies below another |
| `RecipePublication.GraftsPublish` | services/pipeline/github-pr.ts:96-108 | Putting the directories into the base tree one after the other gives the published tree: the files below each used root and nothing else there, and everything outside as before |
| `RecipePublication.PublishedOnce` | services/pipeline/github-pr.ts:96-108 | There is only one tree that a publication can leave |
| `RecipePublication.CommitRecipeTree` | services/pipeline/github-pr.ts:52-125 | Whichever requests fail or lose their answers, the branch moves at most once, from the given parent, to a commit whose tree is the published one; an identical retry makes no commit; with every request answered it succeeds exactly on what is publishable from that parent |
| `RecipeAudit.CheckRecipeTree` | services/pipeline/integrity.ts:207-288 | The report lists exactly the deviations of the directory at the commit, so it is empty exactly if paths, modes and bytes match and nothing else is there; with every request answered, it is given for every readable directory |
| `RecipeAudit.NoDeviationIsMatch` | services/pipeline/integrity.ts:244-285 | No deviation of any kind at any path is the same as a full match |
| `RecipeAudit.PublishedPasses` | services/pipeline/integrity.ts:207-288 | Every directory that a publication has just written passes the audit |
| `RuntimeDependencies.BuildIndex` | worker/runtime_dependencies.go:74-132 | The index is built exactly for 1 to the limit of distinct packages, and lists under each name the packages that provide it |
| `RuntimeDependencies.ClosedHoldsReachable` | worker/runtime_dependencies.go:186-217 | Reachability is the least set closed under satisfying packages and their dependencies |
| `RuntimeDependencies.RuntimePackages.Satisfies` | worker/runtime_dependencies.go:146-184 | With the growing memo of comparisons, a package satisfies a relation exactly if direct comparison says so |
| `RuntimeDependencies.RuntimePackages.Closure` | worker/runtime_dependencies.go:186-217 | The result is exactly the packages required by scanning all installed ones, and `missing` lists each reachable relation without a package once; it terminates, and fails only if a comparison does |
| `ArtifactUpload.PartsTile` | worker/client.go:348-367 | For every size and part size the parts in order are the file, without gap or overlap |
| `ArtifactUpload.UploadArtifact` | worker/client.go:320-401 | After a success, unless the server called the artifact complete at the start, its parts are the file's parts and together the file, whatever earlier attempts left and whatever answers were lost or garbled; failed attempts leave only parts of the file, which a next attempt without failures completes |
| `FrozenInputs.Accounts.CountedFirst` | worker/frozen-inputs.go:321-393 | An object that is counted but not yet there still fits the budget, hence the limit |
| `FrozenInputs.Accounts.AddObject` | worker/frozen-inputs.go:377-393 | An object is counted once, always with one size; it is refused only as malformed, as conflicting, or above the reviewed limit |
| `FrozenInputs.Accounts.GetObject` | worker/frozen-inputs.go:323-351 | Downloading a counted object keeps the transfer within the budget |
| `FrozenInputs.MaterializeFrozenInputs` | worker/frozen-inputs.go:314-476 | On success the pages of all environments, and the packages, signatures and keys they list, are counted, each environment has the packages and bytes it announces, and the lock and every counted object, and nothing else, was downloaded exactly once and verified, within the reviewed limit; failing or not, nothing is started but the lock and counted objects, each once and within that limit |
| `AbiInventory.Writer.Append` | worker/abi_inventory.go:38-66 | A success adds the record at the end of everything appended; the exact condition of success, in which the size of a document does not occur |
| `AbiInventory.Writer.Flush` | worker/abi_inventory.go:68-83 | The pending records become one stored document that is within the limit; only the number of chunks can stop it |
| `AbiInventory.Writer.Finish` | worker/abi_inventory.go:85-95 | The chunks in order are everything appended, the totals are theirs, and the stored index is within the limit; it succeeds for every version text of up to 200000 characters unless there is no room for a last chunk |
| `AbiInventory.DocumentFits` | worker/abi_inventory.go:49-82 | The document of a chunk within the writer's bounds is at most 512 KiB |
| `AbiInventory.InventoryFits` | worker/abi_inventory.go:85-95 | So is the index of at most 2048 chunks, with a version text of up to 200000 characters |
| `Reproducibility.FirstDifferentByte` | worker/reproducibility.go:489-529 | For every chunk size, the files differ exactly if an offset is returned, and that is where they first differ |
| `Reproducibility.LeastOffset` | worker/reproducibility.go:489-529 | No smaller offset shows a difference |
| `Reproducibility.CompareReproducibilityOutputs` | worker/reproducibility.go:357-416 | Refuses exactly duplicate names; otherwise lists, in the order of names, exactly the differences |
| `Reproducibility.DifferOnce` | worker/reproducibility.go:379-414 | There is at most one difference to report for a name |
| `Reproducibility.NothingDiffersIff` | worker/reproducibility.go:357-416 | For inspected outputs nothing differs exactly if both attempts hold the same names with the same bytes |
| `CatalogJson.Scan` | worker/catalog_capture.go:315-347 | The loop over the bytes computes the scanned text |
| `CatalogJson.ScanPreserves` | worker/catalog_capture.go:315-347 | For every string literal, whatever escapes it holds, the scan does not change the string it stands for (section 7 of RFC 8259) |
| `CatalogJson.NoneLeft` | worker/catalog_capture.go:315-347 | No escaped line or paragraph separator is left in any scanned text |
| `CatalogJson.ScannedEncodingDecodes` | worker/catalog_capture.go:315-347 | For every string, the encoder's output, scanned, is the application's canonical form; it decodes to the string and has no escaped separator |
| `CatalogJson.DocumentScanned` | worker/catalog_capture.go:315-347 | The scan of a whole document turns each of its literals into the canonical form and changes nothing between them |

## Left out

- JSON decoding, URL and identifier patterns, HTTP, gpg, pacman, podman and git: their answers are parameters or arbitrary outcomes.
- Edits of the configuration from outside while a commit is pending, fsync, and several clients at once: one write is one atomic step of one client.
- The recovery limits of a state, a text that is only shown to users.
- The white space that `fmt.Sscanf` skips in a version number, and numbers beyond the machine's integers.
- RewriteResults.UnownedKept: newlines may be added at the end of the last part, where the source ends it before it appends a section.
- CaptureGuarantees.SameCommitSameFiles: assumes no collision of SHA-1 among the objects of the two captures.
- CaptureRoundTrip.CapturedIsAccepted: the canonical encoding of the manifest is any document that decodes to it and is within the size limit.
- RecipePublication.CommitRecipeTree: uploads files in the given order, where the source sorts them by path; the tree is the same (`PublishedOnce`). GitHub may fail, lose an answer or misname a blob, but a tree or commit it names is the one it stored; another writer on the branch shows only as a failing update.
- RecipeAudit.CheckRecipeTree: a truncated or inconsistent listing shows as a failing request.
- `factoryRecipeFiles` of services/pipeline/github-pr.ts: which files a draft has, an expression without a loop.
- Errors of the operating system in the midst of writing a tree, and the partial trees they leave: `Materialize` and `ExtractRecipeSource` write to a fresh directory that obeys POSIX.
- RecipeLoader.Loader.Load: what a fetch gives depends on the digest alone; a file that changes between two reads is not part of this model.
- FrozenInputs.MaterializeFrozenInputs: which manifests, packages and inventories are refused is a list of field checks, passed in as predicates.
- ArtifactUpload.UploadArtifact: the digests of different contents that occur at one part differ.
- CatalogJson.ScannedEncodingDecodes: strings are sequences of bytes; the encoder's replacement of invalid UTF-8, and escapes of surrogate pairs, which it never writes, are not part of this model.
- RuntimeDependencies.RuntimePackages.Closure: reading the package database (worker/runtime_dependencies.go:29-70) is left out; packages are given.
- Policy scripts in bash and awk, routes, and the application's leases, approvals and releases, which would only add easy members.
