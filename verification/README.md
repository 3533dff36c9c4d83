# hummingbird-k8s operator core: verification model

A Dafny model of the logic behind the `hbird` operator tool, with proofs about it. The tool
drives a Kubernetes control plane and a KVM host over SSH; what is modelled here is what it
decides and in which order, with every remote call reduced to its possible outcomes.

| module | what it models |
|---|---|
| `Text`, `Utf8` | strings as the Rust standard library treats them: white space, lines, splitting, decimals, order, bytes |
| `Arithmetic`, `Bits` | division, and the bit operations `&`, `\|`, `<<` and `>>` on natural numbers |
| `Calendar`, `Timestamps` | days to civil date in both integer widths, and the names made from it |
| `EncryptionConfig`, `EncryptionYaml`, `KeyList` | the line editor of `EncryptionConfiguration` documents, the key list it works on, and the list as YAML reads it |
| `Rotation` | etcd key rotation as steps over config file, loaded config and stored rows |
| `Restore` | etcd restore with its rollback as steps over directory names and the kubelet |
| `Base64` | the hand-written encoder, against RFC 4648 |
| `Sha256`, `Sha256Tables`, `Sha256Vector` | the hand-written hash function, against FIPS 180-4: its steps, its constants, and one published digest |
| `Shell` | the three quoting functions, against a model of POSIX word splitting |
| `Network`, `ExtraNetwork` | MAC and CIDR checks, mask arithmetic, uniqueness across both NIC families |
| `Dhcp` | the reservation table that is maintained by text search over XML |
| `ConfigParser`, `ConfigGrammar`, `ConfigErrors` | the cluster configuration tokenizer, the language it accepts, and the error every other text gets |
| `Uri` | the `qemu+ssh` URI |
| `Kubeconfig` | the kubeconfig rewriter |
| `Watchdog` | child, pipes, drain threads and polling parent of one command |
| `Destroy` | teardown of a cluster when any remote call may fail |

Protocols are step relations: `Apply` gives the state after an action where it can happen, an
execution is a sequence of such steps, and the theorems are about every state of every
execution. Code that runs as a loop over buffers is a method proved against a function, and
what the code promises is proved about that function. Code made of expressions is functions.

The parts join up. Rotation and restore need fresh key names and keep-directory names, which
come from the calendar being strictly increasing; rotation needs the line editor to be
prepend and keep-head on key lists, and base64 to yield secrets that stand on a line as they
are; second-NIC validation needs accepted texts to stand for distinct numbers; teardown uses
the reservation table's search.

Where the code and its own documentation differ, the model follows the code:

- `destroy_domain` is documented to return `Ok` for a domain that is shut off; it passes on the
  error of `virsh`, so tearing such a cluster down reports failure although everything is
  removed (`Destroy.QuietRun`, `Destroy.ShutOffIsReported`).
- A failed restore always says where the old data directory was kept, also when the script
  failed before moving it (`Restore.FailureMessageIsTrue`,
  `Restore.FailureMessageCanBeFalse`).
- Printed URIs are meant to round-trip; a bracketed host without a colon loses its brackets in
  print and can then be rejected (`Uri.RoundTrip`, `Uri.BracketsAreLost`).
- No accepted URI is meant to give `ssh` a target that starts with a dash; hosts in brackets
  are not checked (`Uri.TargetStartsWithDash`, `Uri.DashedTarget`).
- `find_aesgcm_keys_block` is documented to fail on any shape it does not recognise; a comment
  at or left of `keys:` silently ends the list, and an entry whose dash stands alone on its
  line is silently passed over (`EncryptionYaml.FoundIsListIff`, `EncryptionYaml.OldKeyStays`,
  `EncryptionYaml.LoneDashStays`, `EncryptionYaml.NewKeyIsNotFirst`).
- The drain threads ignore read errors, so output can be cut short without an error
  (`Watchdog.OutputIsComplete`, `Watchdog.OutputCutShort`).
- On expiry the child is said to be killed and reaped; failures of both calls are ignored
  (`Watchdog.TimeoutIsLast`, `Watchdog.TimeoutOfRunningChild`), and after a kill that is not
  delivered the program waits for the child without a limit (`Watchdog.OutcomeIffDelivered`).
- The health gate before old keys are dropped asks whether the apiserver is healthy, not which
  config it serves (`Rotation.GateIsNeeded`, `Rotation.StaleGateLosesRow`).

To check everything: `dafny verify dfyconfig.toml`.

## Model

| member | source | states |
|---|---|---|
| Rotation.StepKeepsInv | rust/crates/hbird-cli/src/commands/etcd.rs:1421-1480 | every step of a rotation (any stage stopping after any of its parts), every write or delete by another client and every apiserver reload keeps the invariant: all rows readable under the config on disk and under the loaded one, the write key of the loaded config present on disk, no key bearing a later run's name, and what each stage has established |
| Rotation.RowsStayReadable | rust/crates/hbird-cli/src/commands/etcd.rs:1421-1480 | over every execution, with runs repeating and stopping anywhere, every stored row can be decrypted under the config on disk and under the config the apiserver has loaded |
| Rotation.KeysAreDroppedUnused | rust/crates/hbird-cli/src/commands/etcd.rs:1311-1321 | a key leaves the config on disk only in a state where no row is stored under it and the apiserver does not write under it |
| Rotation.CompleteRotation | rust/crates/hbird-cli/src/commands/etcd.rs:1446-1470 | a run past its second health gate leaves exactly one key on disk, that config in use, and every row under that key |
| Rotation.GateIsNeeded | rust/crates/hbird-cli/src/commands/etcd.rs:1333-1364 | with a gate that may pass while an earlier config is still in use: after the old keys are dropped, every row can be read at once and after the next write of any row if and only if, at the drop, no row was stored under an old key and the loaded config wrote under the new one |
| Rotation.SafeIfDropsAre | rust/crates/hbird-cli/src/commands/etcd.rs:1421-1480 | over every execution with such a gate, all rows stay readable as long as each drop happens where that condition holds |
| Rotation.GateLetsDrop | rust/crates/hbird-cli/src/commands/etcd.rs:1446-1470 | with the gate taken at its word the condition holds wherever the program drops keys |
| Rotation.StaleGateLosesRow | rust/crates/hbird-cli/src/commands/etcd.rs:1333-1364 | from every start with one stored Secret there is an execution in which a gate passes too early, the row is rewritten under the old key and the drop leaves it unreadable |
| Rotation.PrependKeepsReadable | rust/crates/hbird-cli/src/commands/etcd.rs:601-615 | a new key in front keeps a readable row readable if and only if it does not take the name of that row's key for another key |
| Rotation.NewNameIsFresh | rust/crates/hbird-cli/src/commands/etcd.rs:287-290 | the name generated at a second is not in the key list and leaves the list without names of later seconds |
| Rotation.SecretIsClean | rust/crates/hbird-cli/src/commands/etcd.rs:438-472 | the base64 text of any bytes stands on its line as it is, which the line editor needs of a secret |
| Rotation.RunKeepsRows | rust/crates/hbird-cli/src/commands/etcd.rs:1353-1364 | no step of a run makes or removes a row; it rewrites only rows that it has listed and not yet rewritten, under the key in use |
| Rotation.NewKeyHoldsBytes | rust/crates/hbird-cli/src/commands/etcd.rs:1442-1447 | the key that a run puts in front bears the generated name, its secret decodes to exactly the 32 random bytes, and the old keys follow unchanged |
| Rotation.QuietRotation | rust/crates/hbird-cli/src/commands/etcd.rs:1421-1480 | from every start, with any rows, the protocol can run to its end undisturbed: one key is left, holding the generated bytes under the generated name, every row is under it, the staged file is gone, and the file in use is exactly what the editor makes by putting the key in front and dropping the others |
| KeyList.InsertPrepends | rust/crates/hbird-cli/src/commands/etcd.rs:601-615 | for every document with a recognised key list, `insert_primary_key` succeeds and the recognised keys are the new key followed by all old ones in order |
| KeyList.DropKeepsPrimary | rust/crates/hbird-cli/src/commands/etcd.rs:625-637 | for every document with a recognised key list, `drop_non_primary_keys` succeeds, leaves exactly the head key, and a second drop changes nothing |
| KeyList.InsertOnTexts | rust/crates/hbird-cli/src/commands/etcd.rs:601-615 | on the whole text, up to carriage returns at line ends: every old line stays in its place with the two new lines in front of the first entry, the list found in the result is the old one with that entry, and the final newline is kept |
| KeyList.DropOnTexts | rust/crates/hbird-cli/src/commands/etcd.rs:625-637 | on the whole text, up to carriage returns at line ends: the lines up to the second entry and all lines behind the list stay, the list found in the result has the first entry alone, and the final newline is kept; the one exception, an empty line left at the very end of a text without a final newline, is stated exactly, and a text with one key is not changed at all |
| KeyList.RotationOnTexts | rust/crates/hbird-cli/src/commands/etcd.rs:601-637 | inserting and then dropping on the text replaces the old list by the two new lines and changes no other line and no final newline |
| KeyList.KeysOfSameLines | rust/crates/hbird-cli/src/commands/etcd.rs:643-649 | re-reading joined lines may strip carriage returns at line ends; the recognised keys do not change |
| EncryptionConfig.FindAesgcmKeysBlock | rust/crates/hbird-cli/src/commands/etcd.rs:530-590 | the three scanning loops compute the block of the first aesgcm provider, or report which of provider, list and entries is missing |
| EncryptionConfig.WidthIsEncoded | rust/crates/hbird-cli/src/commands/etcd.rs:517-519 | columns count the bytes that each leading character has in UTF-8 |
| EncryptionConfig.ScanEntries | rust/crates/hbird-cli/src/commands/etcd.rs:561-585 | the third loop finds where the list ends, the column of its first entry and every entry line at that column |
| EncryptionConfig.FoundIsBlock | rust/crates/hbird-cli/src/commands/etcd.rs:530-590 | a block that is returned satisfies the declarative definition: first provider, first `keys:` inside it, end at the first line back at its column, entries exactly the entry lines at the first entry's column |
| EncryptionConfig.BlockIsFound | rust/crates/hbird-cli/src/commands/etcd.rs:530-590 | whenever lines satisfy that definition the scan returns exactly that block |
| EncryptionConfig.MissingPart | rust/crates/hbird-cli/src/commands/etcd.rs:530-590 | each error says which part is missing and that part is missing: no aesgcm line at all, no `keys:` inside the first such provider, or no entry in its list |
| EncryptionConfig.InsertIsPrepend | rust/crates/hbird-cli/src/commands/etcd.rs:601-615 | after the line edit the list's entries are the two new lines followed by every old entry line for line, and the text before and after the list is untouched |
| EncryptionConfig.DropKeepsHead | rust/crates/hbird-cli/src/commands/etcd.rs:625-637 | after dropping, the block is found again with its first entry alone, the text around it is untouched, and dropping again is the identity |
| EncryptionConfig.InsertThenDrop | rust/crates/hbird-cli/src/commands/etcd.rs:601-637 | inserting and then dropping equals the original lines with the span from the first entry to the end of the list replaced by the two new lines |
| EncryptionYaml.ScanStopsAtListEnd | rust/crates/hbird-cli/src/commands/etcd.rs:561-585 | the scan stops at the end of the list as YAML reads it if and only if it does not stop at a comment line |
| EncryptionYaml.FoundIsListIff | rust/crates/hbird-cli/src/commands/etcd.rs:561-585 | the found entries are all entries of the list as YAML reads it if and only if no dash stands alone (or before a tab) in front of the first found entry or at its column, and no entry is behind the comment at which the scan stopped |
| EncryptionYaml.InsertIsFirstIff | rust/crates/hbird-cli/src/commands/etcd.rs:601-615 | the new key comes first in the list as YAML reads it if and only if no such dash is in front of the first found entry |
| EncryptionYaml.DropLeavesOneIff | rust/crates/hbird-cli/src/commands/etcd.rs:625-637 | dropping leaves exactly the primary key in the list as YAML reads it if and only if no such dash is in front of it or among its lines and no entry is behind the place where the scan stopped |
| EncryptionYaml.InsertKeepsList | rust/crates/hbird-cli/src/commands/etcd.rs:601-615 | where the scan finds the list as YAML reads it, it does so after a key has been put in front, with the new key first |
| EncryptionYaml.DropKeepsList | rust/crates/hbird-cli/src/commands/etcd.rs:625-637 | and after the old keys have been dropped, with the primary key alone in the list |
| EncryptionYaml.OldKeyStays | rust/crates/hbird-cli/src/commands/etcd.rs:561-637 | a two-key document with a comment at the column of `keys:` of which only the first key is found and which dropping leaves unchanged |
| EncryptionYaml.LoneDashStays | rust/crates/hbird-cli/src/commands/etcd.rs:561-637 | a two-key document without comments, the second key under a dash of its own: the scan reaches the end of the list, finds the first key only, and dropping leaves the document unchanged |
| EncryptionYaml.NewKeyIsNotFirst | rust/crates/hbird-cli/src/commands/etcd.rs:561-615 | a two-key document, the first key under a dash of its own, in which every inserted key comes behind that first key |
| Restore.StepKeepsInv | rust/crates/hbird-cli/src/commands/etcd.rs:1048-1185 | every command of the script, its failure, the rollback, a cut-off and every outside event keeps: no directory nested in another, all data directories kept, later keep names free, and what each point of the script has established |
| Restore.NothingIsLost | rust/crates/hbird-cli/src/commands/etcd.rs:1048-1185 | over every execution nothing is nested, every directory that ever was `/var/lib/etcd`, each with an identity of its own, is there or under a before-restore name, and after a completed rollback or restore there is no `manifests.disabled` |
| Restore.ExactlyOneManifests | rust/crates/hbird-cli/src/commands/etcd.rs:1048-1185 | unless somebody makes a new manifests directory, the manifests exist under exactly one of their two names at every step, and a completed rollback or restore has them in place |
| Restore.RefusedRunChangesNothing | rust/crates/hbird-cli/src/commands/etcd.rs:1087-1101 | in any execution from an idle state with `manifests.disabled` present, as long as nobody moves it back by hand, every later state is idle, so no run goes past its refusal, and every directory is still where it was |
| Restore.SuccessfulRestore | rust/crates/hbird-cli/src/commands/etcd.rs:1048-1067 | a run that reports success has the manifests in place, its restored data at `/var/lib/etcd` and the data it found there under its own keep name, and the kubelet runs unless somebody else has touched it since the run began |
| Restore.KubeletFollowsScript | rust/crates/hbird-cli/src/commands/etcd.rs:1048-1067 | over executions in which nobody else touches the kubelet, it is stopped from the end of the script's stop command to its start command and runs from then on and after success |
| Restore.KubeletRunsAfterRollback | rust/crates/hbird-cli/src/commands/etcd.rs:1070-1076 | after a rollback whose start command works the kubelet runs until somebody else or the next script stops it |
| Restore.QuietRestore | rust/crates/hbird-cli/src/commands/etcd.rs:1048-1067 | from every start with a data directory the undisturbed run succeeds, and the final state is exactly the start with the data directory moved to its keep name, a fresh one in its place, the manifests where they were and the kubelet running |
| Restore.QuietRestoreByName | rust/crates/hbird-cli/src/commands/etcd.rs:1048-1067 | the same on the directory names of the script: the old data under `/var/lib/etcd.before-restore.` and the timestamp, fresh data at `/var/lib/etcd`, the manifests back at their name with their contents, nothing under the disabled name, nothing else added |
| Restore.RollbackWorks | rust/crates/hbird-cli/src/commands/etcd.rs:1070-1076 | after every failed script the rollback is possible; it leaves the manifests in place with their old contents, the kubelet running, and every other directory as it is |
| Restore.FailureMessageIsTrue | rust/crates/hbird-cli/src/commands/etcd.rs:1166-1183 | the kept directory that the failure message always names exists if and only if the command at which the script failed comes after the one that moves the data directory |
| Restore.FailureMessageCanBeFalse | rust/crates/hbird-cli/src/commands/etcd.rs:1166-1183 | an execution that fails at the script's first move and reports a kept directory that does not exist |
| Calendar.CivilFromEpochCorrect | rust/crates/hbird-cli/src/commands/etcd.rs:254-273 | for every 64-bit second count the result is a valid Gregorian date and time of day whose second count is the input |
| Calendar.CivilUnique | rust/crates/hbird-cli/src/commands/etcd.rs:254-273 | it is the only such date and time of day |
| Calendar.CivilFromEpochIncreases | rust/crates/hbird-cli/src/commands/etcd.rs:254-273 | later seconds give later calendar values |
| Calendar.NoOverflow | rust/crates/hbird-cli/src/commands/etcd.rs:254-273 | every intermediate value fits the integer type the program gives it, for all inputs |
| Calendar.MarchYear | rust/crates/hbird-cli/src/commands/etcd.rs:254-273 | the era arithmetic splits a day count into whole years from March to February and remaining days, by the reference count of days before a year |
| Calendar.SecondsOrder | rust/crates/hbird-cli/src/commands/etcd.rs:254-273 | the reference second count orders valid calendar values as dates and times are ordered, and identifies them |
| Calendar.NarrowAgrees | rust/crates/hbird-cli/src/commands/export_argocd.rs:573-591 | the copy with 32-bit fields agrees with the wide one on every non-negative input if and only if the year fits 32 bits |
| Timestamps.NamesIncrease | rust/crates/hbird-cli/src/commands/etcd.rs:277-290 | through the year 9999 both names have a fixed width (16 and 18) and later seconds give larger strings |
| Timestamps.NamesDistinct | rust/crates/hbird-cli/src/commands/etcd.rs:277-290 | through the year 9999 different seconds give different key names and different keep names |
| Timestamps.NamesSayTheTime | rust/crates/hbird-cli/src/commands/etcd.rs:277-290 | for every 64-bit second count both names spell the one date and time with that second count: at least four digits for the year (exactly four through 9999), two for each other field in order, `T` between date and time and `Z` at the end of a timestamp, `key-` in front of a key name |
| Base64.Base64Encode | rust/crates/hbird-cli/src/commands/etcd.rs:438-460 | the loop over three-byte chunks computes the encoding, chunk by chunk |
| Base64.WriteChunk | rust/crates/hbird-cli/src/commands/etcd.rs:441-458 | the shifts, ors and masks of one turn write the four characters of the chunk's 24-bit group |
| Base64.RoundTrip | rust/crates/hbird-cli/src/commands/etcd.rs:438-460 | the decoder of section 4 of RFC 4648 gives back every byte sequence |
| Base64.EncodedShape | rust/crates/hbird-cli/src/commands/etcd.rs:438-460 | the output has four characters per three bytes begun, with padding characters exactly at the end and as many as bytes are missing |
| Base64.EncodedCharacters | rust/crates/hbird-cli/src/commands/etcd.rs:438-460 | the output consists of characters of the alphabet and padding |
| Sha256.Sha256Hex | rust/crates/hbird-cli/src/commands/deploy_cluster.rs:1632-1702 | with its in-place schedule and working variables, the program computes the hash function of section 6.2.2 of FIPS 180-4 in lower-case hexadecimal |
| Sha256.FillSchedule | rust/crates/hbird-cli/src/commands/deploy_cluster.rs:1658-1670 | the schedule array holds the 64 words of this chunk's message schedule, whatever it held before |
| Sha256.ExtendSchedule | rust/crates/hbird-cli/src/commands/deploy_cluster.rs:1663-1670 | words 16 to 63 are computed in place from the words before them |
| Sha256.RunRounds | rust/crates/hbird-cli/src/commands/deploy_cluster.rs:1671-1691 | the eight variables after the loop are those of the standard's 64 rounds |
| Sha256.AddTo | rust/crates/hbird-cli/src/commands/deploy_cluster.rs:1692-1699 | each chaining word grows by its variable modulo 2^32, and no other way |
| Sha256.Pad | rust/crates/hbird-cli/src/commands/deploy_cluster.rs:1649-1656 | the padding loop appends the bit, the zeros and the length |
| Sha256.SigmasAreRotations | rust/crates/hbird-cli/src/commands/deploy_cluster.rs:1663-1691 | the four mixing functions as the program writes them are those of section 4.1.2 of FIPS 180-4 |
| Sha256.PaddingIsStandard | rust/crates/hbird-cli/src/commands/deploy_cluster.rs:1649-1656 | read as bits, the padded bytes are exactly the padding of section 5.1.1 of FIPS 180-4, for every input shorter than 2^61 bytes |
| Sha256.ZeroBitsIsSmallest | rust/crates/hbird-cli/src/commands/deploy_cluster.rs:1649-1656 | the number of zero bits is the smallest that brings the length to 448 modulo 512 |
| Sha256.PaddedLength | rust/crates/hbird-cli/src/commands/deploy_cluster.rs:1649-1656 | the padded length is a multiple of 64 bytes |
| Sha256.PaddingInjective | rust/crates/hbird-cli/src/commands/deploy_cluster.rs:1649-1656 | different messages have different padded messages |
| Sha256Tables.PrimesAreFirst | rust/crates/hbird-cli/src/commands/deploy_cluster.rs:1633-1644 | the reference table is the primes in order from 2: each number is followed by the first prime after it |
| Sha256Tables.RoundConstants | rust/crates/hbird-cli/src/commands/deploy_cluster.rs:1633-1644 | section 4.2.2 of FIPS 180-4: each of the 64 constants is the first 32 bits of the fraction of the cube root of the prime at its place, by (c 2^32 + k)^3 <= p 2^96 < (c 2^32 + k + 1)^3 |
| Sha256Tables.InitialHashWords | rust/crates/hbird-cli/src/commands/deploy_cluster.rs:1645-1648 | section 5.3.3 of FIPS 180-4: each of the eight initial words is the first 32 bits of the fraction of the square root of the prime at its place |
| Sha256Tables.Choice | rust/crates/hbird-cli/src/commands/deploy_cluster.rs:1674-1674 | for every three words, the choice function has the bits of the second where the first has ones and those of the third elsewhere |
| Sha256Tables.Majority | rust/crates/hbird-cli/src/commands/deploy_cluster.rs:1681-1681 | for every three words, the majority function has the bit on which the first two agree, and that of the third where they differ |
| Sha256Vector.DigestOfAbc | rust/crates/hbird-cli/src/commands/deploy_cluster.rs:2632-2638 | the digest of the bytes of `abc` is the published one, proved through all 64 schedule words and all 64 rounds |
| Shell.ShQuote | rust/crates/hbird-cli/src/commands/deploy_cluster.rs:2271-2291 | computes the quoting of the deploy command |
| Shell.ShellQuote | rust/crates/hbird-virt/src/lib.rs:900-920 | computes the quoting of the virt crate |
| Shell.ShellSingleQuote | rust/crates/hbird-cli/src/cp_resolve.rs:45-57 | computes the always-quoting form |
| Shell.QuoteDenotes | rust/crates/hbird-cli/src/commands/deploy_cluster.rs:2271-2291 | inside any command line, what each function writes for a word is read back by POSIX word splitting as that word |
| Shell.UnquotedIff | rust/crates/hbird-cli/src/commands/deploy_cluster.rs:2271-2291 | a word is passed on without quotes if and only if it is not empty and has only ASCII letters, digits and the few marks of its function |
| Shell.QuotedWordsRoundTrip | rust/crates/hbird-virt/src/lib.rs:900-920 | for each of the three functions and every list of strings, splitting the quoted strings joined by spaces gives back the list (sections 2.2.1, 2.2.2 and 2.3 of the POSIX.1-2017 Shell Command Language) |
| Shell.SecondLevelRoundTrip | rust/crates/hbird-cli/src/commands/deploy_cluster.rs:1332-1339 | the local shell hands `ssh` the key path and the whole remote command as single words, and the remote shell splits that command into the words it was quoted from |
| Network.CanonicalCidrIsValid | rust/crates/hbird-cli/src/commands/deploy_cluster.rs:1878-1898 | every canonical text of four octets and a prefix length is accepted |
| Network.ValidCidrIsCanonical | rust/crates/hbird-cli/src/commands/deploy_cluster.rs:1878-1898 | and nothing else: an accepted text is the canonical text of its octets and prefix length |
| Network.AddressTextsIdentify | rust/crates/hbird-cli/src/commands/deploy_cluster.rs:1878-1898 | accepted address texts are equal if and only if they denote the same 32-bit address |
| Network.ParseAddress | rust/crates/hbird-cli/src/commands/deploy_cluster.rs:1904-1914 | the shift-and-or loop over the dotted parts gives the 32-bit address, or nothing |
| Network.MaskedEqualIffSameBlock | rust/crates/hbird-cli/src/commands/deploy_cluster.rs:1915-1927 | two addresses agree under the mask if and only if they lie in the same aligned block of 2^(32-p) addresses |
| Network.IpInCidrIsMembership | rust/crates/hbird-cli/src/commands/deploy_cluster.rs:1903-1927 | on accepted texts the test holds if and only if the address lies in the aligned block that holds the base (section 3.1 of RFC 4632) |
| Network.BlocksNestOrAreDisjoint | rust/crates/hbird-cli/src/commands/deploy_cluster.rs:1903-1927 | two blocks that share an address are nested |
| Network.ValidMacIff | rust/crates/hbird-cli/src/commands/deploy_cluster.rs:1720-1726 | a text is accepted as a MAC exactly when it is six pairs of hexadecimal digits of either case, separated by colons |
| Network.MacTextsIdentify | rust/crates/hbird-cli/src/commands/deploy_cluster.rs:1720-1726 | two accepted MAC texts are equal ignoring case if and only if they denote the same 48-bit value |
| Network.UnsignedTexts | rust/crates/hbird-cli/src/commands/deploy_cluster.rs:1904-1914 | the number parser reads exactly an optional plus sign, zeros and the shortest decimal text of a number in range |
| Utf8.RoundTrip | rust/crates/hbird-cli/src/commands/deploy_cluster.rs:1714-1714 | the bytes of a text decode to that text under the table of section 3 of RFC 3629, so different names have different bytes |
| Utf8.OnlyEncodingsDecode | rust/crates/hbird-cli/src/commands/deploy_cluster.rs:1714-1714 | and the decoder accepts no other bytes |
| ExtraNetwork.DerivedMacIsValid | rust/crates/hbird-cli/src/commands/deploy_cluster.rs:1713-1716 | a MAC derived from a name is always accepted by the MAC check |
| ExtraNetwork.DerivedMacValue | rust/crates/hbird-cli/src/commands/deploy_cluster.rs:1713-1716 | the MAC of a name is the lower-case text whose 48-bit value is 52:54:00 followed by the first three bytes of the SHA-256 digest of the name in UTF-8 |
| ExtraNetwork.PrimaryMacsAreDetermined | rust/crates/hbird-cli/src/commands/deploy_cluster.rs:1752-1785 | a list is the one the program resolves if and only if entry 0 is CP_MAC when that is set and not empty, entry i + 1 is WORKER_MACS[i] when that exists and is not empty, and every other entry is the MAC of the machine name |
| ExtraNetwork.ResolvePrimaryMacs | rust/crates/hbird-cli/src/commands/deploy_cluster.rs:1746-1785 | succeeds if and only if all primary MACs are well formed and distinct ignoring case, returning the configured or derived MAC of each machine in order; otherwise the error names the first machine at fault and its fault |
| ExtraNetwork.CheckShapes | rust/crates/hbird-cli/src/commands/deploy_cluster.rs:2046-2086 | the shape checks succeed if and only if the arrays are parallel to the workers and every entry is well formed; each error is true |
| ExtraNetwork.CheckMacs | rust/crates/hbird-cli/src/commands/deploy_cluster.rs:2090-2110 | succeeds if and only if the second MACs are distinct from each other and from the primary ones; the error names the first that is not |
| ExtraNetwork.CheckAddresses | rust/crates/hbird-cli/src/commands/deploy_cluster.rs:2111-2119 | succeeds if and only if the second addresses are distinct; the error names the first that is not |
| ExtraNetwork.CheckRanges | rust/crates/hbird-cli/src/commands/deploy_cluster.rs:2124-2139 | succeeds if and only if no second address lies in a cluster range; the error names the first that does |
| ExtraNetwork.NetsAreGiven | rust/crates/hbird-cli/src/commands/deploy_cluster.rs:2141-2156 | an accepted configuration yields one entry per machine, each with the network, and with the MAC and address configured for the control plane or for the worker at its place |
| ExtraNetwork.ValidateExtraNetwork | rust/crates/hbird-cli/src/commands/deploy_cluster.rs:2014-2156 | with the network unset a half-set configuration is the only error; with it set, success means exactly that all checks hold, and the result pairs each machine with its MAC and address |
| ExtraNetwork.ValidateIdentity | rust/crates/hbird-cli/src/commands/deploy_cluster.rs:1228-1251 | with EXTRA_NETWORK set, the checks in the order `run` makes them succeed if and only if the cluster ranges are well formed and the identity is sound by value |
| ExtraNetwork.AcceptedIffSound | rust/crates/hbird-cli/src/commands/deploy_cluster.rs:1746-2156 | the checks on texts hold if and only if the arrays are parallel, all 2(N+1) MACs are distinct as 48-bit values and the N+1 addresses are distinct as 32-bit values and outside both ranges' blocks |
| Dhcp.ClassifyIsLookup | rust/crates/hbird-cli/src/commands/deploy_cluster.rs:1823-1834 | on every dump, whatever its other lines hold, the text search sees the MACs (ignoring case) and addresses of the table and those quoted on other lines; it decides what a lookup in the table decides if and only if the other lines quote neither the MAC nor the address, or the table has it too |
| Dhcp.FindIsLookup | rust/crates/hbird-virt/src/lib.rs:1024-1031 | on every dump the search by name returns the first line in front of the table that looks like an element with that name, else the element of the first reservation with that name, else such a line behind the table |
| Dhcp.RenderInjective | rust/crates/hbird-virt/src/lib.rs:771-789 | the element text determines the reservation |
| Dhcp.AddKeepsUniqueIff | rust/crates/hbird-virt/src/lib.rs:771-789 | adding keeps MACs (ignoring case) and addresses unique if and only if neither is in the table already |
| Dhcp.EnsureKeepsUnique | rust/crates/hbird-cli/src/commands/deploy_cluster.rs:1842-1867 | on an accurate dump an ensure step keeps the table unique and never removes an entry |
| Dhcp.EnsureEffect | rust/crates/hbird-cli/src/commands/deploy_cluster.rs:1847-1880 | on an accurate dump the table afterwards is the old one with the new reservation behind it if and only if the add works and neither value is in the table or on another line of the dump; otherwise it is the old one |
| Dhcp.FailedDump | rust/crates/hbird-cli/src/commands/deploy_cluster.rs:1847-1855 | without a dump an ensure step adds whenever the add works, so that the table stays unique if and only if both values were free, and a remove step does nothing |
| Dhcp.RemoveIsByName | rust/crates/hbird-virt/src/lib.rs:1024-1031 | whatever other lines the dump has, removing by name takes away at most one reservation and one with that name: the first of them when the delete works and no line in front of the table looks like one |
| Dhcp.RemoveEffect | rust/crates/hbird-virt/src/lib.rs:1024-1031 | exactly which entry goes in every case: the first with the name, or, when a line in front of the table is taken for one, the first that reads like that line |
| Dhcp.TableStaysSound | rust/crates/hbird-cli/src/commands/deploy_cluster.rs:1842-1867 | over any sequence of ensure and remove steps no two reservations share a MAC or an address, and an entry stays unless its own name is removed |
| Dhcp.Net.EnsureReservation | rust/crates/hbird-cli/src/commands/deploy_cluster.rs:1842-1867 | the table afterwards is that of the specification function, a failed dump counting as an empty one |
| Dhcp.Net.RemoveReservation | rust/crates/hbird-cli/src/commands/destroy_cluster.rs:233-253 | the table afterwards is that of the specification function |
| ConfigParser.ReadConfig | rust/crates/hbird-config/src/parser.rs:50-101 | the walk over the lines computes the tokenizer's function; its turns take consecutive non-empty runs of lines, together all lines when it succeeds |
| ConfigParser.ReadLine | rust/crates/hbird-config/src/parser.rs:54-99 | one turn of the loop: skip, an assignment with the number of lines it takes, or the error for that line |
| ConfigParser.ReadArray | rust/crates/hbird-config/src/parser.rs:189-233 | the loop that collects an array over lines gives its elements and how many further lines it took |
| ConfigParser.SplitArrayBody | rust/crates/hbird-config/src/parser.rs:237-280 | the index loop splits the body into quoted and bare elements, or reports the open quote |
| ConfigParser.FindClosingQuote | rust/crates/hbird-config/src/parser.rs:245-264 | finds the quote that closes the one given, or the end of the body |
| ConfigParser.FindBareEnd | rust/crates/hbird-config/src/parser.rs:265-277 | finds the end of an unquoted element |
| ConfigParser.StripTrailingComment | rust/crates/hbird-config/src/parser.rs:173-183 | cuts at the first `#` that starts the text or follows white space |
| ConfigGrammar.AcceptedIffSpelled | rust/crates/hbird-config/src/parser.rs:50-101 | the tokenizer accepts a text if and only if its lines are those of some entries: blank and comment lines, quoted and bare assignments, arrays on one or more lines, each spelled out with all its white space, quotes and comments |
| ConfigErrors.RejectedIff | rust/crates/hbird-config/src/parser.rs:50-100 | a text is rejected with an error if and only if its lines are those of some entries followed by a faulty line, of one of five declared forms, with that error: the first fault is the one reported, with its line number and text |
| ConfigErrors.FaultFails | rust/crates/hbird-config/src/parser.rs:50-286 | a line of each form of fault (no assignment, open quote, text behind a quote, array never closed, open quote inside an array) fails with its own error, whatever follows |
| ConfigErrors.FailureIsFault | rust/crates/hbird-config/src/parser.rs:50-286 | and every line that fails has one of these forms |
| ConfigErrors.OpenIsSpelled | rust/crates/hbird-config/src/parser.rs:237-285 | an array body is not read only if it has a quote without a partner behind complete elements |
| ConfigGrammar.SkippedIff | rust/crates/hbird-config/src/parser.rs:55-62 | a line is skipped, and the text behind a closing quote is allowed, exactly when it is white space up to its end or up to a `#` |
| ConfigGrammar.KeyIff | rust/crates/hbird-config/src/parser.rs:103-113 | a key is at most 128 ASCII letters, digits and underscores and does not start with a digit |
| ConfigGrammar.SpelledIsTokenized | rust/crates/hbird-config/src/parser.rs:50-101 | the table of an accepted text is that of the assignments of any such entries, so all of its spellings mean the same |
| ConfigGrammar.ScanOfPrinted | rust/crates/hbird-config/src/parser.rs:50-101 | scanning the lines of any entries gives exactly their assignments with the numbers of the lines that open them |
| ConfigGrammar.TokenizeOfPrinted | rust/crates/hbird-config/src/parser.rs:50-101 | entries written one line after the other, without carriage returns, are read back from the text |
| ConfigGrammar.BareIsRead | rust/crates/hbird-config/src/parser.rs:145-183 | a bare value is read without the white space and the comment after it; a `#` inside it that no white space precedes belongs to it |
| ConfigGrammar.ScalarIsSpelled | rust/crates/hbird-config/src/parser.rs:103-183 | and nothing else is accepted as a scalar: every right-hand side that is read is white space and the text of a quoted or bare value |
| ConfigGrammar.ElementsAreRead | rust/crates/hbird-config/src/parser.rs:237-280 | an array body made of quoted and bare elements is read as their texts |
| ConfigGrammar.ElementsAreSpelled | rust/crates/hbird-config/src/parser.rs:237-280 | and nothing else is accepted as an array body |
| ConfigGrammar.SpreadArray | rust/crates/hbird-config/src/parser.rs:189-233 | an array spread over lines has the elements of its lines one after the other, comment and blank lines adding none |
| ConfigGrammar.TrailingSpace | rust/crates/hbird-config/src/parser.rs:225-280 | the space the program puts after each line it joins does not change the elements |
| ConfigGrammar.LastAssignmentWins | rust/crates/hbird-config/src/parser.rs:50-101 | the table has exactly the assigned keys, each with the value and line of its last assignment |
| Uri.SpellingIsParsed | rust/crates/hbird-virt/src/uri.rs:90-195 | every text of the written-out grammar (optional user, bracketed or plain host, port, path, query) is accepted with its meaning |
| Uri.ParsedIsSpelling | rust/crates/hbird-virt/src/uri.rs:90-195 | everything the parser accepts is a text of that grammar and means what was parsed |
| Uri.RoundTrip | rust/crates/hbird-virt/src/uri.rs:328-350 | for every accepted text, parsing what was printed gives the same URI if and only if its host is a safe token or contains a colon; otherwise the printed text is rejected |
| Uri.HostIsRead | rust/crates/hbird-virt/src/uri.rs:230-274 | host and port are read from their spelling |
| Uri.HostIsSpelled | rust/crates/hbird-virt/src/uri.rs:230-274 | and nothing else is accepted as host and port |
| Uri.BracketsAreLost | rust/crates/hbird-virt/src/uri.rs:328-350 | a concrete accepted URI whose printed form is rejected |
| Uri.TargetStartsWithDash | rust/crates/hbird-virt/src/uri.rs:131-224 | the `ssh` target of an accepted URI starts with a dash if and only if the URI has no user and a bracketed host that starts with one |
| Uri.TargetIsRead | rust/crates/hbird-virt/src/uri.rs:219-224 | the ssh target of every accepted URI, split at its last `@`, is its user and its host |
| Uri.RejectionIsTrue | rust/crates/hbird-virt/src/uri.rs:90-215 | every rejection is for a reason that holds of the text: a missing scheme is reported exactly when it is missing, and each other reason is true of the user, the host text, the port or the path of the authority |
| Uri.PortIff | rust/crates/hbird-virt/src/uri.rs:230-285 | an accepted port is a number below 2^16 in decimal, with an optional plus sign and any zeros in front |
| Uri.SafeTokenIff | rust/crates/hbird-virt/src/uri.rs:291-320 | an accepted user or bare host is a text of ASCII letters, digits, dots, underscores and dashes that does not start with a dash |
| Uri.DashedTarget | rust/crates/hbird-virt/src/uri.rs:131-224 | a concrete accepted URI with such a target |
| Kubeconfig.ShapeIsRewritten | rust/crates/hbird-cli/src/commands/export_argocd.rs:376-422 | a line of an anchored shape becomes the line of the renamed shape, for each of the six substitutions |
| Kubeconfig.ChangedIsAnchored | rust/crates/hbird-cli/src/commands/export_argocd.rs:376-422 | a line that changes has one of the anchored shapes with a value to replace |
| Kubeconfig.LineIdempotent | rust/crates/hbird-cli/src/commands/export_argocd.rs:376-479 | rewriting a line again changes nothing |
| Kubeconfig.NameLines | rust/crates/hbird-cli/src/commands/export_argocd.rs:386-413 | `name:` lines with any of the three kubeadm defaults, indented or behind a dash, get the context name |
| Kubeconfig.ServerLine | rust/crates/hbird-cli/src/commands/export_argocd.rs:377-383 | an indented `server:` line gets the URL, whatever stood behind the key |
| Kubeconfig.CurrentLine | rust/crates/hbird-cli/src/commands/export_argocd.rs:389-397 | the `current-context:` line with the default context gets the context name |
| Kubeconfig.UserLine | rust/crates/hbird-cli/src/commands/export_argocd.rs:400-408 | a `user:` reference to the default user gets the context name |
| Kubeconfig.ClusterLine | rust/crates/hbird-cli/src/commands/export_argocd.rs:411-419 | a `cluster:` reference to the default cluster gets the context name |
| Kubeconfig.ContextNameIff | rust/crates/hbird-cli/src/commands/export_argocd.rs:229-240 | an accepted context name is a text of ASCII letters, digits, dots, underscores and dashes |
| Kubeconfig.RewriteKubeconfig | rust/crates/hbird-cli/src/commands/export_argocd.rs:357-371 | the loop over lines computes the rewriting of the whole text |
| Kubeconfig.PiecesOfRewritten | rust/crates/hbird-cli/src/commands/export_argocd.rs:357-371 | the lines of the rewritten text are the rewritten lines, terminators included |
| Kubeconfig.OtherLinesStay | rust/crates/hbird-cli/src/commands/export_argocd.rs:357-479 | the number of lines stays, and so does every line no substitution is anchored to |
| Kubeconfig.RewriteIdempotent | rust/crates/hbird-cli/src/commands/export_argocd.rs:357-479 | for every text, valid context name and newline-free URL, rewriting twice equals rewriting once |
| Kubeconfig.RenderedIsRenamed | rust/crates/hbird-cli/src/commands/export_argocd.rs:357-479 | rewriting the text of any configuration in kubeadm's layout gives the text of the renamed configuration |
| Kubeconfig.ReferencesResolve | rust/crates/hbird-cli/src/commands/export_argocd.rs:376-422 | if the references of a configuration resolve, they resolve afterwards if and only if none is a default name of another role |
| Kubeconfig.SameEntry | rust/crates/hbird-cli/src/commands/export_argocd.rs:376-422 | a renamed reference finds the entry it found before if and only if no earlier entry of that list clashes after the renaming |
| Kubeconfig.UserNamedAfterCluster | rust/crates/hbird-cli/src/commands/export_argocd.rs:396-418 | a concrete configuration, with a user called `kubernetes`, whose references stop resolving |
| Watchdog.StepKeepsInv | rust/crates/hbird-ssh/src/lib.rs:383-436 | every step of the child, the two threads, the clock and the parent keeps the accounting of both streams and what each point of the parent has established |
| Watchdog.BytesAreConserved | rust/crates/hbird-ssh/src/lib.rs:383-436 | at every interleaving, drained bytes, then pipe contents, then bytes still to be written equal the stream's full output, unless its reader failed |
| Watchdog.DrainedIsCompleteIff | rust/crates/hbird-ssh/src/lib.rs:388-400 | a thread that has stopped has drained all that was written to its stream if and only if it stopped on a read error with the pipe empty and nothing written to the stream after that, or on no error |
| Watchdog.OutputIsExact | rust/crates/hbird-ssh/src/lib.rs:427-436 | a returned output is that of an unkilled, reaped child with its exit status; each stream is the first part of what the child wrote, and all of it if and only if that condition held at every failed read |
| Watchdog.OutputIsComplete | rust/crates/hbird-ssh/src/lib.rs:427-436 | of a child that ran to its end, the returned outcome is its exit status with everything it had to write if and only if the condition held on both streams; without a failed read it did |
| Watchdog.OutputCutShort | rust/crates/hbird-ssh/src/lib.rs:388-436 | for any pipe size, an execution that returns an empty output with exit status 0 after the child wrote a byte |
| Watchdog.ReapedIff | rust/crates/hbird-ssh/src/lib.rs:407-417 | past the reaping call the child is reaped if and only if that call did not fail |
| Watchdog.TimeoutIsLast | rust/crates/hbird-ssh/src/lib.rs:407-417 | a timeout is returned only with the budget spent, the kill sent and both threads stopped; the child is reaped if and only if the `wait` after the kill did not fail, and it can still be running only if it was not reaped and both threads had failed |
| Watchdog.TimeoutOfRunningChild | rust/crates/hbird-ssh/src/lib.rs:407-417 | for every budget and output, an execution that returns the timeout with the child running, the kill, the `wait` and both reads having failed |
| Watchdog.EndingGoesOn | rust/crates/hbird-ssh/src/lib.rs:407-417 | once a delivered kill has ended the child, the parent or the thread it waits for can always go on |
| Watchdog.KillEndsInTimeout | rust/crates/hbird-ssh/src/lib.rs:407-417 | and until the timeout is returned at most 3 + 2(capacity + 1) such steps happen, whatever else happens in between |
| Watchdog.KillMeansTimeout | rust/crates/hbird-ssh/src/lib.rs:407-417 | after the kill no outcome but the timeout is possible, so no partial output is ever returned |
| Watchdog.BlockedWriterIsRelieved | rust/crates/hbird-ssh/src/lib.rs:388-400 | whenever the child cannot write because its pipe is full, the thread of that pipe can read |
| Watchdog.QuietMeansDrained | rust/crates/hbird-ssh/src/lib.rs:388-400 | when neither child nor threads can move bytes, a running child has written everything and all is drained; an ended one has stopped both threads |
| Watchdog.JoinGetsThrough | rust/crates/hbird-ssh/src/lib.rs:410-430 | a join that waits is for a thread that can go on, unless the child still runs because the kill and the `wait` have failed |
| Watchdog.MovesAreBounded | rust/crates/hbird-ssh/src/lib.rs:388-400 | child and threads together take at most two steps per byte of output and one per thread |
| Watchdog.WithoutDrainingTheChildStops | rust/crates/hbird-ssh/src/lib.rs:371-376 | as long as nobody reads a stream, no more than a pipe's capacity of it is ever written |
| Watchdog.LoopEnds | rust/crates/hbird-ssh/src/lib.rs:402-420 | in every execution, once the budget is spent at most one more call of the parent stays in the poll loop |
| Watchdog.LoopIsLeftInTime | rust/crates/hbird-ssh/src/lib.rs:402-420 | with a clock that ticks in every round, a parent that is still polling has taken fewer rounds than the budget has ticks |
| Watchdog.NoOutcomeMeansUsedUp | rust/crates/hbird-ssh/src/lib.rs:383-436 | there is an outcome exactly when the parent has returned, and none only if every round of the others has been used up, a call of the parent following each |
| Watchdog.OutcomeComes | rust/crates/hbird-ssh/src/lib.rs:383-436 | rounds in which the clock ticks and both threads get their turn, with a kill that is delivered, end in an outcome when there are as many as are left of the budget, one more, and twice a pipe's capacity plus one |
| Watchdog.EndedGivesOutput | rust/crates/hbird-ssh/src/lib.rs:402-436 | a call that finds the child ended returns, when it returns, its output with its own exit status, whatever is left of the budget |
| Watchdog.OutcomeIffDelivered | rust/crates/hbird-ssh/src/lib.rs:407-417 | of a child that does not end by itself, with so many rounds and a working `wait`, the call returns if and only if the kill is delivered; otherwise the program itself waits on |
| Watchdog.Command.WaitWithTimeout | rust/crates/hbird-ssh/src/lib.rs:383-436 | the program's poll loop and branches, run against any behaviour of the rest of the system, extend the execution and end in exactly the state, the unused rounds and the outcome of the specification function; under the conditions of OutcomeComes there is an outcome |
| Watchdog.Command.KillAndReap | rust/crates/hbird-ssh/src/lib.rs:409-416 | the expiry branch makes its calls in order, each of which may fail or block, ends exactly where the specification function does, and its only outcome is the timeout |
| Watchdog.Command.CollectOutput | rust/crates/hbird-ssh/src/lib.rs:429-435 | the joins after the loop end exactly where the specification function does, and their only outcome is an output |
| Watchdog.Command.OutcomeIsTrue | rust/crates/hbird-ssh/src/lib.rs:383-436 | what the returned outcome of a command says about it: an output is complete on a stream if and only if no failed read lost anything, a timeout means reaped if and only if the `wait` did not fail |
| Destroy.RunsSpareTheRest | rust/crates/hbird-cli/src/commands/destroy_cluster.rs:359-397 | over any sequence of runs with any calls failing, with or without effect, only configured domains, their three artifact paths, what is under the scratch directory and reservations with a configured name go, and nothing comes back |
| Destroy.RemainderNeverGrows | rust/crates/hbird-cli/src/commands/destroy_cluster.rs:359-397 | more runs leave no more of the configured domains and artifacts than fewer did |
| Destroy.OkLeavesNothing | rust/crates/hbird-cli/src/commands/destroy_cluster.rs:180-280 | a run that returns `Ok` leaves no artifact of any configured machine, and no configured domain but one whose probe `virsh` refused |
| Destroy.OkLeavesRefused | rust/crates/hbird-cli/src/commands/destroy_cluster.rs:190-200 | after `Ok`, with distinct machine names, a configured domain still exists if and only if it existed and its own probe was refused |
| Destroy.OkLeavesNoDomain | rust/crates/hbird-cli/src/commands/destroy_cluster.rs:190-200 | if the probe is refused only for absent domains, `Ok` leaves no configured domain |
| Destroy.OkLeavesNoFile | rust/crates/hbird-cli/src/commands/destroy_cluster.rs:128-156 | after `Ok` none of the three files NAME.qcow2, NAME-seed.iso and NAME-cloud-init.iso in the pool directory is left of the control plane or any worker |
| Destroy.OkIffSilent | rust/crates/hbird-cli/src/commands/destroy_cluster.rs:180-397 | a run returns `Ok` if and only if, on every machine as the run finds it, the probe gets through, a domain that is found runs and is defined and both calls on it work, the reservation a dump shows is deleted, and every file is checked and is absent or removed |
| Destroy.LostProbeEndsRun | rust/crates/hbird-cli/src/commands/destroy_cluster.rs:190-207 | the first lost probe fails the run with the host exactly as the machines before it left it: no later domain is changed and the scratch directory is not touched |
| Destroy.RefusedProbesKeepDomains | rust/crates/hbird-cli/src/commands/destroy_cluster.rs:190-200 | a run whose probes are all refused leaves every domain and can still return `Ok` |
| Destroy.QuietRun | rust/crates/hbird-cli/src/commands/destroy_cluster.rs:180-397 | a run in which no call fails for a reason of its own removes every configured domain, and returns `Ok` if and only if each that existed was both running and defined |
| Destroy.ShutOffIsReported | rust/crates/hbird-cli/src/commands/destroy_cluster.rs:190-212 | a run without faults on one defined domain that is shut off removes it and still reports failure |
| Destroy.SecondQuietRunIsOk | rust/crates/hbird-cli/src/commands/destroy_cluster.rs:359-397 | after one such run the next one returns `Ok` |
| Destroy.RejectedIff | rust/crates/hbird-virt/src/lib.rs:860-898 | the guard refuses exactly the empty path, relative paths, paths with a `..`, and the root and the sixteen system directories with any number of slashes behind them |
| Destroy.ScratchRefusedIff | rust/crates/hbird-virt/src/lib.rs:860-898 | the guard on recursive removal refuses the scratch directory if and only if the pool directory is relative or has a `..` in it |
| Destroy.ScratchGoes | rust/crates/hbird-cli/src/commands/destroy_cluster.rs:288-306 | with an absolute pool directory without `..`, a clean-up whose calls work leaves exactly what is not under the scratch directory |
| Destroy.ScratchStays | rust/crates/hbird-cli/src/commands/destroy_cluster.rs:288-306 | nothing changes when the probe of the scratch directory fails, when it is not there, or when the guard refuses it |
| Destroy.ReservationGoes | rust/crates/hbird-cli/src/commands/destroy_cluster.rs:213-253 | a teardown in which no call fails takes away at most one reservation and one with the machine's name: the first of them unless another line of the dump in front looks like it |
| Destroy.Connection.DestroyVm | rust/crates/hbird-cli/src/commands/destroy_cluster.rs:180-280 | probe, destroy, undefine, reservation and artifacts in order: the host and the warnings afterwards are those of the specification function |
| Destroy.Connection.RemoveArtifactsOf | rust/crates/hbird-cli/src/commands/destroy_cluster.rs:260-278 | the loop over the three paths |
| Destroy.Connection.DestroyCluster | rust/crates/hbird-cli/src/commands/destroy_cluster.rs:359-397 | the loop over the machines, the scratch directory and the final verdict |

## Left out

Assumptions that the theorems rest on:

- Rotation.RowsStayReadable: assumes that a passing health gate means the apiserver serves the config on disk (the program waits and asks for `/healthz`, and checks nothing else before it drops keys), that `install` replaces the file in one step, that no two runs read the same second off the clock, and that runs end before the year 10000; a run that is cut off takes its remote script with it, and runs do not overlap.
- Rotation.KeysAreDroppedUnused: under the same assumptions. Rows are Secrets and ConfigMaps, as in the re-encryption; a row names its key, and the first key of that name is used to decrypt it.
- KeyList.InsertPrepends: about the list that the scan recognises. It is the list YAML reads under the exact condition of `EncryptionYaml.FoundIsListIff` (no entry behind a comment at or left of the column of `keys:`, no dash alone on its line or before a tab), for documents with one aesgcm provider and without YAML anchors, flow style and quoting; both edits keep the condition (`EncryptionYaml.InsertKeepsList`, `EncryptionYaml.DropKeepsList`), and the results of `Rotation` speak of the keys in documents that meet it.
- Restore.NothingIsLost: assumes that `mv` within a file system is atomic, that the rollback's `mv` works when it is reached (its script ends in `|| true`), that a script which is cut off does not go on, and that runs do not overlap and start before the year 10000.
- Restore.ExactlyOneManifests: leaves out executions in which somebody makes a new manifests directory by hand while the old one is disabled; `Restore.NothingIsLost` covers those too.
- Timestamps.NamesIncrease: only through the year 9999, since a five-digit year widens the name.
- Sha256.PaddingIsStandard: only for inputs shorter than 2^61 bytes, as in the standard; beyond that the bit count wraps.
- Shell.QuotedWordsRoundTrip: word splitting covers quoting, blanks and ordinary characters; reserved words, aliases and assignments in front of a command are not modelled.
- Dhcp.TableStaysSound: each step works on an accurate dump, whose other lines may be anything without a newline or carriage return; names, MACs and addresses are words of letters, digits and `. _ - :`, other fields are free of quotes. What a step does without a dump is `Dhcp.FailedDump`.
- ConfigGrammar.TokenizeOfPrinted: the printed lines have no carriage returns; for texts that have some there is `ConfigGrammar.AcceptedIffSpelled`, which speaks of the lines as they are split.
- Kubeconfig.RenderedIsRenamed: covers the layout in which kubeadm writes the file, with any further lines inside cluster and user entries that no substitution is anchored to.
- Watchdog.OutputIsComplete: needs that no other process holds the pipes; the time limit counts clock steps, and the length of the poll interval plays no part.
- Watchdog.Command.WaitWithTimeout: what the rest of the system does is given as a finite list of rounds, and there may be no outcome when it is used up; `Watchdog.OutcomeComes` says how many rounds are enough. Between a `try_wait` and the check of the budget that follows it nothing else happens in this method; the step system has all interleavings.
- Destroy.OkLeavesNothing: says nothing about reservations, which are visited only while the domain exists and whose failed dump is not counted, nor about the scratch directory, whose failures are not counted; `Destroy.OkIffSilent` says exactly what does count.
- Destroy.RunsSpareTheRest: needs machine names in letters, digits, `.`, `_` and `-` for the reservations; paths are compared as texts.

Not modelled:

- SSH, virsh, podman, kubectl and file writes, except as calls that work or fail.
- The phase in which a command's standard input is written, before draining starts.
- Building the typed configuration from the token table (`build_config` and its `take_` helpers), since each helper is a single lookup.
- Errors of a kubeconfig or a configuration that is not UTF-8; texts are sequences of characters.
- Message wording: errors are constructors with the data their texts carry.
- The random key, the environment and the contents of `openssl` output; a generated key is the base64 text of any 32 bytes.
- The memory representation behind Rust's hash maps and sets; they are looked up by key only.
- Snapshots, labels, image references and the etcd backup command: single checks or single loops.
- The dry-run texts, cloud-init templates, node listing and node updates, image building and verification commands.
- The strength of AES-GCM and SHA-256.
