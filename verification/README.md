# Entorhinal: a verified model

Entorhinal is a registry of agents and of the packages they use. This project models the parts of it
that are protocols rather than plumbing, and proves what they keep.

* **Catalog versions and ranges** (`Semver`, `VersionRange`): parsing, printing, precedence and what comparators admit.
* **Dependency resolution** (`Selection`, `RangePasses`, `Cycle`, `Resolver`, `RootResolution`): the accumulate-and-restart
  fixpoint, the explicit-stack cycle search, reference checks, and several roots at once with exact pins for what others hold.
* **The strict ustar archive** (`Ustar`, `Archive`): the deterministic writer, the strict reader, and the round trip between them.
* **The signed status feed** (`Status`, `StatusFeed`, `FeedSync`, `CursorSync`, `KeyChain`): acceptance rules, runs of a client,
  selection by the server, why following a cursor loses nothing, and the chain of status keys.
* **Sessions and moves** (`SessionTables`, `SessionCarry`, `MoveTables`, `RegistryState`, `RegistryRuns`, `MoveRuns`, `Registry`):
  session bindings with their network histories, carrying them between machines, and durable moves with the fences and races around them.
  `SessionLaws` and `MoveLaws` say, write by write, when it is accepted, which row it leaves, and why it is refused.
* **The shared log** (`PendingLog`, `Snapshot`, `SnapshotCodec`): crash-safe appends to a log that takes an entry in one slot only, and
  size-capped snapshots, packed and read back.
* **Registered roots** (`RootBindings`, `RootLaws`, `RootWalk`): bindings of roots to checkouts, journal replay, what each request decides,
  and resolution by walking up.
* **Package generations** (`Generations`).
* **Move records** (`Json`, `JsonRead`, `MoveRecord`, `MoveCodec`): what encodes, why it can still be aborted, and the round trip.

`Prelude`, `Text`, `Refs` and `Catalog` hold shared vocabulary: optional values, orderings, text order, sorted iteration and references.

## How the model is made

Code that loops or updates state is a method here, on a class where the source has a store; its contract equates the result with a
function of the old state or states the property outright, and lemmas about those functions are the theorems. A transaction is one
method. Runs are folds over events, so a theorem about a run quantifies over every interleaving of whole transactions. The protocols
that cross machines or survive crashes (`PendingLog`, `CursorSync`) have an explicit step for each thing that may happen.

Signatures, canonical JSON forms and the decoding of signed documents are function parameters, so every theorem holds for every choice of
them; instants are integers that are only compared; the disk is an argument of the operation that reads it. Tables are maps, and a
unique index is a condition that is proved to hold, or, for moves, a refusal of the write.

Five findings are recorded as lemmas with concrete inputs beside an exact condition: a checkpoint that reopens a finished row can exceed
the cap of four open moves; a row saved as activating over one that is not yet claimed ignores an accepted abort; a diverged
diagnostic with long fields exceeds the detail cap, so the abort record does not encode; repeating a successful activation after a
status has come to block it is refused, although repeats are otherwise answered from memory; and a move record whose detail is an
explicit null comes back without one. A snapshot's opening part is also never measured while it holds only the member's name; every name that can be stored fits, so no real snapshot exceeds the cap.

Where documentation and code differ the code is followed: `bounded_detail` (`crates/entorhinal-core/src/move_record.rs:383-400`)
says that a diverged summary always fits, which holds only under the condition proved in `MoveRecord.BoundedWithinCap`.

Verify everything with `dafny verify dfyconfig.toml`.

## Model

| member | source | states |
|---|---|---|
| Semver.Partial | crates/entorhinal-catalog/src/semver.rs:24-51 | The loop that reads up to three numbers, the pre-release and its identifiers accepts exactly the texts of `PartialOf` and counts the numbers written. |
| Semver.PartialMeans | crates/entorhinal-catalog/src/semver.rs:24-60 | A text is a partial version of a value exactly when it is the printed form of that value with the numbers that were written: both directions, over every text. |
| Semver.PrintParseRoundTrip | crates/entorhinal-catalog/src/semver.rs:52-60 | Printing a valid version and parsing it back gives the version; conversely a text that parses is exactly the printed form of what it parsed to (with `Semver.ParseThenDisplay`). |
| Semver.ParseThenDisplay | crates/entorhinal-catalog/src/semver.rs:93-115 | Every accepted version text is reproduced character for character by printing. |
| Semver.ParseInjective | crates/entorhinal-catalog/src/semver.rs:24-60 | Two texts that parse to the same version are the same text. |
| Semver.Cmp | crates/entorhinal-catalog/src/semver.rs:61-87 | The loop over pre-release identifiers computes `Compare`, for all versions and any number of identifiers. |
| Semver.CompareTotalOrder | crates/entorhinal-catalog/src/semver.rs:61-92 | The comparison is antisymmetric, total, and Equal exactly on equal versions. |
| Semver.CompareTransitive | crates/entorhinal-catalog/src/semver.rs:61-92 | The comparison is transitive over all three-version combinations, pre-releases included. |
| Semver.CompareIsSemverPrecedence | crates/entorhinal-catalog/src/semver.rs:61-87 | The comparison is exactly the precedence of section 11 of SemVer 2.0.0, stated independently with numeric identifiers compared as unbounded natural numbers, not by length and text. |
| Text.LengthThenTextIsNumeric | crates/entorhinal-catalog/src/semver.rs:74-80 | On digit runs without leading zeros, length and then text is natural-number order without any bound. |
| VersionRange.ComparatorMeaning | crates/entorhinal-catalog/src/semver.rs:125-174 | Every accepted comparator (caret, tilde, partial, inequalities) admits exactly the releases its operator intends, stated by which numbers must agree and which may grow; no addition overflows. |
| VersionRange.RangeMeaning | crates/entorhinal-catalog/src/semver.rs:175-220 | Over range texts: a range is accepted exactly when every word of every alternative is; it admits a release exactly when some alternative has each of its words a star or a comparator whose intent the release meets, and a pre-release exactly when some alternative is that version spelled out alone. |
| VersionRange.Alternatives | crates/entorhinal-catalog/src/semver.rs:175-220 | `a || b` is accepted exactly when both sides are, and admits exactly what either side admits. |
| VersionRange.Conjunctions | crates/entorhinal-catalog/src/semver.rs:175-220 | Words side by side, apart by any white space, narrow: a release satisfies `a b` exactly when it satisfies both. |
| VersionRange.FirstBars | crates/entorhinal-catalog/src/semver.rs:175-179 | The first `||` ends the first alternative, and the rest is cut the same way. |
| VersionRange.WordsApart | crates/entorhinal-catalog/src/semver.rs:180-184 | One white-space character separates words: the words of the whole are those of both sides in order. |
| VersionRange.OperatorReads | crates/entorhinal-catalog/src/semver.rs:125-140 | An operator written before a version is read as that operator, with that version as its operand. |
| VersionRange.ParseRange | crates/entorhinal-catalog/src/semver.rs:175-202 | The nested loops over alternatives and words compute the declared range, and reject a pre-release or star that does not stand alone. |
| VersionRange.ExactRange | crates/entorhinal-catalog/src/semver.rs:134-220 | `=V` admits the version named by V and nothing else. |
| VersionRange.AnyRange | crates/entorhinal-catalog/src/semver.rs:134-220 | `*` admits every release and no pre-release. |
| VersionRange.PrereleaseNeedsExact | crates/entorhinal-catalog/src/semver.rs:203-220 | A pre-release satisfies a range only if some alternative is that very version, alone. |
| Selection.ParseAsked | crates/entorhinal-catalog/src/resolver.rs:253-262 | Every asked range is parsed in requester order; the first that is not a range is the one reported. |
| Selection.CollectUsable | crates/entorhinal-catalog/src/resolver.rs:263-276 | Exactly the Available versions within the capabilities, in registry order; the first eligible version text that is not a version is reported. |
| Selection.Best | crates/entorhinal-catalog/src/resolver.rs:277-305 | The scan finds the element that the stable sort by falling version and rising text puts first, among those satisfying every range. |
| Selection.Choose | crates/entorhinal-catalog/src/resolver.rs:244-306 | One pick is the highest eligible version inside every recorded range, and each refusal (not found, invalid range, invalid version, no match, conflict) is reported exactly when it applies; `Selection.PickMeans` and `VersionRange.RangeMeaning` say what eligible and inside mean in terms of the registry and the range texts. |
| Selection.PickMeans | crates/entorhinal-catalog/src/resolver.rs:244-306 | The pick is in the registry, Available, asks for no missing capability, lies in every asked range, and no other such version has a higher precedence. |
| RangePasses.RecordAll | crates/entorhinal-catalog/src/resolver.rs:307-315 | A pick adds its ranges only where its requester has none yet; the flag says whether anything was added. |
| RangePasses.Pass | crates/entorhinal-catalog/src/resolver.rs:239-318 | A pass either adds at least one pair of the finite universe of package and requester, or leaves the ranges unchanged with every pick following from them. |
| RangePasses.SettledIsSound | crates/entorhinal-catalog/src/resolver.rs:233-320 | When a pass adds nothing and version texts are distinct, the picks hold the root, are closed under requirements, eligible, and each inside the range every current pick asks. |
| RangePasses.FallingExtends | crates/entorhinal-catalog/src/resolver.rs:233-320 | From pass to pass no package rises to a higher version, because ranges only accumulate. |
| Cycle.FindCycle | crates/entorhinal-catalog/src/resolver.rs:321-346 | The explicit-stack depth-first search terminates, reports only genuine closed walks along requirement edges reachable from the root, and reports none exactly when there is none. |
| Cycle.RankedIsAcyclic | crates/entorhinal-catalog/src/resolver.rs:321-346 | Finishing numbers that fall along every edge rule out every closed walk: why a search that ends without a cycle proves there is none. |
| Resolver.CheckRefs | crates/entorhinal-catalog/src/resolver.rs:347-373 | References are good exactly when each names a required pick of the right kind; otherwise the first missing one in package then declaration order is reported, and only when none is missing the first of the wrong kind. |
| Resolver.RefErrorMeans | crates/entorhinal-catalog/src/resolver.rs:347-373 | An error about a reference names the first one, by package and then place, that is not required, or, when every one is, the first to a pick of another kind, with both kinds. |
| Resolver.Moves | crates/entorhinal-catalog/src/resolver.rs:374-418 | The move table covers exactly the pinned and selected packages, with the direction of each; otherwise the first package by name whose texts are not both versions is named, with the new text looked at before the pin. |
| Resolver.MoveErrorMeans | crates/entorhinal-catalog/src/resolver.rs:374-418 | The package named is the first by name with a text on either side that is no version, its new text looked at before its pin. |
| Resolver.Resolve | crates/entorhinal-catalog/src/resolver.rs:227-419 | The whole fixpoint terminates; picks never rise between passes; a cycle is reported exactly when the settled picks have one; success gives a sound closure with good references and complete moves; every error is justified by the inputs. |
| RootResolution.ReachableFrom | crates/entorhinal-catalog/src/resolver.rs:461-485 | The breadth-first walk finds exactly the packages reachable from the starts along pinned requirements. |
| RootResolution.SyntheticRootRanges | crates/entorhinal-catalog/src/resolver.rs:447-513 | Subjects keep their ranges, everything held by other roots gets its exact pin and nothing else is asked; otherwise the first subject that is no root is reported, or, when all are, the first root without a pin. |
| RootResolution.PinGraphMeans | crates/entorhinal-catalog/src/resolver.rs:461-485 | One pinned package leads to another exactly when both are pinned and the first one's pinned version requires it. |
| RootResolution.FindVersionMeans | crates/entorhinal-catalog/src/resolver.rs:447-485 | The version a pin names is the first of that text in the registry, and none exactly when there is none. |
| RootResolution.FrozenStays | crates/entorhinal-catalog/src/resolver.rs:447-559 | The frame: a package reachable from a root that is no subject is selected at exactly its current pin, with direction Same. |
| RootResolution.RootsKept | crates/entorhinal-catalog/src/resolver.rs:520-559 | A settled, acyclic selection from the artificial root keeps every root, a root that is no subject at exactly its pin, meets the subjects' ranges, and never exposes the artificial package. |
| RootResolution.Report | crates/entorhinal-catalog/src/resolver.rs:560-612 | Inner errors are reported in terms of the real roots, and a conflict with a frozen pin becomes a pin conflict that names the first range contradicting the pin. |
| RootResolution.PinConflictMeans | crates/entorhinal-catalog/src/resolver.rs:580-612 | A conflict at a package held at its pin names the first asked range, other than the pin's own, that the pinned version is outside of; with none, or at any other package, the error stays. |
| RootResolution.AttributedMeans | crates/entorhinal-catalog/src/resolver.rs:560-612 | Attribution replaces the artificial requester, wherever it appears, and nothing else in an error. |
| RootResolution.ResolveRoots | crates/entorhinal-catalog/src/resolver.rs:520-613 | All of the above for the multi-root call: success keeps every root that is no subject, and what such roots hold, at its pin, and is closed; each refusal is the first missing root or a reported inner refusal. |
| Ustar.UstarSplitFits | crates/entorhinal-catalog/src/archive.rs:73-82 | A path splits exactly when some slash leaves a name of at most 100 and a prefix of at most 155 characters, and the chosen split rejoins to the path. |
| Ustar.PathMeans | crates/entorhinal-catalog/src/archive.rs:73-101 | Over the text of a path: it may be stored exactly when no stretch between two slashes or ends is empty, `.` or `..`, every character is permitted, it has at most 255 characters, and it fits a header whole or cut at some slash. Any other path is refused for the first of these it misses. |
| Ustar.CheckedPath | crates/entorhinal-catalog/src/archive.rs:83-101 | An accepted path is non-empty, splits, and holds only permitted characters and slashes; `Ustar.PathMeans` says exactly which texts are accepted. |
| Ustar.LowerMeans | crates/entorhinal-catalog/src/archive.rs:200-209 | Two paths collide exactly when they are equal but for the case of ASCII letters. |
| Ustar.OctalRoundTrip | crates/entorhinal-catalog/src/archive.rs:102-113 | A number that fits its field is read back from its zero-padded octal text, whatever terminator follows. |
| Ustar.OctalMeans | crates/entorhinal-catalog/src/archive.rs:102-113 | An octal field is read exactly when it starts with octal digits whose value fits and ends in at least one NUL or space and nothing else. |
| Ustar.HeaderRoundTrip | crates/entorhinal-catalog/src/archive.rs:141-215 | The header written for a checked path and a size within the cap has the right checksum and is read back as that path and size (IEEE Std 1003.1, ustar Interchange Format). |
| Ustar.ReadHeaderMeans | crates/entorhinal-catalog/src/archive.rs:141-188 | A header is read exactly when checksum, magic and version, type and size are right and the path it names may be stored; any other is refused at its own offset for the first of these that is wrong. |
| Ustar.HeaderLayout | crates/entorhinal-catalog/src/archive.rs:311-333 | Where everything stands in a written header, byte range by byte range, constants included. |
| Archive.CheckMembers | crates/entorhinal-catalog/src/archive.rs:259-306 | The first faulty member, and the first rule it breaks, is the one reported; otherwise every member is faultless and the running total is exact. |
| Archive.MemberFaultMeans | crates/entorhinal-catalog/src/archive.rs:259-306 | A member may follow those before it exactly when it is a regular file with a good path, no earlier path equals it up to case, a manifest is within 65,536 bytes and the archive so far within 10,485,760; a refusal names the first of these that fails. |
| Archive.WritableMeans | crates/entorhinal-catalog/src/archive.rs:259-306 | The lists that can be written: 1 to 1000 members, the manifest first, all of them good, no two equal up to case, and within both caps. |
| Archive.FillHeader | crates/entorhinal-catalog/src/archive.rs:311-333 | The 512-byte array filled field by field, with the checksum taken over spaces, is exactly the declared header. |
| Archive.Write | crates/entorhinal-catalog/src/archive.rs:259-339 | Writing succeeds exactly for writable members, yields exactly their encoding of exactly the precomputed total length, and otherwise names the first fault; `Archive.WritableMeans` says which lists are writable. |
| Archive.BlocksLength | crates/entorhinal-catalog/src/archive.rs:290-339 | The encoding has exactly the length added up beforehand and stays in whole 512-byte blocks. |
| Archive.ReadMembers | crates/entorhinal-catalog/src/archive.rs:141-232 | The reading loop with its cursor and two maps computes `ReadAll` on every byte sequence. |
| Archive.NextEntryMeans | crates/entorhinal-catalog/src/archive.rs:141-232 | At an offset the reader is done exactly at two zero blocks with nothing but zeros after them, and takes a member exactly when the header is good, the path is new up to case, the count and the manifest are within their caps and the bytes are all there. |
| Archive.NextEntryRefuses | crates/entorhinal-catalog/src/archive.rs:141-232 | Beside a bad header, what the reader stops for and where: a missing terminator, the first byte of trailing data, too many members, a duplicate or collision, truncation, or a manifest over its cap. |
| Archive.ReadAllSound | crates/entorhinal-catalog/src/archive.rs:141-232 | Whoever wrote it, an accepted archive lists only paths without empty, `.` or `..` parts, with the bytes after a header naming them, at 512-aligned offsets, each path once up to case. |
| Archive.Read | crates/entorhinal-catalog/src/archive.rs:121-131 | A package archive must also hold its manifest; the result is then every member's bytes, under paths without empty, `.` or `..` parts. |
| Archive.WriteReadRoundTrip | crates/entorhinal-catalog/src/archive.rs:121-339 | Whatever the writer accepts, the reader accepts and returns exactly the written paths and bytes, each at its own offset, and nothing else. |
| Archive.OffsetsIncrease | crates/entorhinal-catalog/src/archive.rs:141-339 | Members lie in write order at increasing 512-aligned offsets, each past the data before it. |
| Status.AuthenticMeans | crates/entorhinal-catalog/src/status.rs:194-231 | Exactly the parsed records, signed by the first key of their id, within that key's window up to any later key's start, and matching the pin, are authentic. |
| Status.ParseMeans | crates/entorhinal-catalog/src/status.rs:126-193 | A document is taken up exactly when it has a canonical form, a positive sequence, a key id, a version, a cutoff exactly when revoked, and a reason whenever it is not available. |
| Status.AuthenticateRefuses | crates/entorhinal-catalog/src/status.rs:194-231 | A parsed record that is not authentic is refused for the first of: its key is unknown, its signature is wrong, the key was not valid then, it does not match its pin. |
| Status.AuthenticUnderPrefix | crates/entorhinal-catalog/src/status.rs:194-231 | Growing the key chain only narrows windows: what is authentic under the longer chain was authentic under the shorter, with the same signer epoch. |
| Status.FollowsTransitive | crates/entorhinal-catalog/src/status.rs:249-276 | The relation between one hold and a later one composes; together with `Status.FollowsAntisymmetric` it is an order. |
| Status.FollowsAntisymmetric | crates/entorhinal-catalog/src/status.rs:249-276 | Two holds that each follow the other are the same hold. |
| Status.FollowsMeans | crates/entorhinal-catalog/src/status.rs:249-276 | A following hold never has a lower sequence or earlier change, changed bytes mean a larger sequence, attested signer epochs do not fall, Tombstoned is final and Revoked leads only to Tombstoned. |
| Status.CompareMeans | crates/entorhinal-catalog/src/status.rs:249-276 | Next to the held record: a duplicate exactly on the same bytes at the same sequence, applied exactly when it supersedes, else refused for the rule it breaks. |
| Status.AcceptedWhen | crates/entorhinal-catalog/src/status.rs:194-276 | A status is accepted exactly when it is authentic and is the held bytes again or supersedes them. |
| Status.AcceptedHolds | crates/entorhinal-catalog/src/status.rs:194-276 | What is held after an acceptance: the new record, except that a duplicate keeps an attested hold and only replaces one from a bundle. |
| Status.ApplyFollows | crates/entorhinal-catalog/src/status.rs:194-244 | An accepted status is authentic, matches its pin, is registry-attested, and follows the one held before. |
| Catalog.VersionKeyInjective | crates/entorhinal-catalog/src/status.rs:407-411 | The joined key of a hold determines the package name and the version text, since a version text has no `@`. |
| StatusFeed.ApplyFeed | crates/entorhinal-catalog/src/status.rs:365-432 | The loop over a reply computes `FeedStep`: each record against the holds left by the ones before it, the cursor moved only when every record applied, the fallback after a rollback. |
| StatusFeed.ReplyMeans | crates/entorhinal-catalog/src/status.rs:365-432 | The cursor becomes the reply's exactly when every record was accepted; one refused record leaves it where it was, and an unavailable or older reply changes nothing. A full fetch comes next exactly when a partial one was unavailable, older or rolled back. |
| StatusFeed.RecordMeans | crates/entorhinal-catalog/src/status.rs:365-432 | Each record of a reply is judged against the holds left by those before it: accepted, it is held under its key and nothing else changes; refused, every hold stays. |
| StatusFeed.SeedForward | crates/entorhinal-catalog/src/status.rs:249-276 | A bundle may start a hold but never changes one. |
| StatusFeed.ReactMeans | crates/entorhinal-catalog/src/status.rs:232-276 | A single status is held under its package and version when accepted, a bundle's exactly where nothing is held yet, and neither touches the cursor. |
| StatusFeed.RunForward | crates/entorhinal-catalog/src/status.rs:194-432 | For arbitrary replies, single statuses and bundles in any order and under any key chains, every hold survives and only moves forward, and so does the cursor. |
| StatusFeed.NeverRollsBack | crates/entorhinal-catalog/src/status.rs:194-432 | Between any two points of any run: sequence, change time and signer epoch do not fall, changed bytes have a larger sequence, terminal states stay terminal. |
| FeedSync.SelectFeed | crates/entorhinal-catalog/src/status.rs:452-484 | For any log, the selection is served exactly within the servable cursors and holds exactly the latest write of each version past the cursor, in cursor order, each once. |
| FeedSync.MaxSeqMeans | crates/entorhinal-catalog/src/status.rs:452-484 | The cursor served is the greatest one of the log, and zero for an empty one. |
| CursorSync.LaterSupersedes | crates/entorhinal-catalog/src/status.rs:249-276 | In a good log any later write of a version supersedes any earlier one, so skipping intermediate writes is harmless. |
| CursorSync.FetchCatchesUp | crates/entorhinal-catalog/src/status.rs:365-484 | One full or incremental fetch with any part of the key chain and the pins: holds stay at or ahead of the cursor, and the cursor moves exactly when everything served can be read; then the client has exactly the latest status of every version. |
| CursorSync.FollowerNeverSkips | crates/entorhinal-catalog/src/status.rs:365-484 | Over any honest run, in which keys and pins may arrive late and answers be refused in part: the cursor is that of the last answer read as a whole, and of every version the client holds the latest write up to there or a later one, so no write is ever skipped. |
| CursorSync.FollowerIsCurrent | crates/entorhinal-catalog/src/status.rs:365-484 | After any run of honest full and incremental fetches while the log, the key chain and the pins keep growing, whatever was refused on the way: once the last answer can be read, the client holds exactly the latest status of every version and the log's cursor. |
| CursorSync.FollowersAgree | crates/entorhinal-catalog/src/status.rs:365-484 | Cursor sync equals full sync: any two honest runs that reached and read the same point of the log end in equal states. |
| KeyChain.Chain.Apply | crates/entorhinal-catalog/src/statements.rs:187-239 | The statement is applied to the chain exactly as `Applying` says: duplicate, conflict, unknown key, bad signature, or one key appended. |
| KeyChain.ApplyingMeans | crates/entorhinal-catalog/src/statements.rs:187-239 | A statement adds its key exactly when it is well shaped, for this registry, of a new id and a new key, and signed by the newest key; when it is a duplicate, and for which of these reasons any other is refused. |
| KeyChain.ChangesByAppending | crates/entorhinal-catalog/src/statements.rs:187-239 | Only an accepted statement changes the chain, by appending the stated key, vouched for by the key before it; ids and public keys stay distinct. |
| KeyChain.ChainOnlyGrows | crates/entorhinal-catalog/src/statements.rs:187-239 | Over any statements in any order the chain only grows at its end and keeps key ids and public keys distinct. |
| KeyChain.AcceptedThenDuplicate | crates/entorhinal-catalog/src/statements.rs:206-216 | An accepted statement received again answers duplicate and changes nothing. |
| SessionTables.RecordedIsGood | crates/entorhinal-core/src/session_network.rs:136-198 | Recording a network value keeps times strictly rising even when the clock steps back, values valid and the history within its cap, extends it by at most one entry and leaves that value in effect. |
| SessionLaws.RecordedMeans | crates/entorhinal-core/src/session_network.rs:136-198 | A network value is recorded exactly when it is one of the three known and is in effect already or has room left; a new entry takes effect now, or just after the last one when the clock stepped back; refusals name their cause. |
| SessionTables.RegisterSound | crates/entorhinal-core/src/lib.rs:1125-1395 | A registration keeps (harness, session) and (runner, session) unique and every history attached to a binding: the unique indexes never have anything to refuse. |
| SessionTables.RegisterCarries | crates/entorhinal-core/src/lib.rs:1234-1350 | Re-keying and host change carry everything: each earlier binding is still there, perhaps under its new reference, for the same agent and with its whole history; all others are untouched. |
| SessionTables.RegisterAddsOne | crates/entorhinal-core/src/lib.rs:1300-1375 | Nothing appears but the one row registered. |
| SessionLaws.PreviousMeans | crates/entorhinal-core/src/lib.rs:1193-1233 | Over sound tables, the binding a registration continues: the one of its host session, else the one whose run it takes over under another host kind, else its own reference. |
| SessionLaws.RegisteredMeans | crates/entorhinal-core/src/lib.rs:1125-1375 | The row a registration leaves, field by field, over sound tables: what the request does not say comes from the binding it continues, whose history is carried and extended by the network value. |
| SessionLaws.TableRefusalMeans | crates/entorhinal-core/src/lib.rs:1178-1290 | The tables refuse a registration exactly when its reference, host session or run belongs to another, a re-key lands on a taken reference, the run taken over is held elsewhere, or the network value cannot be recorded; each refusal names its cause. |
| SessionLaws.RegisterRefusalMeans | crates/entorhinal-core/src/lib.rs:1125-1200 | With moves and claims: the one reason a registration is refused for, in the order of the source, and none exactly when all are absent. |
| SessionTables.InstallSound | crates/entorhinal-core/src/session_carry.rs:256-421 | Installation keeps the three keys unique and histories attached, never alters a local row or history, and adds rows only for its own agent among the references given. |
| SessionCarry.ExportedMeans | crates/entorhinal-core/src/session_carry.rs:178-249 | What travels is exactly the agent's rows with their histories: planned rows as they are, all others only as finished metadata naming the machine that holds them. |
| SessionLaws.ExportMeans | crates/entorhinal-core/src/session_carry.rs:178-249 | An export succeeds exactly when every planned reference is the agent's, every live one is planned, and the machine can name itself where it has to; unplanned rows are marked as held where they are held. |
| SessionLaws.InstallOneMeans | crates/entorhinal-core/src/session_carry.rs:256-383 | What installing one carried row does to its own reference, its owner, its holder and its history, and that it does nothing else. |
| SessionCarry.ExportThenInstall | crates/entorhinal-core/src/session_carry.rs:178-421 | Export from one sound store and install on a machine whose sessions do not clash: every binding arrives under its reference with host session, runner, end and whole history. |
| SessionCarry.TallyCounts | crates/entorhinal-core/src/session_carry.rs:256-383 | The counts reported for an installation are true, references repeated or not: how many carried rows are now here as sent, how many only as placeholders, how many local rows won over; the skipped ones are exactly those now absent, each paired with a local row in its way. |
| Registry.FindSession | crates/entorhinal-core/src/lib.rs:1193-1199 | The lookup by host session finds the one binding that has it. |
| Registry.RegistryStore.PlanRegistration | crates/entorhinal-core/src/lib.rs:1178-1290 | The checks in order find the binding this registration continues, or exactly the first refusal that applies. |
| Registry.RegistryStore.RegisterSession | crates/entorhinal-core/src/lib.rs:1125-1395 | The checks and then the moves of row and history, the upsert and the network entry leave exactly `RegisteredTables`; a refusal leaves the tables as they were. |
| Registry.RegistryStore.EndSession | crates/entorhinal-core/src/session_lifecycle.rs:150-201 | Ends the session once, filling a missing runner only when no other binding holds that runner session. |
| SessionLaws.EndMeans | crates/entorhinal-core/src/session_lifecycle.rs:150-201 | An end is stamped once, on the binding of that host session alone; another runner refuses, and a missing one is filled unless some binding has that run. |
| Registry.RegistryStore.StampGoneSessions | crates/entorhinal-core/src/session_lifecycle.rs:203-226 | Each reported end is stamped on an open binding of no other runner, in order. |
| SessionLaws.StampMeans | crates/entorhinal-core/src/session_lifecycle.rs:203-226 | A reported end reaches exactly the open binding of that host session, unless both name a runner and they differ. |
| Registry.RegistryStore.SetSessionNetwork | crates/entorhinal-core/src/session_network.rs:199-260 | Records the value on the binding of that host session, or refuses with nothing written. |
| Registry.RegistryStore.PruneEndedSessions | crates/entorhinal-core/src/session_lifecycle.rs:228-258 | However many batches it takes, exactly the bindings finished before the cutoff, of agents without an open move, are gone, with their histories. |
| SessionLaws.PrunableMeans | crates/entorhinal-core/src/session_lifecycle.rs:228-258 | What may be pruned: exactly a binding finished before the cutoff, of an agent with no open move. |
| Registry.RegistryStore.InstallMovedBindings | crates/entorhinal-core/src/session_carry.rs:256-383 | The loop over references and metadata with its seen set leaves exactly `InstallAll` and returns exactly the counts of `Tally`, with the first local holder of each skipped row. |
| Registry.RegistryStore.ExportSessionBindings | crates/entorhinal-core/src/session_carry.rs:178-249 | Exports only while an open source move of the agent has not yet published, and then exactly what `Exported` says; the three refusals are told apart. |
| RegistryRuns.StepKeeps | crates/entorhinal-core/src/lib.rs:1125-1395 | Every transaction (registrations, ends, pruning, admissions, checkpoints, aborts and their retries, activations) keeps the tables sound and the move indexes respected. |
| RegistryRuns.RunKeeps | crates/entorhinal-core/src/lib.rs:1125-1395 | Over every run the three session keys stay unique, every history names a binding, and an agent has at most one open move. |
| RegistryRuns.BindingsKeepAgents | crates/entorhinal-core/src/lib.rs:1125-1395 | Over every run, through any re-keys and host changes, a binding that was not pruned still belongs to its agent and still has its whole history. |
| RegistryRuns.RefusalsChangeNothing | crates/entorhinal-core/src/lib.rs:1120-1130 | A refused registration, activation or admission changes nothing at all. This reads the refusing branches of the transaction functions back; that the methods restore their writes is in the contracts of `Registry.RegistryStore`. |
| MoveTables.AdmissionsWithinCaps | crates/entorhinal-core/src/move_store.rs:550-684 | Both admissions keep at most one open move per agent and four in all, and a refusal writes nothing. |
| MoveTables.CheckpointCap | crates/entorhinal-core/src/move_store.rs:705-741 | A checkpoint keeps the number of open moves within the cap if and only if it does not reopen a finished row while four others are open. |
| RegistryRuns.StaleRowBreaksCap | crates/entorhinal-core/src/move_store.rs:705-741 | Concrete rows for the previous line: saving a finished row as open again makes a fifth open move. |
| MoveLaws.AdmitSourceMeans | crates/entorhinal-core/src/move_store.rs:550-625 | A source move is admitted exactly when references and digest are the ones checked, within 256, the agent is free, fewer than four moves are open and the cut is new; its row is the only change, a repeat returns the first row, and a refusal names the first condition missed. |
| MoveLaws.AdmitReceivedMeans | crates/entorhinal-core/src/move_store.rs:635-684 | A receiver admits a picked-up or aborted move exactly when its agent and a slot are free and its request key is not another row's; a repeated cut answers with the stored row. |
| RegistryRuns.CapsHold | crates/entorhinal-core/src/move_store.rs:550-741 | Over every run in which drivers save only the move they loaded, at most four moves are open, of different agents. |
| RegistryRuns.FenceHolds | crates/entorhinal-core/src/move_store.rs:550-633 | Once a source move is admitted over its checked live references, and as long as it has stayed an open source move, the agent's live references stay within them through any transactions, checkpoints saved from rows of any age included. |
| RegistryRuns.DrivenStaysOpen | crates/entorhinal-core/src/move_store.rs:705-741 | When drivers save only the move they loaded, a move that is an open source move at the end has been one throughout, which is what the previous line asks for. |
| RegistryRuns.RegisterFenced | crates/entorhinal-core/src/move_store.rs:1081-1123 | A registration that is not refused is never for an agent with an open source move. |
| RegistryRuns.ActivationElsewhere | crates/entorhinal-core/src/move_store.rs:795-849 | No activation for the same agent can commit beside its open source move. |
| MoveTables.CheckpointEntersWhen | crates/entorhinal-core/src/move_store.rs:705-722 | A checkpoint enters activating exactly when it asks to and does not find a claimed move with an accepted abort. |
| MoveLaws.CheckpointMeans | crates/entorhinal-core/src/move_store.rs:705-741 | What a checkpoint leaves, field by field: an uncleared abort and both stored deliveries stay, a source that owes a release has one, everything else is as saved; when it is refused and when it writes nothing. |
| MoveLaws.CheckpointLeavesRelease | crates/entorhinal-core/src/move_store.rs:728-739 | A checkpoint of an aborted source whose seal was sent and not refused leaves the stored release, or a pending one when there was none. |
| MoveTables.CheckpointKeepsAbort | crates/entorhinal-core/src/move_store.rs:718-728 | A checkpoint that does not clear the abort never drops it, however stale its row. |
| MoveTables.CheckpointKeepsDeliveries | crates/entorhinal-core/src/move_store.rs:728-739 | No checkpoint replaces the stored accept delivery or an existing release delivery. |
| MoveTables.AbortTakenWhen | crates/entorhinal-core/src/move_store.rs:745-779 | An abort is accepted exactly before the boundary (or once aborted); past it the row and every other row stay exactly as they were. |
| MoveLaws.AbortMeans | crates/entorhinal-core/src/move_store.rs:745-779 | An abort is accepted exactly before the boundary or once aborted; the first is recorded as the operator's, one that finds its cleanup held asks for a retry and keeps the reason, any other repeat and every refusal writes nothing. |
| MoveRuns.AbortWins | crates/entorhinal-core/src/move_store.rs:705-779 | In every interleaving, retries of the abort included, an accepted abort that no checkpoint clears keeps the move out of activating, given that drivers enter activating only from claimed. |
| MoveRuns.AcceptedAbortStands | crates/entorhinal-core/src/move_store.rs:745-779 | Accepting an abort before the boundary establishes the premise of the previous line. |
| MoveRuns.StaleActivationIgnoresAbort | crates/entorhinal-core/src/move_store.rs:705-722 | The premise on drivers is needed: a row saved as activating over a merely staged one ignores the abort. |
| MoveRuns.DeliveriesAreLatest | crates/entorhinal-core/src/move_store.rs:705-877 | Over every run, with checkpoints from rows of any age, a move's accept delivery is the latest one recorded, and so is its release delivery from the moment it has one. |
| MoveRuns.ReleasesAlwaysLeft | crates/entorhinal-core/src/move_store.rs:705-877 | Over every run, with checkpoints saved from rows of any age: if every aborted source with a sent, unrefused seal has a release in the first state, it has one in every later state. |
| Registry.RegistryStore.AdmitAgentMove | crates/entorhinal-core/src/move_store.rs:550-625 | The admission transaction decides in order: a repeated request key, changed live references, the reference cap, changed pins, the agent's slot, the cap. |
| Registry.RegistryStore.AdmitReceivedMove | crates/entorhinal-core/src/move_store.rs:635-684 | A repeated cut returns the stored row unchanged; otherwise one slot is taken or the refusal named. |
| Registry.RegistryStore.CheckpointAgentMove | crates/entorhinal-core/src/move_store.rs:705-741 | The checkpoint edits leave exactly `Checkpoint`, including the pending release of an aborted sealed source. |
| Registry.RegistryStore.RequestAgentMoveAbort | crates/entorhinal-core/src/move_store.rs:745-779 | The abort transaction leaves exactly `RequestAbort`. |
| Registry.RegistryStore.ConsumeMoveAbortRetry | crates/entorhinal-core/src/move_store.rs:909-926 | Clears exactly the pending retry of a stored abort and says whether there was one; no index check can refuse the write. |
| Registry.RegistryStore.ActivateAgentMoveCarrying | crates/entorhinal-core/src/move_store.rs:795-849 | Owners are checked before anything is inserted; bindings and row are written together or not at all, and the counts of the installation are returned. |
| MoveLaws.ActivationMeans | crates/entorhinal-core/src/move_store.rs:795-849 | An activation is let through exactly from the stored activating receiver row, for references nobody else holds; the row keeps its abort and has both deliveries pending. |
| Registry.RegistryStore.SetMoveCutAccept | crates/entorhinal-core/src/move_store.rs:851-865 | Writes the accept delivery and the time on that move, and touches no other row; an unknown cut is no error. |
| Registry.RegistryStore.SetMoveCutRelease | crates/entorhinal-core/src/move_store.rs:867-877 | Writes only the release delivery of that move; an unknown cut is refused. |
| PendingLog.Store.SharedAttempt | crates/entorhinal-core/src/pending.rs:68-113 | The row is committed before anything may be sent; on failure it is deleted only when nothing can have been sent, so it stays when the operation fails after its entry was settled; success records the entry and settles what it outran; an id that already has a row is refused untouched. |
| PendingLog.Store.Finish | crates/entorhinal-core/src/pending.rs:144-179 | The end of the operation inside its transaction, for every way it can settle. |
| PendingLog.Store.ApplyEntry | crates/entorhinal-core/src/remote_apply.rs:598-745 | Only the next position is applied; it records the entry and drops every attempt that expected an earlier head. |
| PendingLog.OpenEntriesHaveRows | crates/entorhinal-core/src/pending.rs:68-179 | With lost replies, late and repeated delivery, other writers and crashes at any point: an entry that may still land, or landed without being recorded, has its pending row, and an attempt without one is settled. |
| PendingLog.RowsLeaveSettled | crates/entorhinal-core/src/pending.rs:68-179 | A step removes a row only when it leaves the entry recorded at its position, never sent, or with its only slot taken. |
| PendingLog.StaysSettled | crates/entorhinal-core/src/pending.rs:68-179 | No later step can reopen a settled entry. |
| PendingLog.AttemptIsSteps | crates/entorhinal-core/src/pending.rs:68-179 | Uninterrupted, the method leaves exactly the rows of the protocol steps it stands for; a commit lost with its transaction is an ambiguous attempt. |
| PendingLog.AttemptMeans | crates/entorhinal-core/src/pending.rs:68-179 | The rows after one attempt, exactly: a committed entry is recorded at its position and drops every attempt that expected an earlier one; any other end only adds the attempt's own row, and only when something may have been sent. |
| PendingLog.RowsNeverLinger | crates/entorhinal-core/src/pending.rs:68-179 | In every reachable state a pending row is kept only while its slot has not been applied. |
| PendingLog.LostReplyIsRecovered | crates/entorhinal-core/src/pending.rs:68-179 | A delivered request whose reply is lost in a crash and found by reading the log leaves the very rows of one whose reply came back. |
| Snapshot.Partition | crates/entorhinal-core/src/enable_state.rs:61-133 | Greedy packing: parts hold consecutive units, none was closed while its next unit still fitted, only an opening part may be empty; refused, naming the first, exactly when some row is too large for a part of its own. |
| SnapshotCodec.OversizeMeans | crates/entorhinal-core/src/enable_state.rs:61-118 | A row is refused exactly when a part with nothing else, the widest counts, and the widest base if there is one, is longer than 204,800 bytes. |
| SnapshotCodec.PartsAreGreedy | crates/entorhinal-core/src/enable_state.rs:100-133 | Packing is greedy: what opens a later part did not fit into the part before it. |
| Snapshot.PartsWithinCap | crates/entorhinal-core/src/enable_state.rs:51-133 | All parts, with their real counts and base, are within 204,800 bytes if and only if the member's name is not left alone in part one, or that part alone is within the cap. |
| Snapshot.PartWithinCap | crates/entorhinal-core/src/enable_state.rs:51-133 | Each part is within the cap except possibly a first one that holds the name alone, the only part that is never measured before it is closed. |
| Snapshot.NameAloneMeans | crates/entorhinal-core/src/enable_state.rs:100-133 | Part one holds the name alone exactly when there are no rows and agents, or the first of them does not fit beside the name. |
| Snapshot.NameFitsAllFit | crates/entorhinal-core/src/enable_state.rs:51-133 | When the estimate of the name alone fits, which the caller can compute beforehand, every part is within the cap. |
| Snapshot.StoredNamesFit | crates/entorhinal-core/src/shared_entry.rs:76-86 | A member name that passed the checks of a stored one (an author of 32 and a name of 1 to 64 characters) always fits, so every snapshot prepared from the store is within the cap. |
| Snapshot.PartitionRestores | crates/entorhinal-core/src/enable_state.rs:61-133 | Reading the parts in order restores every table's rows and all agents in order, with the member's name on part one alone. |
| SnapshotCodec.PartsReadBack | crates/entorhinal-core/src/remote_apply.rs:53-89 | Every part sent is accepted by the reader of snapshot parts from its author, and read back as the part that was packed: number, count, base, tables, agents and name. |
| SnapshotCodec.PartMeans | crates/entorhinal-core/src/remote_apply.rs:53-89 | Which values are snapshot parts from an author, and of what: exactly the objects of the eight named fields, numbered from one to their count, with a name on the first part only and only the author's. |
| SnapshotCodec.TablesMean | crates/entorhinal-core/src/remote_apply.rs:53-68 | Every table written is read, from the last place it is written at, and nothing else is. |
| Snapshot.WithinEstimate | crates/entorhinal-core/src/enable_state.rs:51-71 | Maximum-width counts and base never underestimate the real body. |
| Snapshot.LongNameOverflows | crates/entorhinal-core/src/enable_state.rs:100-133 | The condition belongs to the packing itself: a name longer than the cap would go out over it. No stored name reaches this; see `Snapshot.StoredNamesFit`. |
| RootBindings.PathPrefixOrEqual | crates/entorhinal-core/src/lib.rs:1667-1680 | The loop over two component iterators decides prefix by components. |
| RootBindings.BindKeeps | crates/entorhinal-core/src/binding.rs:590-620 | Binding with a fresh epoch retires the replaced epoch with its approval, starts unapproved, and keeps epochs distinct and disjoint. |
| RootBindings.ApprovalKeeps | crates/entorhinal-core/src/binding.rs:889-946 | An approval or withdrawal touches exactly the root's live epoch. |
| RootBindings.AddKeeps | crates/entorhinal-core/src/binding.rs:1191-1205 | An added root overlaps no root and no container. |
| RootBindings.RemoveKeeps | crates/entorhinal-core/src/binding.rs:1290-1327 | Removing a root retires its epoch and approval and revokes every container under it. |
| RootBindings.RemoveProjectKeeps | crates/entorhinal-core/src/binding.rs:546-570 | Removing a project retires every binding it has with its approval; its roots and containers pass unbound to the successor or are dropped; other projects keep theirs. |
| RootBindings.AttachKeeps | crates/entorhinal-core/src/binding.rs:1640-1707 | A container is attached only under the root's live, approved epoch with that checkout on disk, and apart from every root and container. |
| RootLaws.BindDecides | crates/entorhinal-core/src/binding.rs:772-841 | A root is bound exactly when it is registered and its checkout's identity can be read or made; bound to it already nothing is written, otherwise the new epoch names the one it replaces. |
| RootLaws.ApprovalDecides | crates/entorhinal-core/src/binding.rs:889-946 | Approval is given to and taken from the live epoch exactly while the bound checkout is there, and written once; the two refusals are told apart. |
| RootLaws.AddDecides | crates/entorhinal-core/src/binding.rs:1497-1570 | A root is added exactly when its project is known and it meets no root and no container, with each refusal in order. |
| RootLaws.RemoveDecides | crates/entorhinal-core/src/binding.rs:1575-1632 | A root is removed exactly from its own project, and its last one only when identities are shared. |
| RootLaws.AttachDecides | crates/entorhinal-core/src/binding.rs:1640-1707 | A container is attached exactly under its project's live, approved epoch and checkout where it meets nothing; each refusal names the first condition missed. |
| RootLaws.ReplacingMeans | crates/entorhinal-core/src/binding.rs:590-620 | A binding that replaces one retires that epoch as replaced, with its place, checkout and number, and its approval ends. |
| RootLaws.RemovingMeans | crates/entorhinal-core/src/binding.rs:1290-1327 | A removed root takes its binding and its containers along, and changes nothing of any other root. |
| RootLaws.RemovingProjectMeans | crates/entorhinal-core/src/binding.rs:546-570 | A removed project's roots and containers pass to the successor in place, or go, and its bindings are retired as removed. |
| RootBindings.RunKeeps | crates/entorhinal-core/src/binding.rs:546-1368 | In every run with fresh epochs active and retired epochs never meet, every approval names an active epoch, bindings and containers belong to their root's project, roots and containers stay apart. That the tables are the replay of the journal holds by construction of `Serve`; that the store's methods really write what replaying their entry writes is in the contracts of `RootBindings.BindingStore`. |
| RootBindings.RunFromEmpty | crates/entorhinal-core/src/binding.rs:590-1368 | From an empty journal all of this needs no premise but fresh epochs. |
| RootBindings.RetiredForGood | crates/entorhinal-core/src/binding.rs:590-946 | A retired epoch is never active or approved again. |
| RootBindings.BindingStore.BindRootTo | crates/entorhinal-core/src/binding.rs:772-841 | Journals and applies exactly the decided binding; on success the root is bound to the checkout found there. |
| RootBindings.BindingStore.ApproveOrWithdraw | crates/entorhinal-core/src/binding.rs:889-946 | Journals and applies exactly the decided approval; refuses when the checkout on disk is not the bound one. |
| RootBindings.BindingStore.AddRootTo | crates/entorhinal-core/src/binding.rs:1497-1570 | Journals and applies exactly the decided addition. |
| RootBindings.BindingStore.RemoveRootOf | crates/entorhinal-core/src/binding.rs:1575-1632 | Journals and applies exactly the decided removal. |
| RootBindings.BindingStore.RemoveProjectWhole | crates/entorhinal-core/src/mutations.rs:1294-1343 | Retires the bindings one by one and passes or drops roots and containers, which leaves exactly what replaying the one entry leaves. |
| RootBindings.BindingStore.AttachDerivedParent | crates/entorhinal-core/src/binding.rs:1640-1707 | Journals and applies exactly the decided attachment, with the refusals in order. |
| RootWalk.ResolveWalk | crates/entorhinal-core/src/binding.rs:1011-1103 | The upward loop answers from the first stop on the way up, from the nearest container around the query, or as an outside worktree of a bound root. |
| RootWalk.ResolvesUniquely | crates/entorhinal-core/src/binding.rs:950-1103 | With roots and containers apart, and roots stored under different texts, a query has only one answer. |
| RootWalk.ReplyForWorktree | crates/entorhinal-core/src/binding.rs:950-989 | The nearest checkout up from the query is a worktree of the first root, by text, whose current binding carries the identity found there; none exactly when there is no such root. |
| RootWalk.WorktreeAnswer | crates/entorhinal-core/src/binding.rs:946-989 | A path answered as an outside worktree has no registered root on the way up to its checkout and is identified by a binding that is current now; without one it is never so answered, so rebinding a root stops identifying its old worktrees at once. |
| RootWalk.OutsideMeans | crates/entorhinal-core/src/binding.rs:946-989 | Outside every root and container the answer is a root exactly when the nearest checkout's identity is bound now at another root, for its own project; it is then the first such root by text. |
| RootWalk.RootAnswerMeans | crates/entorhinal-core/src/binding.rs:1011-1103 | The walk answers root r exactly when r is a registered ancestor of the query or the query itself (then the only one) and no directory strictly below r on the way has its own `.git`. |
| RootWalk.ContainerAnswer | crates/entorhinal-core/src/binding.rs:1037-1103 | Inside a worker container the answer is that container's, or one of its worktrees: never a root. |
| RootWalk.ContainerWorktreeMeans | crates/entorhinal-core/src/binding.rs:1037-1103 | Inside a container: which linked worktree is answered, exactly, and that the container alone is answered exactly when there is none. |
| Generations.RunKeeps | crates/entorhinal-core/src/catalog_agent.rs:504-916 | In every reachable state an agent has at most one generation that is active or degraded, and no active one holds a skill whose status blocks. |
| Generations.StepKeeps | crates/entorhinal-core/src/catalog_agent.rs:882-916 | Activation rechecks statuses and supersedes the agent's current generation first. |
| Generations.StatusesKeep | crates/entorhinal-core/src/catalog_trust.rs:145-167 | Writing statuses degrades every current generation with a blocked skill in the same transaction. |
| Generations.SupersededForGood | crates/entorhinal-core/src/catalog_agent.rs:882-916 | A superseded generation stays exactly as it is. |
| Generations.RepeatedStep | crates/entorhinal-core/src/catalog_agent.rs:504-535 | Repeating a step later writes nothing, and gives the first answer again if and only if the generation is still the caller's and, for an activation, nothing it pins has become blocked. |
| Generations.RepeatedApproval | crates/entorhinal-core/src/catalog_agent.rs:504-535 | Repeating an approval later writes nothing, and gives the first answer again if and only if the plan is still there and the caller's: no other check comes before the remembered answer. |
| Generations.RepeatedActivationRefused | crates/entorhinal-core/src/catalog_agent.rs:882-897 | The exception is real: after a tombstone, repeating a successful activation is refused. |
| Generations.FreshMeans | crates/entorhinal-core/src/catalog_agent.rs:536-549 | A plan over distinct packages goes stale exactly when the agent's pins or the status of some version in its closure changed since it was made. |
| Generations.DiscardMeans | crates/entorhinal-core/src/catalog_agent.rs:855-865 | An aborted move takes back exactly the generation it prepared for that agent, while it is not yet current. |
| Generations.InstallMeans | crates/entorhinal-core/src/catalog_agent.rs:1062-1085 | An install adds one approved generation with the given closure under the plan's own id, unless that id or the plan is taken. |
| Generations.StatusesMean | crates/entorhinal-core/src/catalog_agent.rs:586-617 | Writing statuses degrades exactly the current generations that now hold a blocked skill, with the first such skill as the fault, and leaves every other row. |
| Generations.StepMeans | crates/entorhinal-core/src/catalog_agent.rs:882-916 | A first step succeeds exactly for the caller's own generation in the phase it starts from, with the agent there and, for an activation, nothing pinned blocked; it moves that row, supersedes the current one when activating, and touches no other. |
| Generations.ApprovedStaysClear | crates/entorhinal-core/src/catalog_agent.rs:504-916 | From approval on, over every run: the generation pins exactly its plan's closure, and is not active when a skill among them blocks. |
| Generations.ContentForGood | crates/entorhinal-core/src/catalog_agent.rs:504-916 | Over every run, while a generation exists its agent, plan, closure and creation time never change. |
| Generations.ApprovalMeans | crates/entorhinal-core/src/catalog_agent.rs:807-843 | The first approval succeeds exactly for a usable plan without a generation and an unused id; it adds exactly that one generation, for the plan's agent and whole closure, approved and never activated; a refusal changes nothing and names the first condition missed. |
| Generations.BlocksMeans | crates/entorhinal-core/src/catalog_agent.rs:552-561 | A tombstone always blocks; a revoked version is spared only by a known publication strictly before the compromise; other states never block. |
| Generations.CatalogStore.WriteStatuses | crates/entorhinal-core/src/catalog_trust.rs:145-167 | The upserts and the effects leave exactly `StatusesWritten`. |
| Generations.CatalogStore.ApplyStatusEffects | crates/entorhinal-core/src/catalog_agent.rs:586-617 | The loop over current generations degrades exactly those with a blocked skill, with the fault of the first one. |
| Generations.CatalogStore.GenerationStep | crates/entorhinal-core/src/catalog_agent.rs:882-916 | A step leaves exactly `StepTaken`, with the remembered answer. |
| Generations.CatalogStore.ApprovePlan | crates/entorhinal-core/src/catalog_agent.rs:807-843 | An approval leaves exactly `PlanApproved`: one generation per plan, refused as stale when pins or statuses are no longer those of the plan. |
| Generations.CatalogStore.DiscardMoveGeneration | crates/entorhinal-core/src/catalog_agent.rs:855-865 | Drops only what was not yet current. |
| MoveRecord.CheckRefs | crates/entorhinal-core/src/move_record.rs:290-300 | References pass exactly when strictly ascending; a repeated one is told apart from one out of order. |
| MoveRecord.ValidateMove | crates/entorhinal-core/src/move_record.rs:274-330 | A record passes exactly when well formed; otherwise exactly the error of the first check it fails, and among participants that of the first one at fault. |
| MoveCodec.ValidMeans | crates/entorhinal-core/src/move_record.rs:274-330 | A well-formed record field by field, over the encoded length of its detail: lower-case hexadecimal ids, subject and cut agreeing, and lists whose neighbours are in strict order. |
| MoveRecord.EncodeMoveRecord | crates/entorhinal-core/src/move_record.rs:332-349 | Encodes exactly the valid records within the size their state allows, and otherwise reports the first fault or the limit exceeded. |
| MoveCodec.DecodeMoveRecord | crates/entorhinal-core/src/move_record.rs:350-362 | The checks in order: body length, JSON, version, explicit reason and detail, strict fields, validity, size by state; the first that fails is the error. |
| MoveCodec.RecordReads | crates/entorhinal-core/src/move_record.rs:116-170 | Which values are records, and of what: exactly the objects of the eleven named fields, none unknown and none twice, with only pin digest, reason and detail missing or null. |
| MoveCodec.ParticipantReads | crates/entorhinal-core/src/move_record.rs:116-152 | Likewise for a participant with its references and external references, read item by item in order. |
| MoveCodec.EncodeThenDecode | crates/entorhinal-core/src/move_record.rs:332-362 | Every record that encodes is accepted by the decoder, and comes back as it was if and only if its detail is not an explicit null, which is read as no detail. |
| MoveCodec.NullDetailIsLost | crates/entorhinal-core/src/move_record.rs:332-362 | A concrete record for the exception: it encodes, decodes, and comes back without its null detail. |
| MoveCodec.EncodingTellsApart | crates/entorhinal-core/src/move_record.rs:332-362 | Two records with the same encoding are the same, but for writing no detail as null. |
| MoveCodec.DecodeThenEncode | crates/entorhinal-core/src/move_record.rs:332-362 | Whatever the decoder accepts, from whomever, reads as the same record when encoded again. |
| Json.SizeIsLength | crates/entorhinal-core/src/move_record.rs:332-349 | The size that all limits are checked against is the length of the compact text, escapes and UTF-8 included. |
| MoveRecord.SummaryString | crates/entorhinal-core/src/move_record.rs:403-413 | The shrinking loop terminates with the declared clip. |
| MoveRecord.ClippedIsLongest | crates/entorhinal-core/src/move_record.rs:403-413 | The clip is the longest prefix of at most 512 characters that encodes to at most 512 bytes. |
| MoveRecord.BoundedDetail | crates/entorhinal-core/src/move_record.rs:366-401 | Small details pass unchanged; others become the declared summary. |
| MoveCodec.SummaryMeans | crates/entorhinal-core/src/move_record.rs:366-401 | A summarised diagnostic says so and holds exactly the clipped texts of its op, code and module; a diverged one also its ref and state clipped and its reason whole. |
| MoveRecord.BoundedWithinCap | crates/entorhinal-core/src/move_record.rs:366-401 | A bounded detail is within 2048 bytes if and only if it was small, is not diverged, or the widths of its clipped fields and its reason add up to at most that. |
| MoveRecord.DivergedFits | crates/entorhinal-core/src/move_record.rs:383-400 | A diverged detail without op and code and with a reason of at most 256 control-free UTF-8 bytes stays within the cap. |
| MoveRecord.DivergedCanOverflow | crates/entorhinal-core/src/move_record.rs:383-400 | Without that it can fail: four long fields alone exceed the cap. |
| MoveRecord.AcceptedCanAbort | crates/entorhinal-core/src/move_record.rs:332-425 | A record accepted before it was aborted can be aborted with any named reason and still encodes if and only if its bounded detail is within the detail cap. |
| MoveRecord.AbortAlwaysFits | crates/entorhinal-core/src/move_record.rs:415-425 | Any diagnostic that is not diverged, and none at all, can always be sent. |
| MoveCodec.AbortIsRead | crates/entorhinal-core/src/move_record.rs:332-425 | An accepted move aborted with a named reason and a diagnostic that is not diverged is read by the other machine as that abort of that plan. |

## Left out

- SQL text, schema migrations, connections, read snapshots and leases: transactions are atomic steps on maps.
- Signatures, hashes and randomness: parameters; a new epoch or entry id is assumed not to have been used before.
- JSON: the compact text of a value is modelled in `Json`, the parser is not; bodies are decoded from the parsed value, in which keys that repeat inside one object are refused where the source's records refuse them. Numbers are kept as their text, and other documents than move records and snapshot parts are decoded by parameters.
- MoveCodec.DecodeMoveRecord: a text that writes `v` twice is judged by its first value here.
- SnapshotCodec.PartsReadBack: rows and agents are read as the JSON they are, not as typed rows; the entry's kind and envelope version are not modelled.
- Reading token files, git configuration and device ids: what they say is an argument.
- The worker provider, capability tokens, names and scopes, bundles, publisher grants, consent and memory text limits: short case splits that would add only easy members.
- Operator views, notices, health counters, error message texts and the module crate's network drivers.
- Registering a project with its roots at once, renames and merges, and containers recorded before epochs existed; approving a whole project, binding all unbound roots, rebinding and moving a root to a new project are runs of the operations modelled, and their own reports are not.
- Writing a move row past its transactions (`insert_agent_move`, `update_agent_move`), which only tests do, and clearing a store restored from another machine.
- RootBindings.BindingStore.AddRootTo: root keys and repository ownership are not modelled; one argument stands for their refusal.
- RootBindings.RunKeeps: runs are of the root operations; registering a project with its roots is left out as above.
- The identity log's history reader and the state machine of enabling and joining.
- CursorSync.FollowerNeverSkips: the keys and pins a client knows are always a part of the registry's own.
- Inbox records, the transition table of move records and their authorship checks: table look-ups.
- Sequence numbers shared with other journal operations: in `RootBindings` the journal holds only root operations, numbered from one.
- Selection.Best: the sort of candidates is not modelled as a permutation, only the element it puts first, which is all the code uses.
- RangePasses.SettledIsSound: assumes distinct version texts of one package, which `crates/entorhinal-core/src/catalog_resolution.rs:115-120` enforces; the resolver does not check it.
- Status.AuthenticMeans: all refusals of a malformed document are one, without the field named.
- StatusFeed.NeverRollsBack: the further immutability checks of the module crate (archive, publisher and publication time) are not modelled.
- CursorSync.FollowerIsCurrent: assumes a log whose successive writes of a version each apply over the one before; the registry that writes it is not modelled.
- Registry.RegistryStore.InstallMovedBindings: carried rows are taken in reference order, as the map of the source iterates.
- Registry.RegistryStore.RegisterSession: the text and detail fields of refusals are reduced to their code and the agent or reference named.
- Registry.RegistryStore.AdmitAgentMove: live references are compared as sets, the list being sorted by key.
- MoveRuns.AbortWins: assumes that drivers enter activating only from claimed; `MoveRuns.StaleActivationIgnoresAbort` shows what happens otherwise.
- RegistryRuns.CapsHold: assumes that drivers save only the move they loaded; `MoveTables.CheckpointCap` is exact without it.
- PendingLog.OpenEntriesHaveRows: the settlement dialogue with the log is reduced to its truthful outcomes: an entry is reported committed only when it landed, and unsent only when no request exists.
- Snapshot.Partition: deletions in an image are ignored, as in the code.
- Generations.RepeatedStep: step arguments are compared directly instead of by their digest.
- Generations.CatalogStore.ApprovePlan: the agent's pins are compared directly instead of by their digest, and publisher facts are left out.
- Generations.RepeatedApproval: arguments are compared directly instead of by their digest.
- PendingLog.Store.ApplyEntry: decoding the entry, reusing the journal row of an entry of this machine's own and `last_seen_head` are not modelled.
- RootWalk.ResolveWalk: root records, binding status and the reply of a project are left out; the identity of a checkout is an argument.
