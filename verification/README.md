# Verified model of the key file, schema and call protocols of go-mcpserver

This project models the parts of the server library whose correctness is hardest to see from one function
at a time, and proves what they promise. `dafny verify dfyconfig.toml` checks everything.

## What is modelled

**The key store** (`keyfile/`). Bearer tokens are checked against a file of hashed keys that may change at any
moment.

- `Base62`, `Crc32`, `Token`: the token format. CRC-32 is a shift register over 32 booleans with the reflected
  polynomial 0xEDB88320; the radix loop works in place on a character array.
- `CrcPolynomial`, `CrcNumbers`: what that register computes. The checksum is the complemented remainder of the
  message polynomial (lowest bit of each byte first, first 32 bits complemented) modulo the generator of IEEE 802.3,
  and on machine words it gives the published check value.
- `Entries`, `Truncation`, `WhiteSpace`, `KeyFile`: from the bytes of a file to the map of keys. Entries that claim
  one name or one hash are all dropped; the last line that is not blank must be the end marker.
- `Reload`, `ReloadSafety`, `ReloadTheorems`, `ReloadEconomy`: the reload protocol as a transition system. Any number
  of requests, the load of `Open`, the background retry, writes, deletions, directory permissions, clock readings in
  any order and panics interleave; one action is one atomic access or one call out. Requests may begin before `Open`
  has returned, which the code does not allow, so the model has every run of the code and some more.
- `KeyStore`, `KeyStoreTheorems`, `OpenTheorems`, `StatTheorems`: the store as an object with its fields, `Open`,
  `verify` and the tool filter; what decides after each; and the proof that `Open`, a call and a retry of the object
  are runs of the transition system.

**The schema normaliser** (`schema_portable.go`). `Json` has JSON values and the mutable maps and slices Go decodes
them into; a `Shape` names the objects of a tree so that footprints do not depend on the heap. `SchemaNorm` has the
passes in place and the pure function they refine. `SchemaPositions` says where the standard puts subschemas, keyword
by keyword and without the normaliser's tables, and what the normaliser leaves at each of those places;
`SchemaSemantics` and `SchemaMeaning` what a schema accepts (sections 10.2, 10.3 and 11 of JSON Schema Core 2020-12,
and draft-07's `dependencies`, `additionalItems` and array `items`), with evaluated properties and items. Everything
the normaliser's tables do not mention is an arbitrary parameter (`Dialect`).

**Lenient arguments** (`lenient.go`): `Lenient` and `LenientTheorems`, in place on the same mutable JSON.

**Client sessions** (`mcpclient/client.go`): `Sessions`, a transition system of goroutines inside `Call`, `Fire` and
`Close` with the mutex and a server that may refuse any step; `CallErrors`, what a failed call reports.

**Tool slots** (`hooks.go`): `ToolSlots`, a transition system of calls with their handlers, workers, result buffers
and the semaphore.

Assumed throughout: SHA-256, YAML decoding, RFC 3339 parsing, float parsing and regular expressions of schemas are
arbitrary functions; a write to the key file gives it a signature it never had before (absence always looks the same);
strings are sequences of bytes.

## Where code and comments differ

- `keyfile/load.go:93` says that a truncated file never looks complete because the last line is the marker. What the
  marker alone gives is exact: every cut shows if and only if the marker begins no line but the last one that is not
  blank (`Truncation.TruncationShowsExactly`), and then no cut file loads unless nothing was lost
  (`KeyFile.CutsAreNoticed`); two lines of it pass the check and can be cut unnoticed
  (`Truncation.EarlyMarkerHidesTruncation`). Whether decoding would refuse such files is open here, since YAML is a
  parameter.
- `schema_portable.go:29` says that dropping a `true` keeps the meaning because absence means `true`. A non-true
  `unevaluatedProperties` or `unevaluatedItems` tells the two apart. What the normalised schema accepts is, for every
  schema and instance, what the original accepts when those `true`s no longer count as having evaluated anything
  (`SchemaMeaning.NormIsBlind`), so the meaning is kept exactly where that makes no difference
  (`SchemaMeaning.KeptExactly`). `SchemaMeaning.MissedExactly` says which accepted instances are lost,
  `SchemaMeaning.OpenObjectCloses` gives the smallest schema, and `SchemaMeaning.NothingMissed` is a condition on the
  schema alone that rules it out (`SchemaMeaning.NormKeepsMeaning`).
- `lenient.go:92` says that a string is converted only when the schema unambiguously declares another type. With two
  types besides null the first one decides, also when the other is string (`LenientTheorems.CheckedStringChanges`).
- `hooks.go:91-94` says that the limit prevents leaks of tools that ignore their context. The slot is free as soon as
  the handler gives up: with one slot any number of such tools can be running (`ToolSlots.LeakedUnbounded`).
- `mcpclient/client.go:165` drops "the session" after a transport error. It drops whichever is cached by then: the
  call's own exactly if one is cached and none has been connected since, otherwise a newer one or none
  (`Sessions.DropsOwnExactly`); a run in which it is a fresh one that another call is using is
  `Sessions.StaleFailureDropsFresh`.
- `keyfile/reload.go:188-195` says that a failed version is not read again until the file changes. That holds exactly
  in the states in which every thread has seen the recorded signature or will look at it
  (`ReloadEconomy.QuietExactly`); a request that compared signatures before the failure was recorded, or whose stat
  failed before, breaks it, and for every version that cannot be loaded there is a run in which one does
  (`ReloadEconomy.LateRequestReloads`).

## Model

| member | source | states |
|---|---|---|
| Base62.EncodeBase62 | keyfile/token.go:67-78 | the loop that divides in place fills the buffer with the fixed-width numeral of the number, whatever the number and width |
| Base62.DecodeEncode | keyfile/token.go:66-78 | below 62^width the numeral read back positionally is the number |
| Base62.EncodeDecode | keyfile/token.go:66-78 | every string over the alphabet is the numeral of its value |
| Base62.EncodeInjective | keyfile/token.go:58-61 | two numbers below 62^width have different numerals |
| Base62.EncodeShape | keyfile/token.go:66-78 | the numeral has exactly the given width and only alphabet characters |
| Base62.EncodeDigitAt | keyfile/token.go:66-78 | the character that stands i places from the right is the one the alphabet has for the digit of weight 62^i |
| Base62.WidthsAreTight | keyfile/token.go:19-20 | 43 digits hold 32 bytes and 6 digits hold 32 bits |
| Crc32.PolyValue | keyfile/token.go:63-64 | the register's polynomial is 0xEDB88320 |
| Crc32.StepsInjective | keyfile/token.go:63-64 | shifting the register by any number of bits loses nothing |
| Crc32.UpdateInjective | keyfile/token.go:63-64 | feeding the same bytes keeps different registers different |
| Crc32.FourBytesInjective | keyfile/token.go:63-64 | from one register, different four bytes lead to different registers |
| Crc32.BurstDetected | keyfile/token.go:63-64 | messages that agree outside four consecutive bytes have equal checksums only if equal |
| CrcPolynomial.RemainderUnique | keyfile/token.go:63-64 | division of bit strings without carries has one remainder for each divisor that begins with 1 |
| CrcPolynomial.ChecksumIsRemainder | keyfile/token.go:63-64 | for every message the checksum complemented is the remainder of its polynomial, first 32 bits complemented and 32 zeros appended, modulo the IEEE generator |
| CrcPolynomial.ChecksumExactly | keyfile/token.go:63-64 | and it is the only word of which that holds |
| CrcNumbers.MessageBit | keyfile/token.go:63-64 | the message polynomial has the bytes in order, the lowest bit of each first |
| CrcNumbers.ChecksumIsNat | keyfile/token.go:63-64 | computed on unsigned integers by halving and exclusive or with 0xEDB88320, the checksum is the same number |
| CrcNumbers.CheckValue | keyfile/token.go:63-64 | the checksum of "123456789" is 0xCBF43926 |
| Token.WellFormed | keyfile/token.go:82-93 | the scan decides prefix, marker, length, alphabet and checksum |
| Token.WellFormedShape | keyfile/token.go:14-24 | a token is well formed exactly if it is prefix, marker, 43 base62 characters and the checksum of all that |
| Token.SetBytesAt | keyfile/token.go:53-56 | the secret is read as a number with its first byte highest |
| Token.MintedIsWellFormed | keyfile/token.go:53-56 | every minted token begins with the prefix and "1_", has length prefix + 51, passes the check, and its body decodes to the secret |
| Token.MintInjective | keyfile/token.go:53-56 | different secrets give different tokens |
| Token.MintedExactly | keyfile/token.go:80-93 | a well-formed token is one that could be minted exactly if its body is below 2^256 |
| Token.PrefixDetermined | keyfile/token.go:80-93 | no token is well formed for two prefixes |
| Token.ChecksumChangeDetected | keyfile/token.go:80-93 | any change of the checksum characters alone makes the token malformed |
| Token.BodyBurstDetected | keyfile/token.go:80-93 | any change of body characters inside four consecutive ones makes it malformed |
| Token.OneCharacterDetected | keyfile/token.go:80-93 | so does a change of any one body or checksum character |
| Entries.IsReserved | keyfile/load.go:250-260 | the loop finds an exact reserved name or a reserved prefix |
| Entries.CheckTools | keyfile/load.go:195-208 | accepts exactly a non-empty list of registered tools without the wildcard |
| Entries.CheckAttrs | keyfile/load.go:212-231 | accepts exactly attributes within the limits whose values are all strings, and returns those strings |
| Entries.Dedupe | keyfile/load.go:274-282 | keeps each tool once, in order of first occurrence |
| Entries.DistinctKeepsMembers | keyfile/load.go:274-282 | deduplicating loses no tool and leaves no repetition |
| Entries.Validate | keyfile/load.go:159-193 | returns an entry exactly for the valid raw keys, built from the raw key |
| Entries.HexDecodeInjective | keyfile/load.go:186-191 | different valid hashes give different digests |
| Entries.HexRoundTrip | keyfile/token.go:48-51 | every digest rendered in lower-case hexadecimal is a valid hash and decodes to itself |
| Entries.HexExactly | keyfile/load.go:186-191 | a valid hash gives a digest if and only if it is that digest's rendering |
| Entries.ValidExactly | keyfile/load.go:159-193 | an entry is valid if and only if its name, hash, end, tools and attributes pass each check, written out down to the characters, and the validator does not refuse it |
| Entries.FilterEntries | keyfile/load.go:125-156 | the count-then-filter loops keep, in order, the entries whose name and hash nobody else claims and that are valid |
| Entries.SoleClaimIsCountedOnce | keyfile/load.go:126-141 | both counters are one exactly if no other position has the name or the hash |
| Entries.KeptExactly | keyfile/load.go:123-156 | an entry is kept exactly if it comes from a surviving raw key of the list |
| Entries.KeptApart | keyfile/load.go:123-156 | kept entries have pairwise different names and digests |
| Entries.KeyMap | keyfile/reload.go:224-227 | the loop builds the map of the entries |
| Entries.MapLosesNone | keyfile/reload.go:224-227 | the map has as many keys as there were entries, each under its own digest |
| Entries.LoadedExactly | keyfile/load.go:125-156 | the loaded map holds exactly the surviving entries |
| Entries.OrderFree | keyfile/load.go:123-156 | every permutation of the raw keys loads to the same map |
| Entries.RemovalSparesOthers | keyfile/load.go:123-156 | removing an entry never costs another one its key |
| Entries.InvalidEntryIsInert | keyfile/load.go:85-88 | removing an invalid entry whose name and hash are unique changes nothing |
| Truncation.LastNonBlankLine | keyfile/load.go:69-79 | the backward loop returns the last line that is not blank, without a final carriage return |
| Truncation.LinesJoin | keyfile/load.go:72 | the lines contain no newline and join to the data |
| Truncation.TruncationShowsExactly | keyfile/load.go:93-96 | every cut shows or loses nothing but blank lines and a carriage return, if and only if the marker begins no line but the last non-blank one |
| Truncation.EarlyMarkerHidesTruncation | keyfile/load.go:93-96 | two lines of the marker pass the marker check and can be cut without failing it |
| WhiteSpace.BlankExactly | keyfile/load.go:69-79 | a line counts as blank if and only if it is the UTF-8 text of characters with the property White_Space |
| KeyFile.ParseFile | keyfile/load.go:89-121 | size, end marker, decoding and entry filter in this order |
| KeyFile.LoadsExactly | keyfile/load.go:89-121 | a file loads if and only if it is within the limit, its last non-blank line is the marker and it decodes; then the keys are those of its entries, otherwise none and the version is on record |
| KeyFile.CutsAreNoticed | keyfile/load.go:93-96 | if the marker begins no line but the last non-blank one, every cut of the file either denies everything when loaded or has lost nothing but blank lines and a carriage return |
| KeyFile.CleanLoadKeys | keyfile/reload.go:196-229 | an undisturbed load has the keys of the entries, or none if the file is missing, refused or invalid |
| Reload.ElapsedDueExactly | keyfile/reload.go:46-53 | due means one interval passed or the clock went back, apart from int64 wrap-around beyond 584 years |
| ReloadSafety.NextKeeps | keyfile/reload.go:76-229 | every action of every thread and of the environment keeps the invariant |
| ReloadSafety.ReachableInv | keyfile/reload.go:76-229 | the invariant holds in every reachable state |
| ReloadTheorems.SnapshotAgrees | keyfile/reload.go:14-23 | a snapshot with the current file's signature is what loading the current bytes gives |
| ReloadTheorems.NoRollback | keyfile/reload.go:173-204 | successive installs come from file versions that never go back |
| ReloadTheorems.SingleFlight | keyfile/reload.go:92-101 | the flag is set exactly while one thread owns the cycle |
| ReloadTheorems.OwnerProgress | keyfile/reload.go:92-115 | each owner step lowers a measure that no other step touches |
| ReloadTheorems.CycleIsBounded | keyfile/reload.go:92-170 | a cycle releases the flag within 20 owner steps on every path, panics included |
| ReloadTheorems.OwnerCanMove | keyfile/reload.go:92-170 | the owner is never stuck |
| ReloadTheorems.HandedOverOnce | keyfile/reload.go:108-115 | ownership passes only from a request to the retry it spawned |
| ReloadTheorems.NotOkDeniesAll | keyfile/reload.go:25-34 | a snapshot that is not ok has no keys |
| ReloadTheorems.FailedReadExpires | keyfile/reload.go:103-115 | keys from before a failed read end with that cycle; later keys come from a load begun no earlier than the failure |
| ReloadTheorems.DeniesUntilSuccess | keyfile/reload.go:173-186 | once denied, nothing authenticates until a load succeeds |
| ReloadEconomy.RecordedFailureIsQuiet | keyfile/reload.go:89-91 | from a settled state no interleaving in which stat keeps returning the recorded signature starts a cycle or changes the snapshot |
| ReloadEconomy.QuietExactly | keyfile/reload.go:188-195 | for every reachable state with the current signature on record: no run of stats starts a cycle if and only if the state is settled |
| ReloadEconomy.LateRequestReloads | keyfile/reload.go:89-95 | for every version that cannot be loaded, a reachable state in which its failure is on record and another request starts a cycle all the same |
| ReloadEconomy.UnsignedFailureIsRetried | keyfile/reload.go:188-217 | after a failure without signature, in every interleaving, a request that gets to stat with no cycle in flight is done only after a cycle has started |
| ReloadEconomy.UnsignedFailureCanBeRetried | keyfile/reload.go:188-217 | and such a request can always start one |
| KeyStore.OpenTools | keyfile/keyfile.go:150-162 | accepts exactly non-empty lists of different names without "" and "*", and returns their set |
| KeyStore.Store.constructor | keyfile/keyfile.go:143-191 | Open ends with the outcome of one load and one retry, flag free, counters zero |
| KeyStore.Store.StatDue | keyfile/reload.go:37-44 | the gate opens when due and then remembers the clock |
| KeyStore.Store.StatFailed | keyfile/reload.go:130-137 | whatever the snapshot was, afterwards it denies everything and has the zero signature |
| KeyStore.Store.SafeAttempt | keyfile/reload.go:163-257 | one attempt gives the outcome of the version on disk or of the fault it met |
| KeyStore.Store.Finish | keyfile/reload.go:173-186 | stores the keys or deny-all under the recorded signature; a log panic leaves the old snapshot after a failure and the new one after a success |
| KeyStore.Store.MaybeReload | keyfile/reload.go:80-116 | the whole new state, and whether the flag was handed on |
| KeyStore.Store.Retry | keyfile/reload.go:110-115 | the retry installs its outcome and frees the flag |
| KeyStore.Store.ReloadBlocking | keyfile/reload.go:141-151 | the load of Open, with panics ending in deny-all |
| KeyStore.Store.Verify | keyfile/keyfile.go:251-279 | the decision by the snapshot after the reload, and exactly one counter for each rejection |
| StatTheorems.AttemptDecides | keyfile/reload.go:188-257 | an I/O error, a panic or a refused directory denies everything under no signature; all else is decided by the file alone, and exactly such a failure is left alone by the next stat of the same file |
| StatTheorems.StatFailureDenies | keyfile/reload.go:82-86 | a failing stat denies every token without a reload, under a signature no file has |
| StatTheorems.GateSpaced | keyfile/reload.go:36-44 | however requests race, whoever sets the time of the last stat replaces one that was due, and of those that found the same one too old only one goes on |
| OpenTheorems.OpenDecides | keyfile/reload.go:141-151 | Open decides by the first read if that succeeds and otherwise by the second; a panic of a log call leaves deny-all |
| OpenTheorems.TransientErrorIsForgiven | keyfile/reload.go:139-151 | an I/O error of the first read that is gone at the second costs nothing: the keys are those of the file then |
| OpenTheorems.OpenIsARun | keyfile/reload.go:139-151 | Open is a run of the transition system from its initial state, with the environment acting between the attempts, to exactly what the object holds, with no thread left |
| KeyStoreTheorems.GrantedExactly | keyfile/keyfile.go:251-298 | verifier and filter allow a tool if and only if the token is well formed and the file has an unexpired, solely claimed, valid entry with its digest that lists the tool |
| KeyStoreTheorems.GrantedByHash | keyfile/keyfile.go:251-298 | a tool is allowed if and only if the token is well formed and an unexpired, solely claimed, valid entry that lists the tool has the token's hash in lower-case hexadecimal |
| KeyStoreTheorems.DecidedExactly | keyfile/keyfile.go:251-270 | in terms of token and file, when the answer is malformed, unknown, expired or accepted, each if and only if |
| KeyStoreTheorems.AcceptedIdentity | keyfile/keyfile.go:271-278 | an accepted token carries the name, the attributes and, each once, the tools of one surviving entry and expires at the earlier of the key's end and one hour |
| KeyStoreTheorems.AuthorisedByFileOnDisk | keyfile/keyfile.go:251-298 | in every reachable state whose snapshot has the current signature all decisions are those of the file on disk |
| KeyStoreTheorems.AuthorisedByWhatWasRead | keyfile/keyfile.go:251-298 | in every reachable state all decisions are those of one version that loads, under the snapshot's signature; the version of the file itself if it did not change during the load |
| KeyStoreTheorems.UnlistedIsRefused | keyfile/reload.go:163-257 | a token without a surviving entry is refused by whatever an attempt on that file leaves, faults and panics included |
| KeyStoreTheorems.GateRemembers | keyfile/reload.go:36-53 | over any calls and clock values granted stats are an interval apart or follow a step back |
| KeyStoreTheorems.BoundedRevocation | keyfile/reload.go:80-116 | the first call an interval after the last stat, or at an earlier clock value, decides by the changed file or hands over to a retry after which no token without an entry in the file then is accepted |
| KeyStoreTheorems.OldKeysNeedARetry | keyfile/reload.go:103-115 | however the world misbehaves, a token whose entry is gone is refused after that call unless a retry is under way, and after the retry |
| KeyStoreTheorems.RetryDecides | keyfile/reload.go:110-115 | calls before the retry change nothing it decides |
| KeyStoreTheorems.CallIsARun | keyfile/reload.go:80-116 | a call of the object is a run of the transition system with the same end state |
| KeyStoreTheorems.RetryIsARun | keyfile/reload.go:110-115 | so is its retry |
| SchemaNorm.NormSchema | schema_portable.go:81-94 | in place, a tree of maps and slices becomes a tree whose value is the pure normal form |
| SchemaNorm.NormSchemaObject | schema_portable.go:96-122 | the six groups of keywords together give the normal form of the object |
| SchemaNorm.NormSingle | schema_portable.go:126-137 | one keyword with one subschema or the legacy array is done and no other |
| SchemaNorm.NormSingleDropTrue | schema_portable.go:141-158 | a `true` is deleted, a `false` kept only for the closed keywords, anything else normalised |
| SchemaNorm.NormSchemaMap | schema_portable.go:160-166 | every value of the map is normalised whatever the order of the range loop |
| SchemaNorm.NormSchemaList | schema_portable.go:168-172 | every element is normalised |
| SchemaNorm.NormDependencies | schema_portable.go:113-121 | subschemas among the dependencies are normalised, lists of names are not touched |
| SchemaNorm.TableIsSound | schema_portable.go:66-79 | no keyword is in two tables or twice in one |
| SchemaPositions.TablesFit | schema_portable.go:66-79 | the tables hold exactly the keywords under which the standard puts subschemas, each in the table for what it holds |
| SchemaPositions.PlaceKind | schema_portable.go:66-79 | every subschema position of the standard is under a keyword of the kind its shape needs |
| SchemaPositions.StepCommutes | schema_portable.go:24-33 | at every subschema position of the standard the result has the normalised subschema; only dropped `true`s are missing, only closed `false`s kept |
| SchemaPositions.NormTwice | schema_portable.go:81-122 | normalising again changes nothing |
| SchemaPositions.NoBooleanLeft | schema_portable.go:20-33 | at the end of any path of such positions a boolean is a `false` that closes an object |
| SchemaPositions.PathCommutes | schema_portable.go:81-122 | what is left at the end of every path of the original |
| SchemaPositions.PathsComeFrom | schema_portable.go:81-122 | the result has no subschema the original has not, except inside a rewritten `false` |
| SchemaPositions.UnlistedUntouched | schema_portable.go:32-33 | at every depth a keyword that holds no subschema keeps its value and none appears or disappears |
| SchemaMeaning.NormIsBlind | schema_portable.go:24-33 | for every schema and instance the result gives the verdict, and evaluates what is evaluated, of the original with the droppable `true`s not counting as evaluating |
| SchemaMeaning.KeptExactly | schema_portable.go:24-33 | the verdict on an instance is kept if and only if overlooking them makes no difference there |
| SchemaMeaning.MissedExactly | schema_portable.go:24-33 | for all four keywords, here or in subschemas that judge the same instance: an accepted instance stays accepted if and only if what only dropped `true`s had evaluated passes the unevaluated keywords, and nothing new is accepted |
| SchemaMeaning.NormKeepsMeaning | schema_portable.go:24-31 | for every instance the result accepts exactly what the original accepts, and evaluates the same, if no dropped `true` is in sight of a restrictive unevaluated keyword |
| SchemaMeaning.NormKeepsAcceptance | schema_portable.go:24-31 | in particular for every schema whose unevaluated keywords are absent or true |
| SchemaMeaning.DroppedTrueMissed | schema_portable.go:28-29 | with `additionalProperties: true` dropped, an instance is still accepted if and only if each property evaluated by nothing else passes `unevaluatedProperties` |
| SchemaMeaning.OpenObjectCloses | schema_portable.go:28-29 | a schema and instance for which dropping the `true` changes the verdict |
| Lenient.PropTypeOf | lenient.go:165-175 | the loop finds the declared type or the first non-null one |
| Lenient.FirstNonNullExactly | lenient.go:165-175 | that is the type before which nothing but null is listed, or nothing if only null is |
| Lenient.CoerceValue | lenient.go:114-137 | in place, the value becomes the coerced value |
| Lenient.CoerceStringTypes | lenient.go:98-109 | exactly the properties the schema names are coerced, in any order |
| Lenient.CoerceArray | lenient.go:125-133 | every element is coerced against the item schema |
| LenientTheorems.CoerceTwice | lenient.go:114-137 | coercing again changes nothing |
| LenientTheorems.CoerceKeepsFrame | lenient.go:89-97 | keys, lengths and all scalars but strings stay |
| LenientTheorems.ChangedExactly | lenient.go:114-161 | the value changes if and only if some string on the walk spells a value of the type declared there |
| LenientTheorems.CheckedIsKept | lenient.go:91-92 | a value that type-checks is kept when each property has at most one type besides null and no `prefixItems` |
| LenientTheorems.CheckedStringChanges | lenient.go:163-175 | under any schema a string that type-checks is changed if and only if string is listed, but another type comes first besides null, and the string spells a value of that one |
| LenientTheorems.IntegerBeforeString | lenient.go:163-175 | the text of any 64-bit integer is such a string when integer is listed before string |
| LenientTheorems.ChangedHasType | lenient.go:139-161 | a changed string has become a value of the declared type |
| LenientTheorems.BooleanSpelling | lenient.go:144-150 | a string becomes true or false exactly if it is that word with each letter small or capital, or the digit 1 or 0; otherwise it stays |
| LenientTheorems.IntegerSpelling | lenient.go:151-154 | the decimal notation of an integer is taken exactly if it fits into 64 bits, and is that integer |
| LenientTheorems.IntegerExactly | lenient.go:151-154 | a string becomes an integer if and only if it is a decimal notation of it, with or without sign and leading zeros, and the integer fits into 64 bits; otherwise it stays |
| LenientTheorems.NumberSpelling | lenient.go:155-158 | a string becomes the float it denotes, and stays if it denotes none |
| Sessions.StepKeepsInv | mcpclient/client.go:143-287 | every step of every goroutine keeps the invariant |
| Sessions.SessionConserved | mcpclient/client.go:208-287 | in every interleaving each session is exactly one of cached, held by one goroutine, closed once |
| Sessions.NeverOverwritten | mcpclient/client.go:225-272 | the cached session stays until one goroutine takes it over to close it |
| Sessions.NothingLeaks | mcpclient/client.go:143-218 | with no call in progress every session but the cached one is closed |
| Sessions.FireBounded | mcpclient/client.go:180-205 | each goroutine of Fire holds one slot and there are never more than the limit |
| Sessions.FireDropsWhenFull | mcpclient/client.go:181-190 | a Fire is dropped, changing nothing, exactly when all slots are taken |
| Sessions.OwnStepsRunOut | mcpclient/client.go:143-287 | every call ends after a bounded number of its own steps and waits only for the mutex |
| Sessions.LockHolderMoves | mcpclient/client.go:225-287 | whoever holds the mutex can always go on |
| Sessions.DropsOwnExactly | mcpclient/client.go:164-167 | in every interleaving a failed call drops its own session if and only if one is cached and none was connected since; otherwise a newer one, or none because another goroutine took its own |
| Sessions.DroppedIsClosed | mcpclient/client.go:275-287 | a failed call or Close has then read what is cached, and closes that once and nothing else |
| Sessions.CloseCloses | mcpclient/client.go:207-218 | Close leaves no session cached and closes exactly the one that was |
| Sessions.SuccessesShareOneSession | mcpclient/client.go:143-173 | in every interleaving of calls that succeed the cached session stays cached and open and no other is connected |
| Sessions.StaleFailureDropsFresh | mcpclient/client.go:164-167 | a run in which a failing call closes a session it never used while another call uses it |
| CallErrors.FoundExactly | mcpclient/client.go:342-362 | the walk is true exactly if the error tree holds a JSON-RPC error other than the transport sentinel |
| CallErrors.IsExactly | mcpclient/client.go:366-379 | a sentinel is found exactly if it is somewhere in the error tree |
| CallErrors.RejectionSurfaces | mcpclient/client.go:314-379 | for each of the four reports exactly when it is given: rejected, the tool's own error as it is, unreachable, or silence in tolerant mode |
| ToolSlots.StepKeepsInv | hooks.go:110-182 | every event of every call keeps the invariant |
| ToolSlots.SlotsConserved | hooks.go:117-132 | occupancy is the number of calls between acquire and return and at most the limit |
| ToolSlots.RefusedOnlyWhenFull | hooks.go:117-132 | a call is refused exactly when every slot is held by another call |
| ToolSlots.NeverBlocked | hooks.go:150-158 | a worker's send and a handler's release never block |
| ToolSlots.AnswersAreOwn | hooks.go:150-181 | a call is answered by its own tool, or refused before it started, or aborted after its context ended |
| ToolSlots.FinishedIsDelivered | hooks.go:171-174 | the result of a finished tool can always be received while its handler waits, and then the call returns it and frees its slot |
| ToolSlots.ResultIsDelivered | hooks.go:150-174 | so any result of a running tool can answer its call |
| ToolSlots.WorkersCounted | hooks.go:96-101 | running tools are the held slots less those whose worker is not started or done, plus the detached workers |
| ToolSlots.WithinLimitExactly | hooks.go:91-94 | running tools are within the limit if and only if the detached ones fit into what the calls with a running tool leave of it |
| ToolSlots.GivesUp | hooks.go:171-181 | once its context ended a call can return and free its slot whatever the tool does |
| ToolSlots.LeakedUnbounded | hooks.go:91-94 | with any limit, any number of detached workers can be running while all slots are free |
| ToolSlots.RequestIsCapped | hooks.go:281-297 | a request gets what it asks for, or the maximum if that is less; without one a per-tool setting wins over the default; timeouts are positive if the default is |

## Left out

- `$ref`, `$dynamicRef` and the anchors they resolve to: schemas are trees, and what the definitions under `$defs` accept matters only through references.
- An array under a single-subschema keyword other than `items` is read as if the keyword were absent, while the normaliser rewrites its elements: the standard gives it no meaning.
- SchemaMeaning.NormKeepsMeaning: its condition on the schema is sufficient, not necessary, because a restrictive unevaluated keyword may happen to accept everything it sees; the exact statements are SchemaMeaning.NormIsBlind and SchemaMeaning.KeptExactly.
- Truncation.EarlyMarkerHidesTruncation: is about the marker check alone; which cut files decode is left to the parameter for YAML.
- portableSchema's marshalling and decoding, and the copying of tools around it: codec calls and a loop of plain copies.
- Log text and the rate limits of log lines, except that a log call inside a reload may panic; panics inside recoverDenyAll itself.
- ReloadTheorems.SnapshotAgrees: relies on every write changing the file's signature; a write that restores inode, size and both times is not modelled.
- KeyStoreTheorems.BoundedRevocation: covers calls one after another; with interleaved requests a gate that was read before another request moved it may open later.
- The load-time clock and the validator's veto are parameters by entry name, since only entries with a unique name are validated.
- Aliasing of the tool and attribute slices handed to callers, Status, Install, Middleware and the attribute accessors: copies and straight-line checks.
- Unix permission and owner checks: one verdict per file version, and one for the directory that is not part of the signature.
- Drop reasons, and the patterns Open demands of prefixes.
- Cyclic schemas in coercion: a schema is a tree, which is what following a cyclic one down a finite value visits.
- Timeouts and contexts of client calls, HTTP plumbing and text extraction; panics of tools, which end the process.
- parseArgTimeout's float arithmetic: its result is a parameter of the timeout resolution.
- The keepalive goroutine, CORS, health, OpenAPI, the REST bridge and the wiring of the server: they would only add easy members.
