# Keeta network: codec, signer, permission, block and builder proofs

A Dafny model of the parts of the Keeta network SDK in which a wrong branch would be silent:
how octets become values and back, which blocks seal and decode, what a permission bitmap
grants, and how deferred builder calls become chained blocks. `dafny verify dfyconfig.toml`
checks everything.

| module | what it models |
|---|---|
| `SchemaMatching` | the backtracking matcher that decides which optional SEQUENCE members are present |
| `DerLength`, `DottedOid`, `DerCodec` | definite lengths (X.690, sections 8.1.3 and 10.1), dotted identifiers as text, the recursive DER codec |
| `Base32`, `Accounts` | unpadded base 32 (section 6 of RFC 4648), `keeta_` addresses, account octets |
| `SignerTree` | flattening, breadth-first validation and the transport form of a signer tree |
| `Bitfields`, `Permissions` | two's-complement bitmaps, normalised base sets, external offsets |
| `Operations`, `Blocks` | transport of operations and blocks, validation, sealing, decoding |
| `HandleRegistry` | the wrapping handle table |
| `Rendering`, `TransactionBuilder` | deferred operations, send aggregation, chained multi-account building |

The code's loops and stateful types keep their form: methods with loops, and the classes
`Registry`, `RenderBuckets` and `Builder`. Each is proved against a specification function, and
the properties are proved about that function. `Wrappers` and `Asn1Model` hold shared datatypes.

What the code takes from elsewhere is a parameter, and what a theorem needs of it is a named
predicate in its `requires`:

- `DerCodec.Leaves`: the octets of identifier arcs and of dates; the dotted text of an identifier
  is modelled. `WriteElements` says the encoders write one element of their tag and that arcs and
  dates come back; `Normalise` says what decodes encodes again, arcs to no more octets.
- `Accounts.Crypto`: the hash and the curve-key parsers. `KeysCanonical` says parsing a parsed key
  changes nothing. `AccountCodec` is what the other modules use of it; `Accounts.CodecIsFaithful`
  shows that the real one meets their demands.
- `Blocks.Env`: `CodecInverts` (the generated ASN.1 codec reads back what it wrote),
  `ValidityByContent` (operation validity ignores flag order and how a removal spells its
  certificate) and `CertificatesFit` (an accepted full certificate is not 32 octets long).
- `Rendering.Client`: account strings, identifier derivation, ledger heads and sealing, as they are
  at the moment of a build. Conservation between accounts, rather than between account strings, is
  stated where `ToldApart` holds; `TransactionBuilder.RunTellsApart` shows that it does for every
  run with real accounts, that is where `UsesAccounts` holds (accounts display as their addresses
  and derived identifiers are accounts a constructor makes).

Where the code does less than one might expect, the exact condition is proved, and a lemma gives
an input that fails:

| what happens | exactly when | failing input |
|---|---|---|
| an identifier with a sign or a superfluous leading zero encodes, but decodes to another spelling | `DerCodec.RoundTrip`, `DerCodec.OidRoundTrip` | `DerCodec.LeadingZeroIsLost`: "01.2.3" |
| decoding accepts context number 31, which the encoder refuses | `DerCodec.NormalForm` | `DerCodec.ContextThirtyOne`: BF 02 04 00 |
| a binding over the unwrapped members need not re-wrap | `SchemaMatching.RewrapBinds` | `SchemaMatching.RequiredMemberLost`: a required [0] around an optional text |
| validation does not look at leaf keys, so an unsigned block with an unkeyed multisig leaf is prepared but does not decode | `Blocks.UnsignedRoundTripExactly` | `Blocks.UnkeyedLeafIsRefused`: any TOKEN leaf |
| a certificate kept in full comes back as a hash | `Operations.CertificateRoundTripExactly` | `Operations.ShortCertificateBecomesHash`: any 32 octets |
| a permission set read again orders its flags differently | `Permissions.FlagOrderKeptExactly`, `Operations.PermissionsUnchangedExactly` | `Permissions.FlagOrderMayChange`: bits = 8 |
| a negative external bitmap passes validation with bits beyond the maximum set | `Permissions.ValidateExactly` | `Permissions.MinusOneGrantsAll`: -1, which with ACCESS grants every offset |
| the projection of an external bitmap does not list its set bits | `Permissions.OffsetsExactly` | `Permissions.HighOffsetWraps`: 2^256 projects to offset 0 |
| `store` never returns | `HandleRegistry.StoreTerminatesExactly` | `HandleRegistry.FullTableHasNoneFree`: every handle live |

For sealed blocks signature verification closes the gap about unkeyed leaves
(`Blocks.SealedLeavesAreKeyed`), and `CertificatesFit` keeps the short certificate out: an added
certificate is parsed as X.509 during validation. `Blocks.SealedUnchangedExactly` says when a
sealed block decodes to the identical value and not only to the same bytes, hash and signatures.

## Model

| member | source | states |
|---|---|---|
| SchemaMatching.Matches | keetanetwork-asn1/src/schema_codec.rs:173-213 | Answers exactly the declarative conformance relation, in which a struct's components are laid over its members in order with only optional members empty; terminates on a schema size that drops when an optional layer is peeled |
| SchemaMatching.MatchTuple | keetanetwork-asn1/src/schema_codec.rs:218-247 | Succeeds if and only if an order-preserving assignment exists, and returns the one preferring "present" at the earliest member, trailing absents cut; fewer components than required members, or more than members, is its own error |
| SchemaMatching.MatchMembers | keetanetwork-asn1/src/schema_codec.rs:224-240 | The member loop with its early exit into backtracking finds an assignment exactly when one exists, and the preferred one |
| SchemaMatching.CutAbsent | keetanetwork-asn1/src/schema_codec.rs:242-246 | The result is a prefix ending in a present member, and only absent members were cut |
| SchemaMatching.ResolveAmbiguousOptional | keetanetwork-asn1/src/schema_codec.rs:252-269 | From `index` on: succeeds if and only if the rest can be assigned, present first |
| SchemaMatching.AgainstOne | keetanetwork-asn1/src/schema_codec.rs:274-281 | An absent required member and a mismatched component are errors; an absent optional member is not |
| SchemaMatching.BindSound | keetanetwork-asn1/src/schema_codec.rs:215-247 | Whatever the search returns is an order-preserving assignment of all components |
| SchemaMatching.BindComplete | keetanetwork-asn1/src/schema_codec.rs:215-247 | The search misses no assignment, and its result is preferred to every other one |
| SchemaMatching.BindIsPreferred | keetanetwork-asn1/src/schema_codec.rs:249-251 | Found exactly when one exists, and then the preferred assignment |
| SchemaMatching.BoundCount | keetanetwork-asn1/src/schema_codec.rs:219-222 | The count check refuses nothing that could be assigned |
| SchemaMatching.PeelOptional | keetanetwork-asn1/src/schema_codec.rs:260-268 | Trying the member without its optional layer and then skipping it is the same as matching the optional member |
| SchemaMatching.UnambiguousStep | keetanetwork-asn1/src/schema_codec.rs:229-239 | A member outside the ambiguity condition needs no backtracking: one component decides it |
| SchemaMatching.StructConforms | keetanetwork-asn1/src/schema_codec.rs:206-213 | A struct conforms exactly when its components can be assigned to its member schemas |
| SchemaMatching.UnwrappedConforms | keetanetwork-asn1/src/schema_codec.rs:132-166 | Removing the context wrapper of each component placed on a tagged member gives a value that conforms to the unwrapped schema, even where stripping makes members collide |
| SchemaMatching.StripBinds | keetanetwork-asn1/src/schema_codec.rs:150-166 | Stripping maps an assignment to an assignment over the unwrapped members and can be undone |
| SchemaMatching.RewrapBinds | keetanetwork-asn1/src/schema_codec.rs:150-166 | Converse: re-wrapping gives an assignment over the original members if and only if no required one was left empty |
| SchemaMatching.UnwrapKeepsNames | keetanetwork-asn1/src/schema_codec.rs:134-147 | Unwrapping keeps every member in its place under its name, and leaves what is not a struct alone |
| SchemaMatching.RequiredMemberLost | keetanetwork-asn1/src/schema_codec.rs:150-166 | Unwrapping a required [0] around an optional text makes it skippable: nothing matches the unwrapped member and does not match the original |
| DerLength.EncodeLength | keetanetwork-asn1/src/schema_codec.rs:335-352 | The shift loop and reversal produce the definite-form length octets |
| DerLength.BridgeAgrees | keetanetwork-asn1/src/rasn.rs:198-208 | The leading-zero-skipping rebuild yields the same octets for every 64-bit length |
| DerLength.BridgeLength | keetanetwork-asn1/src/rasn.rs:198-208 | The rebuild as it runs pushes the definite-form length octets |
| DerLength.DropZerosIsMinimal | keetanetwork-asn1/src/rasn.rs:204-207 | Skipping leading zeros of fixed-width octets is the minimal numeral of the same number |
| DerLength.FoldNeverOverflows | keetanetwork-asn1/src/schema_codec.rs:425-457 | At most eight length octets cannot overflow the checked fold, which is their value |
| DerLength.ReadInvertsWrite | keetanetwork-asn1/src/schema_codec.rs:425-457 | Reading recovers the length and the number of octets spelling it, whatever follows |
| DerLength.LengthOctetsAreShortest | keetanetwork-asn1/src/schema_codec.rs:335-352 | No accepted spelling of a length is shorter, and one equally long is identical |
| DerLength.LengthOctetsGrow | keetanetwork-asn1/src/schema_codec.rs:335-352 | A longer content never takes fewer length octets |
| DottedOid.ParsesArcExactly | keetanetwork-asn1/src/schema_codec.rs:318 | Just an optional plus sign, zeros and the decimal numeral of a 32-bit number are read as that number |
| DottedOid.ParsesDottedExactly | keetanetwork-asn1/src/schema_codec.rs:317-319 | Dotted text is read if and only if the parts between its dots spell the arcs |
| DottedOid.CanonicalExactly | keetanetwork-asn1/src/schema_codec.rs:317-322 | Text that parses to 32-bit arcs is what printing them gives if and only if no arc has a sign or a superfluous leading zero |
| DottedOid.ParseInvertsPrint | keetanetwork-asn1/src/schema_codec.rs:384-387 | Printed arcs parse back to themselves and are canonical |
| DottedOid.LeadingZeroParses | keetanetwork-asn1/src/schema_codec.rs:317-322 | "01.2.3" is accepted, as the arcs 1, 2 and 3 |
| DerCodec.DerEncode | keetanetwork-asn1/src/schema_codec.rs:286-314 | The buffer-filling encoder computes the recursive encoding the round trip is proved about, with the first error in order |
| DerCodec.DecodeBody | keetanetwork-asn1/src/schema_codec.rs:399-411 | The `rest`-consuming loop computes the component list the round trip is proved about, with the first error in order |
| DerCodec.ReadTlv | keetanetwork-asn1/src/schema_codec.rs:425-457 | A read element and the rest partition the input, and the content is shorter than the element |
| DerCodec.RebuildSequence | keetanetwork-asn1/src/rasn.rs:188-212 | The bridge's rebuilt SEQUENCE is the codec's own, and reads back as exactly its content |
| DerCodec.ReadInvertsWrap | keetanetwork-asn1/src/schema_codec.rs:325-332 | Reading a wrapped body gives tag, body and exactly the octets that follow |
| DerCodec.EncodingReadsBack | keetanetwork-asn1/src/schema_codec.rs:365-396 | In front of any octets an encoding reads as one element, leaving exactly those octets, and decodes to the value exactly when its identifiers are canonical |
| DerCodec.OidRoundTrip | keetanetwork-asn1/src/schema_codec.rs:304-308 | An identifier decodes from its own encoding if and only if its text is canonical |
| DerCodec.OidComesBackPrinted | keetanetwork-asn1/src/schema_codec.rs:384-387 | Whatever its spelling, an identifier comes back as its arcs are printed |
| DerCodec.LeadingZeroIsLost | keetanetwork-asn1/src/schema_codec.rs:317-322 | "01.2.3" comes back as "1.2.3" |
| DerCodec.RoundTrip | keetanetwork-asn1/src/schema_codec.rs:355-362 | For every encodable tree of any depth and width, decoding its encoding gives it back if and only if no identifier in it is spelled with a sign or a superfluous leading zero |
| DerCodec.DecodesExactly | keetanetwork-asn1/src/schema_codec.rs:355-457 | Acceptance: octets decode to a value if and only if they spell it, by a relation that names no reader: one identifier octet, any definite spelling of the length in at most eight octets, exactly the content; one element in a context wrapper, concatenated elements in a sequence, three text tags, two date tags, nothing after |
| DerCodec.TrailingRefused | keetanetwork-asn1/src/schema_codec.rs:355-362 | Octets after an accepted element are the trailing error |
| DerCodec.EncodesExactly | keetanetwork-asn1/src/schema_codec.rs:286-314 | The encoder writes the one encoding a value has (fixed tags, constructed context tags up to 30, shortest lengths) and fails exactly where there is none |
| DerCodec.PrefixFree | keetanetwork-asn1/src/schema_codec.rs:425-457 | No encoding is a proper prefix of another |
| DerCodec.DecodedRenormalises | keetanetwork-asn1/src/schema_codec.rs:365-396 | A decoded element re-encodes exactly when no context number in it is 31, and without dates to no more octets than it came from |
| DerCodec.NormalForm | keetanetwork-asn1/src/schema_codec.rs:286-411 | Every accepted input, as DecodesExactly says which, re-encodes unless a context number is 31, to octets that decode to the same value and, without dates, are no longer |
| DerCodec.ContextThirtyOne | keetanetwork-asn1/src/schema_codec.rs:296-299 | The octets BF 02 04 00 decode to context number 31, which the encoder refuses |
| Base32.RoundTrip | keetanetwork-account/src/utils.rs:58-75 | Decoding inverts encoding for octet strings of every length |
| Base32.EncodeSpells | keetanetwork-account/src/utils.rs:58 | Octets are spelled in lower case by as many characters as their bits need, together the numeral of the octets shifted left by zero fill bits |
| Base32.SpelledOnce | keetanetwork-account/src/utils.rs:58 | No other text spells the same octets so |
| Base32.DecodesExactly | keetanetwork-account/src/utils.rs:70-72 | Text decodes if and only if every character is of the alphabet; the octets are the numeral of the text with the left-over bits shifted out |
| Base32.LeadingSymbols | keetanetwork-account/src/utils.rs:47-60 | The first two characters spell the first ten bits, which is what the prefix literals rest on |
| Accounts.FormatPublicKeyString | keetanetwork-account/src/utils.rs:26-60 | The address filled in step by step is the prefix and the one text spelling type octet, key (hashed for an identifier key of another length than 32) and the first five octets of their hash, and decodes to type and key |
| Accounts.AddressRoundTrip | keetanetwork-account/src/utils.rs:26-91 | Decoding a formatted address returns type octet and normalised key for every type octet and key length |
| Accounts.DecodesExactly | keetanetwork-account/src/utils.rs:64-91 | An address decodes to a type and a key if and only if it is the prefix and text that decodes to them followed by the first five octets of their hash |
| Accounts.PrefixFixesType | keetanetwork-account/src/account.rs:2529-2556 | A decodable string that passes an identifier type's prefix guard carries that type's octet |
| Accounts.FormattedPassesOwnGuard | keetanetwork-account/src/account.rs:2529-2556 | A formatted address passes the guard of exactly its own type |
| Accounts.OwnLiteral | keetanetwork-account/src/account.rs:2553-2556 | The top two bits of the key choose which of the type's four literals its address starts with |
| Accounts.EveryPrefixReached | keetanetwork-account/src/account.rs:2553-2556 | Each of the four literals of a type starts the address of some key: none is idle |
| Accounts.IdentifierAlwaysParses | keetanetwork-account/src/account.rs:1191-1201 | The detour of identifier octets through their address cannot fail any of its guards |
| Accounts.ParsesExactly | keetanetwork-account/src/account.rs:1156-1214 | Octets parse if and only if they are a known type octet and a curve key of an accepted length that parses, or anything for an identifier, whose key is hashed unless it has 32 octets |
| Accounts.ParseInvertsBytes | keetanetwork-account/src/account.rs:1156-1214 | The typed octets of a constructed account parse to that account |
| Accounts.ParsedIsWellFormed | keetanetwork-account/src/account.rs:1156-1214 | Whatever parses is an account as constructors make them |
| Accounts.LabelIdentifies | keetanetwork-account/src/account.rs:2736-2740 | Two accounts display alike if and only if they are equal, so keying by string loses none |
| Accounts.CodecIsFaithful | keetanetwork-account/src/account.rs:386-393 | The concrete account codec restores and identifies all constructed accounts |
| SignerTree.RequiredSigners | keetanetwork-block/src/signer.rs:44-67 | The deque loop returns each leaf account once, ordered by its first leaf in the tree, leaves taken by their paths of child indices; it terminates on the nodes left in the deque |
| SignerTree.LeavesInOrder | keetanetwork-block/src/signer.rs:58-62 | The depth-first list is exactly the leaves of the tree, at strictly ascending paths |
| SignerTree.PushAllFront | keetanetwork-block/src/signer.rs:58-62 | Pushing the children to the front in reverse puts them there in order |
| SignerTree.FirstOccurrencesMeaning | keetanetwork-block/src/signer.rs:42-67 | No leaf is lost, none repeats, and the order is that of first appearance |
| SignerTree.FirstOccurrencesInOrder | keetanetwork-block/src/signer.rs:42-67 | Without repeats the list is in the order of each account's first leaf |
| SignerTree.SeenByLabel | keetanetwork-block/src/signer.rs:53-57 | Testing the account string against those visited is testing the account against what was kept |
| SignerTree.CountsDistinct | keetanetwork-block/src/account_util.rs:42-52 | As many distinct strings as siblings if and only if all principals differ |
| SignerTree.ValidateSignerField | keetanetwork-block/src/block.rs:224-262 | The breadth-first walk accepts exactly the trees of the recursive definition: depth, MULTISIG address, child count, distinct sibling principals, known network |
| SignerTree.WalkQueue | keetanetwork-block/src/block.rs:229-261 | The index-driven worklist reports the first fault of the breadth-first order |
| SignerTree.QueueNested | keetanetwork-block/src/block.rs:250-254 | Queues exactly the nested multisig signers, one level deeper |
| SignerTree.AcceptsExactly | keetanetwork-block/src/block.rs:224-262 | For any queue: no fault along the walk if and only if every entry satisfies the recursive definition |
| SignerTree.VisitsExactly | keetanetwork-block/src/block.rs:231-261 | The walk visits exactly the multisig nodes of the tree, each with its depth |
| SignerTree.DepthsRise | keetanetwork-block/src/block.rs:231-261 | The walk never goes back up |
| SignerTree.LevelByLevel | keetanetwork-block/src/block.rs:232-259 | The walk takes a whole level before the next one |
| SignerTree.EntriesInOrder | keetanetwork-block/src/block.rs:250-254 | The multisig children of a node are queued in the order of their indices, none left out |
| SignerTree.ShallowestFaultReported | keetanetwork-block/src/block.rs:224-262 | The error returned is that of a node of the tree above which no faulty node lies |
| SignerTree.FaultIsReal | keetanetwork-block/src/block.rs:236-258 | A fault names what is wrong with the node, and its numbers |
| SignerTree.RequiredSignerCount | keetanetwork-block/src/validation.rs:152-196 | An accepted signer field on a known network asks for between 1 and 16 cubed signatures |
| SignerTree.LeafCount | keetanetwork-block/src/validation.rs:181-196 | For any limits an accepted subtree has between one leaf and the count limit to the power of the levels left |
| SignerTree.ParseInvertsBuild | keetanetwork-block/src/transport.rs:225-278 | At any depth a built signer parses if and only if its leaves are keyed, its addresses MULTISIG and its nesting within the guard, and then to itself |
| SignerTree.ParsesExactly | keetanetwork-block/src/transport.rs:240-278 | A wire signer parses to a tree if and only if it stands for it: keyed leaves, MULTISIG addresses, nesting of at most three, children in order |
| SignerTree.BuildKeepsOrder | keetanetwork-block/src/transport.rs:225-231 | The wire keeps children in order |
| SignerTree.MultisigRoundTrip | keetanetwork-block/src/transport.rs:225-254 | The same for a block's multisig signer, started at depth 1 |
| SignerTree.AcceptableIsParsable | keetanetwork-block/src/block.rs:21 | With keyed leaves the parser's depth guard refuses no tree the validator accepts |
| SignerTree.ParsableIsKeyed | keetanetwork-block/src/transport.rs:255-278 | Every leaf of a tree the parser accepts is keyed |
| Bitfields.OrBitBits | keetanetwork-block/src/permissions.rs:329-331 | Setting a bit sets that bit of any integer, negative ones included, and no other |
| Bitfields.XorBitBits | keetanetwork-block/src/permissions.rs:332-334 | Flipping a bit changes that bit and no other |
| Bitfields.BitsDetermine | keetanetwork-block/src/permissions.rs:187-189 | Integers with equal bits are equal |
| Bitfields.BitLengthMeaning | keetanetwork-bindings/src/permissions.rs:36-38 | The bit length is one past the highest set bit |
| Bitfields.NegativeHighBits | keetanetwork-block/src/permissions.rs:187-189 | A negative integer has all bits set from some point on |
| Permissions.ComputeFlagGroup | keetanetwork-block/src/permissions.rs:266-289 | The loop's outcome is settled by the set of groups the flags ask for: one, none, Never, or two that cannot mix |
| Permissions.GroupSettles | keetanetwork-block/src/permissions.rs:116-185 | For the rule table as it stands the early exits make flag order immaterial |
| Permissions.SameFlagsSameGroup | keetanetwork-block/src/permissions.rs:243-245 | Equal sets of flags resolve to the same group or the same error |
| Permissions.BaseSetTryFrom | keetanetwork-block/src/permissions.rs:299-339 | A constructed set's low fifteen bits are exactly its flags and all higher bits are those given |
| Permissions.CollectFlags | keetanetwork-block/src/permissions.rs:303-307 | Collects exactly the flags whose bits are set |
| Permissions.RewriteKnown | keetanetwork-block/src/permissions.rs:326-335 | Makes the known bits agree with the flags and leaves every other bit alone |
| Permissions.NormalisedBits | keetanetwork-block/src/permissions.rs:299-339 | Bit by bit: the known offsets are the flags, the unknown ones unchanged |
| Permissions.GroupsResolve | keetanetwork-block/src/permissions.rs:249-263 | All three groups of a constructed set resolve, so the error arm of the account check is unreachable |
| Permissions.CheckMeaning | keetanetwork-block/src/permissions.rs:247-263 | An account passes a constructed set's check if and only if it satisfies the rule of every flag in it; no account at all passes only as the target |
| Permissions.CheckByAccount | keetanetwork-block/src/permissions.rs:116-210 | For each kind of account, as entity, principal or target: a constructed set may stand with it if and only if each of its flags is among those listed for that kind |
| Permissions.DefaultByBits | keetanetwork-block/src/permissions.rs:238-240 | A constructed set may be a default if and only if its bitmap sets no flag but ACCESS, the two creation flags, the two storage flags and MANAGE_CERTIFICATE |
| Permissions.NormalisingIsIdempotent | keetanetwork-block/src/permissions.rs:299-339 | Any integer that constructs, negative ones included, constructs again from its own bits, with the same bits and the same set of flags; their order is the subject of FlagOrderKeptExactly |
| Permissions.FlagOrderKeptExactly | keetanetwork-block/src/permissions.rs:313-324 | A constructed set comes back from its own bits with the very same flag list if and only if no known bit was set or ACCESS, OWNER or ADMIN was: an implied ACCESS is appended last but read first |
| Permissions.FlagOrderMayChange | keetanetwork-block/src/permissions.rs:322-324 | UPDATE_INFO alone constructs as UPDATE_INFO, ACCESS and comes back as ACCESS, UPDATE_INFO |
| Permissions.QueriesIgnoreOrder | keetanetwork-block/src/permissions.rs:233-263 | Every query on a base set answers by its flags as a set |
| Permissions.BaseSetFromFlags | keetanetwork-block/src/permissions.rs:214-220 | Accepts a flag list exactly when all its groups resolve, and holds its normalised flags |
| Permissions.FromFlagsMeaning | keetanetwork-block/src/permissions.rs:214-220 | Any bitmap with those known bits is accepted alike and holds the same flags |
| Permissions.ExternalFromOffsets | keetanetwork-block/src/permissions.rs:395-402 | A bit is set if and only if its offset is listed |
| Permissions.OffsetsRoundTrip | keetanetwork-bindings/src/permissions.rs:35-41 | Projecting a set built from a list of offsets gives the strictly ascending list of the distinct offsets |
| Permissions.OffsetsExactly | keetanetwork-bindings/src/permissions.rs:35-41 | For any integer, the projection lists exactly the set bits, ascending, if and only if it is not negative and has no bit from 256 on |
| Permissions.HighOffsetWraps | keetanetwork-bindings/src/permissions.rs:39 | 2^256 projects to offset 0, which it does not hold |
| Permissions.SizeIsTextLength | keetanetwork-block/src/permissions.rs:360-362 | The size is the length of the integer's text in base two, sign included |
| Permissions.ValidateExactly | keetanetwork-block/src/permissions.rs:360-372 | For any integer and a maximum of at least two, acceptance means that every set bit is at most the maximum less two if and only if the integer is not negative or too long anyway; a smaller maximum accepts nothing |
| Permissions.ValidateMeaning | keetanetwork-block/src/permissions.rs:360-372 | Corollary for a set built from offsets: with a maximum of at least two, accepted exactly when every offset is at most the maximum less two |
| Permissions.MinusOneGrantsAll | keetanetwork-block/src/permissions.rs:360-372 | -1 passes a maximum of 32 and, with ACCESS, grants every list of offsets |
| Permissions.GrantsByBits | keetanetwork-block/src/permissions.rs:423-445 | What a pair grants read off the original bitmap: an OWNER bit grants all, even beside ADMIN; ADMIN all but OWNER; any known bit ACCESS; otherwise bit by bit |
| Permissions.DelegationByBits | keetanetwork-block/src/permissions.rs:447-450 | Delegation is open if and only if none of bits 1, 2, 11 and 12 is set |
| Permissions.GrantsIgnoreOrder | keetanetwork-block/src/permissions.rs:423-449 | Grants and delegation do not depend on flag order |
| Operations.PermissionsRoundTrip | keetanetwork-block/src/transport.rs:504-510 | A permission set survives the wire up to flag order |
| Operations.PermissionsUnchangedExactly | keetanetwork-block/src/transport.rs:504-510 | A permission set survives the wire identically if and only if its flag list starts with ACCESS, OWNER or ADMIN or is empty |
| Operations.OperationRoundTrip | keetanetwork-block/src/transport.rs:282-510 | Every kind of operation survives the wire, up to flag order and how a removal spells its certificate |
| Operations.AdjustExactly | keetanetwork-block/src/transport.rs:459-500 | Adjust methods are 0, 1 and 2 on the wire, and no other integer is one |
| Operations.OperationUnchangedExactly | keetanetwork-block/src/transport.rs:282-510 | An operation comes back identical if and only if its flags are in reading order and its certificate, if in full, is neither removed nor 32 octets long |
| Operations.CertificateRoundTripExactly | keetanetwork-block/src/transport.rs:459-500 | A certificate operation comes back the same if and only if a certificate kept in full is not 32 octets long |
| Operations.ShortCertificateBecomesHash | keetanetwork-block/src/transport.rs:481-486 | An added "certificate" of 32 octets comes back as a hash |
| Operations.SameOperationSameWire | keetanetwork-block/src/operation/manage_certificate.rs:103-117 | What the round trip may change is not on the wire |
| Blocks.ValidatesExactly | keetanetwork-block/src/block.rs:184-295 | The ordered checks accept exactly the blocks sound in every respect, networks and limits spelled out |
| Blocks.ValidationFaultIsReal | keetanetwork-block/src/block.rs:184-295 | A refusal names a fault the contents have, with its numbers, an operation's fault the first |
| Blocks.VerifiesExactly | keetanetwork-block/src/block.rs:408-412 | The check passes exactly when each required signer verifies its own signature |
| Blocks.VerifySignatures | keetanetwork-block/src/block.rs:408-412 | The loop accepts exactly then, and otherwise names the first signature that fails |
| Blocks.SealsExactly | keetanetwork-block/src/block.rs:387-416 | A block seals if and only if it encodes, is sound for the hash of its unsigned form and has one verifying signature per required signer; it then carries the signed bytes and that hash |
| Blocks.SealFaultIsReal | keetanetwork-block/src/block.rs:387-416 | A refusal to seal sound contents names the signatures' fault, with its numbers |
| Blocks.RequiredInOrder | keetanetwork-block/src/block.rs:403 | The signatures a block needs are those of its leaf accounts, each once, in the order of the leaves in its signer tree |
| Blocks.SealedLeavesAreKeyed | keetanetwork-account/src/account.rs:340-350 | Every leaf of a sealed block's signer is keyed, because identifier accounts verify nothing |
| Blocks.ValidSignerParsable | keetanetwork-block/src/transport.rs:240-278 | Of a validated signer the parser refuses exactly a multisig tree with an unkeyed leaf |
| Blocks.ElisionRoundTrip | keetanetwork-block/src/transport.rs:85-134 | An elided account is recovered, and a spelled-out one is never refused as redundant |
| Blocks.SignerV2RoundTrip | keetanetwork-block/src/transport.rs:136-222 | A V2 signer, elided or not, comes back exactly when the parser accepts it |
| Blocks.PartsInvertBuild | keetanetwork-block/src/transport.rs:29-222 | Taking a built V1 or V2 wire block apart gives its data and signatures back exactly when its signer is parsable |
| Blocks.ReadsV1Exactly | keetanetwork-block/src/transport.rs:85-132 | A V1 wire block is read as data and signature if and only if it says them, field by field, a redundant account among those refused |
| Blocks.ReadsV2Exactly | keetanetwork-block/src/transport.rs:170-221 | A V2 wire block is read as data and signatures if and only if it says them, a redundant signer and a list of fewer than two signatures among those refused |
| Blocks.SameDataSealsAlike | keetanetwork-block/src/block.rs:387-416 | Data that differ only in what is not on the wire seal to the same bytes, hash and signatures |
| Blocks.SealedRoundTrip | keetanetwork-block/src/block.rs:382-458 | Every sealed V1 or V2 block decodes from its own bytes to a sealed block with the same bytes, hash and signatures |
| Blocks.SealedUnchangedExactly | keetanetwork-block/src/block.rs:444-458 | A sealed block decodes to the identical block, data included, if and only if each of its operations survives unchanged |
| Blocks.UnsignedRoundTripExactly | keetanetwork-block/src/block.rs:471-487 | The bytes of a prepared block decode if and only if its signer is single or has only keyed leaves; UnsignedReprepares is the converse |
| Blocks.UnsignedReprepares | keetanetwork-block/src/block.rs:471-487 | What decodes as an unsigned block carried no signatures, is sound and is prepared again to the octets it came from |
| Blocks.SealedOrUnsigned | keetanetwork-block/src/block.rs:444-487 | No octets decode both as a sealed and as an unsigned block |
| Blocks.SignedBytesRefused | keetanetwork-block/src/block.rs:474-477 | The bytes of a sealed block are refused as an unsigned one |
| Blocks.UnsignedIsCanonical | keetanetwork-block/src/block.rs:471-487 | An unsigned block has one encoding |
| Blocks.UnkeyedLeafIsRefused | keetanetwork-block/src/block.rs:224-262 | With the accounts' own codec and whatever 32-octet keys: a V2 block whose multisig signer has a TOKEN leaf is prepared, and its bytes do not decode |
| Blocks.DecodedReseals | keetanetwork-block/src/block.rs:444-458 | What decodes seals again to the octets it came from, and all its signer leaves are keyed |
| Blocks.DecodedIsCanonical | keetanetwork-block/src/block.rs:444-458 | Octets that decode to the same data, up to what the wire does not carry, and to the same signatures are the same octets |
| HandleRegistry.Registry.constructor | keetanetwork-bindings/src/registry.rs:24-26 | Empty, counter at zero |
| HandleRegistry.Registry.Store | keetanetwork-bindings/src/registry.rs:32-43 | Stores under the first handle in cyclic order after the counter that is not live, leaves all other entries alone and returns, wraparound included |
| HandleRegistry.Registry.WithMut | keetanetwork-bindings/src/registry.rs:62-67 | Replaces the value of a live handle by what the closure leaves, returns its result, and changes nothing else |
| HandleRegistry.Registry.Take | keetanetwork-bindings/src/registry.rs:74-76 | Returns and releases a live handle; an unknown one is an error and changes nothing |
| HandleRegistry.Registry.Remove | keetanetwork-bindings/src/registry.rs:79-81 | Releases the handle and nothing else |
| HandleRegistry.AfterCycles | keetanetwork-bindings/src/registry.rs:33-34 | The wrapping counter runs through 1 to the largest 32-bit integer in a circle |
| HandleRegistry.AfterDistinct | keetanetwork-bindings/src/registry.rs:33-34 | It visits no handle twice within one turn |
| HandleRegistry.Pigeonhole | keetanetwork-bindings/src/registry.rs:33-38 | The handles skipped cannot outnumber the live ones |
| HandleRegistry.StoreTerminatesExactly | keetanetwork-bindings/src/registry.rs:32-43 | A free handle is reached if and only if not all are live |
| HandleRegistry.FullTableHasNoneFree | keetanetwork-bindings/src/registry.rs:32-38 | With every handle live no number of advances reaches a free one |
| HandleRegistry.RunStaysSound | keetanetwork-bindings/src/registry.rs:32-81 | Over every run of calls counter and live handles stay in range |
| HandleRegistry.HandleKeepsValue | keetanetwork-bindings/src/registry.rs:28-31 | Over every run a handle keeps its value until a call names it: no store reassigns it |
| HandleRegistry.ReadsLastWrite | keetanetwork-bindings/src/registry.rs:50-81 | Over every run a handle reads what was last stored or left under it, and after its release nothing until a store returns it again |
| Rendering.RenderBuckets.constructor | keetanetwork-client/src/builder.rs:344-357 | All buckets empty |
| Rendering.RenderBuckets.PushCreate | keetanetwork-client/src/builder.rs:363-383 | Derives with the number of creates so far, fills the handle unless filled before, and stages the create; nothing else changes |
| Rendering.RenderBuckets.PushSend | keetanetwork-client/src/builder.rs:387-410 | Stages an external send as it is, or adds to the entry of the pair; an unresolved operand changes nothing |
| Rendering.RenderBuckets.PushReceive | keetanetwork-client/src/builder.rs:413-431 | Stages the receive with all operands resolved, or changes nothing |
| Rendering.RenderBuckets.PushBalance | keetanetwork-client/src/builder.rs:483-488 | Stages the balance change with its token resolved, or changes nothing |
| Rendering.StageOp | keetanetwork-client/src/builder.rs:472-501 | One pass of the loop: every kind of operation lands in its bucket, zero transfers in none |
| Rendering.RenderOps | keetanetwork-client/src/builder.rs:462-504 | The single pass yields a rendering in the sense below, every operand resolved, or the first error; its k-th operation is the k-th create, derived from the given previous with index k, or from none if that is the opening hash |
| Rendering.RenderingMeaning | keetanetwork-client/src/builder.rs:340-504 | With every operand resolved: creates first, the k-th derived with index k; one non-zero send per pair, only along pairs a pending send names, conserving each pair's value; every other operation once, in kind order and stable within a kind |
| Rendering.RenderSettles | keetanetwork-client/src/model.rs:57-65 | A successful rendering has an address for every identifier its non-zero operations mention or create |
| Rendering.RenderingStable | keetanetwork-client/src/model.rs:36-41 | Filling further handles later does not change what a group rendered to |
| Rendering.RendersToNothing | keetanetwork-client/src/builder.rs:308-313 | Only zero transfers and plain sends summing to zero for every pair render to nothing |
| Rendering.RenderingUnique | keetanetwork-client/src/builder.rs:462-504 | Where strings tell the accounts apart, a group at given handles has one rendering: the description above leaves no choice |
| Rendering.RenderKinds | keetanetwork-client/src/builder.rs:472-501 | Each bucket holds exactly what the operations of its kind become, in pushing order |
| Rendering.EmitExactly | keetanetwork-client/src/builder.rs:473-500 | What a pending operation becomes: its own values, every operand resolved in its own place, in the place its kind has in the block; nothing exactly for a zero transfer |
| Rendering.EmittedRealises | keetanetwork-client/src/builder.rs:433-500 | Each kind's part of a rendering realises its pending operations one for one, in pushing order |
| Rendering.RenderCreates | keetanetwork-client/src/builder.rs:363-383 | The creates staged are those pushed, derived with consecutive indices |
| Rendering.RenderSends | keetanetwork-client/src/builder.rs:403-409 | For every pair of account strings the aggregated value is the sum of the pending sends |
| Rendering.ConservedByAccount | keetanetwork-client/src/builder.rs:403-409 | Where strings tell the accounts apart: one send per recipient and token, and between any two accounts the value sent is the value pending |
| Rendering.RealStringsTellApart | keetanetwork-client/src/builder.rs:403 | The strings constructed accounts display do tell them apart |
| Rendering.AddSendKeepsOrder | keetanetwork-client/src/builder.rs:403-408 | The aggregation map keeps one entry per pair of strings, in key order |
| Rendering.AddSendValue | keetanetwork-client/src/builder.rs:403-408 | Adding changes the value of its own pair by the amount and no other |
| Rendering.MaterialiseValue | keetanetwork-client/src/builder.rs:436-442 | Dropping zero sums loses no value |
| Rendering.MaterialiseOrder | keetanetwork-client/src/builder.rs:436-442 | The sends materialised are non-zero, non-external and one per pair |
| Rendering.CreatePosition | keetanetwork-client/src/builder.rs:360-383 | The k-th create sits at position k of the block and is derived with index k |
| Rendering.RenderedCreatesAfter | keetanetwork-client/src/builder.rs:463-469 | In any rendering identifiers derive from the previous the block itself names, unless it has none or it is the account's opening hash |
| Rendering.HandleFilled | keetanetwork-client/src/model.rs:36-41 | Each fresh handle ends up holding exactly the address its create was derived to |
| Rendering.RenderedHandlesHold | keetanetwork-client/src/builder.rs:377-382 | The k-th operation of the block creates the very address the k-th create's handle holds |
| Rendering.ReadyRenders | keetanetwork-client/src/model.rs:57-65 | Operations whose needed identifiers are known or created earlier never meet an unresolved one, leave the later ones in the same case, and are the only ones that render |
| Rendering.ReadyAppend | keetanetwork-client/src/builder.rs:283-286 | Pushing keeps that so exactly when the new operands are known or issued before |
| TransactionBuilder.Builder.constructor | keetanetwork-client/src/builder.rs:105-115 | An empty group of the primary account, signed by itself |
| TransactionBuilder.Builder.ForAccountWithSigner | keetanetwork-client/src/builder.rs:125-136 | Starts a group and keeps the previous one unless it is empty; nothing pushed is lost |
| TransactionBuilder.Builder.Push | keetanetwork-client/src/builder.rs:283-286 | Appends to the active group only; readiness is kept exactly when the operands are usable |
| TransactionBuilder.Builder.GenerateIdentifier | keetanetwork-client/src/builder.rs:225-235 | Issues a handle in no earlier use and appends its create |
| TransactionBuilder.Builder.SetInfo | keetanetwork-client/src/builder.rs:189-212 | Merges into the first SET_INFO of the group, else appends one |
| TransactionBuilder.Builder.Build | keetanetwork-client/src/builder.rs:291-323 | Delivers on success: a hash chain made of exactly the groups at the handles it filled, every issued handle created in a block; starts afresh, and succeeds or meets an unresolved identifier according to whether all needed operands were ready |
| TransactionBuilder.BuildAll | keetanetwork-client/src/builder.rs:299-323 | The loop with its map of previous hashes delivers: chained blocks, one per group that renders to something |
| TransactionBuilder.BuildMeaning | keetanetwork-client/src/builder.rs:288-323 | The blocks are chained and are the renderings of the groups in order, for the group's account and signer, less exactly those that render to nothing, at the handles the build itself filled and the previous each block names, from which its identifiers are derived |
| TransactionBuilder.BlocksUnique | keetanetwork-client/src/builder.rs:288-323 | Where strings tell the accounts apart, groups and filled handles admit one list of chained blocks only |
| TransactionBuilder.BuildTellsApart | keetanetwork-client/src/builder.rs:403 | Over real accounts, strings tell apart the parties of every group a build renders |
| TransactionBuilder.IssuedAreCreated | keetanetwork-client/src/builder.rs:219-235 | After a successful build every issued handle holds an identifier that one of the blocks creates |
| TransactionBuilder.BuildDelivers | keetanetwork-client/src/builder.rs:291-323 | All of this together for a batch of fresh handles |
| TransactionBuilder.RecordsAppend | keetanetwork-client/src/builder.rs:318 | Recording a hash keeps the map at each account's last block |
| TransactionBuilder.ConsecutiveLinked | keetanetwork-client/src/builder.rs:302-306 | Two consecutive blocks of one account are linked by hash, whatever lies between |
| TransactionBuilder.FirstStarts | keetanetwork-client/src/builder.rs:325-338 | An account's first block starts from the seed (primary only), else the ledger head, else opening |
| TransactionBuilder.ReadyBuilds | keetanetwork-client/src/builder.rs:86-89 | Across group switches, needed operands issued before their use never make a build fail on an unresolved identifier, and only such builds succeed |
| TransactionBuilder.UnresolvedExactly | keetanetwork-client/src/builder.rs:310 | Of the builds that meet no other error, exactly those succeed whose every operand of a non-zero operation is issued before its use |
| TransactionBuilder.BuildCells | keetanetwork-client/src/model.rs:36-41 | A build fills only handles its groups issue, and a successful one all of them |
| TransactionBuilder.MergeInfoTwice | keetanetwork-client/src/builder.rs:187-188 | Two calls act as one with the merged info and make at most one SET_INFO |
| TransactionBuilder.RunHoldsLatestInfo | keetanetwork-client/src/builder.rs:187-212 | Over every run the active group holds one SET_INFO, each field the last value set in that group that is not empty, or none where none was set |
| TransactionBuilder.MergeInfoAt | keetanetwork-client/src/builder.rs:190-209 | The merge replaces the first SET_INFO where it stands |
| TransactionBuilder.MergeInfoReady | keetanetwork-client/src/builder.rs:189-212 | Setting info changes neither what is mentioned nor what is issued |
| TransactionBuilder.RunStaysSound | keetanetwork-client/src/builder.rs:225-235 | Over every run handles stay in sequence, and those not yet built distinct and unfilled |
| TransactionBuilder.RunStaysReady | keetanetwork-client/src/builder.rs:84-89 | Along every run that refers only to identifiers the builder issued, with no failed build since, all pending operands are ready and all those identifiers stay usable |
| TransactionBuilder.RunBuilds | keetanetwork-client/src/builder.rs:291-323 | Over every run, with ledger and clock changing between builds, each successful build delivers the groups pushed since the one before and had only ready operations; where operations refer only to identifiers issued with no failed build since, none meets an unresolved one |
| TransactionBuilder.RunIssuesDistinct | keetanetwork-client/src/builder.rs:230 | No two calls of a run issue the same handle |
| TransactionBuilder.RunKeepsSettings | keetanetwork-client/src/builder.rs:263-281 | Over every run seed, purpose and date are those set last, builds in between or not |
| TransactionBuilder.RunUsesSettings | keetanetwork-client/src/builder.rs:271-281 | Every block of a later build carries the purpose and the date set last |
| TransactionBuilder.RunUsesSeed | keetanetwork-client/src/builder.rs:263-269 | The primary account's first block of a later build names the seed set last as its previous |
| TransactionBuilder.RunTellsApart | keetanetwork-client/src/builder.rs:403 | The same over every run, so that value is conserved between accounts and a successful build's blocks are the only ones |

## Left out

- Hashing, signing, encryption, key derivation and curve-point parsing: parameters.
- The generated ASN.1 block codec and the octets of identifier arcs and dates: parameters with the laws stated above.
- Operation-level validation: a predicate on an operation in its context; only the fee-purpose rule, which sits in block validation, is spelled out.
- Accounts.FormatPublicKeyString: the hash cannot fail in the model, so the formatter has no error result.
- SchemaMatching.MatchTuple: of the errors only the count check's is fixed; which of the other errors a failing search ends with is not stated.
- SchemaMatching.MatchTuple: members and components are values, so the borrowing of components by the result is not modelled.
- DerCodec.RoundTrip: lengths are those of a 64-bit `usize`; 32-bit targets are not modelled.
- Base32.RoundTrip: the base32 crate is not part of this model; its treatment of characters beyond the two-case alphabet and of left-over bits on decoding is taken as strict on the former and lenient on the latter.
- HandleRegistry.Registry.Store: requires a free handle, because the source loops for ever without one.
- Handle errors do not name the registry's resource.
- TransactionBuilder.Builder.Push: stands for the one-line wrappers (`send`, `receive`, `set_rep`, `with_operation` and so on), which only push an operation.
- TransactionBuilder.Builder.Build: the client is a parameter of each build and does not change within it; awaiting and the client's own error kinds are not modelled; a pending identifier's shared cell is an entry of a map the builder holds, so handing it to another builder is not modelled.
- Rendering.RenderBuckets.PushSend: the ordered map is a list kept sorted by key; strings compare by character, which orders addresses as their octets do.
- Hex (`0x`) public-key strings, passphrases, seeds and indices of accounts.
- The asynchronous client: transports, quorum, retries and recovery.
- WebAssembly, WASI and FFI bindings, X.509 helpers, time formatting, error-code tables and build scripts.
