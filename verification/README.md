# AP2 evidence packs: a verified model

This project models the hard core of the AP2 evidence tool and proves what its design promises. A pack seals SD-JWT
artifacts with the keys they verified under; `verify` re-checks it offline and states one verdict twice, as `valid` and as
the states of five subjects; restriction records narrow a mandate; time anchors and producer signatures are added beside
the sealed content. Everything is stated for all inputs: unbounded lists of artifacts, anchors, entries, disclosures and
constraints, every interleaving of stampers, every history of payments.

Library calls (SHA-2, SHA-3, ECDSA, certificates, network, TSA) are arbitrary functions passed as values. Where a hash
must be collision free, the statement says "or a collision is exhibited"; no digest is assumed acyclic.

| file | what it holds |
|---|---|
| `Json.dfy`, `Octets.dfy`, `Rearrangements.dfy`, `Jwk.dfy` | JSON values as dicts in insertion order, byte strings, sequences in another order, equality of keys |
| `Resolver.dfy`, `ResolverRule.dfy`, `ResolverLaws.dfy`, `ResolverOrder.dfy`, `ResolverSettled.dfy` | the disclosure resolver: stack driver, recursive walk, stateless rule, guarantees, order independence, resolving again |
| `Verdict.dfy`, `VerdictLaws.dfy`, `VerdictReasons.dfy`, `ProducerBlock.dfy` | the two verdicts, the reasons each lists, and the producer block |
| `Restriction.dfy`, `RestrictionProfile.dfy`, `RestrictionMeaning.dfy`, `RestrictionLaws.dfy` | the restriction record, the tables of its profile, what constraints admit, soundness and where it fails |
| `RestrictionChain.dfy`, `RestrictionChainLaws.dfy` | the chain loop over mutable records, and what it means for a whole chain |
| `SdJwt.dfy`, `SdJwtLaws.dfy`, `TokenMeaning.dfy`, `ClosedObjects.dfy` | one token, what is measured of it, closed objects |
| `Pack.dfy`, `PackFormat.dfy`, `PackLaws.dfy`, `PackMeaning.dfy`, `Build.dfy`, `BuildLaws.dfy` | verify's reading of a pack, the format by name, build, and build against verify |
| `Stamp.dfy`, `StampProgress.dfy`, `StampLaws.dfy` | concurrent stampers as a step system, that they get through, and what they do to a verified pack |
| `CanonicalJson.dfy`, `CanonicalLaws.dfy`, `CanonicalOrder.dfy`, `CanonicalSame.dfy`, `JsonGrammar.dfy`, `RawJson.dfy` | canonical JSON, the strict reader, its scans and its grammar, the raw spelling of a file |
| `IntegralLiteral.dfy`, `Base64.dfy`, `Der.dfy`, `DerReading.dfy`, `DerLaws.dfy`, `DerIdentity.dfy` | number literals, strict base64, the DER walk and the bytes it reads, anchor identity and exactly what it fixes |
| `SealTree.dfy`, `SparseTree.dfy` | the two Merkle folds |
| `Bindings.dfy` | cross-artifact commitments |

`dafny verify dfyconfig.toml` checks the project.

## What turned out false, and what holds instead

- A verified restriction record need not be narrower than its original. A constraint of the original is skipped when the
  record holds a constraint of its type with an unknown name (`ap2_evidence.py:2377`), on the ground that such a constraint
  is reported later; one that is verbatim in the original is not (`ap2_evidence.py:2386`). The documentation promises that
  every requirement is met (`SPEC_AP2_EVIDENCE.md:1075-1077`); the model follows the code. `SkipAdmitsMore` gives the whole
  failing family, `SkipIsBroader` which of its records are broader, `VerifiedBacksUnlessMasked` the exact condition.
- The evaluation of a record need not end in a verdict. It collects the types of the original's constraints in a set
  (`ap2_evidence.py:2383`), which raises a TypeError for a `type` that is a list or an object, and nothing catches it, so no
  record of the pack gets a verdict (`CopyRaises`). The documentation promises that such a constraint is met by an equal
  copy and otherwise `not_evaluated` (`SPEC_AP2_EVIDENCE.md:1113-1114`); the model follows the code. `RaisesExactly` says
  exactly when, `VerifiedExactly` and `RestatedIsVerified` what holds beside it.
- Resolving resolved claims again need not give them back (`UnsettledResult`). `IdempotentIffTame` says exactly when, from
  the payload and the disclosures, `IdempotentIffSettled` from the result.
- The last child of a DER element may pass its end (`LastChildPassesEnd`); the children stay inside exactly when the last
  ends where its element does (`ChildrenStayInside`). So a token can take its imprint from bytes outside its identity
  (`OpenTokenStatesAnything`). The imprint belongs to the identity exactly when the hash element ends within the signed
  bytes (`ImprintBelongs`), a stated time exactly when its element does (`TimeBelongs`). A response that states no time may
  have the identity of one that does (`TimeMayAppear`), but not when the place of the time is settled within the signed
  bytes (`NoTimeBelongs`). The signed bytes read on their own exactly when everything walked ends within them
  (`IdentityReadsOnItsOwn`). These bounds are the end of the signed bytes: the children of the TSTInfo or of the imprint
  may pass its end without passing that (`PassesTstInfoAlone`).
- The parts of a parsed presentation need not join to it again, since empty parts are dropped (`EmptyPartIsLost`); they do
  exactly when no part between two separators is empty (`JoinsBackUnlessEmpty`).
- The digit algorithm for integral literals refuses some that denote an integer in range, exactly those whose exponent is
  cut off (`IntegralUnlessCut`, `CutRefusesOne`). The shortest has 999999998 characters (`ShortestCutRefused`), and below
  that length the algorithm is exact (`IntegralIsExact`).
- `build` accepts an empty list of artifacts (`EmptyListIsBuilt`); a written pack is valid exactly when the list was not
  empty (`WhatBuildWritesVerifies`).

## Model

| member | source | states |
|---|---|---|
| Resolution.ResolveDisclosures | ap2_evidence.py:387-497 | the explicit-stack driver returns exactly the result, error and census of the recursive walk, whose success and refusals `ResolveIsTheRule` and `RefusedExactly` decide, and the turns of all its loops are bounded by the sizes of the payload and of the disclosures, with no assumption that digests are acyclic |
| Resolution.Resolver.Run | ap2_evidence.py:476-487 | driving the stack of suspended walks gives what unwinding them recursively would, with the same digests met and used |
| Resolution.Resolver.Send | ap2_evidence.py:428-474 | one send fails, finishes or yields exactly as the recursive rule does at that point of the node, and pays for its turns out of the work left |
| Resolution.Resolver.Meet | ap2_evidence.py:421-426 | a digest met before is an error; a new one is recorded in order |
| Resolution.Resolver.MemberLoop | ap2_evidence.py:434-437 | the members of an object are copied up to the next container, reserved names skipped |
| Resolution.Resolver.DigestLoop | ap2_evidence.py:441-454 | the digests of an object are met and their disclosures checked for arity, name and collision up to the next container |
| Resolution.Resolver.ItemLoop | ap2_evidence.py:458-472 | the elements of a list are copied, placeholders met, up to the next container |
| DisclosureRule.WalkIsExpand | ap2_evidence.py:428-474 | the walk with its threaded sets succeeds exactly when the stateless rule of section 7.1 of RFC 9901 expands the node and meets no digest twice, and gives that expansion |
| ResolverLaws.BuildTableIndexes | ap2_evidence.py:405-416 | the table is built exactly when every disclosure decodes to two or three parts and no two share a digest |
| ResolverLaws.ResolveIsTheRule | ap2_evidence.py:387-497 | resolution succeeds exactly when no `_sd_alg` is other than "sha-256", the table exists, the stateless expansion of the payload exists within 512 levels, no digest is met twice and every disclosure is used; the result is that expansion |
| ResolverLaws.RefusedExactly | ap2_evidence.py:403-416 | resolution is refused for the algorithm exactly when some member named `_sd_alg` is not "sha-256"; for a disclosure exactly when that one is the first that does not decode, is no list of two or three parts, or repeats a digest; and for a disclosure left over exactly when all else succeeds and one was not used |
| ResolverLaws.TableRefusedExactly | ap2_evidence.py:405-416 | the table is refused with an error exactly when some disclosure is the first it cannot take, for the reason that error names |
| ResolverLaws.ExpandIsClean | ap2_evidence.py:429-437 | no object of a result has a key `_sd`, no key is repeated and it nests within the bound |
| ResolverLaws.BoundIsDepth | ap2_evidence.py:429-431 | the depth bound refuses exactly the payloads whose unbounded expansion is deeper |
| ResolverLaws.ResolutionGuarantees | ap2_evidence.py:489-497 | on success each disclosure is expanded exactly once, and the hidden digests of the census number the digests met minus the disclosures supplied |
| ResolverOrder.OrderDoesNotMatter | ap2_evidence.py:405-493 | success and the resolved claims do not depend on the order of disclosures, of object keys or of the entries of an `_sd` list |
| ResolverOrder.ExpandAlike | ap2_evidence.py:432-455 | the same for one node, whatever the table of disclosures |
| ResolverOrder.SettledIsFixed | ap2_evidence.py:435-472 | within the depth bound exactly the values without placeholders and reserved names expand to themselves, and they meet no digest |
| ResolverOrder.IdempotentIffSettled | ap2_evidence.py:449-472 | resolving a result again gives it back exactly when it holds no placeholder and no `_sd_alg` |
| ResolverSettled.SettledIffTame | ap2_evidence.py:428-474 | the expansion of any value holds neither placeholder nor reserved name exactly when no list in it, or in a disclosure met, holds an element that leaves one, and no claim disclosed is named `_sd_alg` |
| ResolverSettled.IdempotentIffTame | ap2_evidence.py:449-472 | the same told from the payload and the disclosures before resolving: resolving the result again gives it back exactly then |
| ResolverOrder.UnsettledResult | ap2_evidence.py:459 | an input element with `...` beside an empty `_sd` leaves a placeholder in the result, so plain idempotence fails |
| Verdict.VerifyEvidence | ap2_evidence.py:1798-1978 | over any number of artifacts, anchors and entries the receipt reports exactly the states, the unmet policy inputs, the distinct anchors and `valid`, each told from the facts by the laws of `VerdictReasons`; a minimum below one is a caller error |
| Verdict.SubjectPrecedence | ap2_evidence.py:1571-1587 | one contradicted element contradicts a subject and nothing else does; it is verified exactly when every element is |
| Verdict.ReasonsInOrder | ap2_evidence.py:1578-1582 | the reasons listed follow the elements in their order: each gives its own reason or none, none when it is verified and the subject is not |
| Verdict.CountAnchors | ap2_evidence.py:1811-1818 | the count is of distinct signed TSTInfos among the tokens that bind the digest and, when asked, verify against the authority |
| Verdict.RfcRefuted | ap2_evidence.py:1800-1822 | the aggregate over the block and the anchors is false exactly when some claimed token does not bind |
| Verdict.CheckArtifacts | ap2_evidence.py:1824-1884 | all artifacts pass exactly when each is no error, signed, matches its claims and has no refuted key binding |
| Verdict.DeriveStates | ap2_evidence.py:1603-1675 | the five subjects are derived element by element from the facts; which state and which reasons each comes to is `SealedReasons`, `HolderReasons`, `TimeReasons`, `ProducerReasons` and `IssuerReasons` |
| VerdictLaws.ValidEquation | verifiers/states_controls.py:106-111 | `valid` holds exactly when no subject except issuer_identity is contradicted, no producer entry is SKIP and the policy is met |
| VerdictLaws.SealedContradicted | ap2_evidence.py:1607-1614 | sealed_content is contradicted exactly when there is no artifact, the digest differs, an artifact is invalid or the recomputed binding set differs |
| VerdictLaws.HolderContradicted | ap2_evidence.py:1617-1629 | holder_binding is contradicted exactly when some checked key-binding JWT failed |
| VerdictLaws.HolderVerified | verifiers/states_controls.py:101-102 | holder_binding is verified exactly when some artifact proves key binding and every one that carries it does |
| VerdictLaws.TimeContradicted | ap2_evidence.py:1630-1636 | time_anchor is contradicted exactly when a claimed token is missing or does not bind the digest |
| VerdictLaws.TimeVerified | ap2_evidence.py:1590-1600 | time_anchor is verified exactly when there is a token and each binds and was verified against the authority |
| VerdictLaws.ProducerContradicted | ap2_evidence.py:1637-1655 | producer_signature is contradicted exactly when an entry fails, there is none or the scheme does not match |
| VerdictLaws.ProducerVerified | ap2_evidence.py:1637-1655 | producer_signature is verified exactly when every entry passes under a pinned key and the scheme is theirs |
| VerdictLaws.KeyUnresolvedListed | ap2_evidence.py:1646-1651 | `key_unresolved` is among the reasons exactly when some passing entry's key is outside the pinned set |
| VerdictLaws.PinsContradictNothing | verifiers/states_controls.py:232-237 | supplying, changing or dropping a pinned set never changes which subjects are contradicted |
| VerdictLaws.PinningMoreNeverLowers | verifiers/states_controls.py:240-241 | enlarging a pinned set never lowers the producer state |
| VerdictReasons.IssuerVerified | ap2_evidence.py:1656-1673 | issuer_identity is verified exactly when an anchor was given, some artifact was checked, and every one that was has a certified key whose chain verified |
| VerdictReasons.IssuerContradicted | ap2_evidence.py:1656-1673 | issuer_identity is contradicted exactly when an anchor was given and some checked artifact has a certified key whose chain is broken |
| VerdictReasons.IssuerReasons | ap2_evidence.py:1656-1673 | self-asserted, no anchor, broken, unresolved, instrument failure, certified and not present are listed exactly when the artifacts say so, and nothing else is |
| VerdictReasons.SealedReasons | ap2_evidence.py:1607-1614 | each reason of sealed_content is listed exactly when the digest differs, there is no artifact or a spoiled one, or the bindings of sound artifacts differ; the state is verified without a reason and contradicted with one |
| VerdictReasons.HolderReasons | ap2_evidence.py:1617-1629 | each reason of holder_binding is listed exactly when some artifact's key binding came out that way, and they decide the state |
| VerdictReasons.TimeReasons | ap2_evidence.py:1630-1636 | each reason of time_anchor is listed exactly when a claimed token is missing, states another digest, does not bind, was not or could not be checked or failed against the authority, and they decide the state |
| VerdictReasons.ProducerReasons | ap2_evidence.py:1637-1655 | each reason of producer_signature is listed exactly when a row or the block says so, and they decide the state |
| VerdictReasons.PolicyExactly | ap2_evidence.py:1926-1943 | each policy input is unmet exactly when the block, its entries, its pinned keys or the set of distinct verified anchors fail it, told from the facts; `policy_ok` is that nothing but the two trust inputs is unmet |
| VerdictReasons.ValidExactly | ap2_evidence.py:1884-1973 | `valid` holds exactly when every listed condition on the digest, artifacts, key bindings, bindings, tokens, block, pinned keys and policy inputs does, told from the facts |
| ProducerBlock.VerifyProducerBlock | pqcrypto/sigsuite.py:314-378 | a block is ok exactly when it is non-empty, all entries PASS and the scheme matches them; one that is not ok states neither trust nor post-quantum protection |
| ProducerBlock.CheckEntry | pqcrypto/sigsuite.py:329-361 | an entry passes exactly when it is closed and its signature verifies, is skipped exactly when it is closed and cannot be checked, and fails otherwise; its key is judged exactly when it is closed and keys are pinned |
| ProducerBlock.CheckEntries | pqcrypto/sigsuite.py:324-361 | after the loop the counters are the numbers of entries with each status, together all of them, and the flags say whether every key is pinned and whether a post-quantum signature counts |
| ProducerBlock.TallyDecides | pqcrypto/sigsuite.py:362-378 | at least one pass, no failure and nothing skipped is the same as a non-empty block whose entries all PASS |
| ProducerBlock.EntryOrderDoesNotMatter | pqcrypto/sigsuite.py:329-378 | every verdict on a block is the same for its entries in any order |
| ProducerBlock.PinsOnlyChangeKeys | pqcrypto/sigsuite.py:351-357 | a pinned set changes only what is said of keys: statuses and the ok verdict stay |
| ProducerBlock.RowMeans | pqcrypto/sigsuite.py:329-361 | the row of an entry, member by member: the four keys of a closed entry, the algorithm named, the outcome of the signature call on that key and that signature, and whether the key is pinned for that algorithm |
| ProducerBlock.BlockMeans | pqcrypto/sigsuite.py:362-378 | the verdict on a block from its members and entries alone: scheme, ok, incomplete, trusted and post-quantum protection, each exactly |
| Restriction.EvaluateRestriction | ap2_evidence.py:2243-2396 | the reasons and reports, in order, and the state they make, or nothing when the evaluation raises; which reasons those are is `FoundExactly` |
| RestrictionProfile.FoundExactly | ap2_evidence.py:2243-2396 | a reason or a report is found exactly when the profile's tables prescribe it: issuer keys by `kty`, `crv`, `x` and `y`, hidden digests, forms, every claim and content key by name, every constraint of either side, each with its place |
| RestrictionProfile.KeyDecides | ap2_evidence.py:2258-2260 | a record under a key that differs in `kty`, `crv`, `x` or `y` is contradicted whatever else it holds, and one that is verified names the same four |
| RestrictionProfile.PayloadKeySays | ap2_evidence.py:2286-2323 | what each payload key, by name, is refused for: `exp` and `nbf` only narrowed, `cnf`, `iss`, `sub`, `aud` and `vct` unchanged, `iat` and `jti` of their types, any other equal or not evaluated |
| RestrictionProfile.ContentKeySays | ap2_evidence.py:2328-2345 | the same for the keys of a Mandate Content, by its form and its `vct`, with the preset keys of the two open mandates |
| RestrictionProfile.ShapeIsTheTable | ap2_evidence.py:2148-2176 | the shape of a constraint is that of the table of its type: the first required or optional key that is missing or mistyped, the first bad line, the least unknown name |
| RestrictionProfile.WithinIsTheTable | ap2_evidence.py:2198-2240 | a constraint is within, outside or not comparable exactly as the row of its type says, for all ten types |
| RestrictionProfile.FormsAreDates | ap2_evidence.py:2179-2189 | a bound has the first form exactly when it spells a day of the Gregorian calendar and the second exactly when it spells a second of one in UTC |
| RestrictionProfile.TermSaysIt | ap2_evidence.py:2357-2382 | what is said of a constraint of the original, exactly |
| RestrictionProfile.AddedSaysIt | ap2_evidence.py:2383-2395 | what is said of a constraint of the record, exactly |
| Jwk.SameKeyIsOneKey | ap2_evidence.py:837-838 | two keys are the same exactly when both are objects and `kty`, `crv`, `x` and `y` are each canonically equal |
| RestrictionLaws.UnionIsInOrder | ap2_evidence.py:2317-2319 | the keys compared stand in code point order, each once |
| RestrictionLaws.UnionIsEither | ap2_evidence.py:2317-2319 | the keys compared are exactly those either object has |
| Restriction.CompareKeys | ap2_evidence.py:2317-2319 | the rule of every key either object has is applied once, in code point order |
| Restriction.CheckOriginals | ap2_evidence.py:2354-2382 | what is not met of each constraint of the original, in order |
| Restriction.CheckAdded | ap2_evidence.py:2383-2395 | what each constraint of the record is refused or reported for, or nothing when the set of the types of the constraints of the original cannot be built |
| Restriction.EvaluateRecords | ap2_evidence.py:2476-2507 | the records of a pack have a verdict each, that of their own evaluation, or none of them has one |
| RestrictionLaws.RaisesExactly | ap2_evidence.py:2383 | the evaluation raises exactly when the second pass over the constraints is reached and some constraint of the original is an object whose `type` is a list or an object |
| RestrictionLaws.CopyRaises | ap2_evidence.py:2383 | a mandate with a constraint whose `type` is a list, against a record that copies it under the same key and adds its reference, has no verdict, and no other record evaluated with it has one |
| RestrictionMeaning.ShapeMeans | ap2_evidence.py:2148-2176 | types are judged before names: a constraint is well-formed when all required keys and types are right and no key is unknown, and one with an unknown name is right in every type |
| RestrictionMeaning.FormOrder | ap2_evidence.py:2179-2189 | among date bounds of one form, text order is calendar order |
| RestrictionMeaning.WithinIsSound | ap2_evidence.py:2198-2240 | a constraint within another admits no payment history the other refuses: amounts, totals, spacing and number of uses, parties, dates, references, and checkouts filled by a saturating flow |
| RestrictionMeaning.CanonicallyEqualAdmit | ap2_evidence.py:2192-2195 | constraints with one canonical form admit the same histories |
| RestrictionLaws.VerifiedAdmitsNoMore | SPEC_AP2_EVIDENCE.md:1136-1138 | a verified record, with no term hidden by the skip, admits only histories its original admits, over payload claims, content values and every non-reference constraint |
| RestrictionLaws.VerifiedBacksUnlessMasked | ap2_evidence.py:2364-2379 | a verified record backs every term of its original with an equal or narrower one exactly when no well-formed, unmet constraint has beside it in the record a constraint of its type with an unknown name |
| RestrictionLaws.MaskIsACopy | ap2_evidence.py:2377-2392 | what hides a term in a verified record is a constraint the record shares with its original |
| RestrictionLaws.SkipAdmitsMore | ap2_evidence.py:2377-2392 | for every well-formed constraint and every mask of its type, in every world, the record that drops the constraint and keeps the mask is verified and admits every history the uninterpreted rules let pass, while the original refuses exactly those the constraint refuses |
| RestrictionLaws.SkipIsBroader | ap2_evidence.py:2377-2392 | such a record admits a history its original refuses exactly when the dropped constraint restrains at all, which only a date constraint without upper bound and with a lower bound reading zero does not |
| RestrictionLaws.SkipAdmitsFifty | ap2_evidence.py:2377-2392 | one such record: a limit of 10 beside a masked limit of 100, and a payment of 50 |
| RestrictionLaws.RestatedIsVerified | SPEC_AP2_EVIDENCE.md:1075-1077 | a record that restates its original under the same key, nothing hidden, adding its reference or constraints of unknown types, is verified, unless the evaluation raises |
| RestrictionLaws.VerifiedExactly | ap2_evidence.py:2243-2396 | a record is verified exactly when its key and its original's agree on `kty`, `crv`, `x` and `y`, it hides nothing, has the same readable form and meets the rule of every key and every term, and the evaluation does not raise, whatever the order of the checks and their early ends |
| RestrictionLaws.ContradictionBlamesTheRecord | ap2_evidence.py:2253-2256 | where there is a verdict, a record is contradicted exactly when some reason is a fault of the record; what is wrong with the original or cannot be judged never contradicts it |
| RestrictionLaws.RangeIsExact | ap2_evidence.py:2201-2204 | a non-empty amount range found not within another admits an amount the other refuses |
| RestrictionLaws.BudgetIsExact | ap2_evidence.py:2205-2206 | a budget found not within another admits a total the other refuses |
| RestrictionLaws.RecurrenceIsExact | ap2_evidence.py:2207-2210 | a recurrence that allows two uses and is not within another admits more frequent or more uses |
| RestrictionLaws.AllowedIsExact | ap2_evidence.py:2211-2212 | an allowed list not within another names a party the other does not |
| RestrictionLaws.ReferenceIsExact | ap2_evidence.py:2213-2214 | a reference not within another admits a transaction the other refuses |
| RestrictionLaws.BoundIsExact | ap2_evidence.py:2215-2228 | a comparable date bound not within another admits the very day or second it names, which the other refuses |
| RestrictionChain.SettleChain | ap2_evidence.py:2508-2517 | the in-place loop ends, every state is the one the chain rule prescribes from the states before it, and exactly the lowered records gained the chain reason |
| RestrictionChain.UpMeans | ap2_evidence.py:2508-2517 | the link of a record goes to the last record named as its original, and there is none exactly when no record has that name |
| RestrictionChain.WeakestLink | ap2_evidence.py:2508-2517 | a record is verified at the end exactly when it and every record reachable through `original` links were verified before, whatever the order and even on a cycle |
| RestrictionChain.WeakestIsStable | ap2_evidence.py:2508-2517 | running the rule again changes nothing |
| RestrictionChainLaws.VerifiedChainAdmitsNoMore | SPEC_AP2_EVIDENCE.md:1060-1062 | a record verified after the chain rule admits no history refused by the original of any record up its chain, however many links away |
| SdJwtLaws.ParseReads | ap2_evidence.py:359-379 | parsing gives back what a writer joined: header, payload and signature from the three segments in that order, the non-empty disclosures in order, and no key-binding JWT for an empty last part |
| SdJwtLaws.EmptyPartIsLost | ap2_evidence.py:379 | a JWT followed by two separators parses, and its parts join to a text with one |
| SdJwtLaws.PresentationAndKb | ap2_evidence.py:1023 | a presentation is what its key-binding JWT commits to, followed by that JWT |
| SdJwtLaws.KbBindsPresentation | ap2_evidence.py:1023-1024 | one key-binding JWT passes its sd_hash check with one presentation only, whatever disclosure is added, dropped or moved and even if the same parts are read, or a hash collision is exhibited |
| SdJwtLaws.JoinOfSplit | ap2_evidence.py:363-366 | joining the parts of a split gives the text back |
| SdJwtLaws.SplitOfJoin | ap2_evidence.py:363-366 | splitting gives back parts that hold no separator |
| SdJwtLaws.JoinsBackUnlessEmpty | ap2_evidence.py:379 | the parts kept join to the presentation again exactly when no disclosure between two separators is empty |
| SdJwtLaws.TrimStrips | ap2_evidence.py:362 | what is stripped of a compact serialization is blank, at either end, and what is left begins and ends with a character that is not |
| BuildLaws.TrimTwice | ap2_evidence.py:362 | stripping a compact serialization is idempotent, so what build records passes verify's whitespace check |
| BuildLaws.BuiltIsAscii | ap2_evidence.py:1834-1836 | a presentation whose every part was read is ASCII, although empty parts are dropped unread |
| BuildLaws.SnapshotHolds | ap2_evidence.py:874-959 | a snapshotted key is a closed object of a known class that verify reconciles with the header it came from |
| BuildLaws.KbRecordHolds | ap2_evidence.py:1013-1026 | the record of a key-binding check is a closed object that agrees with its recomputation |
| ClosedObjects.FillIsClosed | ap2_evidence.py:589-604 | an object written from its exhaustive key list passes the check of that list |
| ClosedObjects.ClosedSame | ap2_evidence.py:589-614 | objects equal up to the order of keys pass the check together |
| Build.BuildEvidence | ap2_evidence.py:1337-1435 | the pack written, or a refusal, artifact by artifact, with the bindings found, the digest taken and the anchors obtained; `BuiltExactly` says member by member which pack that is |
| BuildLaws.SealedVerifies | ap2_evidence.py:1829-1884 | verify measures of an entry build sealed what build measured: signed, claims matching, key binding not refuted, every recorded copy equal to its recomputation; that signed is the library's own answer is `ArtifactMeasured` |
| TokenMeaning.ParseMeans | ap2_evidence.py:359-379 | header and payload are what the first two segments of the issuer's JWT load to, the signature is what the third decodes to, and what is signed is the first two joined by a dot |
| TokenMeaning.ClaimsAre | ap2_evidence.py:382-412 | the claims of a token are those the resolver gives for its payload and its disclosures; a disclosure reads as its base64url bytes load, and its digest is the base64url SHA-256 of its text |
| TokenMeaning.ArtifactMeasured | ap2_evidence.py:1829-1884 | what is measured of an entry: `signature_ok` is b exactly when the library's ES256 call on the recorded key's `x` and `y`, the first two segments of its own text and the 64 bytes of the third answers b, with `kty` EC and `crv` P-256; claims, key binding and class likewise |
| TokenMeaning.ArtifactErrorExactly | ap2_evidence.py:1829-1884 | an entry is an error exactly when it is not closed, not trimmed ASCII, does not read, a recorded copy or the provenance disagrees, the signature or the claims cannot be judged, or the key-binding record differs |
| TokenMeaning.SignatureIsOne | ap2_evidence.py:546-560 | the signed text and the signature are fixed by the token's text, so the outcome is |
| TokenMeaning.SnapshotExactly | ap2_evidence.py:874-959 | for every source the snapshot is refused unless the header says ES256 and the source gives a key, and is then the object with that key, that class and the members the source adds |
| TokenMeaning.KbCheckMeans | ap2_evidence.py:1014-1027 | the key-binding check reports the library's ES256 answer under `cnf.jwk` over the KB-JWT's own segments, and whether `sd_hash` is the digest of everything up to the last tilde |
| TokenMeaning.KbErrorExactly | ap2_evidence.py:974-1022 | the key-binding check raises exactly when the KB-JWT does not read, its header or its four claims are not as required, or the holder key cannot be judged |
| TokenMeaning.KbRecordWritten | ap2_evidence.py:1012-1027 | the record written of a key-binding check, member by member |
| TokenMeaning.GoodProvenance | ap2_evidence.py:661-711 | a good artifact whose class names the header as its source, or whose header names a key at all, has the very key of the header, by `kty`, `crv`, `x` and `y` |
| TokenMeaning.SealExactly | ap2_evidence.py:1371-1399 | build seals an artifact exactly when its token reads, its key is obtained, the library answers true for its signature, the header's keys agree, its claims resolve and its key binding is not refuted, and then writes exactly this entry |
| PackMeaning.BuiltExactly | ap2_evidence.py:1337-1435 | build writes a pack exactly when names are given and apart, every artifact seals and the core is read back, and then every member of it is the one named |
| PackMeaning.StampExactly | ap2_evidence.py:1063-1096 | a token is taken from an authority exactly when its reply is granted, states this digest and is its padded base64 |
| PackMeaning.TimestampIsWritten | ap2_evidence.py:1420-1422 | the timestamp block written with a token, without one and without an authority |
| PackMeaning.AnchorsInOrder | ap2_evidence.py:1426-1434 | the anchors written are those obtained, one for each authority that gave a token, in the order asked |
| PackMeaning.AdmittedExactly | ap2_evidence.py:1732-1793 | a pack is verified at all exactly when it is closed in the ten keys of the format, of this format and scope, dated, with non-empty names that differ and closed objects inside, every key list written out |
| PackMeaning.FactsAre | ap2_evidence.py:1794-1896 | every fact measured on a pack, from its members by name, with the digest over all members but the four named |
| PackMeaning.TokenIsRead | ap2_evidence.py:1194-1207 | what is measured of a recorded token: its base64, its status, its imprint against the digest and its identity |
| PackMeaning.BlockIsRead | ap2_evidence.py:1799-1804 | the timestamp block counts as a token exactly when it says it is anchored, and as a missing one when it then carries none |
| PackMeaning.BindingsMatchExactly | ap2_evidence.py:1886-1896 | the recorded bindings match exactly when every artifact is measured and they are, up to order, the objects written for the bindings found |
| BuildLaws.DigestIsOfCore | ap2_evidence.py:1794-1796 | the digest recomputed over a finished pack is the one taken before the members it does not cover were added |
| BuildLaws.StampBinds | ap2_evidence.py:1063-1096 | a reply build accepts from an authority is a token verify finds bound to the digest |
| BuildLaws.WhatBuildWritesVerifies | ap2_evidence.py:1337-1445 | every pack build writes is read back by the strict reader, in the raw spelling of the file and in the canonical one alike, admitted, and valid with no policy input exactly when there was an artifact to seal, under the same reading of integral floats |
| BuildLaws.EmptyListIsBuilt | ap2_evidence.py:1337-1435 | build accepts every request without artifacts; the pack is written, read back and admitted, and is not valid |
| PackLaws.KeyOrderDoesNotMatter | ap2_evidence.py:1726-1884 | admission and every measured fact are the same for packs equal up to the order of keys |
| PackLaws.CopiesAreDetermined | ap2_evidence.py:1846-1864 | two good entries of one token, in any packs, record the same header, claims and key-binding facts up to key order |
| PackLaws.DigestBinds | ap2_evidence.py:1794-1796 | two packs carrying one matching digest are equal up to key order outside the four uncovered members, or exhibit a hash collision |
| Stamp.StepKeeps | ap2_evidence.py:1448-1501 | every step of every stamper, failing or not, keeps the file a whole pack and what each stamper knows of it; which steps there are, and what each does, is `StepsExactly` |
| StampProgress.StepsExactly | ap2_evidence.py:1448-1501 | in every reachable state each step is possible exactly when its stage allows it, the lock exactly when nobody holds it, and does exactly what it says to the file, the lock and the stamper's stage |
| StampProgress.AloneSucceeds | ap2_evidence.py:1448-1501 | from every reachable state with a free lock, a pack that can be stamped and an anchor that fits, a new stamper has a run to success with the next count; the file is the old one with that anchor last, the lock is free and no other stamper moved |
| StampProgress.HolderCanLeave | ap2_evidence.py:1461-1499 | the holder of the lock can always fail, and after its rename succeed, and either frees the lock and leaves the file |
| StampProgress.UnstampableStays | ap2_evidence.py:1466-1473 | no run changes a pack whose checks fail or whose `anchors` is an empty list |
| StampProgress.FileFits | ap2_evidence.py:1480-1490 | whatever a run leaves in the file is the initial pack or within the size bound |
| Stamp.RunsKeep | ap2_evidence.py:1448-1501 | in every interleaving the file differs from the initial pack in `anchors` only: the initial ones, then one per completed rename |
| Stamp.SuccessIsKept | ap2_evidence.py:1461-1499 | no reported success is lost: its anchor stays at the place its count says, after any further steps of anyone |
| Stamp.SuccessesAreDistinct | ap2_evidence.py:1499 | two reported successes report different counts |
| Stamp.WithoutLockASuccessIsLost | ap2_evidence.py:1461-1463 | without the lock two stampers can both report success and the file keep one anchor |
| StampLaws.AnchoredIsAdmitted | ap2_evidence.py:1461-1485 | a pack that is admitted stays admitted with any anchors obtained for its digest appended |
| StampLaws.StampedStaysValid | ap2_evidence.py:1448-1501 | after any run of any number of stampers the file is an admitted pack, its count of anchors has not fallen, and a verdict that was valid under a policy is valid under it still |
| IntegralLiteral.ScanSpelled | ap2_evidence.py:151 | every well-formed number literal is matched into its parts |
| IntegralLiteral.ScannedSpells | ap2_evidence.py:151 | only well-formed number literals are matched |
| IntegralLiteral.IntegralUnlessCut | ap2_evidence.py:154-180 | for every text the answer is v exactly when the text is a number literal whose exact decimal value is the integer v within the portable range, and is not a non-zero literal with an exponent of ten significant digits or more |
| IntegralLiteral.IntegralIsExact | ap2_evidence.py:154-180 | for every text shorter than 999999998 characters, so for every one within 64 MiB, the last condition can be dropped |
| IntegralLiteral.ShortestCutRefused | ap2_evidence.py:171-173 | a text of 999999998 characters denotes an integer in range and is refused |
| IntegralLiteral.CutRefusesOne | ap2_evidence.py:171-173 | an unbounded family of texts that denote 1 is refused |
| CanonicalJson.NestingDepth | ap2_evidence.py:212-223 | the flag loop computes the depth scan |
| CanonicalJson.HasLoneSurrogate | ap2_evidence.py:231-248 | the index loop finds a lone surrogate escape exactly when there is one |
| CanonicalLaws.ReadPrinted | ap2_evidence.py:349-350 | the reader gives back any printed in-profile value and leaves what follows |
| CanonicalLaws.RefusePrinted | ap2_evidence.py:201-205 | a value with an integer past the portable range is refused, whatever is around it |
| CanonicalLaws.DepthScanIsDepth | ap2_evidence.py:212-223 | the scan sees the depth of any value the reader accepts, whatever its strings contain |
| CanonicalLaws.LoaderIsBoundedReader | ap2_evidence.py:251-267 | the strict loader is the reader with a depth bound: its scans refuse nothing else the reader accepts |
| CanonicalLaws.CanonRoundTrip | ap2_evidence.py:349-350 | loading a canonical text gives the value with its keys sorted exactly when its integers are in range and it nests at most 512 deep, and is refused otherwise |
| JsonGrammar.LoadsExactly | ap2_evidence.py:251-267 | the strict loader accepts exactly the texts of the grammar of RFC 8259 without white space whose numbers are portable integers, whose objects repeat no key, whose surrogate escapes stand in pairs and which nest at most 512 deep, and gives the value spelled |
| JsonGrammar.PrintedIsShortest | ap2_evidence.py:349-350 | of the spellings of a character in printable ASCII with lower-case escapes, the printed one is the shortest |
| JsonGrammar.PrintedSpells | ap2_evidence.py:349-350 | what is printed for a character spells it, in printable ASCII with lower-case escapes |
| JsonGrammar.BelowIsBefore | ap2_evidence.py:349-350 | the order of keys is that of the first code point in which they differ, a prefix first |
| RawJson.RawLoadsAsCanon | ap2_evidence.py:1263-1282 | a value written with sorted keys and characters beyond ASCII unescaped loads to the same value as its canonical form |
| RawJson.RawIsShortest | ap2_evidence.py:1263-1282 | the file spells a character as shortly as the grammar allows |
| CanonicalLaws.CanonIsInjective | ap2_evidence.py:349-350 | equal canonical forms are equal sorted values |
| CanonicalOrder.CanonIsUpToKeyOrder | ap2_evidence.py:349-350 | two values have one canonical form exactly when they are the same JSON value up to the order of keys |
| CanonicalOrder.SortedIsUnique | ap2_evidence.py:349-350 | a sorted object is determined by its members |
| Base64.UrlDecodeIsInverse | ap2_evidence.py:326-342 | strict base64url accepts exactly the encodings of non-empty byte strings and returns the bytes encoded |
| Base64.UrlAccepts | ap2_evidence.py:326-338 | accepted exactly when the alphabet, the length and the zero trailing bits of section 5 of RFC 4648 are right |
| Base64.Unb64IsInverse | pqcrypto/sigsuite.py:69-77 | strict padded base64 accepts exactly the encodings of non-empty byte strings and returns the bytes encoded |
| Base64.OneSpelling | pqcrypto/sigsuite.py:69-77 | no byte string has two accepted spellings in either form |
| Base64.EncodingKeepsBits | ap2_evidence.py:341-342 | read as one binary number an encoding is its bytes with zero bits filling the last character |
| Base64.DecodedIsTheNumber | ap2_evidence.py:326-338 | what is decoded, told without the encoder: as one binary number the characters of an accepted text, each counting its place in the URL-safe alphabet, are the bytes followed by zero bits, and are just enough of them |
| Base64.PaddedIsTheNumber | pqcrypto/sigsuite.py:69-77 | the same for the standard alphabet before the padding to a length divisible by four |
| Der.DerTlv | ap2_evidence.py:1107-1119 | an element found lies inside the buffer, after at least two bytes of header, with the tag that stands at its offset |
| Der.DerChildren | ap2_evidence.py:1122-1126 | the loop gives the elements of the recursive rule, or its fault |
| Der.ChildrenRun | ap2_evidence.py:1122-1126 | children stay inside the buffer, run without gap from the start, advance by at least two bytes and stop at the first that reaches the end |
| DerIdentity.ChildrenStayInside | ap2_evidence.py:1117-1126 | every child ends at or before the end exactly when the last ends there, and exactly when the children are found in the buffer cut off at the end |
| Der.LastChildPassesEnd | ap2_evidence.py:1117-1126 | two bytes that hold an element ending three bytes past them |
| DerLaws.TlvReads | ap2_evidence.py:1107-1119 | every encoding of an element, short or long form up to four length bytes, is read back with its content |
| DerIdentity.IdentityReadsOnItsOwn | ap2_evidence.py:1165-1172 | the signed bytes of a response read on their own exactly when the TSTInfo, its elements and those of its imprint end within them |
| DerIdentity.ImprintBelongs | ap2_evidence.py:1165-1182 | every response with this identity states this imprint exactly when the hash element ends within the signed bytes; otherwise one with the same identity, about 16 MiB longer, states another |
| DerIdentity.TimeBelongs | ap2_evidence.py:1173-1183 | for a response that states a time, every response with its identity states it exactly when the time element ends within the signed bytes |
| DerIdentity.NoTimeBelongs | ap2_evidence.py:1173-1183 | no response with the identity of one that states no time states one, when the signed bytes settle that there is no fifth element, or that it has another tag, or hold all of it |
| DerLaws.TimeMayAppear | ap2_evidence.py:1173-1183 | two responses of one identity, one that states a time and one that states none |
| DerLaws.FactsBelongToIdentity | ap2_evidence.py:1129-1183 | two responses with one identity that reads on its own state the same imprint and time |
| DerLaws.WrappedReads | ap2_evidence.py:1129-1183 | however a TSTInfo that reads on its own is wrapped, with longer lengths, extra elements at any level, another status or trailing bytes, the response states its facts and has it as identity |
| DerLaws.OpenTokenStatesAnything | ap2_evidence.py:1165-1172 | the two signed bytes of a header, with any imprint of the length they announce after the response, 32 bytes among them, state that imprint under one identity |
| DerLaws.CopyIsNoSecondAnchor | ap2_evidence.py:1537-1544 | a wrapped copy of a counted anchor never changes the number of anchors, whatever its outcome |
| DerReading.TlvExactly | ap2_evidence.py:1107-1119 | an element is found at an offset exactly when the bytes there are one encoding of it, in the short form or with up to four length bytes |
| DerReading.ChildrenExactly | ap2_evidence.py:1122-1126 | a list of elements is found exactly when each begins where the one before ended and the last is the first to reach the end |
| DerReading.ResponseExactly | ap2_evidence.py:1129-1183 | a response reads as this status, these facts and this identity exactly when its bytes hold the path to them, tag by tag |
| DerReading.MeasuredExactly | ap2_evidence.py:1198-1207 | `granted` and `imprint_ok` are true, false or unknown exactly as the response states its status and the imprint of the digest |
| DerReading.TimeIsSpelled | ap2_evidence.py:1173-1183 | a time is taken exactly when it is fourteen digits, an optional fraction with a digit, and Z |
| SealTree.NextLevel | interop/elara_reader.py:119-126 | one level of pairing with the odd node promoted |
| SealTree.SealFoldTree | interop/elara_reader.py:116-127 | the level-by-level fold gives the tree that splits at the largest power of two below the count, as in section 2.1 of RFC 6962, over raw leaves |
| SealTree.SplitIsPowerOfTwo | interop/elara_reader.py:116-127 | the split is the largest power of two below the count |
| SealTree.LevelKeepsHead | interop/elara_reader.py:119-126 | pairing one level keeps the root of that tree |
| SealTree.SealFoldIncl | interop/elara_reader.py:130-135 | the inclusion loop folds the path from the leaf up |
| SealTree.PathFoldsToHead | interop/elara_reader.py:130-135 | every leaf has a sibling path that folds to the root |
| SealTree.PathBinds | interop/elara_reader.py:130-135 | whoever folds a value of that length up a path of that shape to the root has that leaf and its path, or exhibits a hash collision |
| SparseTree.SmtFold | interop/elara_reader.py:79-99 | the fold through the depth-indexed dictionary equals the streaming fold that takes the list head at each set bit, with the two refusals |
| SparseTree.BitsRoundTrip | interop/elara_reader.py:84-90 | a bitmap written as an integer reads back as the same bits |
| SparseTree.ProofFoldsToRoot | interop/elara_reader.py:79-99 | for every finite map in the 256-level tree, a key's leaf with the extracted bitmap and deepest-first siblings folds to the root |
| SparseTree.ProofBinds | interop/elara_reader.py:79-99 | whoever folds a leaf of a key to the root shows that the tree stores exactly that value under it, or exhibits a hash collision |
| Bindings.Finder.Add | ap2_evidence.py:1037-1040 | setdefault and append: one key gains one entry, no other changes |
| Bindings.Finder.BuildIndex | ap2_evidence.py:1036-1040 | the inverse index answers every string as the scan of all artifacts would |
| Bindings.Finder.Scan | ap2_evidence.py:1043-1054 | scanning a node appends exactly the bindings of its string leaves, in order |
| Bindings.FindBindings | ap2_evidence.py:1032-1058 | the result is the same list, in the same order, as the naive scan of every string leaf against every other artifact's two digests |
| Bindings.ScanFindsLeaves | ap2_evidence.py:1043-1054 | the bindings found under a claim path are exactly those of the string leaf that path leads to |
| Bindings.LeafIsBoundExactly | ap2_evidence.py:1049-1053 | a leaf is bound to another artifact exactly when it spells that artifact's digest in the form named |
| Bindings.LengthTellsTheForm | ap2_evidence.py:1037-1040 | with 32-byte digests a leaf spells a digest in one form only, known by its length |
| Bindings.HexSpells | ap2_evidence.py:1037-1040 | a hexadecimal digest spells every byte by its own two lower-case digits, the high one first |

## Left out

- ES256, Ed25519, ML-DSA-65, X.509, SHA-2 and SHA-3: arbitrary functions, as the calls into their libraries.
- Files, descriptors, temporary files, `openssl` runs, JWKS and TSA requests: parameters that may fail; the exit codes and receipts of a check that could not be run are not modelled.
- The indentation `json.dump` writes around tokens, and white space in JSON texts: the reader takes compact texts, and a pack file is its raw spelling without the white space, so the 64 MiB size check of the written text is left out too.
- UTF-8 decoding, byte order marks, surrogate code points in library input, and the interpreter's recursion and digit limits: strings are sequences of Unicode scalar values.
- The command line, receipt wording, `detail` and `note` strings, and the lists of ignored header members: text for a reader, with no effect on a verdict.
- The earliest `genTime` and the order of fractional times: the count of anchors and their identity are modelled, the time reported from them is not.
- NoTimeBelongs: one way only. When the place of the time is not settled within the signed bytes, whether some completion states a time also depends on the room the open lengths leave, which is not characterised.
- Policy inputs in the build-to-verify result: it is stated with none; the verdict under every policy is in `Verdict.dfy`.
- The reading of `--trust-anchor` chains inside `CheckArtifact`: without an anchor no chain is measured; chain outcomes are facts of `Verdict.dfy`.
- `sign_evidence`: it signs the digest and takes no lock; its result is a producer block like any other.
- The reference checks before a record is evaluated (`_ref_is_plain`, `issuer_jwt_hash`, the choice of the original): the evaluation starts from the original found, and the chain rule from the links.
- `_within` for `checkout.line_items` is characterised exactly and proved sound, but not complete for the flow: the code declares that a reordered list is refused where the flow would be the same.
- `zone_fold`, the parsing of hexadecimal in the Merkle reader: a fold without a shape of its own.
- The choice among the keys of a JWKS and the key inside a certificate: results of the fetch and of the X.509 library.
- Two JSON values are compared by canonical form where Python compares dicts with `==`; the two differ only for a boolean against 0 or 1 and, in keys, for a null member against a missing one, which no key that verified holds.
- Seal: the notes written into a key object are one fixed text.
