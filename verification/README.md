# Verified models of the open-conditions cores

This project models eight pieces of the repository and proves what they are for.

- **Crowd evidence** (`Evidence`, `EvidenceLaws`, `EvidenceVerdict`, `EvidenceCeiling`, `EvidenceLedger`, `Reliability`). An
  append-only ledger of reports, confirmations, negations, cancellations and external resolutions is replayed into a state, a
  score, a routing flag and an expiry. The reference meaning, `Evaluate`, speaks of the *set* of admissible entries only; the
  replay, with its sort and its loops, is shown to compute it, and `EvidenceVerdict` says which entries make which verdict.
- **Sites of charging locations** (`Grouping`, `SiteComponents`, `SiteStated`, `Components`, `ComponentLaws`, `StatusPath`).
  Locations are grouped through a grid index, their components put under one site with keys renamed, and their status readings
  moved along, either after a full parse or on a fast path that never parses the register.
- **Publication of a release** (`Publication`). A run writes images, a tag, a draft release, its assets and the moving preview
  tags; any call may fail, any write may land unconfirmed, and a run may stop anywhere and be started again.
- **Observation records** (`Codec`, `CodecHalves`, `History`, `HistoryLaws`, `HistoryRows`, `RecordIds`). A record is split into
  a series template and a reading, or into history columns, and rebuilt.
- **Tariffs** (`Tariff`, `TariffLaws`, `TariffOffer`, `OfferKeys`). Published OCPI elements become an offer's, under OCPI's
  first-match pricing (Tariffs module of OCPI 2.2.1); tariffs get keys free of collisions.
- **Signatures** (`Base64Url`, `Signature`). Unpadded base64url (section 5 of RFC 4648) and the low-S form of ES256 signatures.
- **Situations** (`JsonText`, `CanonicalJson`, `Situation`, `SituationLaws`, `SituationOrder`, `SituationRecords`). The key two
  traffic reports share exactly if they mean the same: JSON values in canonical order, written as text (section 25.5.2 of
  ECMA-262).
- **Times** (`ZonedTime`, `OpeningHours`, `OpeningHoursLaws`, `OpeningHoursOrder`). Wall clocks read in a zone, and weekly hours
  written in the OpenStreetMap grammar.

`Basics` holds what several of them need: options, results, a stable sort. Besides the laws of each piece, the modules
`EvidenceVerdict`, `SiteStated`, `CodecHalves`, `HistoryRows`, `RecordIds`, `TariffOffer` and `SituationRecords` say what a
result holds in terms of what was given, with every name and number written out, and not by the function that computes it. Code
that works in loops and updates is a method (or, for the registry host and the status reader, a class) proved against a
specification function; the laws are lemmas about that function. `Codec` names the fields of a stored record by a datatype,
while the situation key ranges over JSON values with any keys (`CanonicalJson`). Every lemma carries `{:induction false}`, so
each proof is the one written out. Scores and prices are reals, instants whole milliseconds, and numbers in JSON multiples of
the smallest positive double.

## Where the code and its promises part

- A time in the hour a zone repeats is documented to read as the first of the two; the code gives the first exactly if the
  change comes after the wall time read as UTC, so everywhere in Europe it gives the second (`FirstOfTwoExactly`,
  `EuropeTakesTheSecond`).
- The cap on what peers can add is not checked against the base score, nor held once the reporter's adjustment is added. It
  holds for every number of confirming and negating keys exactly under `HoldsCeiling` (`AdjustedCeilingExactly`), and over
  whole ledgers, where too many negations end an observation, exactly under the weaker `HoldsLiveCeiling`
  (`PeerCeilingExactly`): for a base below a cap of 1 at most, exactly if the adjustment is not positive; without an
  adjustment, exactly if the base is below the cap or the cap above every score.
- The grid is first fit exactly where two locations that stand together lie within the search window; across the 180th
  meridian they do not (`GridExactly`, `AntimeridianSplits`).
- Merged component keys are distinct exactly if each key a move makes is new (`MergeKeepsSound`); a location that itself names
  a charge point `2:x` can break it (`ClashRepeatsAKey`).
- A connector whose charge point is taken for one another location put on the site, by its eMI3 id, is on the site only if
  the one held lists it; its readings are moved to its key all the same (`ConnectorFollows`, `MovedReadingLands`,
  `HeldPointLosesConnector`).
- A history row without its poll's fetch id loses the position of the record's payload, a result that leaves out a field
  its type has is read back with it, and a fused record is read back without its record id (`RecordReturnsExactly`,
  `FusedLosesItsRecordId`).
- A latest row whose record id is a bare hash cannot be read: the hash is taken for a compact id, and its template names no
  namespace (`BareHashDoesNotReturn`).
- A maximum of 0 is read as no maximum. An offer prices a session with the element and component its tariff as published does
  exactly if no maximum of 0 keeps that element from the session, and the published component has a price
  (`PricingIsPreserved`, `ZeroMaximumPricesMore`).
- `normalizeLowS` is not idempotent for an `s` above the group order (`IdempotentExactly`).
- The fast path places a status as the full parse and merge do exactly if its station was merged where its site id was
  (`OneUpdateAgrees`). Station ids that differ in a line break and its escape share a site id, so that can fail
  (`SharedSiteIdDiffers`); a poll then yields other readings unless each such status is moved to where it is, and no other
  moved to its id (`FastPathAgrees`). Where two such stations are merged the last one's renames are kept for both, so a reading
  on the first can name the other's charge point (`RenamesSurvive`, `SharedDraftMisplaces`); and if the first is the lead, the
  merged site is taken off the list of drafts (`SiteStandsExactly`).
- The situation key is to hide the order an object lists its keys in. It does exactly if the comparison it sorts by ties no two
  strings (`KeyOrderHiddenExactly`, `ListOrderHiddenExactly`), and the one used, `localeCompare`, ties canonically equivalent
  ones: a composed and a decomposed "é". Two reports with both as keys can then have two keys for one meaning; never one key
  for two, whatever the comparison (`OneKeyOneMeaning`).

## Model

| member | source | states |
|---|---|---|
| Evidence.EvaluateEvidence | packages/core/src/evidence.ts:189-371 | the evaluation, with its filter, sort and scans, is the reference meaning of the ledger: that of the set of its admissible entries |
| Evidence.Replay | packages/core/src/evidence.ts:256-371 | over sorted entries the replay gives the verdict of their multiset, repeated ids and missing reports refused |
| Evidence.FindRepeat | packages/core/src/evidence.ts:258-264 | reports a repeat exactly if two admissible entries share an id |
| Evidence.FindFirstReport | packages/core/src/evidence.ts:266-271 | finds the report that stands first in ledger order, if there is one |
| Evidence.CollectConfirmers | packages/core/src/evidence.ts:273-281 | collects exactly the distinct keys that confirm, other than the first report's own |
| Evidence.Scan | packages/core/src/evidence.ts:273-303 | the pass ends with the last positive, the latest retraction, the peer negations and the latest external resolution of the whole set |
| Evidence.SummaryReached | packages/core/src/evidence.ts:273-321 | what the pass holds is the summary the reference takes of the set |
| EvidenceLaws.ReplayStability | packages/core/src/evidence.ts:247-371 | ledgers with the same admissible entries, in whatever order, evaluate alike; entries after `now` change nothing |
| EvidenceVerdict.VerdictMeans | packages/core/src/evidence.ts:305-371 | which entries make which verdict: resolved exactly if the latest external entry confirms and its time is not up, negated exactly if it rejects, or without one if the reporter took it back or the peers' quorum spoke after the last positive, corroborated and self-reported by the number of confirming keys, expired otherwise; with the score, the adjustment and the routing flag of each, in numbers of the policy |
| EvidenceVerdict.ExpiryMeans | packages/core/src/evidence.ts:305-371 | the instant a verdict ends at, from the times of the entries that decide it, in whole milliseconds |
| EvidenceVerdict.ResolvedOutscores | packages/core/src/evidence.ts:352-367 | at one lower bound a resolved verdict scores no lower than any live crowd verdict whose score before adjustment is under the cap |
| EvidenceVerdict.ErrorsMean | packages/core/src/evidence.ts:189-271 | which error an evaluation ends in: for a lower bound or policy out of range, in the order they are checked, then for a repeated id, then for want of a report, none being counted where `now` cannot be read |
| EvidenceVerdict.UnwritableMeans | packages/core/src/evidence.ts:343-371 | and otherwise only for an end no date can hold |
| EvidenceLaws.LaterReplay | packages/core/src/evidence.ts:247-371 | evaluated again later with nothing filed between, the expiry is the same and the verdict either the same or gone from a live state to expired |
| EvidenceLaws.ConfirmationsRaise | packages/core/src/evidence.ts:109-115 | another confirming key raises the unclamped score exactly if the base score stands below the cap |
| EvidenceLaws.NegationsErode | packages/core/src/evidence.ts:109-115 | where negations weigh, another negating key lowers the unclamped score exactly if the base is below the cap, and raises it exactly if the base is above |
| EvidenceLaws.CeilingExactly | packages/core/src/evidence.ts:109-115 | no number of peers reaches the cap before adjustment, exactly if the base score is below it or the cap above every score |
| EvidenceLaws.AdjustedCeilingExactly | packages/core/src/evidence.ts:109-115 | with any reporter's adjustment the score stays below the cap for all counts exactly under a condition on policy and lower bound; for a base below a cap of 1 at most, exactly if the adjustment is not positive |
| EvidenceCeiling.PeerCeilingExactly | packages/core/src/evidence.ts:323-371 | over all ledgers of peers and every policy the code accepts, base at or above the cap included: live scores stay below the cap exactly if nothing can live or a condition on policy and lower bound holds; without an adjustment, exactly if the base is below the cap or the cap above every score |
| EvidenceCeiling.CountsStayBelowExactly | packages/core/src/evidence.ts:109-115 | the same over the counts a live observation can have, which negations bound by the quorum or the confirmations |
| EvidenceCeiling.LiveLedger | packages/core/src/evidence.ts:311-367 | a live ledger of peers has the score of such counts, and its policy leaves time to live |
| EvidenceCeiling.CrowdScore | packages/core/src/evidence.ts:273-367 | and all such counts are had: a report, its confirmations and negations, just filed, are live with exactly their score |
| EvidenceLaws.PeerCeiling | packages/core/src/evidence.ts:323-371 | over every ledger without an external entry nothing is routing-eligible, and a live score stays below the cap whenever policy and lower bound hold the ceiling |
| EvidenceCeiling.AdjustmentCanPassTheCap | packages/core/src/evidence.ts:352-367 | one such ledger and policy, in numbers: a trusted reporter takes a single report above the cap |
| EvidenceLaws.KeysBoundCounts | packages/core/src/evidence.ts:273-335 | whatever a ledger files, a live crowd score is that of counts no higher than its peer keys, and fewer keys than the quorum never negate |
| EvidenceLaws.RefilingCountsOnce | packages/core/src/evidence.ts:273-371 | a ledger in which a key says once more that the thing is there (a report or a confirmation) or that it is gone evaluates to the same state, score and flag, but for what has expired |
| EvidenceLaws.ShrunkBetween | packages/core/src/evidence.ts:127-142 | a shrunk expiry lies between the earlier of expiry and last negation, and the expiry |
| EvidenceLaws.CrowdDeadline | packages/core/src/evidence.ts:305-346 | a crowd deadline lies between the last negation and the decay expiry, and is the decay expiry if nobody negated |
| EvidenceLaws.ExpiryBounds | packages/core/src/evidence.ts:305-350 | a negated ledger filed by `t` has ended by `t`; any other ends by `t` plus the time to live, of whatever sign, and by the end of its first report's lifetime |
| EvidenceLedger.EvidenceRowsToLedger | packages/contrib-core/src/evidence-ledger.ts:79-123 | every row's entry in order, with its id, key, kind, time and outcome (an acceptance confirms, a rejection rejects, a match says what it states or else confirms), or the first row of another kind or outcome fails the whole |
| EvidenceLedger.EntryMeans | packages/contrib-core/src/evidence-ledger.ts:24-123 | what a row of each kind maps to, and which rows map to nothing |
| EvidenceLedger.NeverAfterReceipt | packages/contrib-core/src/evidence-ledger.ts:48-57 | a reporter's own time is never later than the server's receipt, and only a report has one |
| EvidenceLedger.ExpiryFromReceipt | packages/contrib-core/src/evidence-ledger.ts:79-123 | end to end, whatever reporters state: a negated record has ended by the latest receipt; any other ends by that plus the time to live, and by a report's receipt plus its lifetime |
| Reliability.ReliabilityLowerBound | packages/core/src/evidence.ts:489-506 | for every monotone distribution the bisection ends within half its tolerance of the quantile |
| Grouping.GroupsOf | packages/charging/src/colocate.ts:77-107 | the loop over the grid gives the groups first fit gives among those the search window finds |
| Grouping.Near | packages/charging/src/colocate.ts:87-92 | the cells of the window list exactly the groups collected |
| Grouping.Earliest | packages/charging/src/colocate.ts:94-96 | the lowest group found whose every member stands with the location |
| Grouping.GridRefinesFirstFit | packages/charging/src/colocate.ts:64-107 | if standing together implies being in the window, the grid gives exactly plain first fit |
| Grouping.GridExactly | packages/charging/src/colocate.ts:64-107 | over all lists in id order, the grid is first fit if and only if the window covers every pair that stands together |
| Grouping.AntimeridianSplits | packages/charging/src/colocate.ts:66-92 | two locations metres apart across the 180th meridian are never put together |
| Grouping.DegreesInWindow | packages/charging/src/colocate.ts:66-92 | within 15 m of latitude and 15 m, taken at the equator, for each column of the span the window does cover |
| Grouping.CellsAreSmall | packages/charging/src/colocate.ts:64-86 | and two locations in one cell are less than 15 m apart in latitude, and by as many degrees in longitude |
| Grouping.GroupsPartition | packages/charging/src/colocate.ts:77-107 | every location is in exactly one group, as often as it was listed |
| Grouping.GroupsStandTogether | packages/charging/src/colocate.ts:77-107 | any two locations of a group stand together, earlier to later |
| SiteComponents.BayComponents | packages/charging/src/site.ts:574-592 | the loop gives the bays in order, blank and repeated keys left out |
| SiteComponents.AddConnectors | packages/charging/src/site.ts:535-568 | below a charge point, each connector with an id that is not blank and a key not seen, in order |
| SiteComponents.EvseComponents | packages/charging/src/site.ts:454-571 | the loops give each charge point and below it its connectors, with what was seen left out |
| SiteComponents.SiteDraftComponents | packages/charging/src/site.ts:608-617 | a site's components are its charge points and connectors over its own bays, then the bays |
| SiteComponents.EvseKeyTwice | packages/charging/src/site.ts:338-342 | a key in the model's form stays as it is, and holds neither `/` nor `#` |
| SiteComponents.SiteIsSound | packages/charging/src/site.ts:454-617 | whatever a source states, keys are distinct, every connector's charge point is there under the front of its key, and every bay named is listed |
| SiteComponents.FirstStatedIsKept | packages/charging/src/site.ts:454-466 | the charge points on a site are exactly the first stated under each key that is neither blank nor a bay's |
| SiteStated.SiteAsStated | packages/charging/src/site.ts:454-617 | everything on a site is a charge point, connector or bay stated, with the kind, key, parent, eMI3 id, lifecycle and bays stated of it, keys written out from the texts given; every bay named and every charge point is there under its key |
| SiteStated.PlugsKept | packages/charging/src/site.ts:535-568 | a charge point kept has every connector it lists on the site, under its key |
| SiteStated.FormExactly | packages/charging/src/site.ts:333-342 | a key is a text without the spaces at its ends, with `_` for the separators |
| SiteComponents.StatedSitesMergeSoundly | packages/charging/src/colocate.ts:171-217 | from what sources state to the merged site: whatever the locations state, keys are distinct exactly if each move's key is new, and then all hangs together and is found under the key it took as its location joined |
| Components.MergeComponents | packages/charging/src/colocate.ts:171-217 | the merge loop, with its index and renames, computes the member-by-member merge |
| Components.FindMoves | packages/charging/src/colocate.ts:178-186 | the keys to move and the charge points to drop, as the components taken so far make them |
| Components.Join | packages/charging/src/colocate.ts:192-213 | the components that join, and the index with them |
| ComponentLaws.FreshExactly | packages/charging/src/colocate.ts:171-217 | one location joining leaves keys distinct exactly if the keys its moves make are new to the site and the location |
| ComponentLaws.JoinKeepsSound | packages/charging/src/colocate.ts:171-217 | then the site's components stay sound, and everything held and renamed before stays |
| ComponentLaws.MergeKeepsSound | packages/charging/src/colocate.ts:171-217 | for every group of sound locations: keys distinct exactly if every move's key is new; then every parent and named bay is there and each charge point is found under the key it took as its location joined; of locations that share a draft id the last one's renames are kept |
| ComponentLaws.RenamesSurvive | packages/charging/src/colocate.ts:214-214 | a draft's renames are those of the last location with its id |
| ComponentLaws.SharedDraftMisplaces | packages/charging/src/colocate.ts:187-214 | two sound locations that share a draft id, where the renames kept take the first's charge point to the second's |
| ComponentLaws.NoClashStaysClear | packages/charging/src/colocate.ts:161-186 | enough to see before merging: no key the merge could make is used or made by another |
| ComponentLaws.OnlySamePointsMeet | packages/charging/src/colocate.ts:178-186 | two locations' charge points go to one key only if both carry the same eMI3 id, draft ids shared or not |
| ComponentLaws.ConnectorFollows | packages/charging/src/colocate.ts:171-217 | in the finished group a connector stands below its charge point, wherever the renames took that, exactly if the charge point was kept or is one already held that lists it; in the latter case it keeps its key |
| ComponentLaws.KeptAsStated | packages/charging/src/colocate.ts:171-217 | in the finished group a component kept from a location has its kind, eMI3 id, renamed key and parent, bays each under its key; a charge point its own lifecycle if it states one, else its location's if two locations differ in theirs, and none if all agree; connectors and bays their own |
| ComponentLaws.ConnectorLands | packages/charging/src/colocate.ts:187-213 | in one join a connector goes with its charge point, or keeps its key below one already held |
| ComponentLaws.StaysToTheEnd | packages/charging/src/colocate.ts:187-213 | later locations take nothing from the site and add nothing below a charge point it holds |
| ComponentLaws.HeldPointLosesConnector | packages/charging/src/colocate.ts:187-213 | two sound locations, one charge point by its eMI3 id: the connector only the second lists is nowhere on the site |
| ComponentLaws.TopLands | packages/charging/src/colocate.ts:187-213 | a charge point or bay is on the site under the key the renames give |
| ComponentLaws.ClashRepeatsAKey | packages/charging/src/colocate.ts:161-186 | a location naming a charge point as the merge would name another's makes keys repeat |
| StatusPath.RecordMoves | packages/charging/src/colocate.ts:338-360 | the maps the merge keeps for moving readings are those of its groups |
| StatusPath.MoveReadings | packages/charging/src/colocate.ts:301-314 | a full parse's readings, moved, each id once, are the gathered slow placements |
| StatusPath.StatusReader.Read | packages/charging/src/status.ts:47-80 | one status is added to the reader's observations as the fast placement says, a moved id once, a refused one counted; the reading added says the update's status, property, station, upstream and instant, and where it is not moved names the station's own site |
| StatusPath.DraftReports | packages/charging/src/site.ts:745-828 | the reading of a status has the property of a charge point exactly if no connector is named, and the stated instant unless it is later than the fetch |
| StatusPath.SlowReports | packages/charging/src/colocate.ts:301-314 | so has the reading a full parse places |
| StatusPath.MoveChangesPlace | packages/charging/src/colocate.ts:300-314 | a move changes which feature and component a reading is of, and nothing else of it |
| StatusPath.StatusReader.Reject | packages/charging/src/status.ts:47-80 | a rejected status is counted and nothing else changes |
| StatusPath.OneUpdateAgrees | packages/charging/src/colocate.ts:338-394 | one status is placed alike on both paths exactly if its station was merged where its site id was; and the readings are one exactly then, or where the move leads nowhere |
| StatusPath.FastPathAgrees | packages/charging/src/colocate.ts:338-401 | for the same statuses in the same order the two paths place every reading alike exactly if every station named was merged where its site id was; they yield the same readings exactly if each status of any other station is moved to where it is, and no other to its id |
| StatusPath.GatherExactly | packages/charging/src/colocate.ts:374-390 | two lists of placements that differ only where the second moves a reading gather the same readings exactly if those moves change nothing and meet no other of their id |
| StatusPath.MovedReadingLands | packages/charging/src/colocate.ts:338-390 | a reading on a merged location goes to its group's site and names there what its component became: a charge point of the same eMI3 id, or a connector below its charge point, there exactly if that was kept or the one held lists it |
| StatusPath.ReadingFollowsLast | packages/charging/src/colocate.ts:338-390 | of locations and groups that share a draft id, the last one's renames and site move its readings |
| StatusPath.SomeLastWord | packages/charging/src/colocate.ts:338-360 | and on every merged draft some location has that last word |
| StatusPath.ReplaceDrafts | packages/charging/src/colocate.ts:345-376 | the loops give what each merged draft is replaced by: a site, or nothing |
| StatusPath.SiteStandsExactly | packages/charging/src/colocate.ts:345-376 | a group's merged site stands in place of its lead's draft exactly if no later location, there or in a later group, shares the lead's draft id |
| StatusPath.PlainIdsAreSettled | packages/charging/src/records.ts:33-35 | station ids without line breaks are always so |
| RecordIds.SiteIdIsRecordId | packages/charging/src/records.ts:33-35 | a site's id reads back as a feature of its feed, whatever characters the station's id has |
| RecordIds.OfferIdIsRecordId | packages/charging/src/tariff.ts:28-34 | and an offer's as an offer of its feed |
| RecordIds.LocalIdWrites | packages/model/src/kernel/identity.ts:33-39 | a local id is the source's own with each line break percent-encoded from its UTF-8 bytes, and nothing else changed |
| RecordIds.ReducedKeeps | packages/charging/src/tariff.ts:33-33 | which characters of an id its offer's key keeps |
| StatusPath.SharedSiteIdDiffers | packages/charging/src/colocate.ts:358-394 | stations `a` with a line break and `a%0A` share a site id: with only the second merged, a status on the first lands on two sites |
| Publication.Host.Write | scripts/publish-product-release.py:244-311 | a write made where it may be lands confirmed, lands unconfirmed or does not land, and the trace stays one of guarded writes |
| Publication.Host.Manifest | scripts/publish-product-release.py:323-341 | the digest a tag stands at, or none, or the run stops |
| Publication.Host.Promote | scripts/publish-product-release.py:343-368 | the version tag is there afterwards at the expected image, never overwritten |
| Publication.Host.Preview | scripts/publish-product-release.py:370-390 | the preview tag is at the expected image afterwards, others' untouched |
| Publication.Host.InspectRelease | scripts/publish-product-release.py:407-437 | a release found is the candidate's with only fitting assets, else the run stops |
| Publication.Host.AssetSet | scripts/publish-product-release.py:416-437 | the names of the assets there, none unknown, repeated or different, and none missing if all are asked for |
| Publication.Host.Inspect | scripts/publish-product-release.py:439-461 | the first write comes only after nothing published contradicts the candidate |
| Publication.Host.PromoteAll | scripts/publish-product-release.py:462-469 | every role's image is in place, tag and release untouched |
| Publication.Host.CreateMissing | scripts/publish-product-release.py:470-490 | tag and draft release exist afterwards, created only if not found |
| Publication.Host.Prepare | scripts/publish-product-release.py:439-490 | images, tag and release are in place, and the release held is the one there |
| Publication.Host.Fill | scripts/publish-product-release.py:491-497 | every file missing at the start is uploaded once, and the asset set is complete |
| Publication.Host.MakePublic | scripts/publish-product-release.py:499-526 | afterwards the release is public, immutable and complete over its tag and images |
| Publication.Host.PointPreviews | scripts/publish-product-release.py:528-532 | from a released state every role's preview is pointed |
| Publication.Host.Publish | scripts/publish-product-release.py:393-533 | a run ends well only with the tag at the candidate's commit, its public release of just its files, and every version and preview tag at its image; where anything published differs it stops before any write; uninterrupted it ends well exactly if nothing differs and immutability is on or already given; started in the final state it writes nothing |
| Publication.ConflictsExactly | scripts/publish-product-release.py:407-461 | what stops a run before any write, part by part: a tag at any other ref, a release of another identity, an asset foreign, repeated, different or half-uploaded, an image at another digest |
| Publication.CanFinishExactly | scripts/publish-product-release.py:439-526 | a run can be finished exactly if nothing differs and the release is immutable already or the owner makes it so |
| Publication.FinalIsPublished | scripts/publish-product-release.py:499-532 | what stands at the end: tag, release fields, one uploaded asset of its size and digest for each file, and each role's version and preview image |
| Publication.StepKeeps | scripts/publish-product-release.py:439-533 | no write makes the candidate conflict with what is published, changes whether it can be finished, or is made in the final state |
| Publication.OneWrite | scripts/publish-product-release.py:343-533 | one write overwrites no tag, image or public release, and touches a preview only of a full release |
| Publication.Onward | scripts/publish-product-release.py:393-533 | over any number of interrupted runs nothing published is overwritten, a full release stays one, and whether the candidate can be finished does not change |
| Publication.PreviewsFollowRelease | scripts/publish-product-release.py:370-533 | in every state reached, a role's preview is its old image, or the expected one of a public, immutable, complete release with its tag and every image in place |
| Publication.FreshCanFinish | scripts/publish-product-release.py:499-526 | a candidate with nothing published can be finished exactly if releases are set to be immutable |
| Publication.UploadedFits | scripts/publish-product-release.py:416-437 | an upload of a missing file adds its name and leaves the assets fitting |
| Codec.FindFusionRecordIds | packages/core/src/observation-codec.ts:50-98 | finds the lineage of a fused record exactly if its three copies agree |
| Codec.FusionAddsUp | packages/core/src/observation-codec.ts:104-130 | the lineage stripped from three places and put back by position gives the provenance it was taken from |
| Codec.RoundTrip | packages/core/src/observation-codec.ts:104-232 | feed, crowd or fused, a record is rebuilt from its template and reading |
| Codec.RoundTripExactly | packages/core/src/observation-codec.ts:104-232 | and exactly the records whose id is no bare hash and that do not themselves use the key of the lineage |
| CodecHalves.TemplateHolds | packages/core/src/observation-codec.ts:104-130 | which fields a template holds: ten named ones as they are, the namespace of the id, and the shared provenance |
| CodecHalves.CreditHolds | packages/core/src/observation-codec.ts:28-48 | that is the provenance without raw reference, source time and version, a crowd record's also without reporter and record id, a fused one's without the ids its lineage tells |
| CodecHalves.SourcesAreStripped | packages/core/src/observation-codec.ts:112-117 | in a fused record's template each source stands in its place without its record id |
| CodecHalves.ReadingHolds | packages/core/src/observation-codec.ts:157-184 | a reading holds every other field as it is, but for a regular id, kept by its hash alone, what varies of the provenance, and the lineage |
| CodecHalves.OwnCreditHolds | packages/core/src/observation-codec.ts:161-169 | what varies, part by part |
| CodecHalves.SameTemplateExactly | packages/core/src/observation-codec.ts:104-130 | two readings that are not fused share a template exactly if they agree on those ten fields, the namespace and the provenance that does not vary |
| CodecHalves.FusedExactly | packages/core/src/observation-codec.ts:50-98 | the lineage found is the one told by the id, the sources and the references alike, and none is found otherwise |
| CodecHalves.RegularExactly | packages/core/src/observation-codec.ts:170-180 | an id is kept compact exactly if it is made of a namespace and a hash, with the canonical id of the two |
| CodecHalves.ParsedExactly | packages/model/src/kernel/identity.ts:7-46 | the parts of a record id are those it is written from, and no others |
| Codec.AnyEqualTemplateDecodes | packages/core/src/observation-codec.ts:104-232 | a reading decodes with any equal template, and records that share template and reading are one |
| Codec.BareHashDoesNotReturn | packages/core/src/observation-codec.ts:186-194 | a record whose id is a bare hash is refused when read back, for want of a namespace |
| History.ResultReturnsExactly | packages/core/src/observation-codec.ts:262-324 | columns give a result back exactly if it states the fields its type's registry entry would fill in |
| HistoryLaws.ProvenanceReturnsExactly | packages/core/src/observation-codec.ts:335-391 | provenance is rebuilt from series and row exactly unless the payload's position could not be kept |
| HistoryLaws.RecordReturnsExactly | packages/core/src/observation-codec.ts:335-472 | a history row gives the record back exactly if it is no fused one, its result states its fields and its payload's position could be kept |
| HistoryLaws.FusedLosesItsRecordId | packages/core/src/observation-codec.ts:104-115 | a fused record's row is read back without its record id, which neither template nor row holds |
| HistoryLaws.RowOwnsItsCredit | packages/core/src/observation-codec.ts:403-472 | whatever series, registry and payload hashes one row is rebuilt with, attribution, upstream and merged sources are the same |
| HistoryRows.ColumnsHold | packages/core/src/observation-codec.ts:335-391 | each column of a row is the reading's field of that name, a missing issue time standing before all |
| HistoryRows.PositionHeld | packages/core/src/observation-codec.ts:341-389 | a row holds where its payload first stands among its poll's, with the poll, exactly if it stands there and the poll is known |
| HistoryRows.WholeExactly | packages/core/src/observation-codec.ts:355-360 | a payload reference is kept whole exactly if it stands nowhere among the poll's or has a part or pointer |
| HistoryRows.RowCreditHolds | packages/core/src/observation-codec.ts:345-363 | which parts of the provenance a row keeps of its own |
| HistoryRows.ExtraHolds | packages/core/src/observation-codec.ts:364-372 | and which other fields beside its columns |
| HistoryRows.CreditRead | packages/core/src/observation-codec.ts:420-447 | whatever the row, attribution read back is the receipt's, else the row's, else an unknown publisher's, with no receipt id and no empty upstream |
| HistoryRows.SealedSays | packages/core/src/observation-codec.ts:466-470 | a record read back has the id derived from its contents, the canonical id of that id's local part, and the hash of all else |
| HistoryRows.UnsealedExactly | packages/core/src/observation-codec.ts:466-468 | and none exactly if what is derived is no record id |
| Tariff.ElementsOf | packages/charging/src/tariff.ts:147-182 | the loop gives the offered elements, or none as soon as a priced one has restrictions that cannot be read |
| TariffOffer.OfferStates | packages/charging/src/tariff.ts:93-182 | an offer is made exactly if every element that prices something has readable restrictions, and then states just those elements in order, each with its priced components and restrictions |
| TariffOffer.ComponentIsOffer | packages/charging/src/tariff.ts:151-172 | a component keeps its dimension, price, the unit of its dimension, its VAT if a percentage and its step if a whole number above 0 |
| TariffOffer.LimitsExactly | packages/charging/src/tariff.ts:93-145 | restrictions are read exactly if each is of its form, and each then stands in its own field: days once each, in order, by their short names, a maximum of 0 left out |
| TariffLaws.PricingIsAmended | packages/charging/src/tariff.ts:93-182 | every session and dimension is priced by the component first-match lookup finds in the published list, maxima of 0 and prices that are none passed over |
| TariffLaws.PricingExactly | packages/charging/src/tariff.ts:93-182 | the element and component that price a session as read are those as published exactly if no maximum of 0 keeps the element from the session and the published component has a price |
| TariffLaws.PricingIsPreserved | packages/charging/src/tariff.ts:93-182 | the offer prices every session with the component the tariff as read does, and so as published exactly under that condition |
| TariffLaws.ReadRestrictions | packages/charging/src/tariff.ts:93-145 | restrictions that can be read match the same sessions as those published |
| TariffLaws.UnreadableExactly | packages/charging/src/tariff.ts:147-187 | a tariff is unreadable exactly if an element with a priced component has restrictions that cannot be read |
| TariffLaws.ZeroMaximumPricesMore | packages/charging/src/tariff.ts:98-112 | a tariff where it fails: its maximum of 0 matches nothing as published and everything as read |
| OfferKeys.FindKey | packages/charging/src/tariff.ts:41-53 | the search for a key ends, at the first candidate not taken |
| OfferKeys.TariffKeys | packages/charging/src/tariff.ts:41-53 | each id, where it first stands, takes the first key still free |
| OfferKeys.KeysNeverCollide | packages/charging/src/tariff.ts:41-53 | distinct ids have distinct keys, each of which the reduction leaves as it is |
| OfferKeys.OffersNeverCollide | packages/charging/src/tariff.ts:28-38 | so the offers of one site's distinct tariffs have distinct ids |
| OfferKeys.AssignmentIsUnique | packages/charging/src/tariff.ts:41-53 | the list and its order determine every key |
| Basics.DecimalIsInjective | packages/charging/src/tariff.ts:41-53 | different counters are written differently |
| Base64Url.ToBase64Url | packages/contrib-core/src/base64url.ts:14-26 | the loop writes the groups' encoding |
| Base64Url.FromBase64Url | packages/contrib-core/src/base64url.ts:34-63 | the loop over an output buffer decodes, or gives the fault met first |
| Base64Url.DecodeReadsEncoded | packages/contrib-core/src/base64url.ts:14-63 | every byte string is read back from its text |
| Base64Url.ReadIsEncoded | packages/contrib-core/src/base64url.ts:14-63 | every accepted text is the text of the bytes read |
| Base64Url.AcceptedExactly | packages/contrib-core/src/base64url.ts:14-63 | a text is read as some bytes if and only if it is their one text |
| Base64Url.AlphabetExactly | packages/contrib-core/src/base64url.ts:11-13 | the characters are those of RFC 4648, in their order |
| Signature.BytesToNumber | packages/contrib-core/src/lowS.ts:23-27 | the big-endian number of the bytes |
| Signature.WriteNumberTo32 | packages/contrib-core/src/lowS.ts:29-35 | in place, the 32 low bytes of the number at the offset and nothing else |
| Signature.NormalizeLowS | packages/contrib-core/src/lowS.ts:44-53 | a fresh low-S form, or the very input if it is low already; other lengths are refused and the input is untouched |
| Signature.IdempotentExactly | packages/contrib-core/src/lowS.ts:44-53 | normalizing twice is normalizing once if and only if `s` is no larger than the group order |
| Signature.DecodeRawSignature | packages/contrib-core/src/verifyCommon.ts:93-107 | the bytes of an accepted text, or the first fault: text, DER, length, `r`, zero or high `s` |
| Signature.SignatureAcceptedExactly | packages/contrib-core/src/verifyCommon.ts:93-107 | a text is accepted exactly if it is the text of a canonical signature |
| Signature.NormalizedIsAccepted | packages/contrib-core/src/lowS.ts:44-76 | for `r` and `s` in range, the normalized signature is accepted, with the same `r` and with `s` or its complement |
| Signature.OneTextPerSignature | packages/contrib-core/src/lowS.ts:55-76 | of a signature and its twin exactly one text is accepted |
| CanonicalJson.OrderedExactly | packages/core/src/situation-compatibility.ts:12-23 | two values are ordered alike if and only if they say the same, whatever order their objects list keys in, at every level |
| CanonicalJson.UnorderedExactly | packages/core/src/situation-compatibility.ts:24-29 | two lists come out of the unordered form alike if and only if they hold the same, however often each |
| JsonText.TextTellsApart | packages/core/src/situation-compatibility.ts:24-24 | the JSON text of a value, escapes and nesting included, is that of no other, if numbers are told from their numerals |
| JsonText.EscapeReads | packages/core/src/situation-compatibility.ts:24-24 | what is written for a character stands for it, in as few characters as may be |
| JsonText.SomeWayToWriteNumbers | packages/core/src/situation-compatibility.ts:24-24 | which some way to write numbers does |
| CanonicalJson.SomeLanguage | packages/core/src/situation-compatibility.ts:12-29 | there is a language that meets all the laws of keys ask of one, and a way to list every value's keys |
| CanonicalJson.KeyExactly | packages/core/src/situation-compatibility.ts:24-24 | the key's text is one exactly for equal values |
| CanonicalJson.OneKeyOneValue | packages/core/src/situation-compatibility.ts:24-24 | and of one value only, whatever the comparison |
| CanonicalJson.UnorderedKeeps | packages/core/src/situation-compatibility.ts:24-29 | whatever the comparison, lists that come out alike hold the same |
| CanonicalJson.OrderedSays | packages/core/src/situation-compatibility.ts:12-23 | whatever the comparison, ordering changes nothing that a value says |
| CanonicalJson.TiesShowTheOrder | packages/core/src/situation-compatibility.ts:15-21 | where any comparison ties any two keys, the order they were put in shows |
| CanonicalJson.KeyOrderHiddenExactly | packages/core/src/situation-compatibility.ts:12-23 | for every comparison that orders at all, values that say the same are ordered alike exactly if it ties no two strings |
| CanonicalJson.ListOrderHiddenExactly | packages/core/src/situation-compatibility.ts:24-29 | and the order of a list without order is hidden exactly if it ties no two values' key texts |
| Situation.ReadPhases | packages/core/src/situation-compatibility.ts:154-166 | the loop over phases gives them all and counts their effects, or ends at the first that is not known |
| Situation.SituationCompatibilityKey | packages/core/src/situation-compatibility.ts:137-193 | the early ends and the count of typed effects give the key of the report's parts |
| SituationLaws.KeyMeansExactly | packages/core/src/situation-compatibility.ts:73-193 | two reports have one key if and only if they mean the same: equal fields, and equal bags of roads, effects, phases and phase members |
| SituationLaws.OneKeyOneMeaning | packages/core/src/situation-compatibility.ts:73-193 | whatever the comparison, two reports have one key only if they mean the same |
| SituationRecords.OneKeyOneRecord | packages/core/src/situation-compatibility.ts:73-193 | on the records themselves: whatever the comparison, two with one key say the same in every field but those of identity, credit and text; and with one that ties no two strings, those that do have one key |
| SituationRecords.RecordsSaySame | packages/core/src/situation-compatibility.ts:73-193 | two reports mean the same exactly if their records say the same, field by field |
| SituationRecords.SameSaidAgrees | packages/core/src/situation-compatibility.ts:168-193 | and such records agree on every field outside the names left out of record, location, details and freshness |
| SituationRecords.SameSaidKeeps | packages/core/src/situation-compatibility.ts:102-166 | and hold the same effects, phases and effects of phases, outside the names left out of those |
| SituationRecords.KeyedExactly | packages/core/src/situation-compatibility.ts:29-193 | a report has a key exactly if it tells enough, condition by condition: who reports it, where exactly, when, and at least one effect told in full, with every effect and phase |
| SituationLaws.CreditIsIgnored | packages/core/src/situation-compatibility.ts:168-185 | records that differ only in identity, credit and text have one key |
| SituationOrder.OrderIsIgnored | packages/core/src/situation-compatibility.ts:73-193 | records that differ only in the order of roads, effects, phases or phase members have one key, or neither has any |
| SituationOrder.RoadOrderIsIgnored | packages/core/src/situation-compatibility.ts:81-92 | the order of the location's roads does not show, though effects go by them |
| SituationOrder.EffectOrderIsIgnored | packages/core/src/situation-compatibility.ts:126-133 | the order effects are listed in does not show |
| SituationOrder.PhaseOrderIsIgnored | packages/core/src/situation-compatibility.ts:154-165 | nor the order of phases |
| SituationOrder.MemberOrderIsIgnored | packages/core/src/situation-compatibility.ts:160-163 | nor the order of one phase's effects |
| SituationLaws.EffectExactly | packages/core/src/situation-compatibility.ts:102-124 | an effect's value is one exactly for one meaning of effect, place, direction and time; of one meaning only whatever the comparison |
| SituationLaws.PlaceExactly | packages/core/src/situation-compatibility.ts:73-100 | a location's value is one exactly for equal fields and an equal bag of roads; of one meaning only whatever the comparison |
| ZonedTime.FindsTheTime | packages/border/src/time.ts:35-49 | with one change near, the instant shows the wall time if and only if some instant does |
| ZonedTime.FirstOfTwoExactly | packages/border/src/time.ts:41-49 | in a repeated hour it is the first of the two exactly if the change comes after the wall time read as UTC |
| ZonedTime.EastAndWest | packages/border/src/time.ts:41-49 | so the first where a zone is never ahead of UTC, and the second where it is not behind |
| ZonedTime.EuropeTakesTheSecond | packages/border/src/time.ts:41-49 | 02:30 on 26 October 2025 in Central Europe names the second |
| OpeningHours.ByDay | packages/charging/src/hours.ts:35-45 | each day's distinct spans in the order first given, readable periods only |
| OpeningHours.DayList | packages/charging/src/hours.ts:13-28 | the last run grown in place gives the text of the days' runs |
| OpeningHours.OsmOpeningHours | packages/charging/src/hours.ts:35-55 | the grouping and writing loops give the text of the periods' week |
| OpeningHoursLaws.RunsAreMaximal | packages/charging/src/hours.ts:13-28 | runs cover exactly the days and no two of them could be one |
| OpeningHoursLaws.DaysReturn | packages/charging/src/hours.ts:13-28 | the days' text names exactly those days |
| OpeningHoursLaws.HoursReturn | packages/charging/src/hours.ts:46-55 | the hours' text lists exactly those spans |
| OpeningHoursLaws.GroupsFitWeek | packages/charging/src/hours.ts:46-55 | each day with hours stands in the one group of its hours |
| OpeningHoursLaws.OpeningTextMeans | packages/charging/src/hours.ts:35-55 | nothing is written exactly if no day has hours, `24/7` only for a week open all day; any other text, read back rule by rule, gives each day exactly the spans of its readable periods, in one rule at most |
| OpeningHoursLaws.TextMeansPeriods | packages/charging/src/hours.ts:46-55 | the rules of a week with hours give each day exactly its spans, and name no day twice |
| OpeningHoursLaws.AlwaysOpenExactly | packages/charging/src/hours.ts:35-45 | `24/7` is written exactly for a week each of whose days has one span of the whole day, to 24:00 or 23:59 |
| OpeningHoursOrder.TextExactly | packages/charging/src/hours.ts:35-55 | two lists of periods have one text exactly if each day has the same hours in both, in whatever order and however often they are listed, or both are open all day |
| OpeningHoursOrder.GivenExactly | packages/charging/src/hours.ts:11-45 | a day's hours are those of its periods from one clock time up to 24:59 to another |
| OpeningHoursOrder.HoursAscend | packages/charging/src/hours.ts:46-55 | a day's hours are written in the order of their texts, each once |

## Left out

- Replay: `now` and entry times are whole milliseconds or unreadable; checks for finite numbers vanish, as reals have no infinities.
- EvidenceCeiling.PeerCeilingExactly: policies whose shorter lifetime is one no date can hold (beyond some 270,000 years) are not covered.
- Reliability: the beta distribution itself (`logGamma`, continued fraction) is an abstract distribution function; `updateReliability` and `shrinkToward` are single expressions.
- Grouping: haversine distance, the span's cosine and the collation of station ids are parameters; the merge of names, access, addresses and other fields member by member is not modelled, nor the positions of bays.
- SiteComponents: only what keys and soundness need of a component (key, parent, kind, eMI3 id, lifecycle, bays named); the eMI3 check and the collations are parameters.
- ComponentLaws.NoClashStaysClear: one direction only; the exact condition is in `MergeKeepsSound`.
- StatusPath: the index is a map to values and its subjects are rewritten as values, so that two keys may share a subject object is not modelled.
- Publication: one run at a time; each write is atomic; a draft is found by its tag, as the code takes it to be; evidence, the fence and the clock are calls that answer or stop the run; asset uploads have no half-done state; HTTP, `skopeo`, files and receipts are outside.
- Codec: objects are maps over named fields, absent standing for undefined, so key order within a stored row is not kept; canonical identifiers and hashes are abstract functions.
- History: the columns `issued_at` and `fetch_id` are written and not read back; key order within a row is not kept.
- Tariff: money's text and the wider tariff fields (tax, energy mix, alternative texts) are not modelled; whether a time or date lies within a session's is a parameter of the session.
- OfferKeys: the character class of the reduction is modelled for characters, not for pairs of surrogates.
- Base64Url: shifts and masks are written as division and remainder; strings are sequences of characters, and a text that is not a string cannot be passed.
- Signature: elliptic-curve verification itself, canonical JSON of the signed payload and key thumbprints.
- Situation: records are as typed (roads are objects, a point has coordinates), with no undefined values in them; a record with a numeric `length` field in place of a list is not a case; which numeral a number has is a parameter, strings hold no lone surrogates, and the laws of the meaning key take a string comparison that ties no two strings (what becomes of them otherwise is `KeyOrderHiddenExactly`).
- ZonedTime: the zone's offsets are any function with at most one change within reach; formatting through the zone database is outside.
- OpeningHours: `DayList` is called with ascending days, as its only caller does; an unreadable day number is none.
- Feed schemas, parsers' field mappings, draft building, SQL reads and report printing: wide, with no invariant of their own.
