# Load board verification model

A freight load board: brokers post loads, carriers bid, a broker accepts a bid, and the carrier
confirms or declines. Loads live in a mutable list, each with a mutable bid list that `copyWith`
shares between the old and the new post, and every step is written through to a table whose rows
hold the bids as text. Other screens match posts by place and equipment, and add up sales.

The modules, in dependency order:

- `Text`, `Amounts`, `Numerals`: splitting, joining, trimming, substring search and filtering of
  lists; decimals with the printer and the parser the codecs rely on; which texts the parser reads,
  and as which numbers.
- `LoadPosts`: bids, loads and rows as values, the bid and row codecs, `copyWith`.
- `Distances`: geocoding, routing and the one distance cache that holds results by load id next to
  results by address pair. `SharedKeys`: which pairs of addresses share an entry.
- `Negotiation`: the state machine, one step per provider operation, the distance questions of the
  screens included. `Reloading` relates memory to the table through every run, `SharedIds` where
  posts share an id; `Selections` and `SelectionRuns` say whom a selection names through runs and
  reloads; `Outcomes` holds the other safety results over runs; `Effects` says outright what each
  step changes, what it leaves, and how long that lasts; `Refreshing` and `Displays` hold the results
  about distances.
- `Matching`, `Search`, `Nearby`, `Haversine`: which posts match, filters, the decision through
  printed distances, and the distance formula.
- `LoadProviders`: the provider as a class over real mutable posts and bid lists. Each method is
  proved to take the step of `Negotiation` that carries its name.
- `Tallies`, `RateInsights`, `SalesAnalytics`, `Agreement`: the analytics loops, what they conserve,
  and how they relate to reachable negotiation states. `Returns`: what return loads do to them.
- `SaferWeb`, `Users`: the snapshot cache split at its awaits; the list columns of a user.

## Where the code does not do what it is for

Each of these is proved, with the exact condition under which the code does meet the expectation.

- **Reloading loses bid statuses.** `updateLoadBids` stores only `bidder:amount`. In every run, whatever the
  strings, a reload is invisible for a load exactly when it has bids, none of them holds a separator, and
  either its row was last written whole or all its bids are pending without a counter offer
  (`Reloading.ReloadExact`). The bid screens add a bid and reload at once, so one late bid turns the amount
  notified on confirmation into 0 (`Outcomes.LateBidStory`, `Outcomes.AmountAfterReloadExact`).
- **A separator in a selected bidder's name** loses the selection: a selected bidder who has a bid is found
  after a reload exactly when the name holds neither ':' nor ';', whatever the other bidders and statuses
  hold. It then names one bid exactly when no other piece of text reads as a bid by that name
  (`Selections.SelectionAfterReloadExact`); where statuses hold no ';', exactly when no other bidder's name
  reads as it, piece by piece and up to the first colon (`Selections.SelectionByNamesExact`). Next to "A", a
  bid by "A:x" does (`Selections.NamesakeDoublesSelection`).
- **Return loads keep the negotiation.** The load board posts a copy with the ends swapped and no bids, which
  keeps status, selection and confirmations. Its selection names nobody. Until the next reload a selection
  names a bidder exactly when it did at first, or the selected bidder has bid or a bidder was accepted since
  (`Selections.RenamedExact`); through any run, reloads included, exactly as `SelectionRuns.NamesExact` says,
  and with distinct bidders that is exactly when it names one bid (`SelectionRuns.SelectionExact`). The return
  of a confirmed load is first confirmed and not sold, then, reloaded, sold at 0 through the fallback; the
  return of an awaiting load stays on the carrier's list (`Returns.ConfirmedReturnIsSoldForNothing`,
  `Returns.AwaitingReturnStaysListed`). The loads sold are the confirmed ones exactly when every confirmed load
  has bids, and a sale needs no fallback exactly when its selection names a bidder
  (`Agreement.ScreenAgreesExact`).
- **A bidder's name can forge an amount.** After a reload the notified amount is the first one that the text of
  some bid reads as accepted from the selected bidder (`Outcomes.NoticeAfterReloadExact`); a bids-only row
  reads "A:5.0:accepted" as "A", accepted, for 5 (`Outcomes.ForgedAmount`).
- **Posts that share an id**, as all return loads do, come back from a reload as one. The number of loads stays
  exactly when their ids differ (`SharedIds.ReloadKeepsCountExact`).
- **Contact person, contact address and the poster's name** are written to the row and never read back
  (`LoadPosts.RowRoundTripExact`, `Reloading.ReloadExact`).
- **A post without equipment** goes with every post until it is reloaded. After that it keeps exactly the
  matches that name no equipment or name '' (`Matching.ReloadDropsWildcardMatches`).
- **The distance write-back stores no distance**, because `copyWith` drops it. The next reload shows the same
  distance exactly when the load was not measured: its id was cached, or an end or the route was missing
  (`Refreshing.RefreshTwiceExact`).
- **Confirming a load drops its distance.** Until the next reload a confirmed load shows a distance exactly
  when it was measured since it was confirmed, as the details screen does (`Displays.MeasuredSinceConfirmed`);
  if nothing is reloaded or measured, sales have no miles (`Agreement.SalesHaveNoMiles`). A reload shows a
  distance exactly when it measures the load, so when the id is not cached, as after a restart, and both ends
  and the route are found (`Refreshing.ConfirmedDistanceExact`, `Agreement.ReloadedSaleHasMiles`). Which loads
  and rows hold a distance after any run whatever is `Displays.DisplayExact`.
- **Estimated distances count as 0 miles.** A text counts exactly when it has at most one dot and a digit
  other than 0; "(est.)" holds a dot (`RateInsights.MilesExact`).
- **Matching is symmetric** exactly for posts whose radii ask the same (`Matching.SymmetryExact`).
- **`AnalyticsProvider` looks for status 'completed'**, which no operation sets. It sees exactly the loads
  posted with it and neither accepted, answered by the carrier nor deleted since
  (`Agreement.ProviderSeesOnlyPosted`), if it is given the loads of the run at all: nothing under lib calls
  its `initializeLocalData`.
- **"_to_" in addresses.** Another pair has the key of (c, d) exactly when c holds "_to_" or ends with "_to",
  or d holds "_to_" or starts with "to_" (`SharedKeys.SharedKeyExact`). The pair is answered right in every
  world and after every run exactly when its key does not also read as that of two other addresses that are
  not blank (`SharedKeys.TransparencyExact`, `Refreshing.RunsTransparencyExact`).

`copyWith` keeps `country`: the name in its body is the field. `declineLoad` passes null for
`selectedBidId`, which keeps the old selection. Both are modelled as written.

## Model

| member | source | states |
|---|---|---|
| Amounts.ParsePrint | lib/models/load_post.dart:589-620 | reading back a printed amount gives the same amount, sign and decimals included |
| Amounts.ParseFixed | lib/models/load_post.dart:355-370 | reading back a distance printed with fixed decimals gives it rounded half up to that many |
| Numerals.ParsedExact | lib/screens/analytics_rate_insights_screen.dart:135 | double.tryParse reads a text iff, trimmed, it is an optional sign, digits with an optional dot and digits, at least one digit in all, and an optional exponent |
| Numerals.ParsedMeaning | lib/screens/analytics_rate_insights_screen.dart:97-135 | and reads it as the signed number its digits make, divided by ten per digit after the dot, times ten to the exponent |
| Numerals.WholeNumber | lib/post_load_screen.dart:219 | a whole number, as typed, is read as itself |
| LoadPosts.QuoteRoundTripExact | lib/models/load_post.dart:589-620 | a quote survives toString and fromString, null counter included, iff bidder and status hold no colon |
| LoadPosts.BidsRoundTripExact | lib/models/load_post.dart:279-283 | a bid list survives its column iff it is non-empty and its strings hold neither ':' nor ';' |
| LoadPosts.DecodeIsStable | lib/models/load_post.dart:589-620 | for every text, decoding, encoding and decoding again gives what decoding once gave |
| LoadPosts.DecodeExact | lib/models/load_post.dart:589-614 | what every text reads as, field by field, the malformed ones included |
| LoadPosts.EmptyBidsDecode | lib/models/load_post.dart:279-283 | the empty bid list comes back as one pending quote of 0 by 'Unknown' |
| LoadPosts.ShortBidsDecode | lib/core/core/database/database_helper.dart:366-375 | what updateLoadBids wrote reads back with every bid pending and without counter offer |
| LoadPosts.RowRoundTripExact | lib/models/load_post.dart:264-331 | a load survives its row iff its bids and its equipment are both non-empty and separator-free and it has no contact person, contact address or poster's name |
| Negotiation.PutBidDistinct | lib/providers/load_provider.dart:488-489 | remove-then-append keeps the bidders of a load pairwise distinct |
| Negotiation.MovedSelection | lib/providers/load_provider.dart:484-630 | every operation keeps bidders distinct and a selection naming exactly one bid |
| SharedKeys.SharedKeyExact | lib/providers/load_provider.dart:279 | another pair has the key of (c, d) iff c holds "_to_" or ends with "_to", or d holds "_to_" or starts with "to_" |
| SharedKeys.CacheIsTransparent | lib/providers/load_provider.dart:272-310 | after any history of pair questions, id writes and deletions, a pair that cannot be confused is answered as without a cache, unless its very key was written as an id |
| SharedKeys.TransparencyExact | lib/providers/load_provider.dart:272-310 | a pair is answered right in every world and after every history of pair questions iff its key does not also read as that of two other non-blank addresses |
| SharedKeys.TwinMisleads | lib/providers/load_provider.dart:278-282 | for any two different non-blank pairs with one key there is a world in which the entry of one answers the other wrongly |
| SharedKeys.UnderscoreExample | lib/providers/load_provider.dart:278-282 | a world in which the shared entry gives a wrong distance |
| Reloading.StepAligned | lib/providers/load_provider.dart:471-630 | every operation keeps loads and rows in step in the negotiation columns, and the bids column as the last write left it, for any strings |
| Reloading.StepRowAtId | lib/providers/load_provider.dart:471-715 | how each step moves the whole row of the load under an id, coordinates, distance and reset columns included, and that it leaves the others alone |
| Reloading.FetchAligned | lib/providers/load_provider.dart:118-135 | a reload and its distance write-back give back every load in place, its negotiation columns unchanged, its bids as decoded from the row |
| Reloading.RunAligned | lib/providers/load_provider.dart:471-715 | the same over whole runs under unique ids, for any strings |
| Reloading.ReloadExact | lib/providers/load_provider.dart:118-135 | after any run a reload preserves order, posting, status, selection and flags, each load's bids and equipment under exactly the stated conditions, and loses the contact |
| SharedIds.ReloadKeepsCountExact | lib/widgets/enhanced_load_board.dart:602-620 | after any run, shared ids included, the rows hold each id in memory exactly once, and a reload keeps the number of loads iff their ids differ |
| Reloading.CleanReloadExact | lib/providers/load_provider.dart:118-135 | a load named only by separator-free actions gets its bids back iff it has some and its row was written whole or they are all pending, whatever the other loads hold |
| Reloading.ReloadKeepsDeals | lib/providers/load_provider.dart:118-124 | for any strings a reload gives back every load in place with its posting, status, selection and flags |
| Selections.RenamedExact | lib/providers/load_provider.dart:484-630 | until the next reload, from any state and for any strings, a selection names a bidder iff it did at first or was renamed since, and with distinct bidders it then names exactly one bid |
| SelectionRuns.NamesExact | lib/providers/load_provider.dart:118-715 | at the end of every run, for any posts and strings, a selection names a bidder exactly as an account of posts, bids, acceptances and reloads says |
| SelectionRuns.SelectionExact | lib/providers/load_provider.dart:484-630 | from posts with distinct bidders, selected or not, bidders stay distinct and a selection names exactly one bid iff that account says it names a bidder |
| SelectionRuns.HasBidsExact | lib/providers/load_provider.dart:118-501 | a load has no bids iff it had none, nobody bids on it and nothing is reloaded |
| Selections.ReloadNamesExact | lib/models/load_post.dart:594-614 | after a reload a selection that named a bidder does iff its name holds no separator, and one that named nobody does iff there was no bid and it is 'Unknown' or some text reads as a bid by it |
| Selections.SelectionAlwaysNamesOneBid | lib/providers/load_provider.dart:484-630 | for a load posted with distinct bidders and a selection that names one, or none, in every run its selection names exactly one bid; through reloads, if the actions naming that load are separator-free |
| Selections.CleanSelectionIsFound | lib/providers/load_provider.dart:484-630 | for a load posted with a selection that names a bidder, or none, in every run and for any strings the selection comes with bids and a separator-free selected name is that of a bidder |
| Selections.SelectionAfterReloadExact | lib/models/load_post.dart:594-614 | after any run and a reload, a selected bidder with a bid is found iff the name holds no separator, and names one bid iff, besides, no other text reads as a bid by it |
| Selections.SelectionByNamesExact | lib/models/load_post.dart:594-614 | where statuses hold no ';', the selection names one bid after a reload iff its name holds no separator and no other bidder's name reads as it |
| Selections.NamesakeDoublesSelection | lib/models/load_post.dart:594-614 | a bid by a name that goes on after a colon reads as a second bid by the selected name |
| LoadPosts.ReadingsByName | lib/models/load_post.dart:594-614 | the names a bid is read back under are those of the ';'-pieces of its bidder, up to the first colon, 'Unknown' for a piece without one |
| LoadPosts.AfterReloadExact | lib/models/load_post.dart:279-283 | a bid list survives its column, written whole or short, iff it is non-empty, separator-free and, if short, all pending without counter offer |
| LoadPosts.CleanBidderIsRead | lib/models/load_post.dart:594-614 | a separator-free bidder is read back first from the text of the bid, whatever the status holds |
| Outcomes.StatusTellsConfirmation | lib/providers/load_provider.dart:503-640 | in every guarded run from new posts and return loads: awaiting iff only the broker confirmed, confirmed iff both, the carrier never alone |
| Negotiation.PostsLive | lib/widgets/enhanced_load_board.dart:602-619 | new posts have a status that tells their flags, and so have the return loads of loads that do |
| Returns.ConfirmedReturnIsSoldForNothing | lib/widgets/enhanced_load_board.dart:602-620 | the return load of a confirmed load is confirmed and not sold, and after its reload sold at 0 through the fallback |
| Returns.AwaitingReturnStaysListed | lib/widgets/enhanced_load_board.dart:602-620 | the return load of an awaiting load stays on the carrier's list, with an accepted amount of 0 |
| Outcomes.NotifiedAmountIsAccepted | lib/providers/load_provider.dart:561-574 | as long as nothing names that bidder on that load, accepts another, deletes the load or reloads it from a bids-only row, confirming and declining notify the accepted bidder and amount; only that load's strings matter |
| Outcomes.AcceptMakesDeal | lib/providers/load_provider.dart:503-525 | in any state, accepting a bidder who has bid selects that bidder at the amount of that bid |
| Outcomes.RunDeal | lib/providers/load_provider.dart:484-630 | over any later run that leaves that bidder and that load's selection alone, the selected bidder and the accepted amount stay, reloads included, whatever the other loads hold |
| Outcomes.NoticeAfterReloadExact | lib/providers/load_provider.dart:562-571 | for any strings, the amount notified after a reload is the first one the text of some bid reads as accepted from the selected bidder, else 0 |
| Outcomes.ForgedAmount | lib/models/load_post.dart:594-614 | a bids-only row reads a bidder named like a whole bid as that bid, accepted |
| Outcomes.AmountAfterReloadExact | lib/providers/load_provider.dart:562-571 | for a load whose bids hold no separator, the amount notified after a reload is the accepted one if the row was written whole, and 0 otherwise |
| Outcomes.LateBidZeroesNotice | lib/widgets/carrier_bid_responses_board.dart:198-205 | for a load whose bids hold no separator, one later separator-free bid by anyone else, then the reload that follows it, makes the notified amount 0 |
| Outcomes.LateBidStory | lib/widgets/enhanced_load_board.dart:605-620 | post, bid, acceptance, a late bid, each with the reload its screen does, then confirmation: for every such run the notification says 0 |
| Negotiation.StepAtId | lib/providers/load_provider.dart:471-715 | how each step moves the load found under an id, and that it leaves the others alone |
| Effects.AddBidEffect | lib/providers/load_provider.dart:484-489 | the bid replaces the bidder's earlier ones at the end of the first load under the id; every other load, the cache and the notices stay |
| Effects.AnswerEffect | lib/providers/load_provider.dart:503-524 | the first bid by the bidder gets the status answered and the counter offer given, keeps bidder and amount; every other bid and load stays; only 'accepted' moves the load, to that bidder and to awaiting the carrier |
| Effects.LastAnswerShows | lib/providers/load_provider.dart:508-530 | through every later run the bid shows that answer until the next bid or answer by that name, the deletion of the load, or the reload of a bids-only row |
| Effects.ConfirmEffect | lib/providers/load_provider.dart:545-585 | status and carrier flag set, broker flag, selection and bids kept, and the broker told of the selected bidder, or 'Carrier', and of the first accepted amount of that bidder, or 0 |
| Effects.DeclineEffect | lib/providers/load_provider.dart:588-620 | status 'declined_by_carrier' and both flags down, selection and bids kept, and the same notice as a refusal |
| Effects.DeclinedStays | lib/providers/load_provider.dart:588-640 | a declined load stays declined, on no carrier's list and unsold, through every guarded run until a bid on it is accepted or it is deleted |
| Effects.AcceptedStaysListed | lib/providers/load_provider.dart:518-640 | an accepted load is on the list of the accepted bidder and of nobody else, through every run until another acceptance, the carrier's answer or its deletion |
| Effects.AwaitingListExact | lib/providers/load_provider.dart:633-640 | a carrier's list holds, in order, exactly the loads that await it, confirmed by the broker alone and selecting it |
| Effects.NothingFound | lib/providers/load_provider.dart:484-630 | an operation that finds no load under its id, or no bid by its bidder, changes nothing |
| Refreshing.RunsLeavePairsTransparent | lib/providers/load_provider.dart:272-310 | after every run, whatever was asked, compared or measured in it, an address pair that cannot be confused is answered as without a cache, unless a load has its very key for an id |
| Refreshing.RunsTransparencyExact | lib/providers/load_provider.dart:272-334 | every run in every world answers a pair right iff the pair cannot be confused |
| Refreshing.UnmarkedPairsAnsweredRight | lib/providers/load_provider.dart:278-282 | addresses without "_to_", whole or in halves where they meet, are always answered right |
| Refreshing.MeasureOnce | lib/providers/load_provider.dart:142-258 | measuring a load again changes neither the load nor the cache and writes nothing |
| Refreshing.MeasureEffect | lib/providers/load_provider.dart:142-258 | for every load and cache: which ends are filled in, what the cache says of it, and that only a route found gives a distance and is written back |
| Distances.PairTextExact | lib/providers/load_provider.dart:284-305 | a pair has a distance iff both addresses are located and the route between them has a text |
| Refreshing.ReloadShowsDistanceExact | lib/providers/load_provider.dart:118-225 | after a reload a load shows a distance iff its row had one or it was measured now |
| Refreshing.RefreshTwiceExact | lib/providers/load_provider.dart:118-225 | the second reload shows the distance of the first iff the first did not measure the load; otherwise none |
| Refreshing.ConfirmedDistanceExact | lib/providers/load_provider.dart:545-555 | the reload after a confirmation shows a distance iff it measures the load, with this session's cache or an empty one |
| Displays.DisplayExact | lib/providers/load_provider.dart:118-225 | after every run a load and its row show a distance exactly as two flags say that follow the steps, the cache and the row of that load |
| Displays.MeasuredSinceConfirmed | lib/load_details_screen.dart:130 | until the next reload a confirmed load shows a distance iff it was measured since it was confirmed |
| LoadProviders.LoadPost.CopyWith | lib/models/load_post.dart:494-573 | the copy is a new post over the same bid list with the stated fields kept, replaced and reset: distance, difference, matches, times, appointment and address parts included |
| LoadProviders.LoadTable.GetLoads | lib/core/core/database/database_helper.dart:357-363 | every row becomes a new post over a bid list of its own, stored difference included, contact lost |
| LoadProviders.LoadProvider.AddLoad | lib/providers/load_provider.dart:471-482 | memory and table gain the post; loads stay distinct and unshared |
| LoadProviders.LoadProvider.AddBid | lib/providers/load_provider.dart:484-501 | the first load under the id gets the bid in place of the bidder's old one; its row gets the short bids |
| LoadProviders.LoadProvider.UpdateBidStatus | lib/providers/load_provider.dart:503-542 | in-place replacement of the bid and, on acceptance, a copy over the same list, both written through: the step whose effect is `Effects.AnswerEffect` |
| LoadProviders.LoadProvider.FindAcceptedAmount | lib/providers/load_provider.dart:562-565 | the loop finds the amount of the first accepted bid of the selected bidder, else 0 |
| LoadProviders.LoadProvider.ConfirmLoad | lib/providers/load_provider.dart:545-585 | the confirmed copy over the same bid list, its row and the notification; not found leaves everything alone |
| LoadProviders.LoadProvider.DeclineLoad | lib/providers/load_provider.dart:588-630 | the declined copy, which keeps the selection, its row and the notification: the step whose effect is `Effects.DeclineEffect` |
| LoadProviders.LoadProvider.DeleteLoad | lib/providers/load_provider.dart:695-715 | load, row and id entry of the distance cache are gone, everything else stays |
| LoadProviders.LoadProvider.ReloadLoads | lib/providers/load_provider.dart:118-140 | fresh posts decoded from the rows, then each load's distance in turn |
| LoadProviders.LoadProvider.FetchLoads | lib/providers/load_provider.dart:118-135 | a reload, after which only differences and cache change; for distinct ids exactly the run of the comparisons the matching loops make; no loads if the table cannot be read |
| LoadProviders.LoadProvider.MeasureLoad | lib/providers/load_provider.dart:142-258 | coordinates, distance and cache entry of one load in every branch, and whether it is written back |
| LoadProviders.LoadProvider.GetLoadsAwaitingCarrierConfirmation | lib/providers/load_provider.dart:633-640 | exactly the loads listed for the carrier, in order |
| LoadProviders.LoadProvider.CalculateDistanceBetweenPickups | lib/providers/load_provider.dart:272-310 | answer and new cache for two address strings |
| LoadProviders.LoadProvider.CalculateDestinationDifference | lib/models/load_post.dart:77-87 | no difference for an empty destination, else the pair distance |
| LoadProviders.LoadProvider.FindMatchingLoads | lib/providers/load_provider.dart:340-401 | the matching candidates in order, over the heap; what they look like is what `Matching.FindMatchingLoads` keeps, so as `Matching.KeptWithoutRadii` and `KeptWithRadii` say |
| LoadProviders.LoadProvider.UpdateLoadsWithMatches | lib/providers/load_provider.dart:312-338 | both loops, with coordinates filled in between: who lists whom, mutual lists for even radii and, even with coordinates arriving, for no radii, and exactly the differences and cache its comparisons leave |
| LoadProviders.LoadProvider.ListsExact | lib/providers/load_provider.dart:312-338 | after both loops a carrier post lists exactly the broker posts that match it, and a post that is only a broker's exactly the carrier posts that match it |
| LoadProviders.LoadProvider.DoneAnswers | lib/providers/load_provider.dart:320-334 | every load is left with its uncached difference to the target it was last compared with, and pair entries stay right |
| LoadProviders.LoadProvider.UpdateMatches | lib/providers/load_provider.dart:312-338 | without coordinates arriving the matching half is the run of its comparisons in the state machine |
| Matching.MatchIsSymmetric | lib/providers/load_provider.dart:340-401 | posts whose radii ask the same match each other or not at all |
| Matching.NoRadiusIgnoresPlaces | lib/providers/load_provider.dart:387-397 | without radii this holds even when coordinates are filled in between the two directions |
| Matching.SymmetryExact | lib/providers/load_provider.dart:340-401 | two pairs of radii are symmetric on every board iff they ask the same |
| Matching.RaisingRadiiAddsMatches | lib/providers/load_provider.dart:361-385 | raising positive radii only adds matches, in order |
| Matching.ReloadDropsWildcardMatches | lib/models/load_post.dart:284 | a reloaded post without equipment keeps, in both directions, exactly the matches that name no equipment or name '' |
| Matching.KeptWithoutRadii | lib/providers/load_provider.dart:340-397 | without radii a candidate is kept iff it has another id, both ends are in the same towns (the trimmed, lower-cased texts before the first comma) and equipment, date and load type are each open on one side or shared |
| Matching.KeptWithRadii | lib/providers/load_provider.dart:356-399 | with a radius set, iff it has another id, the terms meet and every positive radius whose two places are known covers the distance |
| Matching.EligibleIsOneFilter | lib/providers/load_provider.dart:762-805 | the chained role, USDOT, equipment and radius filters equal one test, in order |
| Matching.MatchingCarrierPostsForUser | lib/providers/load_provider.dart:759-832 | filters and nested loop with break return exactly the posts one declarative test accepts, each once, in order |
| Matching.OfferedExact | lib/providers/load_provider.dart:759-830 | a post is offered iff it is of the other role, passes the USDOT, equipment and radius tests, and goes between the same towns on terms that meet as some post of that user on that user's side |
| Search.LongerFiltersNarrow | lib/providers/load_provider.dart:642-662 | setting or lengthening search, origin, destination or equipment text returns a subsequence |
| Search.SearchShorter | lib/models/load_post.dart:211-220 | a load found by a longer search text is found by any text it contains |
| Search.ShownExact | lib/providers/load_provider.dart:642-662 | which loads a board shows: those of its side that have the search text in one of six places and pass each filter that is set |
| Nearby.RoundedWithinExact | lib/models/load_post.dart:413-420 | a distance rounded to hundredths is within an integer radius iff it is less than 0.005 beyond it |
| Nearby.TextDecidesExactly | lib/models/load_post.dart:408-420 | printing, splitting off the unit, parsing and comparing decides exactly that |
| Nearby.NearbyExact | lib/models/load_post.dart:396-426 | found are exactly the other loads with both ends known and each less than 0.005 km beyond its radius |
| Nearby.FindMatchingLoads | lib/models/load_post.dart:396-426 | the loop returns, in order, exactly the other loads close enough at both ends |
| Haversine.ChordIsMix | lib/providers/load_provider.dart:109-111 | the intermediate value is an affine mix of (1-cos(u-v))/2 and (1+cos(u+v))/2 |
| Haversine.ChordInRange | lib/providers/load_provider.dart:109-112 | it lies in [0, 1] for all coordinates, so both square roots are defined |
| Haversine.DistanceLaws | lib/providers/load_provider.dart:105-114 | the distance is symmetric, zero on equal points, and at most half the circumference |
| Haversine.DistanceIsArc | lib/providers/load_provider.dart:105-116 | the spherical law of cosines: the distance over the radius is the angle between the two places, in degrees turned to radians |
| Haversine.AntipodesFarApart | lib/providers/load_provider.dart:105-116 | antipodes are exactly pi times the radius apart |
| Haversine.BoardInMiles | lib/providers/load_provider.dart:105-114 | the provider measures with the radius 3958.8 |
| Haversine.MilesAndKmProportional | lib/providers/load_provider.dart:261-270 | the miles and kilometre versions are proportional |
| Haversine.FullTurnIsNothing | lib/providers/load_provider.dart:105-114 | a full turn of a longitude leaves the distance alone |
| Haversine.HaversineMatchIsSymmetric | lib/providers/load_provider.dart:312-338 | match symmetry with the haversine distance itself |
| Tallies.TallyConserves | lib/screens/analytics_rate_insights_screen.dart:100-111 | grouping amounts by any key adds up to their total |
| Tallies.CountsConserve | lib/screens/analytics_rate_insights_screen.dart:105 | counts by any key add up to the number of entries |
| Tallies.AverageAll | lib/screens/analytics_rate_insights_screen.dart:116-119 | the forEach divides every total by its own count |
| RateInsights.RevenueIsConserved | lib/screens/analytics_rate_insights_screen.dart:66-120 | broker sales, carrier sales and lane averages times counts each add up to the revenue |
| RateInsights.Screen.CalculateAnalytics | lib/screens/analytics_rate_insights_screen.dart:66-120 | every map after the loops, the counts, and the conservation of revenue |
| RateInsights.Screen.CalculateFrequentLoads | lib/screens/analytics_rate_insights_screen.dart:122-182 | route counts add up to the loads; averages times counts are the sums of what `RouteAmountsExact` says each load adds |
| RateInsights.RouteAmountsExact | lib/screens/analytics_rate_insights_screen.dart:134-169 | what one load adds to its route: nothing without a positive rate, else the rate, the sold or last accepted amount, and the miles and rate per mile if it has any |
| RateInsights.RateExact | lib/screens/analytics_rate_insights_screen.dart:135 | a rate counts as the number its text stands for, and as 0 when it stands for none |
| RateInsights.SelectedBidExact | lib/screens/analytics_rate_insights_screen.dart:82-89 | a load is sold to the first bid by the selected bidder, else to the last accepted one, else to the last |
| RateInsights.GroupsExact | lib/screens/analytics_rate_insights_screen.dart:100-111 | each entry of the three maps is the revenue of that poster, of that carrier, of that lane |
| RateInsights.LaneCountsExact | lib/screens/analytics_rate_insights_screen.dart:105-131 | a lane is counted once for each of its sales, a route once for each of its loads |
| RateInsights.MilesExact | lib/screens/analytics_rate_insights_screen.dart:94-98 | a distance text counts as the number its digits make with its one dot, and as 0 with a second dot; so as miles iff it has at most one dot and some digit other than 0 |
| SalesAnalytics.WinnerIsHighest | lib/providers/analytics_provider.dart:231 | the winner is a bid, none is higher, and of equals it is the last |
| SalesAnalytics.WinningExact | lib/providers/analytics_provider.dart:117-122 | a load counts for its last highest bid, to that bidder, over its distance, and without bids for nothing |
| SalesAnalytics.FiltersExact | lib/providers/analytics_provider.dart:105-320 | which loads each of the five calculations takes: completed, strictly between the dates, and of the user, lane, region, equipment, broker or bidding carrier asked for |
| SalesAnalytics.SummaryExact | lib/providers/analytics_provider.dart:105-130 | count, revenue and miles over the loads that pass; the rate times the miles is the revenue, 0 without miles |
| SalesAnalytics.SalesByExact | lib/providers/analytics_provider.dart:275-348 | the entry of a broker or carrier is the revenue of the loads that pass and are theirs |
| SalesAnalytics.TotalsAgree | lib/providers/analytics_provider.dart:196-348 | market revenue equals the sum of broker sales and the sum of carrier sales for equal dates |
| SalesAnalytics.UserRevenueIsBrokerEntry | lib/providers/analytics_provider.dart:105-130 | a user's revenue is the user's undated broker entry, 0 if absent |
| SalesAnalytics.CarrierFilterKeepsOwnTotal | lib/providers/analytics_provider.dart:303-334 | filtering by a carrier leaves that carrier's own total unchanged |
| SalesAnalytics.BrokerFilterKeepsOwnTotal | lib/providers/analytics_provider.dart:255-286 | filtering by a broker leaves that broker's own total unchanged |
| SalesAnalytics.AnalyticsProvider.CalculateUserAnalytics | lib/providers/analytics_provider.dart:105-130 | count, revenue and rate per mile of the user's completed loads |
| SalesAnalytics.AnalyticsProvider.LoadMarketTrends | lib/providers/analytics_provider.dart:196-252 | the same over the loads the region, equipment and date filters leave |
| SalesAnalytics.AnalyticsProvider.LoadBrokerSales | lib/providers/analytics_provider.dart:255-300 | winning amounts of the filtered loads grouped by poster |
| SalesAnalytics.AnalyticsProvider.LoadCarrierSales | lib/providers/analytics_provider.dart:303-348 | winning amounts of the filtered loads grouped by winner |
| SalesAnalytics.AnalyticsProvider.LoadLaneRates | lib/providers/analytics_provider.dart:143-193 | at most one lane, whose average times count is the revenue of the lane |
| Agreement.ScreenAgreesExact | lib/screens/analytics_rate_insights_screen.dart:66-112 | in guarded runs, for any strings, return loads included: the loads sold are the confirmed ones iff every confirmed load has bids, and a sale is priced without the fallback iff its selection names a bidder, by a unique bid under the stated proviso |
| Agreement.ScreenAgreesWithNegotiation | lib/screens/analytics_rate_insights_screen.dart:66-112 | from posts whose selection names a bidder, or none: every confirmed load is sold, and a separator-free selected name prices it without the fallback |
| Agreement.SalesHaveNoMiles | lib/screens/analytics_rate_insights_screen.dart:94-114 | as long as nothing is reloaded or measured the confirmed loads have no miles, so the average per mile is 0 |
| Agreement.MeasuredSaleHasMiles | lib/load_details_screen.dart:130 | measuring a confirmed load in the details screen gives the sale the miles of its route |
| Agreement.ReloadedSaleHasMiles | lib/screens/analytics_rate_insights_screen.dart:94-114 | after post, bid, acceptance, confirmation and reload the miles are those of the route iff the id is not cached and both ends and the route are found |
| Agreement.ProviderSeesOnlyPosted | lib/providers/analytics_provider.dart:203-344 | after every run the loads the provider sees are those posted as 'completed' and neither moved nor deleted, and its aggregations are those over them |
| Agreement.ProviderNeverSeesASale | lib/providers/analytics_provider.dart:203-344 | from posts that are not completed, market trends, broker sales and carrier sales are empty after every run |
| SaferWeb.LoadingIsOwed | lib/providers/safer_web_provider.dart:25-118 | under every interleaving an id shown as loading is covered by a waiting call, so at quiescence nothing loads |
| SaferWeb.MissingReplyLoadsForever | lib/providers/safer_web_provider.dart:80-88 | without an answer for an id it stays loading with no call waiting |
| SaferWeb.CachedUntilCleared | lib/providers/safer_web_provider.dart:25-30 | a cached id stays cached until cleared, and fetching it changes nothing and asks nothing |
| SaferWeb.FaceExact | lib/providers/safer_web_provider.dart:20-118 | under every interleaving the snapshot, loading flag and error of an id follow from the steps that concern it alone, told step by step |
| SaferWeb.CachedExact | lib/providers/safer_web_provider.dart:43-110 | a snapshot is cached for an id iff the service answered it last for that id, with no clear since |
| SaferWeb.FetchMultipleSnapshots | lib/services/safer_web_api_service.dart:88-104 | the batch service answers for exactly the ids asked, null for those that threw |
| SaferWeb.SaferWebProvider.BeginFetchSnapshot | lib/providers/safer_web_provider.dart:25-43 | cached result, rejection or a waiting call, up to the await |
| SaferWeb.SaferWebProvider.EndFetchSnapshot | lib/providers/safer_web_provider.dart:43-60 | cache, flag and error after the service answered or threw |
| SaferWeb.SaferWebProvider.BeginFetchMultiple | lib/providers/safer_web_provider.dart:63-80 | flags and errors of the valid ids, or rejection of all |
| SaferWeb.SaferWebProvider.EndFetchMultiple | lib/providers/safer_web_provider.dart:80-102 | cache and flags after the answers, or the reset of every id asked |
| SaferWeb.SaferWebProvider.ClearCache | lib/providers/safer_web_provider.dart:105-110 | the id leaves cache, flags and errors, waiting calls stay |
| SaferWeb.SaferWebProvider.ClearAllCache | lib/providers/safer_web_provider.dart:113-118 | all three maps are emptied, waiting calls stay |
| Users.EquipmentRoundTripExact | lib/models/user.dart:125-137 | equipment survives toJson and fromJson iff every entry is non-empty, trimmed and comma-free |
| Users.LanesRoundTripExact | lib/models/user.dart:139-163 | lane preferences survive iff no field holds ':' or a bar, empty lists and fields included |
| Users.PreferencesSurvive | lib/models/user.dart:490-493 | prefersLane answers the same before and after for every query |
| Users.PrefersLaneExact | lib/models/user.dart:490-493 | a user prefers a lane iff no lane is set or some lane has both texts at their ends, ignoring case |

## Left out

- Amounts.TryParse: reads and prints exact decimals positionally; IEEE rounding, NaN, Infinity and the exponent form of very large or small doubles are not modelled.
- Text.Lower: folds character by character, so context-dependent foldings (final sigma) are not modelled.
- Negotiation.Step: each operation is one atomic step and table reads and writes succeed; interleaving inside the provider and failing writes are not modelled. The empty memory after a failed read is in `LoadProviders.LoadProvider.FetchLoads` only.
- LoadProviders.LoadProvider.FetchLoads: the two halves it starts together, distances and matches, run one after the other; `UpdateLoadsWithMatches` also takes coordinates that arrive between its loops.
- LoadProviders.LoadProvider.AddLoad: asks for a post of its own with a growable bid list of its own, as the screens that pass a list create them; mutating the constant default list throws in the original.
- LoadProviders.LoadProvider.CalculateDistanceBetweenPickups: only the two-string form, the only one called.
- Haversine.Lawful: sine, cosine, square root and arctangent are parameters that satisfy the listed identities; with them the distance is the arc of the spherical law of cosines (`Haversine.DistanceIsArc`).
- SalesAnalytics.AnalyticsProvider.LoadBrokerSales: the list of entries is kept as the map it is made from; likewise for carriers.
- Users.DecodeEquipment: the text form of the column; the list form that fromJson also accepts copies the list.
- A post has a pair of coordinates or none; a latitude without a longitude is treated as none.
- Fields that every operation hands over, stores and reads back as they are (e-mail, phone, dimensions, pickup and delivery dates), and the route texts inside notifications.
- `typingIndicator`, which neither `copyWith` nor the row keeps.
- Negotiation.AfterMeasure: measures the load in memory under the id; the details screen may hold an older copy, whose late write-back is not modelled.
- The provider's `updateLoad` and `removeLoad`, which change memory only, and `sortLoads`.
- `getPostedLoadsForUser` (its radius branch runs on missing coordinates), `brokerPostsForUser`, `getAvailableLoadsForUser` and `carrierPostsForUser`: the last two are the chained filters of `matchingCarrierPostsForUser` again.
- Geocoding, routing and the snapshot service are outside; they appear as functions or replies.
- Timestamps are integers, and their text form in the row is taken to be exact.
- Widgets, authentication, invoices, themes and platform runners.
