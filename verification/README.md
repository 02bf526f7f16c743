# A model of the taxonomy engine and what stands around it

Spatula keeps product records it reads from shops' pages. This project models the pure engine that decides where a
record belongs and which pages it is read from, and proves what the engine is trusted for.

- **The taxonomy** (`Taxonomy*.dfy`, `Ordering.dfy`): shelves, functions, features and values, each retired and never
  deleted, changed only by batches of 14 kinds of typed change, each batch a new version. A merge forwards an item to
  another, and readers follow it. Batches have undos. A taxonomy is exported to a seed file and seeded from one.
- **Deciding and answering** (`TaxonomyDeci*.dfy`, `TaxonomyJudging.dfy`, `TaxonomyAnswer*.dfy`): a decider's probabilities settle some of a
  page's shelf, functions and values and leave some open; a person answers those; their word is carried through later
  questions and later versions.
- **Placement** (`TaxonomyPlacement*.dfy`): the place a record publishes, and the separate check of a place.
- **Survivorship and matching** (`Survivorship*.dfy`, `Matching.dfy`, `MatchPlanning.dfy`): which statement a field keeps,
  which entity a page joins, and when a person is asked.
- **Reading shops politely** (`Robots.dfy`, `RobotsGroups.dfy`, `Gate.dfy`, `Sitemap*.dfy`): robots.txt by RFC 9309, the
  pace each host gets, and sitemaps.
- **Keeping and forgetting** (`Captures.dfy`), and **GTINs** (`Gtin.dfy`).

`Basics.dfy`, `Sorting.dfy` and `Choosing.dfy` hold the list idioms the rest leans on.

## How it is modelled

Values are datatypes; what the engine edits in place is a class (`TaxonomyDraft.Draft`, `Sitemap.Reading`,
`Captures.Archive`) or a method with the source's loop, proved equal to a specification function, and the theorems are
about that function. A refusal is an error case without its wording. A name is its text together with the key it folds
to. A reference is an ID or a slug. Probabilities are exact reals, rounding is to nine places with a half up, and times
are milliseconds. A fresh ID, a clock, a similarity score, an address's parts and a parsed date are given as parameters.

A *run* of versions starts from a usable taxonomy with nothing forwarded. Each of its batches is either one that may be
proposed, which holds no restore, or the undo of a batch that was accepted, which holds no merge.

Four places where a promise needs a condition, or fails, are stated as such:

- An undo of one change always applies (`TaxonomyUndoOne.UndoOne`). An undo of a proposed batch may be refused, exactly
  when two items of a kind had one slug, a value goes by name before its feature does, or one goes that was made with its
  feature (`TaxonomyUndoAccepted.UndoAccepted`, with an input in `TaxonomyExample.ValueThenFeature`). Undoing that undo may
  be refused in turn, exactly when the batch added a value to a feature it made, or one that went later in it
  (`TaxonomyRedoAccepted.RedoAccepted`, with an input in `TaxonomyExample.AddedThenFeature`). The undo of any batch is right
  whenever it is accepted (`TaxonomyUndoBatch.UndoBatch`). A moved shelf comes back under its parent with a new place among
  its siblings.
- A batch that mixed merges and restores could leave merges that lead to each other (`TaxonomyLimits.MixedBatchCircles`).
  Neither a proposal nor an undo is one (`TaxonomyLimits.SentUnmixed`).
- A checked answer has at most one value for each feature that takes one exactly when entries that name one such feature
  agree (`TaxonomyAnswers.CheckedOnePer`); one feature named by its ID and again by its slug can get two through
  (`TaxonomyAnswering.NamedTwiceEscapes`).
- The surviving record doesn't depend on the statements' order exactly when the unbeaten statements that tie agree on
  their value (`SurvivorshipOrder.SameInAnyOrder`). As statements are kept, text, choices, GTINs and addresses are their own
  keys, so only specs can fail that, and only in how a label is written (`SurvivorshipOrder.NormalizedInAnyOrder`).
  The comment on the comparison says the order never shows. It can: two sources of a dataset may list one address, and their
  two items then give one spec under "Impedance" and under "impedance" (`SurvivorshipOrder.TiesCanDiffer`). One item can't,
  as the store keeps one current statement of an item for each property, method and value key
  (platform/store/src/schema.ts:337-339).

A record's place would need such a condition for statements with any keys (`TaxonomyPlacementOrder.PlacedInAnyOrder`), but
it never depends on the order of what the code writes, which keys each part of an answer by the ID it names
(`TaxonomyPlacementOrder.PlacedAlike`).

Where the code and its comments differ, the model follows the code: the values offered on a shelf are those of the
features that list that shelf's ID or its category's, without following merges, while an export follows them; and when a
merge puts one function in both a person's yes and their no, the yes wins.

## Model

| member | source | states |
|---|---|---|
| TaxonomyDraft.Draft.Apply | platform/core/src/taxonomy-changes.ts:184-498 | applying any of the 14 kinds of change in place gives exactly what the change means, and is refused exactly when it is |
| TaxonomyDraft.Draft.SplitShelf | platform/core/src/taxonomy-changes.ts:399-424 | the same for splitting, its children pushed one by one |
| TaxonomyDraft.Draft.RetireItem | platform/core/src/taxonomy-changes.ts:425-449 | the same for retiring; a feature's live values retire with it, without migrations of their own |
| TaxonomyDraft.Draft.RestoreItem | platform/core/src/taxonomy-changes.ts:470-498 | the same for restoring; a feature brings back the values that were retired with it |
| TaxonomyDraft.ApplyBatch | platform/core/src/taxonomy-changes.ts:159-182 | the loop over a batch gives the next version exactly when every change applies and nothing is found wrong with the result |
| TaxonomyMeaning.ChangeMeans | platform/core/src/taxonomy-changes.ts:184-498 | each kind of change is refused exactly when what it names doesn't allow it; applied, it leaves what was there as a table of effects says, adds after that exactly the live items it gives words for, each with its ID, its parent or feature and the next order, records the one migration of its kind, and is written down with every item it names by ID |
| TaxonomyEffects.ChangeDoes | platform/core/src/taxonomy-changes.ts:184-498 | the table of effects on the items there were: descriptions, names, slugs, parents, implied functions, scope and retirement, a moved shelf last under its new parent, and nothing else |
| TaxonomyIssuesFound.TaxonomyIssues | platform/core/src/taxonomy.ts:132-331 | the issues found are none exactly when the taxonomy is usable: unique IDs and slugs, two levels, live references, migrations that fit |
| TaxonomyUndoOne.UndoOne | platform/core/src/taxonomy-changes.ts:504-550 | every change that applies can be undone, and its undo gives back the live items with their words, parents, implied functions, feature shelves and scope, but for a moved shelf's order |
| TaxonomyUndoBatch.UndoBatch | platform/core/src/taxonomy-changes.ts:504-550 | whenever the undo of a batch, a proposal's or an undo's, is accepted, it gives back the same |
| TaxonomyUndoAccepted.UndoAccepted | platform/core/src/taxonomy-changes.ts:159-550 | the undo of a batch that was proposed and accepted is accepted if and only if no two items of a kind first had one slug, counting those the batch makes; no value goes by name before its feature goes in the same batch; and no value goes by name that its feature was made with |
| TaxonomyMirror.BatchGoesBack | platform/core/src/taxonomy-changes.ts:504-550 | step by step, undoing such a batch is at each point where the batch was: each item there with its words, retired when it was, and what was made since retired |
| TaxonomyRedoAccepted.RedoAccepted | platform/store/src/proposals.ts:354-429 | an accepted undo of a proposed batch can itself be undone if and only if the batch added no value to a feature that went later in it, nor to one that it made |
| TaxonomyAgain.BatchGoesAgain | platform/core/src/taxonomy-changes.ts:504-550 | step by step, undoing an undo that met the batch's items as they were is at each point where the undo was, with what the batch had retired, and the undo brought back, retired anew |
| TaxonomyUndo.UndoTells | platform/core/src/taxonomy-changes.ts:504-550 | what an undo last says of an item is whether it was live before the batch |
| TaxonomyUndo.UndoTellsValue | platform/core/src/taxonomy-changes.ts:425-498 | an undo brings a value back only if it was there with its feature, and retires one only if it was retired |
| TaxonomyUndo.UndoneContent | platform/core/src/taxonomy-changes.ts:504-550 | undoing one change puts back the words it replaced, whatever else happened in between |
| TaxonomyUndo.CreatedUndone | platform/core/src/taxonomy-changes.ts:504-516 | what a batch made, its undo retires by name, but for a new feature's values |
| TaxonomyUndoOne.BackValid | platform/core/src/taxonomy.ts:132-331 | if an undo applies and gives back what was live, what it makes is usable |
| TaxonomyLimits.UndoAnywhere | platform/core/src/taxonomy-changes.ts:159-550 | at every version of every run from a seeded taxonomy, a change that applies can be undone and its undo gives back what there was |
| TaxonomyLimits.NoOrphansRun | platform/core/src/taxonomy-changes.ts:425-498 | over every run, a live value belongs to a live feature if it did at the start |
| TaxonomyExample.ValueThenFeature | platform/core/src/taxonomy-changes.ts:486-490 | a usable taxonomy and a batch it accepts, retiring a value and then its feature, whose undo is refused |
| TaxonomyExample.AddedThenFeature | platform/core/src/taxonomy-changes.ts:425-498 | a usable taxonomy and a batch it accepts, adding a value and then retiring its feature, whose undo is accepted and whose undo's undo is refused |
| TaxonomyLimits.MixedBatchCircles | platform/core/src/taxonomy-changes.ts:369-398 | a batch mixing merges and restores, which neither a proposal nor an undo can be, would be accepted and leave two items that forward to each other |
| TaxonomyForwarding.ForwardRun | platform/core/src/taxonomy.ts:590-611 | over every run, every version is usable and its merge forwarding is acyclic, each hop a later merge |
| TaxonomyForwarding.ForwardBatch | platform/core/src/taxonomy-changes.ts:159-182 | a batch without restores, or without merges, keeps forwarding acyclic: enough, if not needed |
| TaxonomyLimits.SentUnmixed | platform/core/src/taxonomy-changes.ts:52-142 | every batch that may be proposed, and every undo, is one of those |
| TaxonomyForwarding.ResolveId | platform/core/src/taxonomy.ts:590-611 | the loop over at most one more step than there are migrations gives what an ID resolves to |
| TaxonomyForwarding.ResolveEnds | platform/core/src/taxonomy.ts:590-611 | following merges takes at most as many steps as the loop allows, and ends at a live item, which is the answer, or at one forwarded nowhere, for which there is none |
| TaxonomyForwarding.ResolveMeans | platform/core/src/taxonomy.ts:590-611 | resolving has its recursive meaning with no count of steps: it never runs out |
| TaxonomyResolution.MergeResolves | platform/core/src/taxonomy-changes.ts:369-398 | after merging A into B, every listed ID that resolved to A resolves to B, and every other is unchanged |
| TaxonomyResolution.ResolveLater | platform/core/src/taxonomy.ts:590-611 | across versions that restore nothing, resolving now and then later is resolving later; nothing stays nothing |
| TaxonomyLimits.FollowsRun | platform/core/src/taxonomy-changes.ts:159-182 | any stretch of a run without restores is one across which resolving commutes so |
| TaxonomyVersions.UsableRun | platform/core/src/taxonomy-changes.ts:159-182 | over every run, versions stay usable, every item keeps its place and ID, and features how many values they take |
| TaxonomyVersions.ResolveKeepsFeature | platform/core/src/taxonomy.ts:590-611 | what a value resolves to is of the value's own feature |
| Ordering.ChosenInOrderAre | platform/core/src/taxonomy.ts:521-546 | the filtered and sorted lists readers take hold exactly the kept items, each once |
| TaxonomySeeding.Seeded | platform/core/src/taxonomy.ts:380-463 | filling the lists in loops and noting every slug that names nothing gives exactly the seeded taxonomy, or the refusal |
| TaxonomySeeding.ShelvesOf | platform/core/src/taxonomy.ts:403-430 | each category is pushed before its children, with its place among its siblings |
| TaxonomyRoundTrip.ExportSeedExport | platform/core/src/taxonomy.ts:380-507 | for every usable taxonomy, seeding its export succeeds and exporting that gives the identical export |
| TaxonomyRoundTrip.SeededValid | platform/core/src/taxonomy.ts:126-463 | what an export seeds is usable |
| TaxonomyRoundTrip.ShelfOrderCovers | platform/core/src/taxonomy.ts:470-490 | an export lists every live shelf |
| TaxonomyRoundTrip.ShelfOrderDistinct | platform/core/src/taxonomy.ts:470-490 | and none twice |
| TaxonomyDeciding.AskedWell | platform/core/src/taxonomy-decision.ts:527-566 | a question offers each feature once, each value under its own |
| TaxonomyDeciding.FunctionsNotAskedAgain | platform/core/src/taxonomy-decision.ts:527-566 | the functions asked are exactly the live ones a person didn't decide before |
| TaxonomyDeciding.ValuesNotAskedAgain | platform/core/src/taxonomy-decision.ts:532-555 | no value decided before is asked again, and a feature that takes one is asked only while none of its live values was decided |
| TaxonomyDecisionLoops.AskFeatures | platform/core/src/taxonomy-decision.ts:541-555 | the loop asks exactly those features |
| TaxonomyDecisionLoops.Accept | platform/core/src/taxonomy-decision.ts:594-696 | the loops over functions and features settle, open and propose exactly what the decision means |
| TaxonomyDecisionLoops.AcceptMany | platform/core/src/taxonomy-decision.ts:672-683 | a feature that takes many values: each settled, open or rejected by its own chance |
| TaxonomyDeciding.AcceptedWell | platform/core/src/taxonomy-decision.ts:594-696 | each value settled or opened is of its own feature, at most one settled where one is taken, never both settled and open there, and settled values are on the settled shelf |
| TaxonomyJudging.FunctionsJudged | platform/core/src/taxonomy-decision.ts:594-651 | a function asked is in a decision exactly where its chance puts it: implied by the settled shelf, or settled from the threshold up, open below it and above what it leaves, and rejected otherwise |
| TaxonomyJudging.SettledShelf | platform/core/src/taxonomy-decision.ts:605-631 | the likeliest shelf, the first offered of several, is settled exactly when one reaches the threshold; otherwise the first category in order whose family together reaches it, its family asked; otherwise nothing, and all that was offered is asked |
| TaxonomyJudging.ValuesJudged | platform/core/src/taxonomy-decision.ts:653-690 | a value asked is settled, open and proposed exactly where its chance and its feature's cardinality put it, of equally likely values the first offered, and nowhere off the shelf judged |
| TaxonomyDeciding.FreshenWell | platform/core/src/taxonomy-decision.ts:702-730 | a decision brought up to date in a later version is still well decided |
| TaxonomyDeciding.FreshenTwice | platform/core/src/taxonomy-decision.ts:702-730 | over versions that restore nothing, bringing a decision up to date twice is bringing it up to date at the last |
| TaxonomyDeciding.DecidedListed | platform/core/src/taxonomy-decision.ts:594-696 | a decision names only shelves, functions, features and values its version lists |
| TaxonomyDeciding.DecidedFreshens | platform/core/src/taxonomy-decision.ts:527-730 | every decision over what its version asks can be brought up to date so |
| TaxonomyJudging.FreshShelves | platform/core/src/taxonomy-decision.ts:702-730 | a decision brought up to date asks of what its shelves now resolve to, each once, if two of them resolve apart, and else of none |
| TaxonomyDecisionLoops.Check | platform/core/src/taxonomy-decision.ts:949-1016 | the loops over a person's parts accept and refuse exactly what the check means |
| TaxonomyAnswers.CheckedOnePer | platform/core/src/taxonomy-decision.ts:979-1013 | an answer let through has at most one value for each feature that takes one if and only if entries naming one such feature agree |
| TaxonomyAnswers.NamedOnceAgrees | platform/core/src/taxonomy-decision.ts:979-1013 | they agree when each feature is named once |
| TaxonomyAnswers.CheckedWell | platform/core/src/taxonomy-decision.ts:949-1016 | an answer let through stays within what was asked, on its final shelf, and gives a shelf exactly when one is asked |
| TaxonomyAnswers.MergedWell | platform/core/src/taxonomy-decision.ts:1026-1052 | deciding, answering and merging give values all on the final shelf, one at most for each feature that takes one, no tick lost, and no function the shelf implies |
| TaxonomyJudging.MergedAgain | platform/core/src/taxonomy-decision.ts:1026-1052 | giving an answer again to what it merged to changes nothing in it |
| TaxonomyAnswering.NamedTwiceEscapes | platform/core/src/taxonomy-decision.ts:979-1013 | one feature that takes one value, on the settled shelf of a usable taxonomy, named by ID and by slug, is let through with two values, and merging keeps both |
| TaxonomyDecisionLoops.Carry | platform/core/src/taxonomy-decision.ts:308-332 | the loops carry over exactly the IDs a person was asked, as they now resolve, under yes or no |
| TaxonomyAnswers.CarriedYes | platform/core/src/taxonomy-decision.ts:308-332 | a person's yes carried over is on the shelf, and one at most for each feature that takes one |
| TaxonomyDecisionLoops.Stand | platform/core/src/taxonomy-decision.ts:340-366 | the loop over statements gives the page's answer as they say it now |
| TaxonomyAnswering.StandingOnePer | platform/core/src/taxonomy-decision.ts:340-366 | that answer has one value at most for each feature that takes one |
| TaxonomyAnswers.MadeWhole | platform/core/src/taxonomy-decision.ts:392-511 | an answer made whole is sound, takes all that is given now, heeds the person's earlier word where it isn't asked again, and keeps what the next question needs |
| TaxonomyAnswers.WellKeptLater | platform/core/src/taxonomy-decision.ts:392-511 | a finalized answer stays well kept in every later version |
| TaxonomyAnswering.AnsweringSound | platform/worker/src/review.ts:613-664 | over every run of versions and every sequence of answers in it, each whole answer is sound, takes what is given now, keeps within what was asked, and has the word before in it, function by function and value by value as they now are: in after a yes, out after a no to all that it now is; a value off the page's shelf is neither in nor kept |
| TaxonomyAnswering.WordStands | platform/core/src/taxonomy-decision.ts:392-511 | a function or value decided before, on the shelf and not asked now, is so in or out of the whole answer, whatever the statements or the decider say, and is kept for the next |
| TaxonomyAnswering.YesLasts | platform/core/src/taxonomy-decision.ts:308-511 | a yes lasts through any number of answers that don't ask it, under whatever it is merged into: to a function, and to a value as long as each shelf in between has its feature and no question decides that whole |
| TaxonomyAnswering.YesIsLost | platform/core/src/taxonomy-decision.ts:308-511 | on a shelf without a value's feature, an answer that doesn't ask the value neither has it nor passes on what was said of it |
| TaxonomyPlacement.Place | platform/core/src/taxonomy-records.ts:69-142 | the loops that fill the stated and chosen maps build exactly the place |
| TaxonomyPlacement.PlacementIssues | platform/core/src/taxonomy-records.ts:154-233 | nothing is found exactly when a place is legal |
| TaxonomyPlacementProofs.PlacedIsPlace | platform/core/src/taxonomy-records.ts:69-233 | every place built from any statements under a usable taxonomy is legal |
| TaxonomyPlacementProofs.PlacedWhen | platform/core/src/taxonomy-records.ts:69-83 | a record has a place exactly when a statement names a shelf that is live after merges |
| TaxonomyPlacementOrder.PlacedInAnyOrder | platform/core/src/taxonomy-records.ts:57-142 | the place, with its provenance, is the same for every order of the statements if and only if the best statements agree on the shelf, and those of each feature of it that takes one on the value |
| TaxonomyPlacementOrder.PlacedAlike | platform/worker/src/taxonomy.ts:179-201 | of statements whose text is their key, as every answer's parts are written, the place and its provenance are the same in every order |
| TaxonomyPlacementProofs.PlacedAsStanding | platform/core/src/taxonomy-records.ts:69-142 | the place holds the shelf, the values on it and the functions that the page's standing answer does, and those the shelf implies |
| Survivorship.BetterOrders | platform/core/src/survivorship.ts:54-63 | the comparison of statements is an order whose ties are transitive |
| Survivorship.Survive | platform/core/src/survivorship.ts:66-95 | the loops over fields and statements give exactly the surviving record |
| Survivorship.KeptIsBest | platform/core/src/survivorship.ts:66-136 | a list keeps one statement for each value or label, none worse than another for it, in page order |
| SurvivorshipOrder.SameInAnyOrder | platform/core/src/survivorship.ts:49-149 | the record, with its provenance, is the same for every order of the statements if and only if, field by field, statements that tie and that nothing for their value or label beats say the same |
| SurvivorshipOrder.NormalizedInAnyOrder | platform/core/src/fields.ts:86-172 | of statements keyed as values are normalized, the record is the same in every order if and only if specs that tie and that nothing beats write their label alike |
| SurvivorshipOrder.TiesCanDiffer | platform/core/src/survivorship.ts:54-63 | two specs so keyed, of one address from two sources, with labels that differ in case, give different records in different orders |
| Matching.IdentifiersDisagree | platform/core/src/matching.ts:86-104 | true exactly when both give identifiers of some kind and share none of any kind |
| Matching.SameSignature | platform/core/src/matching.ts:177-189 | records with equal signatures disagree with exactly the same records |
| Matching.AnyDisagree | platform/core/src/matching.ts:171-175 | going through pairs in order finds a disagreement exactly when any two records disagree |
| Matching.ContestedNames | platform/core/src/matching.ts:126-168 | keeping one record for each signature finds exactly the names that every pair of pages, every page beside the owner, and the waits on an unsure verdict would |
| MatchPlanning.JoinsNoneApart | platform/core/src/matching.ts:209-292 | no plan joins an entity judged not the same, or unsure |
| MatchPlanning.EveryAskIsWell | platform/core/src/matching.ts:209-292 | a question names one to three known entities, none with a verdict on the page, and distinct as long as the scope lists each entity once (`DistinctScope`) |
| MatchPlanning.AskingEnds | platform/core/src/matching.ts:209-332 | with owners and scope fixed, however questions are answered there are at most as many as there are entities |
| MatchPlanning.IdentifiersOutrank | platform/core/src/matching.ts:259-270 | while nothing is judged the same, a page with an owned identifier joins the owner of its strongest, or waits for a verdict on it |
| MatchPlanning.NameAloneWaits | platform/core/src/matching.ts:243-257 | a page that gives only a contested name never starts an entity or asks, and joins only on a verdict |
| MatchPlanning.DisagreementHolds | platform/core/src/matching.ts:126-257 | two pages whose identifiers disagree hold back a third that gives only their name |
| MatchPlanning.JoinsByName | platform/core/src/matching.ts:271-286 | a page joins by a name alone only when no other entity in scope carries it and no identifiers disagree |
| MatchPlanning.CreatesLast | platform/core/src/matching.ts:289-332 | a page starts an entity only when it was judged apart from every similarly named one in its scope |
| MatchPlanning.ClosestFirst | platform/core/src/matching.ts:314-332 | a similar entity that isn't asked about is no closer than any of the three that are |
| Robots.MatchesMeans | platform/core/src/robots.ts:200-228 | taking each piece between wildcards at its earliest succeeds exactly when the pattern means the path (RFC 9309, section 2.2.3) |
| Robots.GreedyIsComplete | platform/core/src/robots.ts:212-228 | the earliest places are found exactly when the pieces are there in some places |
| Robots.Matches | platform/core/src/robots.ts:212-228 | the loop that advances a position computes that match |
| Robots.IsAllowed | platform/core/src/robots.ts:137-152 | allowed exactly when there are no rules, or no rule matches, or an allow rule is among the longest that match (RFC 9309, section 2.2.2) |
| Robots.AllowsAnyOrder | platform/core/src/robots.ts:137-152 | the same for every order of the rules, and however often each is given |
| RobotsGroups.ParseRobots | platform/core/src/robots.ts:44-88 | the merged group for the product, or for any, says exactly what the lines say to it, and there is none exactly when neither is named (RFC 9309, section 2.2.1) |
| RobotsGroups.ReadGroups | platform/core/src/robots.ts:44-71 | the groups read line by line add up, for every user agent, to what the lines say to it |
| RobotsGroups.AgentNames | platform/core/src/robots.ts:58-66 | a user agent joins those before it while they are being read, and otherwise starts a group |
| RobotsGroups.MergeFor | platform/core/src/robots.ts:73-87 | the groups for a product merge to all their rules, the longest delay, and each signal |
| RobotsGroups.SignalIs | platform/core/src/robots.ts:132-135 | a signal is no when some group says no, and otherwise yes when some says yes |
| RobotsGroups.GroupsAnyOrder | platform/core/src/robots.ts:68-152 | the decision, the delay and the signals are the same for every order of the groups |
| Gate.Spaced | platform/core/src/gate.ts:168-208 | over every run, a granted request starts at least an earlier grant's interval after it: a second, the dataset's, and the Crawl-delay |
| Gate.PacedByAnswers | platform/core/src/gate.ts:217-224 | after an answer, the next start waits the interval from when it came |
| Gate.PacedByReads | platform/worker/src/gate-port.ts:58-68 | after a read of robots.txt, it waits the interval that the rules then in force ask for |
| Gate.BacksOff | platform/core/src/gate.ts:217-240 | after the strain that makes k in a row, no later start comes before that answer and the k-th break, which a Retry-After only lengthens |
| Gate.BreaksGrow | platform/core/src/gate.ts:228-231 | breaks double from half a minute and stop at ten minutes, from the sixth on |
| Gate.FailuresCounted | platform/core/src/gate.ts:217-232 | the failures kept are the strains in a row |
| Gate.RefusalsLeaveNoTrace | platform/core/src/gate.ts:168-200 | over every run, the host is as it would be without the requests that were denied or told to come back |
| Gate.LaterIsKept | platform/core/src/gate.ts:194-208 | the time a request is told to come back at is kept, however many are turned away in between: the next starts then, or at once if later, exactly when it is allowed and would wait that long |
| Gate.ChallengesKeepRules | platform/core/src/gate.ts:82-133 | through any number of challenges the rules held stay in force with their age, and are read again exactly when they are a day old and the latest challenge an hour past |
| Sitemap.XmlSitemap | platform/core/src/sitemap.ts:91-190 | the callbacks over an event stream give exactly the run of the reader's steps |
| SitemapProofs.ReadsTheTree | platform/core/src/sitemap.ts:91-190 | for every document tree within the depth limit, that is the tree's list: one entry for each second-level entry element in the root's prefix, its first loc and first lastmod, in order, capped, refused for a second root |
| SitemapProofs.CutOffIsRefused | platform/core/src/sitemap.ts:165-190 | a document that ends with an element open is refused, unless it is past the cap by then |
| SitemapPages.SelectPages | platform/core/src/sitemap.ts:230-277 | each address is kept once, in the order first given, with the latest time given for it, and every entry is counted once as kept, repeated, elsewhere, unusable or unmatched |
| SitemapPages.LatestIs | platform/core/src/sitemap.ts:262-274 | the time kept is one given for the address, and none given is later |
| SitemapPages.KeptAnyOrder | platform/core/src/sitemap.ts:230-277 | which addresses are kept, and their times, are the same for every order of the entries |
| Captures.AfterBatch | platform/store/src/captures.ts:125-169 | what is left to prune after a batch is what there was, without the batch |
| Captures.BatchesDelete | platform/store/src/captures.ts:125-169 | at a fixed time and fixed citations, oldest-first batches of any positive limit delete exactly what one unlimited prune would |
| Captures.KeptAlways | platform/store/src/captures.ts:125-169 | no batch deletes a page's latest capture or one a current statement cites |
| Captures.RunsPrune | platform/worker/src/captures.ts:121-151 | over runs each at its own time, limit and citations, once one deletes less than its limit, what is left is what one unlimited prune there and then would leave of what there was at first |
| Captures.Archive.CleanUp | platform/worker/src/captures.ts:130-151 | a run deletes its batch and leaves every current citation |
| Captures.FreedIsUnheld | platform/store/src/captures.ts:176-202 | a body is freed exactly when a deleted capture has it and no remaining capture or page does |
| Captures.Archive.Record | platform/store/src/captures.ts:64-69 | a capture is recorded once, and recording it again gives back what is there |
| Captures.Archive.Delete | platform/store/src/captures.ts:205-212 | deleting takes exactly those rows, and a statement that cited one cites none |
| Captures.Archive.PurgeSource | platform/store/src/captures.ts:276-311 | a purge takes the source's captures, its pages' copies and the hashes their fetches logged, counts both, and touches nothing else |
| Captures.PurgeLeavesNothing | platform/store/src/captures.ts:223-311 | nothing a purge leaves holds a body it frees, and purging again names nothing |
| Gtin.HasValidCheckDigit | platform/core/src/gtin.ts:11-18 | the loop from the right computes the check digit of section 7.9 of the GS1 General Specifications |
| Gtin.PaddingKeeps | platform/core/src/gtin.ts:11-29 | zeros in front keep a check digit valid, or invalid, at any length |
| Gtin.ChangeBreaks | platform/core/src/gtin.ts:11-18 | changing any one digit of a valid number breaks it |
| Gtin.NormalizeAgain | platform/core/src/gtin.ts:25-29 | normalizing is idempotent and gives 14 digits that are a GTIN |
| Gtin.SameGtin | platform/core/src/gtin.ts:25-29 | two accepted inputs normalize alike exactly when their digits differ only in zeros in front |

## Left out

- How fresh IDs are made: each change is given the IDs it draws, and a clash is refused as the source refuses it.
- Wording: the text of refusals, summaries and paths; and which issue is found first.
- Schemas: lengths, patterns of slugs, and the most items a list may hold. The scope's clauses are not read (`inScope`).
- Unicode: folding names to keys, `textKey`, trigram scores, and the words of names (`nameWords`, `differsOnlyByModelMarks`,
  `modelNumberRule`); with them lineups and the merging of an entity's values, which would add only easy members.
- The rounding of floating-point sums: probabilities are exact reals.
- Records as text: answers read from and written to JSON, question keys (`taxonomyKey`), the rule's shelf (`ruleShelf`),
  `canonicalTaxonomy`, prompts and model calls.
- Markup: robots.txt lines come split into keys and values, sitemaps as events, and addresses, dates and percent-encoding
  as given. Plain-text sitemaps are not modelled.
- What robots.txt's status codes mean (`robotsRecord`, `robotsRefused`) and the text of a Retry-After: the gate takes the
  record and the milliseconds.
- The database: transactions, locks and concurrent inserts. Tables are sequences of rows, and text sorts by code unit.
- MatchPlanning.AskingEnds: the page's own values, the owners and the scope stay fixed between questions, as other pages
  that join in between may add entities to ask about.
- The pass over all of a dataset's pages that joins and creates entities: only each page's plan is modelled.
- TaxonomyUndoAccepted.UndoAccepted: the undo comes right after its batch, which holds no restore, as `changeSchema` has it
  for what is proposed; an undo holds some, and `TaxonomyRedoAccepted.RedoAccepted` is for those. When the undo of an older
  version, or of an undo's undo, is accepted is not stated; what it gives back is right if it comes right after its batch
  (`TaxonomyUndoBatch.UndoBatch`), and the words it puts back are whatever came in between (`TaxonomyUndo.UndoneContent`).
- What the store refuses to undo before it asks the engine: the seed, a version undone already, and a change of scope.
- Captures.RunsPrune: no capture is taken between the runs, nor cited anew; with newer captures, what an earlier run deleted
  as a copy of the latest may have been kept by a later one.
- TaxonomyForwarding.ForwardBatch: enough for forwarding to stay acyclic, not needed; no batch that is sent is any other
  (`TaxonomyLimits.SentUnmixed`).
