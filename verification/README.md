# Hyperset, verified

Hyperset serves governed analytics context to agents: which sources, fields, joins and filters a
question may be answered with. This project models the parts of it whose correctness is hard to see
by reading them, and proves what they promise.

- **The SQL comparator** (`Lexer`, `Passes`): lexing, the folds to a canonical key, the relaxations
  to a coarser one, and the three verdicts. `Grammar` and `Parsing` give fragments a printer, a reader
  that follows PostgreSQL's operator precedence (section 4.1.6 of its manual) and a NULL-aware meaning,
  all of which know nothing of the comparator; `Printed` and `Meaning` measure the comparator against
  them, for every spelling of a fragment that precedence can read.
- **The plan validator** (`Pairing`, `TextPairing`, `Plan`, `Composed`): the two-pass pairing of
  filters, every section of a single-domain verdict, and the composed path over several domains.
- **The unattended merge** (`Precheck`, `Poll`, `PollPass`, `Constraints`, `ConstraintGate`,
  `GateLine`): the poll as a state machine. Pushes, comments, CI reports, base moves, hand merges,
  closings, reopenings and ledger edits interleave with the poll's fetch, decision, button and
  reconciliation, in any order and number. The readers of the constraints on a verdict line and of
  the gate's evidence line are modelled by themselves.
- **Bounded walks and budgets** (`Reach`, `Walk`, `Budget`, `Projection`): the capped walk from the
  root with its probe for what was dropped, the binary search on a byte budget, and the hop bound on
  a domain's graph.
- **Discovery and selection** (`Discovery`, `Selection`): the ranking with its earned proposal, and
  the selection of several domains that makes the later constructions safe.
- **Configuration** (`Layers`, `Settings`): layering, validation, and the one walk that both resolves
  and redacts secrets.

Where the program loops and reassigns, the model has a method with a loop, proved equal to a
function; the `...Laws` modules say what that function means. Text is a sequence of ASCII
characters. Git is a deterministic function from a base and a head to the tree that would land; what
the suite, the forge and the ledger answer are parameters or events. A violation or a blocking reason
is kept by its kind, severity and subject.

## Where the code and its documentation differ

The model follows the code. Each difference is a lemma, beside the exact condition under which the
documented behaviour does hold.

- The comparator's documentation (`hyperset/bundle/equivalence.py:17-22`) calls a difference confined
  to a cast UNDECIDED. A fragment that stands in parentheses for its cast to apply to is DIFFERENT from
  that cast, because the relaxed key is not stripped of outer parentheses again:
  `Meaning.CastIsUndecidedIff`, `Meaning.CastOfSumIsDifferent`.
- It also says (`hyperset/bundle/equivalence.py:32-37`) that no two different computations ever compare
  equal. Folding `in (x)` to `= x` changes what an operator that binds tighter than `=` applies to:
  `a in (1)::int` and `a = 1::int` have one key, as have `b = a in (1)` and `b in (a) = 1`, and not one
  value: `Meaning.CastMembershipCollides`, `Meaning.OneKeyTwoValues`,
  `Meaning.ComparedMembershipCollides`. The promise holds of fragments in which no such operator follows
  a one-token list and no comparison stands right before its item, and these are exactly the fragments
  whose key reads as it was meant: `Meaning.OneKeyMeansOneValue`, `Meaning.KeyReadsAsMeantIff`. Every
  other key is that of a second fragment too, wherever it reads at all: `Meaning.UnsafeKeyIsShared`.
- The lexer knows no comments, so `x --1` and `x - -1` have one key: `Meaning.CommentIsRead`.
- The pass over casts restarts from the first token when the parenthesis after a cast type never
  closes, and then never ends: `PassesLaws.CastLoopEndsIff`, `Meaning.UnclosedCastNeverCompares`. Texts
  whose parentheses match are safe: `PassesLaws.MatchedTextsCompare`.
- The poll's documentation (`scripts/refinery_poll.py:23-34`) says a base that moves cannot land a
  tree no verdict reviewed. That holds when the poll decides, but only the head is pinned when it
  presses the button: `PollRaces.BaseMoveLandsAnUngradedTree`. It holds of every landing for which no
  base move since the poll read that change gives it another tree, whatever happened before or to other
  changes: `PollRaces.SteadyLandingsAreGraded`. No bead is closed on an ungraded landing:
  `PollRaces.UngradedLandingClosesNothing`.
- A constraint of an unknown kind in the `constraints=` field is to be preserved and to block. One
  written after `; ` is read by neither channel: `ConstraintGate.UnknownKindIsLost`,
  `ConstraintGate.FrobnicateIsLost`. The field ends at a blank exactly when no semicolon comes next:
  `ConstraintsLaws.FieldEndsAtBlankIff`.
- A known kind is to be found wherever it sits. One written right after a glued colon is not, and
  since repeats are dropped by raw text, a readable token hides a later unreadable one of the same
  text, and the block with it: `ConstraintGate.GluedRepeatHidesAKind`,
  `ConstraintsLaws.RepeatHidesAGluedToken`. A read constraint is returned exactly when it is the first
  of its raw text: `ConstraintsLaws.ReadIffFirstOfItsRaw`. What does bind the merge is
  `ConstraintGate.WrittenKindBinds`.
- The gate's comment (`scripts/gate.py:291-299`) says an environment field round-trips to the raw
  value. A newline, a carriage return or a tab comes back as the two characters that escape it:
  `GateLineLaws.RawIffOneLine`, `GateLineLaws.NewlineReadsAsBackslashN`.
- The probe of the root walk tells nothing when a bound is negative, and the walk raises no negative
  bound: `WalkLaws.ProbeIsExactIff`. The transports refuse bounds below 1
  (`hyperset/transport/operations.py:1710-1744`), so only a caller of the function itself gets there.
- The budget search can refuse although a smaller walk fits, because disclosed exclusions grow as the
  walk shrinks: `BudgetLaws.CanRefuseThoughAWalkFits`, `BudgetLaws.ShrinkingGrowsIff`. It shows the
  largest breadth that fits if and only if every smaller breadth it tries fits:
  `BudgetLaws.ShowsTheMostIff`.
- An explicit null unsets a key only where the base holds a mapping for it to be taken from;
  otherwise the null is copied in: `Layers.NullUnsetsIff`, `Layers.LayerTwiceIff`.

## Model

| member | source | states |
|---|---|---|
| `Lexer.ClosingQuote` | hyperset/bundle/equivalence.py:155-166 | the loop ends a quoted run where its quote is met undoubled, or at the end of the source |
| `Lexer.ClosingDollarQuote` | hyperset/bundle/equivalence.py:169-172 | a dollar quote ends at the first repetition of its own tag, or at the end of the source |
| `Lexer.NextToken` | hyperset/bundle/equivalence.py:112-151 | one round takes exactly the longest token at the index and folds the case of words only |
| `Lexer.Tokens` | hyperset/bundle/equivalence.py:110-152 | the index loop computes the token list that the laws below are about |
| `LexerLaws.LexIsStable` | hyperset/bundle/equivalence.py:110-152 | every source, unterminated runs included, lexes to the same tokens again when these are written with single blanks between |
| `LexerLaws.LexOfSpaced` | hyperset/bundle/equivalence.py:110-152 | any list of well-formed tokens of which at most the last is left open is read back as itself |
| `LexerLaws.LexLosesOnlySpelling` | hyperset/bundle/equivalence.py:110-172 | the tokens run together are the source less its unquoted blanks and unquoted case, as an account that reads one character at a time gives it |
| `LexerLaws.QuotedTextIsOneToken` | hyperset/bundle/equivalence.py:155-166 | any text, quoted with its quotes doubled, is one verbatim token, whatever follows that does not start with the same quote |
| `LexerLaws.DollarTextIsOneToken` | hyperset/bundle/equivalence.py:169-172 | any text that does not hold the tag is one verbatim token when dollar-quoted |
| `LexerLaws.WordIsOneToken` | hyperset/bundle/equivalence.py:133-144 | a word is one token, lowered, and runs as far as it can |
| `LexerLaws.SymbolIsOneToken` | hyperset/bundle/equivalence.py:145-151 | any other character is a token of its own unless it starts one of the operator pairs |
| `Passes.ClosingParen` | hyperset/bundle/equivalence.py:250-259 | the depth loop finds the partner of the parenthesis, or -1 |
| `Passes.IsBalanced` | hyperset/bundle/equivalence.py:262-271 | the depth loop decides matching of all parentheses |
| `Passes.DropOutputAlias` | hyperset/bundle/equivalence.py:175-185 | an alias comes off only after a name at the end of a matched fragment |
| `Passes.DropOuterParens` | hyperset/bundle/equivalence.py:188-191 | the loop loses two tokens a round and ends with a list no pair wraps |
| `Passes.SingleValueInAsEquals` | hyperset/bundle/equivalence.py:194-211 | the index loop rewrites every one-token membership, left to right, and nothing else |
| `Passes.DropQualifiers` | hyperset/bundle/equivalence.py:214-231 | the index loop reduces every qualified chain to its last part |
| `Passes.DropCasts` | hyperset/bundle/equivalence.py:234-247 | where every cast parenthesis closes, the index loop ends and takes out the casts with their precisions |
| `Passes.CanonicalKey` | hyperset/bundle/equivalence.py:93-103 | the key is the folded token list the laws are about |
| `Passes.CompareFragments` | hyperset/bundle/equivalence.py:82-90 | the verdict on two texts is the verdict on their keys, relaxed only when these differ |
| `PassesLaws.CloseSkipsBalanced` | hyperset/bundle/equivalence.py:250-259 | a matched stretch does not move the closing parenthesis of what it stands in |
| `PassesLaws.CloseEnclosesBalanced` | hyperset/bundle/equivalence.py:250-259 | a parenthesis and the one found for it enclose matched text |
| `PassesLaws.WrappedIffEnclosed` | hyperset/bundle/equivalence.py:188-191 | tokens are unwrapped exactly when one pair of parentheses encloses a matched body |
| `PassesLaws.OuterParensComeOffInLayers` | hyperset/bundle/equivalence.py:188-191 | the pass removes whole layers of parentheses, all of them and nothing else |
| `PassesLaws.CastLoopEndsIff` | hyperset/bundle/equivalence.py:234-259 | the loop over casts leaves the list if and only if every parenthesis that opens right after a cast type, where the loop meets one, closes |
| `PassesLaws.BalancedCastsClose` | hyperset/bundle/equivalence.py:234-259 | so it ends on every fragment whose parentheses match |
| `PassesLaws.MatchedTextsCompare` | hyperset/bundle/equivalence.py:82-107 | two texts whose parentheses match always compare: the folds and the relaxation of qualifiers keep them matched |
| `Meaning.UnclosedCastNeverCompares` | hyperset/bundle/equivalence.py:234-259 | the witness: `a::t(` compared with a text of any other key does not end |
| `PassesLaws.KeyCarriesTheData` | hyperset/bundle/equivalence.py:99-103 | alias, parenthesis and membership folding keep the sequence of quoted and dollar-quoted runs |
| `PassesLaws.EquivalentFragmentsShareData` | hyperset/bundle/equivalence.py:27-30 | EQUIVALENT fragments state the identical sequence of literals |
| `PassesLaws.QualifiersKeepData` | hyperset/bundle/equivalence.py:214-231 | forgetting qualifiers keeps every literal, in order |
| `PassesLaws.NoQualifierLeft` | hyperset/bundle/equivalence.py:214-231 | no position of a relaxed key starts a qualified name |
| `PassesLaws.VerdictsAreEquivalences` | hyperset/bundle/equivalence.py:82-90 | wherever the comparisons end, EQUIVALENT and not-DIFFERENT are equivalence relations, the verdict is symmetric, and replacing a side by an EQUIVALENT one never changes it |
| `Parsing.ReadsIffPrinted` | hyperset/bundle/equivalence.py:110-114 | reading by precedence and printing undo each other: a token list reads as an expression exactly when the expression has every parenthesis it needs and prints as that list |
| `Parsing.PrintIsInjective` | hyperset/bundle/equivalence.py:110-114 | different expressions that precedence can read have different tokens, with no more parentheses than they need |
| `Printed.KeyOfPrinted` | hyperset/bundle/equivalence.py:99-103 | the key of a printed fragment, aliased or not, is its expression in normal form without outer parentheses, printed |
| `Printed.NormalFitsIffSafe` | hyperset/bundle/equivalence.py:194-211 | folding one-token lists leaves the tree that precedence reads exactly when no operator tighter than `=` follows such a list and no comparison stands right before its item |
| `Meaning.PrintedTextSpells` | hyperset/bundle/equivalence.py:110-152 | a fragment written with single blanks is one of its spellings |
| `Meaning.ReadTextSpells` | hyperset/bundle/equivalence.py:110-152 | any text whose tokens precedence can read is a spelling of the fragment it reads |
| `Meaning.KeyReadsAsMeantIff` | hyperset/bundle/equivalence.py:32-37 | a fragment's key, read by precedence, is the normal form of what was meant if and only if no operator tighter than `=` follows a one-token list and no comparison stands right before its item |
| `Meaning.UnsafeKeyIsShared` | hyperset/bundle/equivalence.py:32-37 | otherwise what the key reads as, in any spelling, is a fragment of the same key and another normal form |
| `Meaning.CastMembershipCollides` | hyperset/bundle/equivalence.py:194-211 | any texts of the shapes `a in (1)::t` and `a = 1::t` are EQUIVALENT, and a warehouse tells them apart |
| `Meaning.OneKeyTwoValues` | hyperset/bundle/equivalence.py:32-37 | the witness: `a in (1)::int` and `a = 1::int` |
| `Meaning.ComparedMembershipCollides` | hyperset/bundle/equivalence.py:194-211 | any texts of the shapes `b = a in (1)` and `b in (a) = 1` are EQUIVALENT, and warehouses tell them apart |
| `Meaning.CommentIsRead` | hyperset/bundle/equivalence.py:110-152 | a comment's dashes and text lex as two minuses and what follows them |
| `Meaning.NormalKeepsMeaning` | hyperset/bundle/equivalence.py:194-211 | membership in a one-token list and equality evaluate alike, NULLs included |
| `Meaning.OneKeyIffOneNormalForm` | hyperset/bundle/equivalence.py:82-103 | two spelled fragments whose keys read as meant are EQUIVALENT if and only if their expressions have one normal form under their outer parentheses |
| `Meaning.OneKeyMeansOneValue` | hyperset/bundle/equivalence.py:13-16 | EQUIVALENT fragments whose keys read as meant have the same value in every warehouse and however they are spelled |
| `Meaning.SpelledFragmentsCompare` | hyperset/bundle/equivalence.py:82-90 | the comparison of any two fragments, folds and all, comes to an end |
| `Meaning.NotDifferentIffLooselyEqual` | hyperset/bundle/equivalence.py:17-22 | it is not DIFFERENT exactly when the two fragments, keys read as meant, agree once qualifiers and casts are forgotten |
| `Meaning.NotDifferentIsConfined` | hyperset/bundle/equivalence.py:17-22 | where qualifiers pick no other column and casts change no value, such fragments that are not DIFFERENT have the same value |
| `Meaning.CastIsUndecidedIff` | hyperset/bundle/equivalence.py:17-22 | a fragment and its own cast are UNDECIDED if and only if the cast is written without parentheses around what it casts, else DIFFERENT |
| `Meaning.CastOfSumIsDifferent` | hyperset/bundle/equivalence.py:106-107 | the witness: `a + b` and `(a + b)::int` are DIFFERENT |
| `Pairing.UniqueFragments` | hyperset/bundle/plan.py:1584-1591 | the loop keeps the first statement of each computation |
| `Pairing.FirstMatch` | hyperset/bundle/plan.py:1594-1598 | the first candidate not yet paired with the wanted verdict, or none when there is none |
| `Pairing.PairExact` | hyperset/bundle/plan.py:1056-1062 | after the first pass exactly the stated filters with a required twin are flagged, and exactly the required ones without a twin are left over |
| `Pairing.PairLeftovers` | hyperset/bundle/plan.py:1064-1092 | the second pass settles each leftover with the stated filter of its rank in its class |
| `Pairing.FilterFindings` | hyperset/bundle/plan.py:1045-1110 | the two passes over flags report exactly the findings that the pairing laws are about |
| `PairingLaws.UniqueKeepsOnePerKey` | hyperset/bundle/plan.py:1584-1591 | one entry per computation, no computation lost, none invented |
| `PairingLaws.UniqueKeepsTheFirst` | hyperset/bundle/plan.py:1584-1591 | the words kept are those of the first statement |
| `PairingLaws.PairsMatch` | hyperset/bundle/plan.py:1045-1110 | the pairing is injective, never joins DIFFERENT fragments, and covers all but the missing filters |
| `PairingLaws.PairingLosesNothing` | hyperset/bundle/plan.py:1045-1110 | required filters are exact, undecidable or missing; stated ones exact, undecidable or unapproved; the settled ones on both sides are as many |
| `PairingLaws.PairingIsOptimal` | hyperset/bundle/plan.py:1045-1110 | no injective pairing of fragments that are not DIFFERENT leaves fewer required filters missing |
| `PairingLaws.MissingIgnoresOrder` | hyperset/bundle/plan.py:1045-1110 | which filters are missing does not depend on the order or repetition of what the plan states |
| `PairingLaws.MissingIsTheShortfall` | hyperset/bundle/plan.py:1045-1110 | in each relaxed class, as many are missing as are required beyond what is stated |
| `PairingLaws.NoFindingIffSameKeys` | hyperset/bundle/plan.py:1045-1110 | nothing is reported exactly when both sides state the same computations |
| `TextPairing.FiltersAreOrderly` | hyperset/bundle/plan.py:1584-1591 | filters read by the comparator and de-duplicated satisfy what the pairing laws ask for |
| `TextPairing.FewestAreMissing` | hyperset/bundle/plan.py:1045-1110 | on texts: the number of filters reported missing is the least over all injective pairings the comparator calls no pair of DIFFERENT, and some pairing attains it |
| `TextPairing.MissingIsTheTextShortfall` | hyperset/bundle/plan.py:1045-1110 | on texts: in each relaxed class, as many required computations are missing as are required beyond what is stated |
| `TextPairing.FilterFindingsOfTexts` | hyperset/bundle/plan.py:1045-1110 | the two passes on texts: no finding exactly when both sides state the same keys, and no pairing leaves fewer missing |
| `Plan.SourceViolations` | hyperset/bundle/plan.py:856-917 | the loop reports each distinct ref as prohibited, observed-only or unapproved, in that order of precedence |
| `Plan.FieldViolations` | hyperset/bundle/plan.py:920-999 | the loop reports ungoverned, conflicting, undecidable and wrongly sourced fields |
| `Plan.JoinViolations` | hyperset/bundle/plan.py:1009-1042 | the loop reports ungoverned joins and joins of another type |
| `Plan.FanoutViolations` | hyperset/bundle/plan.py:1199-1256 | the loop reports aggregated sources of another grain |
| `Plan.ClassificationViolations` | hyperset/bundle/plan.py:1276-1320 | the loop reports sensitive sources the plan reads that no caveat names |
| `Plan.ValidateSingleDomain` | hyperset/bundle/plan.py:408-434 | the sections put together give the verdict that the laws are about |
| `PlanLaws.SoloReport` | hyperset/bundle/plan.py:408-434 | an error is reported exactly when the plan contradicts the governed context, and silence means there is also nothing to disclose |
| `PlanLaws.StatusIsExact` | hyperset/bundle/plan.py:1463-1477 | soundness and completeness: each of the five statuses is given exactly when its condition on plan and context holds; of filters, that no relaxed class is required more often than the plan states it |
| `PlanLaws.UnverifiableWhen` | hyperset/bundle/plan.py:766-847 | unverifiable exactly for another bundle id, an ungoverned bundle, or a plan without sources |
| `PlanLaws.EchoIsValid` | hyperset/bundle/plan.py:408-434 | a plan that states well-formed instructions back is valid, or valid with the disclosed gaps |
| `Composed.OwningComponents` | hyperset/bundle/plan.py:555-570 | the map built by the loops gives each ref the distinct components that approve it, in order |
| `ComposedLaws.UnengagedComponentsDoNotInterfere` | hyperset/bundle/plan.py:459-509 | whatever an unengaged component holds besides its approved sources, status, violations and gaps are identical |
| `ComposedLaws.OneEngagedIsSolo` | hyperset/bundle/plan.py:459-734 | with one component engaged and nothing ambiguous or across domains, the violations are that component's own less grain and fan-out |
| `ComposedLaws.ComposedIsNeverPlainlyValid` | hyperset/bundle/plan.py:737-763 | a composed answer always discloses a gap |
| `ComposedLaws.CleanSourcesAreOwned` | hyperset/bundle/plan.py:505-552 | a clean composed answer reads only sources with one engaged owner that no engaged component prohibits or merely observes |
| `ComposedLaws.CleanFiltersAreTheUnion` | hyperset/bundle/plan.py:609-734 | a clean composed answer states exactly the filters its engaged components require, and no join leaves a domain |
| `Precheck.CompletionBeadList` | scripts/merge_precheck.py:389-405 | the loop lists each named bead once, in first-seen order |
| `Precheck.MergeAuthorisers` | scripts/merge_precheck.py:720-778 | gathering roles per comment in a map gives the roles that speak alone in some comment |
| `Precheck.EvaluateReasons` | scripts/merge_precheck.py:461-560 | the appended reasons are, in order, those the laws are about |
| `Precheck.ConstraintReasonList` | scripts/merge_precheck.py:670-698 | one reason for each constraint that is not honoured |
| `PrecheckLaws.CountedConcat` | scripts/merge_precheck.py:563-583 | which verdicts count is decided one verdict at a time |
| `PrecheckLaws.UncountedIsAbsent` | scripts/merge_precheck.py:563-583 | a verdict that is untrusted or names another change or head is as good as absent |
| `PrecheckLaws.MergeConstraintsAreComplete` | scripts/merge_precheck.py:701-717 | the merge is bound by exactly the constraints of counted MERGE verdicts |
| `PrecheckLaws.PrecheckIsExact` | scripts/merge_precheck.py:461-560 | no reason is given exactly when pin, trailer, checks and verdicts are all in order |
| `PrecheckLaws.StaleVerdictsDoNotBlock` | scripts/merge_precheck.py:586-667 | a voided rejection at an earlier head neither blocks nor clears |
| `PrecheckLaws.AuthorisedIffCriticAndAdversary` | scripts/merge_precheck.py:720-778 | two roles authorise exactly when critic and adversary each speak alone in a comment of their own, and there are never more than two |
| `PrecheckLaws.OneCommentIsNotTwo` | scripts/merge_precheck.py:720-778 | one comment never lends two roles |
| `PrecheckLaws.GateAndExtractorAgree` | scripts/merge_precheck.py:372-405 | a bead is listed exactly when the gate would find its trailer |
| `PrecheckLaws.OneBeadIffOnlyTrailer` | scripts/merge_precheck.py:389-405 | one bead is listed exactly when trailers name one bead, however often |
| `Poll.DecideReasons` | scripts/refinery_poll.py:303-405 | the appended reasons are those of the decision, the suite being asked only when nothing else blocks |
| `PollLaws.DecisionIsExact` | scripts/refinery_poll.py:303-405 | the poll may land a change exactly when it is clear on every count; a floor above two makes it inert |
| `PollLaws.UncountedVerdictNeverDecides` | scripts/merge_precheck.py:563-583 | posting an uncounted verdict, anywhere, neither clears nor blocks a merge |
| `PollLaws.VerdictsComeFromComments` | scripts/merge_precheck.py:282-358 | every verdict is a ruling of the comment whose identity and author it carries |
| `PollLaws.ClearIsGraded` | scripts/refinery_poll.py:303-405 | a clear change has the tree that would land signed by critic and adversary in two different comments |
| `PollLaws.StepKeepsSound` | scripts/refinery_poll.py:627-741 | every step of anyone keeps the invariant that ties the poll's snapshot, landings and closures to the comments |
| `PollLaws.RunIsSound` | scripts/refinery_poll.py:661-741 | so the invariant holds after every interleaving |
| `PollLaws.OnlyGradedTreesCloseBeads` | scripts/refinery_poll.py:473-555 | over every run, a bead the poll closed belongs to a change that landed at the pinned head and at the tree that critic and adversary signed in different comments, and it is the one bead that the commits of that head named when the poll read it |
| `PollRaces.SteadyLandingsAreGraded` | scripts/refinery_poll.py:23-34 | on every run, a change the poll lands is shut for good at the head and tree that critic and adversary signed in different comments, unless a base move since the poll last held nothing gave that very change another tree; what happened before, and to other changes, does not matter |
| `PollRaces.ClosesIff` | scripts/refinery_poll.py:488-555 | a landed change's bead is closed exactly when everything could be read, the base move kept the tree, and trailers name one known open bead |
| `PollRaces.ClosesTheBranchBead` | scripts/refinery_poll.py:488-555 | a change held to its branch's bead closes that bead or none |
| `PollRaces.ClearChangeReachesTheButton` | scripts/refinery_poll.py:661-741 | a clear change that is fetched and decided on is ready to land |
| `PollRaces.ButtonLandsAndCloses` | scripts/refinery_poll.py:473-555 | left alone, it lands at the graded tree and its bead is closed: the whole new state |
| `PollRaces.NoBeadIsClosedTwice` | scripts/refinery_poll.py:488-555 | unless someone reopens one, no run closes a bead twice |
| `PollRaces.BaseMoveLandsTheNewTree` | scripts/refinery_poll.py:473-482 | if the base moves between decision and press, the tree of the new base lands |
| `PollRaces.UngradedLandingClosesNothing` | scripts/refinery_poll.py:488-555 | on every run, a change that landed at a tree the two did not sign never has a bead closed |
| `PollRaces.BaseMoveLandsAnUngradedTree` | scripts/refinery_poll.py:23-34 | the witness: for any two bases that merge to different trees there is a run in which one base move before the press lands a tree nobody signed |
| `PollPass.PollOnce` | scripts/refinery_poll.py:661-741 | a pass is a run of the state machine with everyone else's steps in between; every change is counted once as cleared or skipped, closures are owed to landings, and a dry run lands nothing |
| `ConstraintsLaws.WrittenConstraintsReadBack` | scripts/merge_precheck.py:150-181 | any list of known constraints, written with either separator, reads back as itself |
| `ConstraintsLaws.ChannelsAgree` | scripts/merge_precheck.py:184-226 | on such a line field and scan read the same list, and the line reads as it less repeats |
| `ConstraintsLaws.NoKnownKindVanishes` | scripts/merge_precheck.py:193-198 | on any line, every known kind that is written apart is carried by a returned constraint, alone or inside the token it is glued to |
| `ConstraintsLaws.NoReadTextVanishes` | scripts/merge_precheck.py:208-226 | every text either channel reads is the text of a returned constraint |
| `ConstraintsLaws.ReadIffFirstOfItsRaw` | scripts/merge_precheck.py:208-226 | what a channel reads is returned exactly when nothing read before it has its raw text |
| `ConstraintGate.ReadConstraintsBind` | scripts/merge_precheck.py:670-717 | a merge nothing blocks has every known constraint of its MERGE verdicts' lines honoured, whichever channel read it, and no unreadable one whose text was not read cleanly before |
| `ConstraintGate.WrittenKindBinds` | scripts/merge_precheck.py:193-198 | a known kind written anywhere on such a line binds the merge: it is honoured, or part of an unreadable token whose text was read cleanly before |
| `ConstraintsLaws.SwallowedKindGlues` | scripts/merge_precheck.py:217-222 | a kind inside an earlier token ends that token at its colon and makes it unknown |
| `ConstraintsLaws.ScanSplitsAtSpace` | scripts/merge_precheck.py:130-141 | a space keeps the two sides of a scanned line apart |
| `ConstraintsLaws.FieldEndsAtBlankIff` | scripts/merge_precheck.py:213-216 | the field ends at a blank exactly when no semicolon comes next |
| `ConstraintsLaws.UnknownAfterSpacedSemicolonVanishes` | scripts/merge_precheck.py:213-216 | what stands after a blank that the field ends at, and names no known kind, leaves no trace on the line |
| `ConstraintGate.UnknownKindIsLost` | scripts/merge_precheck.py:189-192 | any unknown kind after `; ` would be read as blocking by itself, and the line holds only the constraint before it |
| `ConstraintGate.FrobnicateIsLost` | scripts/merge_precheck.py:189-192 | the witness: the line `constraints=merge_after:#1; frobnicate:x` reads as its first constraint alone |
| `ConstraintsLaws.GluedTokenBlocks` | scripts/merge_precheck.py:217-222 | a token a colon cuts short is read as unknown |
| `ConstraintsLaws.RepeatHidesAGluedToken` | scripts/merge_precheck.py:208-211 | after a clean token of the same text the unreadable one is dropped |
| `ConstraintGate.GluedRepeatHidesAKind` | scripts/merge_precheck.py:217-225 | a known kind written right after a glued colon is read by neither channel; behind a repeat the line reads as if it were not there |
| `Constraints.LineConstraintList` | scripts/merge_precheck.py:184-226 | the seen-set loop over both channels keeps the first constraint of each raw text |
| `GateLine.ParseEvidence` | scripts/gate.py:492-512 | the loop over the split words gives the fields the laws are about, the last of a repeated key, or an error |
| `GateLineLaws.FieldIsRead` | scripts/gate.py:459-489 | a printed field is read as one word, up to where the next one starts |
| `GateLineLaws.LineSplits` | scripts/gate.py:459-512 | the line splits into its labels and one word for each field |
| `GateLineLaws.LineReadsBack` | scripts/gate.py:459-512 | parsing a printed line gives exactly the version and the sixteen fields, with the printed values, whatever the environment held |
| `GateLineLaws.RawIffOneLine` | scripts/gate.py:290-304 | an environment value reads back raw exactly when it holds no newline, carriage return or tab |
| `GateLineLaws.NewlineReadsAsBackslashN` | scripts/gate.py:291-299 | the witness: two different values that read back alike |
| `GateLineLaws.EvidenceIsOneLine` | scripts/gate.py:291-299 | no environment value splits the line |
| `GateLineLaws.DisclosableIsInjective` | scripts/gate.py:302-304 | different values are printed differently |
| `GateLineLaws.RenderedIsDisclosable` | scripts/gate.py:307-334 | the rendered environment is an escaped raw text, so the line that carries it reads back |
| `Reach.NearIffShortPath` | hyperset/bundle/resolver.py:1639-1697 | distance, the reference of both walks, is the length of a shortest path |
| `Walk.WalkFromRoot` | hyperset/bundle/expansion.py:629-688 | the queue loop and its wider second run compute the walk and the count that the laws are about |
| `WalkLaws.CapTakesTheFirst` | hyperset/bundle/expansion.py:648-666 | a component bound gives the first so many of the unbounded walk |
| `WalkLaws.WalkIsFirstOfBreadthOrder` | hyperset/bundle/expansion.py:629-688 | the walk is the first `max_components` of the breadth order cut at `max_hops` |
| `WalkLaws.WalkGrowsByExtension` | hyperset/bundle/expansion.py:629-688 | raising either bound only appends |
| `WalkLaws.WalkListsParentsOnceAndFirst` | hyperset/bundle/expansion.py:648-666 | no domain twice, every domain after the parent that leads to it |
| `WalkLaws.WalkReachesTheNear` | hyperset/bundle/expansion.py:648-666 | the walk reaches exactly the domains at most `max_hops` below the root |
| `WalkLaws.WalkReachesTheReachable` | hyperset/bundle/expansion.py:648-666 | without bounds it reaches exactly what some path leads to, parent cycles included |
| `WalkLaws.DroppedIsACount` | hyperset/bundle/expansion.py:668-688 | the number disclosed as dropped is never negative |
| `WalkLaws.ProbeIsExact` | hyperset/bundle/expansion.py:668-688 | one extra slot of each suffices: nothing is disclosed exactly when everything reachable was reached |
| `WalkLaws.ProbeIsExactIff` | hyperset/bundle/expansion.py:668-688 | that holds if and only if no bound is negative or there are no roots |
| `WalkLaws.OnlyCyclesAreUnreachable` | hyperset/bundle/expansion.py:501-512 | from the root's children the unbounded walk misses only domains on or below a cycle of parents |
| `Budget.LargestBreadth` | hyperset/bundle/expansion.py:599-616 | the while loop over low, high and fitting is the search that the laws are about |
| `Budget.ExpandFromRoot` | hyperset/bundle/expansion.py:417-626 | bounds, walk, size test and search put together give the answer that the laws are about |
| `BudgetLaws.SearchEndsAtAnEdge` | hyperset/bundle/expansion.py:599-616 | whatever the sizes, the search ends at a breadth that fits while the next does not, or finds that one domain does not fit |
| `BudgetLaws.SearchFindsTheLargest` | hyperset/bundle/expansion.py:596-616 | when fitting is downward closed it finds the largest fitting breadth, and none only when none fits |
| `BudgetLaws.SearchFindsTheLargestIff` | hyperset/bundle/expansion.py:596-616 | whatever the sizes, the search finds the largest fitting breadth if and only if every breadth it tries on the way there fits |
| `BudgetLaws.BreadthIsAPrefix` | hyperset/bundle/expansion.py:603-606 | the walk of a smaller breadth is a prefix of the whole one |
| `BudgetLaws.NeverOverBudget` | hyperset/bundle/expansion.py:587-626 | for any request: the whole walk, or a proper prefix that fits and counts what was cut, or a refusal |
| `BudgetLaws.ShowsTheMost` | hyperset/bundle/expansion.py:596-626 | if shrinking never outgrows the budget, no breadth that fits shows more |
| `BudgetLaws.ShowsTheMostIff` | hyperset/bundle/expansion.py:596-626 | when the whole walk does not fit, the answer shows the largest breadth that does if and only if every smaller breadth the search tries fits too |
| `BudgetLaws.ShrinkingGrowsIff` | hyperset/bundle/expansion.py:544-562 | the smaller walk is the larger answer exactly when the exclusion disclosed in the freed slot outweighs the domain that left it, warnings counted |
| `BudgetLaws.CanRefuseThoughAWalkFits` | hyperset/bundle/expansion.py:596-626 | the witness, with weights an answer has: three of four domains are the largest breadth that fits, and the answer is a refusal |
| `BudgetLaws.ShortAnswersDropOne` | hyperset/bundle/expansion.py:603-611 | every answer short of the whole walk discloses exactly one dropped domain: the probe has one extra slot |
| `BudgetLaws.WithoutExclusionsShrinkingHelps` | hyperset/bundle/expansion.py:544-562 | for a caller to whom nothing is excluded, fitting is downward closed, as long as one more cut domain never adds more to the warnings of an answer short of the whole walk than a domain weighs |
| `BudgetLaws.ServedDisclosureIsExact` | hyperset/bundle/expansion.py:587-594 | a caller held to bounds of one or more is told of nothing dropped exactly when the whole walk reached every domain reachable from the root |
| `Projection.NodesWithin` | hyperset/bundle/resolver.py:1663-1677 | the search over the neighbour map reaches exactly the nodes within the bound |
| `Projection.BoundGraph` | hyperset/bundle/resolver.py:1639-1697 | no root or no bound leaves the graph alone, and the notice says how much was hidden |
| `ProjectionLaws.KeptIffShortRoute` | hyperset/bundle/resolver.py:1639-1697 | a node is kept exactly when an undirected route of at most `max_hops` edges leads to it |
| `ProjectionLaws.BoundedIsTheNearPart` | hyperset/bundle/resolver.py:1679-1682 | the kept nodes and edges are exactly the near ones and those between near ones, each as often as in the graph |
| `ProjectionLaws.RedrawingKeepsTheSameNodes` | hyperset/bundle/resolver.py:1663-1666 | turning edges around changes nothing that is kept |
| `ProjectionLaws.BoundingKeepsDistances` | hyperset/bundle/resolver.py:1639-1697 | distances up to the bound survive the bounding |
| `ProjectionLaws.TighterIsWithinLooser` | hyperset/bundle/resolver.py:1639-1697 | bounding a looser projection again gives the tighter one, so what is kept only grows with the bound |
| `Discovery.CountAgreements` | hyperset/bundle/discovery.py:672-692 | the loop counts declared expressions computed by some metric of the source |
| `DiscoveryLaws.RankedIsSorted` | hyperset/bundle/discovery.py:816-864 | the ranking holds every candidate once, in the order of its key |
| `DiscoveryLaws.SortedIsUnique` | hyperset/bundle/discovery.py:816-864 | with distinct refs there is only one such ranking |
| `DiscoveryLaws.RankingIgnoresInputOrder` | hyperset/bundle/discovery.py:279-348 | the order the sources came in does not matter to it |
| `DiscoveryLaws.DisagreementSinks` | hyperset/bundle/discovery.py:778-864 | clean candidates stand above disagreeing ones, undecided disagreements above decided ones, whatever their signals |
| `DiscoveryLaws.ProposedIffStandsOut` | hyperset/bundle/discovery.py:373-552 | on any ranking in order, a proposal is made exactly when one clean engaged candidate is strictly ahead of every other clean one |
| `DiscoveryLaws.DeclinesAreExact` | hyperset/bundle/discovery.py:373-568 | each reason to decline is given exactly when it is true |
| `DiscoveryLaws.ProposalReadsOnlyCleanPairs` | hyperset/bundle/discovery.py:571-581 | rankings whose clean candidates have the same pairs carry the same proposal |
| `DiscoveryLaws.ProposalIsAFactAboutTheEstate` | hyperset/bundle/discovery.py:279-348 | the same criterion read off the sources themselves: the proposal names the one leading source, with a basis |
| `DiscoveryLaws.BoundOnlyCuts` | hyperset/bundle/discovery.py:279-348 | the serving bound changes how much is served and nothing else |
| `DiscoveryLaws.InputOrderNeverMatters` | hyperset/bundle/discovery.py:279-348 | for distinct refs the whole section is independent of input order |
| `DiscoveryLaws.FreshnessNeverDecides` | hyperset/bundle/discovery.py:571-573 | freshness and references can neither make, move nor withhold a proposal |
| `DiscoveryLaws.DisagreeingSourceNeverDecides` | hyperset/bundle/discovery.py:373-552 | adding a source that disagrees with Git changes no proposal |
| `SelectionLaws.SeveralIff` | hyperset/bundle/resolver.py:592-708 | several domains are selected exactly when each named one is declared once and together they declare the whole claim, none of them idle |
| `SelectionLaws.OneIff` | hyperset/bundle/resolver.py:733-774 | one is selected exactly when it is named alone, declared once, and declares the whole claim |
| `SelectionLaws.ConstructionIsExact` | hyperset/bundle/directive.py:76-112 | the constructor the selection must satisfy refuses exactly a claim without domains or domains without a claim |
| `SelectionLaws.SeveralIsSafe` | hyperset/bundle/resolver.py:270-282 | after such a selection the domains are distinct and at least two, no sub-directive is refused, and the sub-claims add up to the claim |
| `SelectionLaws.MultiDomain` | hyperset/bundle/resolver.py:246-356 | the loop builds one sub-directive for each selected domain, and none of the constructions fails |
| `SelectionLaws.DiscoverableIff` | hyperset/bundle/resolver.py:553-589 | a refusal offers discovery a subject exactly when the request has a single one |
| `Layers.DeepMerge` | hyperset/config/merge.py:14-27 | the pop-and-assign loop, recursing on nested mappings, is the layering that the laws are about |
| `Layers.LayerTwiceUpToNulls` | hyperset/config/merge.py:14-27 | an overlay applied twice is the overlay applied once, up to null-valued keys |
| `Layers.LayerTwiceIff` | hyperset/config/merge.py:14-27 | and exactly that, if and only if no null lands inside a mapping that replaces |
| `Layers.UnmentionedPathKeepsItsValue` | hyperset/config/merge.py:14-27 | a path the overlay does not mention keeps the base's value or absence |
| `Layers.OverlayReplaces` | hyperset/config/merge.py:3-4 | a scalar or list of the overlay is what the result holds at its path, whole |
| `Layers.NullUnsetsIff` | hyperset/config/merge.py:4-5 | an explicit null takes the key away exactly when the base holds a mapping there |
| `Layers.LaterLayerWins` | hyperset/config/merge.py:5-6 | layers apply strictly in order |
| `SettingsLaws.WalksCompose` | hyperset/config/schema.py:92-179 | walking twice is walking once with one function after the other |
| `SettingsLaws.RedactionSeesThroughResolution` | hyperset/config/secrets.py:105-141 | resolved settings redact to what unresolved ones do |
| `SettingsLaws.RedactAlikeIff` | hyperset/config/secrets.py:136-141 | two settings redact alike exactly when they agree off the secret-typed paths |
| `SettingsLaws.NoResolvedSecretSurvivesRedaction` | hyperset/config/secrets.py:105-141 | whatever references resolve to, redacted settings hold none of it |
| `SettingsLaws.ValidSecretsAreReferences` | hyperset/config/schema.py:79-94 | every leaf the walk hands out of accepted settings is a well-formed reference |
| `SettingsLaws.NullsAreAbsent` | hyperset/config/schema.py:131-144 | in a closed schema a null and an absent key make the same settings |
| `SettingsLaws.FewerNullsStayValid` | hyperset/config/schema.py:131-144 | in a closed schema, dropping null-valued keys of accepted settings leaves them accepted |
| `SettingsLaws.OverlayingAgainValidatesAlike` | hyperset/config/schema.py:123-179 | so settings that validate still validate when an overlay is applied again, and are the same |

## Left out

- TextPairing.FilterFindingsOfTexts: asks that the comparator ends on every required and stated filter, while the source needs it only for the pairs it comes to; where it does not end the source does not return.
- Discovery.CountAgreements: compares canonical keys, so a cast on which the comparator does not return simply disagrees.
- Plan.ValidateSingleDomain: keeps violations in section order; the final sort for display is not modelled.
- Plan.FanoutViolations: which sources a plan's fields aggregate is given, not read from the expressions by pattern.
- Plan.ClassificationViolations: which refs the governed caveats name is given, not matched in their prose.
- Meaning.OneKeyMeansOneValue: is about fragments, in any spelling, of a grammar of names, qualified names, literals, calls, `not` and minus, operators between two operands, membership, casts and parentheses; decimals written with a dot, `not in`, `between`, `is null`, `case`, `count(*)`, subqueries and comments are covered by the token laws only, and a chain of comparisons is read from the left.
- Meaning.OneKeyIffOneNormalForm: the same grammar.
- Meaning.NotDifferentIffLooselyEqual: the same grammar.
- Meaning.NotDifferentIsConfined: the same grammar.
- PollLaws.VerdictsComeFromComments: rulings are structured; the pattern that reads them from a comment's prose, and the bead read from a branch name, are not modelled.
- Budget.ExpandFromRoot: sizes are sums of natural weights; the bytes of the serialised answer, its pointers and candidate parents are not modelled.
- SettingsLaws.WalksCompose: holds for every schema; the deployed schema itself is not written out.
- SelectionLaws.MultiDomain: builds the sub-directives in the order of the sources; the source sorts them by domain first.
- Poll.DecideReasons: comments are only added; a comment that is edited or deleted after the poll read it is not an event of the model.
- `parse_constraints` and `evidence_line` are functions, though the source appends in loops.
- Text is ASCII: Unicode case folding and character classes are not modelled.
- Violation prose, summaries, recovery text and log lines are not modelled.
- Git, the forge, the bead ledger, the merge queue and the test runner are events and parameters; subprocesses, timeouts and retries are not modelled.
- Postgres repositories, synchronisation, hashing, encryption, JSON, YAML, HTTP, MCP and the command line are not modelled.
- Catalog paging, branch deletion, type-error and documentation reports are left out: they would only add easy members.
