# A verified model of autokernel's decision logic

This project models the parts of autokernel that decide what happens to a user's kernel
configuration, kernel source tree and boot menu, and proves what they guarantee.  Verify with
`dafny verify dfyconfig.toml`.

What is modelled, by file:

- `KconfigExpr`, `KconfigLexer`, `KconfigParser`, `KconfigSpelling`, `KconfigRewrite`, `KconfigLine`, `KconfigShape`: the small compiler that turns
  `depends on X if Y` into an expression the kconfiglib parser accepts: tokenizer, recursive-descent
  parser (a class with a cursor, as in the source), printer, and the lowering of the condition.  The
  parser is proved against a grammar, the printer against the parser, and the lowering against
  tristate evaluation as the section "Menu dependencies" of the kernel's Kconfig Language document
  defines it; the pattern that finds such a line is a backtracking scanner proved against its shape.
  `KconfigSpelling` and `KconfigShape` say in literal characters what is tokenized, matched and written.
- `PatchProtocol`, `PatchRun`: the context manager that edits Kconfig files in the user's tree and
  restores them.  A state machine with one step per file operation, each of which may fail, and a
  kill possible between any two; and the method itself, whose every run is a run of that machine.
- `Chars`, `Lines`, `Order`, `ConfigLines`, `ConfigReading`, `Models`: characters, lines, sorting, the
  two forms of configuration line, and exactly which lines are read as what.
- `Kfrag`, `KfragReads`, `KfragRoundTrip`, `KfragText`: writing a configuration fragment, what one
  entry reads back as, the round trip for any texts in the proposals, and the text and meaning of
  the fragment by the proposed values.
- `Merge`, `Apply`: merging a fragment into a base configuration, the merge report, and the
  validation of load-bearing symbols.
- `Policy`, `Review`, `Pipeline`, `BrokenRationale`: sorting proposals by autonomy level, bulk
  review, the whole way from proposals to the final configuration, and where its frame fails.
- `Grub`: menu entries of grub.cfg by brace depth, and the entry of a release.
- `Alias`: the modules.alias index by bus against a scan of the whole table.
- `Focused`: ranking trim candidates by their modules.
- `Enrichment`, `Scheduler`, `EnrichmentRuns`, `EnrichmentHistory`: validating model answers for a
  batch, running batches concurrently, one run of the command, and resuming over interrupted runs.
- `Patches`, `PatchLaws`: applying carried patch sets to a git tree.
- `Rollback`: install records and rollback.
- `Convergence`: when the iteration loop counts as converged.

Results that differ from what the documentation says, each with its exact condition:

- `merge.py` says the fragment always wins.  A quoted fragment value that starts with `0x` and ends
  in a blank is merged without its blank; apart from that the fragment wins
  (`Apply.TextMergeIsOverlay`, instance `Apply.QuotedHexInstance`).
- A configuration is meant to change only where an accepted proposal says so.  The reason of a
  proposal is any text a model returns (agent.py:65, models.py:276) and is written as a comment
  (kfrag.py:235-241); what follows a line break in it is a line of its own, and may be a setting.
  The frame fails exactly at the symbols such a line changes and no proposal may
  (`Pipeline.FrameExactly`, instance `BrokenRationale.ReasonInstance`).
- Enrichment is meant to resume over interrupted runs.  A run killed between the text of an
  enrichment and its line break leaves an open line; the next run appends behind it, which loses
  both.  A completed run has each key exactly once if and only if it did not find such a line, or
  had nothing to write (`EnrichmentHistory.CompletedRunWritesOnce`, instance
  `EnrichmentHistory.UnendedInstance`).
- Symbols given twice are enriched twice: a completed run writes a missing key exactly once if and
  only if the records have it once (`EnrichmentHistory.WrittenOnceExactly`, instance
  `EnrichmentHistory.RepeatedInstance`).
- `policy.py` lists the autonomy levels from least to most autonomous and says that at ADVISE every
  change needs approval and that AUTO_BOLD applies everything outside the blocklist.  ADVISE applies
  confident deterministic proposals, and both levels above it withdraw from that: AUTO_SAFE from all
  that is not of low risk, AUTO_BOLD from what is of high risk (`Policy.WithdrawnExactly`,
  `Policy.ScaleIsMonotoneExactly`, instance `Policy.LevelsAreNotMonotone`).
- `patches.py` says a conflict restores the original commit and branch.  That holds exactly for a new
  branch name, or for the checked-out branch when the first patch not found in the tree does not
  apply; another existing branch of that name is overwritten and then deleted
  (`PatchLaws.ConflictRestoresExactly`, instance `PatchLaws.ExistingBranchIsLost`).  The command
  never passes a branch (cli.py:1294), so this takes a caller of the function, or a second run
  within the second that the default name is made from (patches.py:481).
- The bucketed alias lookup equals the full scan for a pattern exactly when the elements of the
  pattern spell the key it is filed under, as they do when the key has no glob character
  (`Alias.FixedKeyExactly`, `Alias.PlainKeyIsFixed`, instance `Alias.StarKeyIsMissed`).
- The `limit` of the focused ranking holds exactly when some candidate belongs to a module, or there
  are no more candidates than the limit (`Focused.LimitHoldsExactly`, instance
  `Focused.LimitIsPassedOver`).
- `has_converged` is documented with "less than the threshold"; the code accepts equality, and the
  two readings part exactly when no step passes the threshold and some step meets it
  (`Convergence.StrictReadingExactly`, instance `Convergence.StepAtThreshold`).

## Model

| member | source | states |
|---|---|---|
| `KconfigLexer.Tokenize` | src/autokernel/kconfig_walk.py:161-182 | the tokenizer loop yields exactly the token list of the text, or fails where the original raises |
| `KconfigLexer.LexAppend` | src/autokernel/kconfig_walk.py:161-182 | tokens of a text are kept, and the rest tokenized separately, when what follows cannot extend its last token (maximal munch) |
| `KconfigLexer.LexedTokensAreValid` | src/autokernel/kconfig_walk.py:161-182 | every operand that comes out of the tokenizer is a name or a quoted string that tokenizes back to itself |
| `KconfigSpelling.LexExactly` | src/autokernel/kconfig_walk.py:161-182 | the tokenizer returns a token list exactly when the text spells it: the literal texts of the tokens in order with blanks between them, and a blank wherever two names, or one of ! < > and an =, would merge; it fails exactly on texts that spell nothing |
| `KconfigParser.ExprParser.Take` | src/autokernel/kconfig_walk.py:188-193 | consumes the next token, or fails at the end without moving |
| `KconfigParser.ExprParser.ParseOrLevel` | src/autokernel/kconfig_walk.py:195-200 | or-level: left-associative loop; result and remaining tokens are those of the reference parser |
| `KconfigParser.ExprParser.ParseAndLevel` | src/autokernel/kconfig_walk.py:202-207 | and-level: left-associative loop; result and remaining tokens are those of the reference parser |
| `KconfigParser.ExprParser.ParseUnaryLevel` | src/autokernel/kconfig_walk.py:209-223 | `!`, parentheses, bare operands and comparisons with any single token on the right |
| `KconfigParser.ParseKconfigExpr` | src/autokernel/kconfig_walk.py:167-228 | tokenize, parse and reject trailing tokens; terminates on every text |
| `KconfigParser.ParseIffDerives` | src/autokernel/kconfig_walk.py:195-228 | the parser returns the tree e exactly when the grammar (or below and below not below comparison, left-associative) derives e from the tokens; it fails exactly on all other inputs |
| `KconfigParser.GrammarUnambiguous` | src/autokernel/kconfig_walk.py:170-171 | the grammar gives no token list two trees |
| `KconfigSpelling.ParseTextExactly` | src/autokernel/kconfig_walk.py:167-228 | a text parses to e exactly when it spells a sentence of the grammar with the tree e |
| `KconfigSpelling.ComparisonReads` | src/autokernel/kconfig_walk.py:219-221 | two names around one of the six operators, with or without blanks, parse to that comparison |
| `KconfigSpelling.EquationInstance` | src/autokernel/kconfig_walk.py:219-221 | the instance A=n without blanks |
| `KconfigRewrite.EmitParses` | src/autokernel/kconfig_walk.py:231-240 | printing a tree and reading the text gives the tree back, for every tree with operands the tokenizer can produce |
| `KconfigRewrite.RoundTrip` | src/autokernel/kconfig_walk.py:161-240 | whatever text parses still parses to the same tree after being printed |
| `KconfigRewrite.TransCompareIsEmittedLowering` | src/autokernel/kconfig_walk.py:243-256 | the text `_trans_compare_n` builds is the printed form of the lowered tree |
| `KconfigExpr.LoweringExact` | src/autokernel/kconfig_walk.py:243-256 | in every tristate environment the lowering is y or n, and it is y exactly when the two-valued reading of the expression (a symbol reads as "not n") differs from the equal flag |
| `KconfigExpr.LoweringIsPromotedComparison` | src/autokernel/kconfig_walk.py:150-154 | the lowered condition is the comparison with n after every m has been promoted to y |
| `KconfigExpr.LoweringNeverStricter` | src/autokernel/kconfig_walk.py:150-154 | the rewritten dependency is never below X or the value comparison; with Y at y it is X |
| `KconfigExpr.LoweringMissesComparisonExactly` | src/autokernel/kconfig_walk.py:152-154 | lowering and value comparison differ exactly when Y is m while its promoted reading is n |
| `KconfigExpr.LoweringIsValueComparison` | src/autokernel/kconfig_walk.py:152-154 | they coincide when no bare symbol under an odd number of `!` is m |
| `KconfigExpr.LoweringCanExceedComparison` | src/autokernel/kconfig_walk.py:152-154 | the instance `!A` with A at m, where they do not |
| `KconfigExpr.ModuleTellsThemApart` | src/autokernel/kconfig_walk.py:152-154 | an environment in which that happens |
| `KconfigExpr.EncodingsAgreeExactly` | src/autokernel/kconfig_walk.py:363-379 | the exact condition, in X and Y, under which the line rewrite and the parser patch give one value |
| `KconfigExpr.EncodingsAgreeWithoutModules` | src/autokernel/kconfig_walk.py:363-379 | they agree whenever no symbol of Y is m |
| `KconfigRewrite.RewriteConditionalDepends` | src/autokernel/kconfig_walk.py:259-266 | a condition that does not parse leaves the line alone; otherwise indent, "depends on", (X) or (Z) with Z a text for the lowered Y, and the comment; and when X parses the new text parses to or(X, lowered Y) |
| `KconfigRewrite.RewriteParses` | src/autokernel/kconfig_walk.py:259-266 | the emitted text parses to or(X, lowered Y): X cannot reach over its closing parenthesis |
| `KconfigRewrite.RewriteMeaning` | src/autokernel/kconfig_walk.py:259-266 | end to end: the rewritten text is X where Y reads true and y elsewhere, and equals the parser patch when Y has no m |
| `KconfigLine.RewriteLine` | src/autokernel/kconfig_walk.py:269-271 | the substitution on one line: a line without the pattern, or with a condition that does not parse, is kept; otherwise the new line holds an expression for or(X, lowered Y) between the old indent and comment |
| `KconfigLine.ScanIff` | src/autokernel/kconfig_walk.py:157-161 | the backtracking scanner finds a match exactly in the lines of the pattern's shape |
| `KconfigLine.DepIff` | src/autokernel/kconfig_walk.py:157-161 | the dependency found is the shortest: it ends at the first `if` that a condition follows |
| `KconfigLine.ScanGroups` | src/autokernel/kconfig_walk.py:157-161 | the groups of every match, with the blanks between them, make up the line, and the dependency is the shortest that a condition can follow |
| `KconfigLine.ScanReads` | src/autokernel/kconfig_walk.py:157-161 | a line put together from trimmed groups with any blanks between them is taken apart into these groups exactly when no condition begins inside the dependency |
| `KconfigLine.NoWordIfIsShortest` | src/autokernel/kconfig_walk.py:157-161 | as is the case when the dependency has no blank-separated word `if` |
| `KconfigLine.LineRewriteMeaning` | src/autokernel/kconfig_walk.py:259-271 | for every line: unchanged without the pattern or with a condition that does not parse; otherwise indent and comment stay and the dependency means X where Y reads true and y elsewhere |
| `KconfigShape.MatchedExactly` | src/autokernel/kconfig_walk.py:156-159 | in literal characters: a line is matched exactly when it is depends, on, if and two groups without a comment sign, with blanks and tabs where the pattern has them, and perhaps a comment |
| `KconfigShape.RewrittenLiterally` | src/autokernel/kconfig_walk.py:156-266 | in literal characters: a line of another shape stays, as does one whose condition does not parse; any other becomes its indent, depends on, (X), the or sign, a text for the lowered Y in parentheses, and its comment |
| `KconfigShape.TrimmedIsRewritten` | src/autokernel/kconfig_walk.py:156-266 | for trimmed groups without an inner if, with any blanks and tabs between them: these groups are the X and Y of the new line |
| `KconfigShape.TabInstance` | src/autokernel/kconfig_walk.py:156-271 | the instance of a tab-indented line with a negated condition, and its output |
| `PatchProtocol.StepKeepsRunInv` | src/autokernel/kconfig_walk.py:309-337 | every file operation, failing or not, keeps every original text in place or in the backup made by this run |
| `PatchProtocol.TextsSurvive` | src/autokernel/kconfig_walk.py:297-337 | over any sequence of runs, each completed or killed between file operations, no original file disappears and each original text is in some file of its chain path, path.bak, path.bak.bak, ... |
| `PatchProtocol.CompletedRunRestores` | src/autokernel/kconfig_walk.py:297-337 | a run that ends with no failing revert or restore leaves all files exactly as found, whatever else failed |
| `PatchProtocol.BodySeesCleanedFiles` | src/autokernel/kconfig_walk.py:297-328 | when the body of the context runs, whatever failed before, every edited file holds its cleaned text and every other original file its own |
| `PatchProtocol.EditedExactly` | src/autokernel/kconfig_walk.py:305-327 | without failing operations exactly the scanned files that had no backup are edited |
| `PatchProtocol.FileNamesDistinct` | src/autokernel/kconfig_walk.py:308 | backup names never collide: a file name determines its base name and number of suffixes |
| `PatchRun.SourceTree.PatchFile` | src/autokernel/kconfig_walk.py:308-327 | one file on the way in, with every operation free to fail, follows the state machine and is listed as edited exactly when it was rewritten |
| `PatchRun.SourceTree.Revert` | src/autokernel/kconfig_walk.py:320-326 | undoing a file that could not be rewritten follows the state machine |
| `PatchRun.SourceTree.RestoreFile` | src/autokernel/kconfig_walk.py:330-337 | one file on the way out follows the state machine |
| `PatchRun.SourceTree.PatchAndRestore` | src/autokernel/kconfig_walk.py:297-337 | every run of the context manager is a run of the state machine, and without a failing revert or restore the files end as they began |
| `ConfigLines.SetLineReads` | src/autokernel/merge.py:60-74 | an assignment line is read as its symbol and trimmed value |
| `ConfigLines.UnsetLineReads` | src/autokernel/merge.py:60-74 | an "is not set" line is read as n |
| `ConfigLines.CommentSetsNothing` | src/autokernel/merge.py:60-74 | a comment that does not start with a symbol sets nothing |
| `ConfigReading.LineReadExactly` | src/autokernel/merge.py:60-74 | in literal characters: a line is read as a setting of x to v exactly when it is a hash, the symbol and is not set, with blanks where the pattern has them, and v is n, or the symbol, = and a text for v |
| `ConfigReading.ValueReadExactly` | src/autokernel/merge.py:71-73 | a text is one for v exactly when it is v with double quotes around it and blanks around these, and v has no quote at an edge |
| `Chars.SpacesAreListed` | src/autokernel/merge.py:38 | the blanks are the white space of Unicode and the four ASCII separators |
| `Lines.SplitJoin` | src/autokernel/kfrag.py:163 | lines written with a final line break are read back unchanged |
| `Kfrag.ParseKfrag` | src/autokernel/kfrag.py:258-292 | header lines, disables and assignments of a fragment text, line by line |
| `Kfrag.ParseAppend` | src/autokernel/kfrag.py:258-292 | reading is compositional: two texts in sequence read as one after the other, later assignments winning |
| `Kfrag.HeadersRead` | src/autokernel/kfrag.py:253-292 | the header lines are the comments that unset nothing, without their trailing blanks |
| `Kfrag.AppendSection` | src/autokernel/kfrag.py:125-160 | one section: title, and for each proposal rationale, settings and an empty line |
| `Kfrag.WriteKfrag` | src/autokernel/kfrag.py:62-164 | the whole fragment text: header, counts and the four sections of accepted proposals |
| `Kfrag.SelectMembers` | src/autokernel/kfrag.py:79-86 | a section holds exactly the accepted proposals of its kind |
| `KfragText.AcceptedIsWritten` | src/autokernel/kfrag.py:125-160 | the lines of every accepted proposal stand in the fragment, one behind the other |
| `KfragText.EntryText` | src/autokernel/kfrag.py:125-200 | these lines, by the proposed value: rationale, then =y, =m, is not set, or the unset of the replaced option and the formatted value, then an empty line |
| `KfragText.RightHandSideText` | src/autokernel/kfrag.py:167-200 | the formatted value: y for the option's own name, numbers and quoted texts as they stand, anything else between quotes |
| `KfragText.PreviousChoiceExactly` | src/autokernel/kfrag.py:203-232 | the replaced option is CONFIG_ and a name exactly when the source is a choice, the trimmed current value is that name, with or without CONFIG_, and it is no tristate, not the proposed value and not the symbol itself |
| `KfragText.HeaderCounts` | src/autokernel/kfrag.py:79-116 | the header counts, in decimal, the accepted proposals that propose y, n, m and anything else, and the rejected and deferred ones |
| `KfragText.HeaderOrigin` | src/autokernel/kfrag.py:102-109 | the header starts with schema, time, snapshot and autonomy, and with model and tier when given |
| `KfragReads.HeaderSetsNothing` | src/autokernel/kfrag.py:101-123 | no header line is ever read as a setting, whatever the provenance and counts |
| `KfragReads.ReadEntry` | src/autokernel/kfrag.py:125-160 | the first lines of an entry read back as exactly the settings of its proposal; the rationale comment adds none |
| `KfragRoundTrip.RoundTrip` | src/autokernel/kfrag.py:62-292 | for any texts in the proposals: the unsets read back are those of the accepted proposals exactly when no line after a break of a text reads as an unset; and when none reads as a setting, the assignments come back too |
| `KfragRoundTrip.RoundTripAt` | src/autokernel/kfrag.py:62-292 | symbol by symbol: what such lines do not set is read as the accepted proposals have it, and what these do not set as such lines have it |
| `KfragRoundTrip.StraySources` | src/autokernel/kfrag.py:125-160 | where such lines come from: the header texts, and the rationale and value of each accepted proposal, in order |
| `KfragRoundTrip.UnbrokenRoundTrip` | src/autokernel/kfrag.py:62-292 | without line breaks in the texts there are none, and everything comes back |
| `KfragRoundTrip.UnsetMeaning` | src/autokernel/kfrag.py:203-232 | a symbol is among the unsets exactly when an accepted proposal disables it or a choice replaces it |
| `KfragRoundTrip.AssignedMeaning` | src/autokernel/kfrag.py:167-200 | a symbol is among the assignments exactly when an accepted proposal assigns it, with the value of one such proposal |
| `KfragText.ProposedIsRead` | src/autokernel/kfrag.py:62-292 | where no other accepted proposal and no line after a break has a say, the text read back says about a symbol what is proposed: n unsets it, y and m and plain values are assigned as they are |
| `Merge.ConfigTextToDict` | src/autokernel/merge.py:156-162 | the map of a text; the last setting of a symbol counts |
| `Merge.DictLookup` | src/autokernel/merge.py:156-162 | a look-up in that map is the value of the last line that sets the symbol |
| `Merge.FormatReads` | src/autokernel/merge.py:77-85 | a formatted assignment is read back as its symbol and stored value |
| `Merge.StoredExactly` | src/autokernel/merge.py:77-85 | a value comes back unchanged exactly when it has no quote at either end and, for a hexadecimal-looking value, no trailing blank |
| `Merge.MergedValue` | src/autokernel/merge.py:99-142 | the value of every symbol after the merge, also when the base repeats it |
| `Merge.MergeIsOverlay` | src/autokernel/merge.py:8-16 | the merged text is, as a map, the base overridden by the fragment exactly when every fragment value is restorable or already in the base |
| `Merge.OtherLinesKept` | src/autokernel/merge.py:6-7 | lines that set no symbol of the fragment keep position and text |
| `Merge.MergedBaseLine` | src/autokernel/merge.py:77-130 | the text itself: a base line that gives a symbol another value than the fragment becomes # x is not set for n, x=v bare for tristates, digits and what starts with 0x, and x=v between quotes for anything else; every other base line stays |
| `Merge.MergedAppendedLine` | src/autokernel/merge.py:133-142 | behind the base: an empty line, a comment, and such lines for the symbols the base does not set |
| `Merge.FragmentLineIsWritten` | src/autokernel/merge.py:99-142 | so that line is in the merged text wherever the base has another value |
| `Merge.MergeIdempotent` | src/autokernel/merge.py:16-19 | merging the same fragment again changes no line and appends nothing |
| `Apply.MergeBaseLines` | src/autokernel/merge.py:108-130 | the loop over the base: output lines, report and the symbols seen |
| `Apply.AppendLines` | src/autokernel/merge.py:134-140 | the appended section |
| `Apply.MergeKfrag` | src/autokernel/merge.py:88-142 | merged text and report, the appended symbols sorted |
| `Apply.MergeTextIdempotent` | src/autokernel/merge.py:16-19 | idempotence on texts: the identical text comes back, the empty one included |
| `Apply.TextMergeIsOverlay` | src/autokernel/merge.py:8-16 | for a fragment text that has been read: the overlay exactly when no value that starts with 0x and ends in a blank is new to the base |
| `Apply.QuotedHexInstance` | src/autokernel/merge.py:77-85 | the instance CONFIG_X with the quoted value 0x1 and a blank, which is merged without its blank |
| `Apply.ReportAccountsForBase` | src/autokernel/merge.py:42-57 | every base setting is reported once, and overrides are exactly the replaced values |
| `Apply.NoOpsExactly` | src/autokernel/merge.py:49-50 | the settings reported as no change are exactly those the base already has with the fragment's value |
| `Apply.ValidateLoadBearing` | src/autokernel/merge.py:165-215 | the findings for a merged text against a base that may be missing or empty |
| `Apply.FindingsExact` | src/autokernel/merge.py:171-190 | a symbol is reported exactly when it is load-bearing and was downgraded |
| `Apply.FindingsTell` | src/autokernel/merge.py:195-214 | a finding names the value the symbol ends up with, or says that it is missing, and why it is load-bearing |
| `Apply.ReportedExactly` | src/autokernel/merge.py:165-215 | for any two texts: reported exactly when load-bearing, off in the merged text, and on in the base unless that is empty; so a configuration without findings keeps every load-bearing y or m on |
| `Order.Sort` | src/autokernel/merge.py:134 | sorting lists a set in order, each element once |
| `Order.ListingUnique` | src/autokernel/merge.py:134 | there is only one such listing, so the result does not depend on set order |
| `Policy.LoadBearingSet.constructor` | src/autokernel/policy.py:120-125 | starts empty |
| `Policy.LoadBearingSet.Add` | src/autokernel/policy.py:127-130 | adds the symbol; the first reason given stays |
| `Policy.LoadBearingSet.Contains` | src/autokernel/policy.py:132-133 | membership and its reason |
| `Policy.ApplyPolicy` | src/autokernel/policy.py:233-291 | the four buckets, in the order of the proposals, by the decision matrix |
| `Policy.BucketsPartition` | src/autokernel/policy.py:259-291 | every proposal is in exactly one bucket, as often as it came |
| `Policy.ChooseMembers` | src/autokernel/policy.py:259-291 | a bucket holds exactly the proposals decided so |
| `Policy.ExplainExactly` | src/autokernel/policy.py:265-267 | EXPLAIN applies nothing and asks nothing: what is not load-bearing is annotated |
| `Policy.AdviseExactly` | src/autokernel/policy.py:269-279 | ADVISE applies exactly what is not load-bearing, deterministic or microarchitecture, and of confidence at least 0.95; the rest that is not load-bearing is asked about |
| `Policy.AutoSafeExactly` | src/autokernel/policy.py:280-284 | AUTO_SAFE applies exactly what is not load-bearing, of low risk and of confidence at least 0.9 |
| `Policy.AutoBoldExactly` | src/autokernel/policy.py:285-289 | AUTO_BOLD applies exactly what is not load-bearing and not of high risk |
| `Policy.BlockedWhyIsBlocked` | src/autokernel/policy.py:260-263 | the blocked list is the load-bearing proposals in order, each with its reason |
| `Policy.WithdrawnExactly` | src/autokernel/policy.py:3-8 | of what a level applies, a more autonomous one withdraws exactly: what ADVISE applies and is not of low risk (AUTO_SAFE) or is of high risk (AUTO_BOLD) |
| `Policy.ScaleIsMonotoneExactly` | src/autokernel/policy.py:3-8 | a step up the scale never withdraws anything exactly when it does not start at ADVISE |
| `Policy.LevelsAreNotMonotone` | src/autokernel/policy.py:3-8 | a proposal ADVISE applies and neither level above it does |
| `Review.FindRule` | src/autokernel/review.py:117-129 | the first matching rule decides |
| `Review.ApplyRules` | src/autokernel/review.py:99-160 | accepted, rejected and deferred, in order, with the deciding rule's name |
| `Review.ReviewPartitions` | src/autokernel/review.py:99-160 | each proposal occurs under its own verdict as often as it came and under no other |
| `Review.VetoWins` | src/autokernel/review.py:204-225 | what a leading reject rule matches is rejected, whatever accepts it later, and the rest is decided by the later rules |
| `Review.AcceptRecommendedExactly` | src/autokernel/review.py:166-180 | behind any vetoes the preset accepts exactly the unvetoed proposals that are not high-risk, and defers the unvetoed high-risk ones, with its rule names |
| `Review.AcceptLowRiskExactly` | src/autokernel/review.py:183-187 | behind any vetoes exactly the unvetoed low-risk proposals are accepted and the other unvetoed ones deferred |
| `Review.AcceptDeterministicExactly` | src/autokernel/review.py:190-201 | behind any vetoes exactly the unvetoed deterministic proposals are accepted and the other unvetoed ones deferred |
| `Review.FirstMetDecides` | src/autokernel/review.py:52-129 | the first rule all of whose axes (risk, source, subsystem, name patterns, confidence from and to) a proposal meets decides it; without one it is deferred as unmatched |
| `Review.ComposeRules` | src/autokernel/cli.py:944-961 | the rules the command composes from its options, vetoes first |
| `Review.CommandDecides` | src/autokernel/cli.py:944-961 | what the command does: rejects exactly the proposals of a given subsystem or pattern, of the rest accepts what a given option accepts by source or risk, and defers the others |
| `Pipeline.PreAccept` | src/autokernel/cli.py:983-994 | auto-applied proposals enter as accepted with their own rule name |
| `Pipeline.AcceptedExactly` | src/autokernel/cli.py:970-1002 | the accepted list holds exactly the auto-applied and rule-accepted proposals, and none is load-bearing |
| `Pipeline.FragmentMeaning` | src/autokernel/kfrag.py:62-292 | the fragment of a session has at x what the applied proposals say, assignments overriding unsets, when no line after a break of a text sets x; and what these lines say when no applied proposal does |
| `Pipeline.FinalDiffersOnlyWhereAsked` | src/autokernel/cli.py:1110-1120 | frame, where the fragment is as the proposals say: the final value differs from the base only at symbols of applied proposals and options that applied choices replace |
| `Pipeline.FrameExactly` | src/autokernel/cli.py:1110-1120 | the frame for any texts: it holds at x exactly when an applied proposal may change x or no line after a break of a written text reads as a setting that changes it |
| `Pipeline.LoadBearingOffExactly` | src/autokernel/cli.py:1110-1120 | a load-bearing symbol ends up off exactly when it was off or an applied choice replaces it |
| `Pipeline.Run` | src/autokernel/cli.py:1110-1120 | policy, review, fragment, merge and validation in sequence, for any texts in the proposals: for every symbol the exact frame, exactly what validation reports, and that a config passing validation keeps every load-bearing y or m on; every unopposed applied proposal ends up as proposed, in value and in text; and EXPLAIN leaves every value as it was |
| `Pipeline.WantedIsFinal` | src/autokernel/cli.py:1110-1120 | an applied proposal that no other opposes gives its symbol the proposed value in the final configuration, and unless the base had it a line that says so |
| `Pipeline.UnbrokenHasNoStrays` | src/autokernel/kfrag.py:235-241 | without line breaks in the written texts nothing but the proposals speaks in the fragment, so the frame holds everywhere |
| `BrokenRationale.StrayBreaksFrame` | src/autokernel/kfrag.py:235-241 | a rationale with a break and a setting of y behind it switches y on although no applied proposal may change y |
| `BrokenRationale.ReasonInstance` | src/autokernel/kfrag.py:235-241 | the instance: a reason that ends in a line CONFIG_B=m, on a proposal about CONFIG_A |
| `Grub.TitleIsQuoted` | src/autokernel/bootloader.py:204-211 | the title is the text between the two quotes, whatever follows |
| `Grub.GrubEntries` | src/autokernel/bootloader.py:214-233 | the line loop over the brace stack |
| `Grub.EntriesArePreorder` | src/autokernel/bootloader.py:214-233 | for every menu with arbitrary other lines and stray top-level braces: the `>`-joined title paths in preorder, and the stack empty at the end |
| `Grub.MenuTextRead` | src/autokernel/bootloader.py:214-233 | from text to paths: for every menu with quoted titles, whatever else is on their lines and in the bodies, the titles of the submenus and of the entry with > between them, in order |
| `Grub.GrubEntryForRelease` | src/autokernel/bootloader.py:236-249 | for a release without blanks: None exactly when no scanned entry boots it, otherwise the first that does, nested ones before others; and for the text of a well-formed menu the same of the menu's entries in preorder |
| `Grub.NamesOne` | src/autokernel/bootloader.py:242-247 | an entry names at most one release |
| `Grub.EntryForReleaseExactly` | src/autokernel/bootloader.py:236-249 | on any entry list: the first entry of exactly that release that is not for recovery, the first nested one if any is; None exactly when there is none |
| `Grub.ContainsIff` | src/autokernel/bootloader.py:246 | the recovery test looks for the words anywhere in the path |
| `Alias.AliasLineIff` | src/autokernel/resolve.py:66 | a line is an alias with this pattern and module exactly when it has the documented shape |
| `Alias.LoadModulesAlias` | src/autokernel/resolve.py:69-90 | every entry is filed under its bus, in file order; an unreadable file gives no entry |
| `Alias.IndexFinds` | src/autokernel/resolve.py:93-98 | the index finds exactly the modules with a matching pattern on the modalias's own bus |
| `Alias.IndexWithinScan` | src/autokernel/resolve.py:93-98 | never more than a scan of the whole table |
| `Alias.IndexEqualsScan` | src/autokernel/resolve.py:70-76 | the same as the scan when every pattern of the table spells the key it is filed under |
| `Alias.FixedKeyExactly` | src/autokernel/resolve.py:86 | for every pattern that matches something: all it matches is on the bus it is filed under exactly when its elements spell its key, each accepting one character only, up to a colon or the end |
| `Alias.PlainKeyIsFixed` | src/autokernel/resolve.py:86 | a key without glob characters is spelled, and without a bracket no other key is |
| `Alias.IndexMisses` | src/autokernel/resolve.py:93-98 | otherwise some modalias the pattern serves resolves to nothing |
| `Alias.StarKeyIsMissed` | src/autokernel/resolve.py:93-98 | the instance `d*` and `dm` |
| `Alias.MatchIsCutting` | src/autokernel/resolve.py:98 | a pattern matches exactly the texts that can be cut into pieces its elements take: any piece for *, also the empty one, one character for ?, one of the class, or itself |
| `Alias.PatternRead` | src/autokernel/resolve.py:98 | the elements of a pattern, character by character; a [ that is never closed is itself |
| `Alias.ClassRead` | src/autokernel/resolve.py:98 | and a bracketed class ends at the first ] that is not its first character, not counting a leading ! |
| `Focused.CandidateTrims` | src/autokernel/resolve.py:323-334 | the enabled symbols that are not required, sorted |
| `Focused.RankModule` | src/autokernel/resolve.py:448-456 | the inner loop keeps the lesser score of each candidate symbol |
| `Focused.DepPathExactly` | src/autokernel/resolve.py:337-366 | a line of modules.dep names a source path exactly when what stands before its colon is kernel/, the path, and .ko, perhaps compressed |
| `Focused.FocusedCandidateTrims` | src/autokernel/resolve.py:424-469 | every eligible symbol once, by least (path score, value score) and name, cut at the limit; all candidates by name, uncut, when none is eligible |
| `Focused.RankCandidates` | src/autokernel/resolve.py:443-469 | the same for any table of path prefixes: best scores over all modules, then sorting and the limit |
| `Focused.BestScoreIsMinimum` | src/autokernel/resolve.py:413-457 | the score kept for a symbol is attained by one of its modules and undercut by none |
| `Focused.FocusedIsOrderFree` | src/autokernel/resolve.py:340-469 | the result does not depend on the order or repetition of the lines of modules.dep |
| `Focused.FocusedIsSafe` | src/autokernel/resolve.py:323-328 | without caller's candidates nothing returned is required or off, and nothing is returned twice |
| `Focused.LimitHoldsExactly` | src/autokernel/resolve.py:435-437 | a positive limit holds exactly when some candidate is eligible or there are no more candidates than the limit |
| `Focused.LimitIsPassedOver` | src/autokernel/resolve.py:458-469 | the instance of two candidates, no modules and limit 1 |
| `Focused.FocusedIsRanked` | src/autokernel/resolve.py:458-469 | with any limit: as many eligible symbols as it allows, each outranking every eligible symbol that does not come before it, those cut off included |
| `Focused.FirstPrefixDecides` | src/autokernel/resolve.py:413-418 | the first prefix of the table that fits a path decides its score, which is 100 without one |
| `Focused.LesserScoreComesFirst` | src/autokernel/resolve.py:413-464 | a symbol all of whose paths score less than those of another comes before it |
| `Focused.ModulesComeFirst` | src/autokernel/resolve.py:419-421 | where the paths of two symbols score the same, the module comes before the built-in |
| `Focused.BroadExactly` | src/autokernel/resolve.py:444 | the caller's candidates when there are any, and all candidates otherwise |
| `Enrichment.EnrichRecords` | src/autokernel/inventory_agent.py:235-288 | retry loop: the first valid answer for each record within the attempts; failure otherwise, also when a call raises |
| `Enrichment.BatchSucceedsExactly` | src/autokernel/inventory_agent.py:246-288 | a batch succeeds exactly when symbols are distinct and every record gets a valid answer within the attempts, before any call that raises, whatever else comes back |
| `Enrichment.BatchIsValid` | src/autokernel/inventory_agent.py:291-306 | a success answers the records one for one, in order, each about its record and its facts and with evidence that cites no file or one in the source tree |
| `Scheduler.SubmitNext` | src/autokernel/cli.py:2375-2380 | the next batch is submitted, once, when one is left |
| `Scheduler.Await` | src/autokernel/cli.py:2385-2393 | one completed batch is written, or ends the run, and one more is submitted |
| `Scheduler.RunSerially` | src/autokernel/cli.py:2362-2367 | one batch at a time is the schedule of width one |
| `Scheduler.RunPooled` | src/autokernel/cli.py:2369-2393 | for every completion order: a legal schedule of the given width, ended by completion or by the first failure; it terminates |
| `Scheduler.InFlightBounded` | src/autokernel/cli.py:2369-2393 | at most `jobs` batches are in flight at any time |
| `Scheduler.PoolIsKeptFull` | src/autokernel/cli.py:2369-2393 | whenever a batch is collected, as many have been submitted as `jobs` allows beyond those collected before, or all of them |
| `Scheduler.BatchStatus` | src/autokernel/cli.py:2369-2393 | each batch is submitted once in its turn, and is in flight, written or failed, never two of these |
| `Scheduler.CompleteWritesEach` | src/autokernel/cli.py:2369-2393 | a complete schedule submits and writes every batch exactly once |
| `EnrichmentRuns.ExistingKeys` | src/autokernel/cli.py:2324-2342 | the keys in the file; refused exactly when a line is not JSON, or JSON but not an object |
| `EnrichmentRuns.Unfinished` | src/autokernel/cli.py:2344 | the records whose key is not in the file |
| `EnrichmentRuns.Chunked` | src/autokernel/cli.py:2349 | batches of the given size that concatenate to the records |
| `EnrichmentRuns.InventoryEnrich` | src/autokernel/cli.py:2312-2393 | the whole command: bad parameters and bad files change nothing; otherwise the file grows by the lines of a legal schedule over what was left to do, an open last line taking the first of them; without --force it is a run in the sense of the next rows |
| `EnrichmentRuns.RunAdds` | src/autokernel/cli.py:2324-2393 | a run, however cut short, adds a key at most as often as its records have it and not at all if present; unless the file ends in an open line nothing is lost, and a completed run adds exactly that |
| `EnrichmentHistory.NeverTwice` | src/autokernel/cli.py:2324-2393 | over any sequence of runs, cut anywhere, no key is written twice |
| `EnrichmentHistory.CompletedRunExactly` | src/autokernel/inventory_agent.py:380-385 | once a run completes, each of its keys is in the file exactly once if and only if the file it started from did not end in an open line, or it had nothing to write |
| `EnrichmentHistory.CompletedRunWritesOnce` | src/autokernel/cli.py:2324-2393 | the same at the end of any sequence of runs, cut anywhere |
| `EnrichmentHistory.OnceUnlessUnended` | src/autokernel/inventory_agent.py:380-385 | so when no run is cut between a text and its line break, a completed run leaves each of its keys exactly once |
| `EnrichmentHistory.UnendedInstance` | src/autokernel/inventory_agent.py:380-385 | the instance: a run killed there and one that completes, after which both enrichments are lost |
| `EnrichmentHistory.WrittenOnceExactly` | src/autokernel/cli.py:2344-2349 | a missing key is written exactly once if and only if the records have it once |
| `EnrichmentHistory.RepeatedInstance` | src/autokernel/cli.py:2316-2349 | the instance of one symbol given twice with batches of one |
| `EnrichmentHistory.AllValidated` | src/autokernel/inventory_agent.py:291-306 | every enrichment added has been validated against a record of one of the runs, whatever the model returned |
| `EnrichmentHistory.TornLineStopsRuns` | src/autokernel/cli.py:2330-2338 | a line that is refused makes every later run refuse the file and leave it alone |
| `Patches.Repository.ProcessPatch` | src/autokernel/patches.py:374-404 | one patch: present and skipped, applied and committed, or a conflict |
| `Patches.Repository.ProcessSet` | src/autokernel/patches.py:371-404 | the patches of one set in order, up to a conflict |
| `Patches.Repository.Process` | src/autokernel/patches.py:363-405 | all sets in order, up to a conflict |
| `Patches.Repository.Check` | src/autokernel/patches.py:408-418 | the dry run, in a worktree of its own, leaves the repository alone |
| `Patches.Repository.Apply` | src/autokernel/patches.py:443-501 | refusals change nothing; otherwise branches, HEAD and outcomes after success or conflict |
| `PatchLaws.ConflictRestoresExactly` | src/autokernel/patches.py:450-455 | after a conflict everything is as before exactly when the branch name was new, or named the checked-out branch and the first patch not found in the starting tree does not apply to it |
| `PatchLaws.ExistingBranchIsLost` | src/autokernel/patches.py:492-494 | the instance of an existing branch that is gone afterwards |
| `PatchLaws.OutcomesTell` | src/autokernel/patches.py:363-405 | the outcomes name the patches of all sets in order, all of them or those up to a conflict, which is the last; and the commits are those of the patches that went in |
| `PatchLaws.SuccessLeavesBranch` | src/autokernel/patches.py:478-501 | after success the named branch is checked out with these commits on top, and every other branch is where it was |
| `PatchLaws.DryRunPredicts` | src/autokernel/patches.py:408-418 | the dry run reports, patch by patch, what applying will do |
| `PatchLaws.AppliedInFull` | src/autokernel/patches.py:394-404 | a series applied in full leaves the tree with every patch applied in order |
| `PatchLaws.SeriesPresentIff` | src/autokernel/patches.py:341-360 | the reverse check succeeds exactly when the tree has what the series leaves and the series is coherent |
| `PatchLaws.SecondRunPresentExactly` | src/autokernel/patches.py:30-32 | a set applied in full is reported present by a second run, which changes nothing, exactly when the set is coherent or never rewrites its own cells |
| `PatchLaws.CleanlyAppliedIsPresent` | src/autokernel/patches.py:341-349 | so a set that went in without merging is found again, even when later patches overwrite earlier ones' cells |
| `PatchLaws.MergedSetIsNotFound` | src/autokernel/patches.py:394 | a set that needs the three-way merge and is not found again |
| `Rollback.InstallDir.Install` | src/autokernel/install.py:419-467 | a record is written whatever the steps did, saying whether they passed |
| `Rollback.RunSteps` | src/autokernel/install.py:434-439 | fail fast: all steps, or those up to the first failure |
| `Rollback.InstallDir.FindLatest` | src/autokernel/rollback.py:73-89 | the newest readable record that is not rolled back, if any |
| `Rollback.InstallDir.Rollback` | src/autokernel/rollback.py:133-263 | nothing to do, rejected, failed, or the newest record undone and marked; only the last changes a record |
| `Rollback.RecordsAreStack` | src/autokernel/rollback.py:73-89 | in every orderly history the eligible records are the installs not yet undone, oldest at the bottom |
| `Rollback.RollbackPops` | src/autokernel/rollback.py:240-263 | a rollback undoes the top of the stack, or leaves every record eligible as it was, and when which |
| `Rollback.UndoneOnce` | src/autokernel/rollback.py:252-261 | no install is undone twice, and what is undone was installed |
| `Rollback.EmptyRecordBlocks` | src/autokernel/rollback.py:119-121 | a record without packages is never rolled back, and no rollback reaches a record below it |
| `Rollback.UnsavedIsUndoneAgain` | src/autokernel/rollback.py:254-261 | if the mark cannot be written the same install is undone again |
| `Convergence.HasConverged` | src/autokernel/iteration.py:329-353 | true exactly when the last window + 1 sizes are known, the earlier of each pair is not zero, and each step is within the threshold |
| `Convergence.StrictReadingExactly` | src/autokernel/iteration.py:336-341 | it agrees with the documented strict reading exactly when no step meets the threshold |
| `Convergence.StepAtThreshold` | src/autokernel/iteration.py:350-351 | the instance of sizes 100 and 101 at one per cent |
| `Convergence.DriftIsBounded` | src/autokernel/iteration.py:336-341 | then after n of the steps the size is between s0(1-d)^n and s0(1+d)^n |

## Left out

What the named results do not capture:

- PatchProtocol.TextsSurvive: copies, writes and removals are atomic; a copy that stops halfway would make the
  revert restore a truncated backup.  Two runs at the same time are not modelled, and the scan
  returns any set of readable files with unsupported syntax.
- PatchRun.SourceTree.PatchAndRestore: the kill in the middle of a run exists in the state machine
  only, since a method cannot be stopped; the code between the two halves does not touch the files.
- KconfigLine.RewriteLine: works on one line of the file.  The removal of lines that hold only an
  unsupported keyword is not modelled.
- KconfigLine.ScanReads: dependency and condition are trimmed; ScanGroups covers every match.
- KconfigExpr.LoweringExact: a bare symbol is bool or tristate and a comparison is an uninterpreted
  y or n, except that comparing a symbol with n agrees with the symbol's value.
- KfragRoundTrip.RoundTrip: the rationale comment is an arbitrary text; its layout
  (source, confidence, risk, rule) is not modelled.  Proposals are about symbols of the symbol
  pattern, as agent.py:334 makes sure.
- Merge.FormatReads: digits are the ASCII digits; Python's isdigit accepts more.
- Apply.MergeKfrag: lines end with "\n" only; Python's splitlines also splits at other separators.
- Pipeline.Run: without the interactive review, and with one load-bearing set for `propose` and
  `apply`, which recompute it from the same snapshot.  The computation of that set is not modelled.
- Review.ApplyRules: the subsystem classifier and shell-pattern matching of rules are parameters.
- Review.ComposeRules: the label of a veto does not list the subsystems or patterns it was made of.
- Alias.FixedKeyExactly: which characters a bracketed class accepts is a parameter.
- Focused.FocusedCandidateTrims: the candidate symbols of a module are a parameter, and the
  running configuration is given as a map.
- EnrichmentRuns.InventoryEnrich: `--offline`, the selection of records, and the stamp with model and
  time are left out, and a write that fails counts as the run being cut there.
- Patches.Repository.Apply: git is branches, HEAD and a map from cells to texts; a patch applies when
  all its cells have their old texts, and the three-way fallback succeeds when each cell has its old
  or its new text.  Untracked files, author data and the version range syntax are left out.
- Rollback.RecordsAreStack: install times are strictly increasing (two installs within one second
  share a record directory, and the second record replaces the first) and every install has packages.
- Rollback.InstallDir.Rollback: package names derived from file names, and the removal command of each
  distribution, are left out.
- Convergence.DriftIsBounded: sizes and thresholds are exact reals, not floating point.

Not modelled at all:

- Building, booting and measuring kernels, QEMU, package managers and preflight checks.
- The language-model agents, their prompts and caches, and JSON and pydantic encoding.
- The main resolver and the lookup tables (hardware, audio, subsystems, symbol mapping).
- The command line, rendering and the terminal user interface.
- kconfiglib and the walk over its tree.
