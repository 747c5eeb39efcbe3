# A verified model of pyferm's rule pipeline

pyferm turns a small firewall language into iptables or nft rules. This project models the parts of it
where a mistake would silently change what a firewall does, and proves what they promise:

* **Import optimiser** (`RuleTree*.dfy`, `RuleParse.dfy`, `RuleLine.dfy`, `RuleNode*.dfy`, `RuleEmit.dfy`).
  A flat rule list is factored into blocks and arrays, every emitted block is optimised again, and the tree is
  written out. ferm's own semantics read it back: blocks inherit their options, an array unfolds, is joined with
  commas, loads several modules, or is refused, as its keyword says. It is proved exactly when the file loads, when
  it keeps the verdict of the first matching rule, the multiset of flat rules and their order; the passes also run
  on mutable nodes, as the program does it.
* **Unfolding** (`Unfold.dfy`): array options become rules through `chosen` slots that sibling rules share.
* **Jump cycles** (`JumpCycles.dfy`): the iterative search finds a cycle through every chain that lies on one.
* **Set elements** (`Prefixes.dfy`, `Set*.dfy`): one canonical form per address interval, absorption of contained
  networks, the order of the result, a fixed point, one list per set.
* **Structural parser** (`Structural*.dfy`): what each statement is and where it ends, a printer/parser round trip,
  freedom from line structure, when the parser comes back and when it never does.
* **Keyword scope** (`KeywordScope.dfy`, `KeywordLookup.dfy`): copy-on-write tables over every run of nested levels, and
  the lexical scoping they amount to.
* **Token stream** (`TokenStream.dfy`): lazy reading delivers what eager lexing would.
* **Multiport chunks** (`Multiport.dfy`): the greedy cut is optimal and keeps every port.
* **nft delta** (`Nft*.dfy`, `Ordering.dfy`): the incremental script leads to the desired table.
* **Rollback** (`Reapply*.dfy`): how a run ends, when kernel and worktree may come to disagree, and who is told.

`Seqs.dfy` holds the ordered cartesian product that both the optimiser's meaning and the unfolding are stated with.

## What turned out not to hold

Each of these is a property one would expect of the code and that it does not have. The code is modelled as it
is; a lemma gives the input, another one the exact condition.

* The emitted file need not load. `comment`, `hashlimit-name` and every other option that takes exactly one string is kept
  out of arrays only if the first rule of a run carries the keywords of its matches, which only a jump records: the
  lines `-m comment --comment a -g web` and the same with `b` become `comment (a b)`, which ferm refuses
  (`CommentsDoNotLoad`). The file loads if and only if no run is merged on such an option whose first rule is a block
  or carries no match keywords (`EmittedLoads`), and then and only then does it decide packets as the input did
  (`EmittedVerdict`, `EmittedFileVerdict`, `ImportKeepsMeaning`).
* An array of comma-joined options becomes one longer list. Where such a list does not mean "one of its items" the
  verdict can change (`JoinedListMayDiffer`); `MergeVerdictIff` says when merging a run keeps its verdict, and the
  theorems ask for that law of every joined option.
* Rule metadata does not always keep `mod` and `protocol` heads from being merged: a module named before the
  protocol that covers it (`-m icmpv6 -p icmpv6 -m icmp6`) slips through, and the merged array loads both
  modules (`DisorderMergesModules`). Two lines with one protocol and no repeated module can differ in such a head
  over one tail if and only if they name `icmp6` and the module called like their ICMPv6 protocol on opposite sides
  of it (`ClashIff`, `KeyHeadsIff`); lists without such a pair keep their meaning.
* A block that is optimised again need not hold fewer match entries than the list it came from. It does, unless that
  list is one block without a match that holds every entry and rules without any (`ReoptimisedBlockShrinks`, an
  equivalence on the list that was flushed); `HeadlessBlockReached` gives five flat rules that lead there. It is
  always lighter when nodes are counted too (`ReoptimisedBlockLighter`).
* The order of flat rules can change: merging the heads of two equal blocks interleaves them (`OrderCanChange`). When
  every rule stands for one flat rule, as an imported line with one-item lists does, the optimised list expands to the
  same rules in the same order if and only if pass 2 merges only runs of leaves, and only on options whose arrays
  unfold (`OptimizeOrder`).
* The nft delta does not create new chains when they are all empty and nothing else changed
  (`EmptyChainMissed`), and it cannot turn a user chain into a base chain or move a base chain to another hook at
  the same priority; apart from that it converges (`DeltaConverges`, an equivalence).
* Three things can let kernel and worktree disagree without a notice: an ebtables commit whose exit status nobody
  reads, in a run that then counts as a success (`EbtablesCommitLost`); a rollback command whose status nobody reads;
  and a restore that succeeds from a wrong copy, such as a dump whose tool failed unseen (`TruncatedDumpRestored`).
  `NoSilentDivergence` gives the exact condition, and `SuccessAgrees` says exactly when a successful run has put every
  family on its rules. Before the run: some outcome of the tools leads there if and only if some family is enabled and
  either it is ebtables or no enabled family lacks its restore tool (`SilentDivergencePossible`).
* The structural parser never returns on a closing parenthesis where a statement should start: every further turn of
  its loop adds an empty rule and leaves the cursor where it was (`StrayStays`). Among rules and plain blocks that is
  where the first misplaced bracket leads if it is a `)` while no `(` is open (`StrayParenthesisHangs`), and one scan
  that counts open braces and brackets tells exactly which of these texts the parser comes back from
  (`ParsedIffScanned`); on properly nested brackets it always does (`NestedTerminates`).
* The structural parser is fed raw tokens whose sentinels nobody handles, so the sentinel of every line carries the
  number of the first (`DrainRaw`).

## Model

| member | source | states |
|---|---|---|
| RuleTree.PrefixCountIsRun | src/pyferm/import_ferm.py:227-239 | the counted run is exactly the longest one sharing the first rule's leading match |
| RuleTree.ArrayRunIsRun | src/pyferm/import_ferm.py:263-297 | the counted run is the longest one whose members differ from the first only in a joinable first match |
| RuleTreeSize.OptimizeSize | src/pyferm/import_ferm.py:300-355 | neither match entries nor entries plus nodes ever grow |
| RuleTreeSize.FlushSize | src/pyferm/import_ferm.py:412-442 | emission terminates and the emitted tree holds no more entries than its input |
| RuleTreeSize.ReoptimisedBlockShrinks | src/pyferm/import_ferm.py:436-439 | every block that is flushed again has fewer match entries than the flushed list if and only if that list is not one headless block with all entries beside rules without any |
| RuleTreeSize.ReoptimisedBlockLighter | src/pyferm/import_ferm.py:436-439 | entries and nodes together strictly decrease from a list to the block that is flushed again |
| RuleTreeTwins.HeadlessBlockReached | src/pyferm/import_ferm.py:412-442 | five flat rules whose third optimisation hands on a block with as many entries as its list |
| RuleTreeShape.FlushDrawn | src/pyferm/import_ferm.py:242-249 | only plain scalars ever join an array: a negated or otherwise wrapped item anywhere in the emitted tree stood in an array of the input |
| RuleTreeShape.ArrayPassMergesAll | src/pyferm/import_ferm.py:336-355 | after the second pass, neighbours that differ in one scalar or array value only are left apart for one reason: a one-string option |
| RuleTreeShape.FactorPassFactorsAll | src/pyferm/import_ferm.py:313-334 | after the first pass no two neighbours share their first match |
| RuleTreeShape.FlushApart | src/pyferm/import_ferm.py:436-439 | in every emitted block, one that came with the input included, no two neighbouring rules could still be merged, one-string options aside |
| RuleTreeShape.OptimizeCrowded | src/pyferm/import_ferm.py:326-332 | optimising never leaves a block of a single rule |
| RuleTreeReading.FlushLoads | src/pyferm/parser.py:867-882 | the emitted tree loads if and only if the input does and no run is merged on an option that takes exactly one string |
| RuleTreeEscapes.EmittedLoads | src/pyferm/import_ferm.py:276-297 | and, when rules with match keywords declare their options, if and only if no such run starts with a block or a rule without match keywords |
| RuleTreeMeaning.MergeVerdictIff | src/pyferm/import_ferm.py:336-352 | an array-headed rule gives the verdict of the run it replaces exactly when the array holds as some member's head does, or the tail decides nothing |
| RuleTreeMeaning.MergeVerdict | src/pyferm/import_ferm.py:336-352 | and always does when arrays of that option mean any one of their items |
| RuleTreeMeaning.OptimizeVerdict | src/pyferm/import_ferm.py:300-355 | both passes keep a packet's first-match verdict when the arrays they make mean any one of their items |
| RuleTreeMeaning.FlushVerdict | src/pyferm/import_ferm.py:412-442 | so does emission, which optimises every block again |
| RuleTreeMeaning.FlushOutcome | src/pyferm/import_ferm.py:412-442 | emission does what the input does, loading included, if and only if no run is merged on a one-string option |
| RuleTreeFlat.ExpansionVerdict | src/pyferm/rules.py:208-271 | reading a tree by inheritance and expanding it into the ordered product of flat rules give one verdict, whatever the keywords' readings |
| RuleTreeFlat.EmittedVerdict | src/pyferm/import_ferm.py:412-442 | emit, load, expand, first match equals first match on the flat input, if and only if no run is merged on a one-string option |
| RuleTreeFlat.AlternativesCount | src/pyferm/parser.py:836-897 | how many flat options an array makes, by the shape its keyword declares |
| RuleTreeConservation.OptimizeBag | src/pyferm/import_ferm.py:300-355 | the multiset of flat rules is the same before and after, in every enclosing context, when the arrays that are made unfold |
| RuleTreeConservation.FlushBag | src/pyferm/import_ferm.py:412-442 | and after emission; comma-joined and multiport lists do not unfold |
| RuleTreeConservation.ProductBag | src/pyferm/rules.py:208-271 | for every input, the multiset of rows is conserved when every array is unfolded, comma-joined ones item by item |
| RuleTreeInterleave.OptimizeOrder | src/pyferm/import_ferm.py:313-355 | for rules that stand for one flat rule each, one-item lists included, with one spelling per option: the expanded list itself is unchanged if and only if pass 2, at any depth, merges only runs of leaves and only on options whose arrays unfold |
| RuleTreeOrder.FlushOrder | src/pyferm/import_ferm.py:412-442 | the emitted tree expands to the very list it came from when every merged run is one of leaves, on an option that unfolds and under heads with one alternative each, one-item lists included |
| RuleTreeTwins.OrderCanChange | src/pyferm/import_ferm.py:336-355 | four rules with one-item source lists whose order the optimiser changes |
| RuleParse.RuleBuilder.ParseOption | src/pyferm/import_ferm.py:565-675 | one option changes matches, target, keywords, protocol and modules as the step function says, and nothing when it is not understood |
| RuleLine.KeywordsAre | src/pyferm/import_ferm.py:586-664 | at every point of a line a keyword has the definition of the latest table that declares it since the last jump, and no other |
| RuleLine.OutcomeIs | src/pyferm/import_ferm.py:665-675 | an option is refused exactly when no such table declares it, and a negation exactly on a match, jump or goto |
| RuleLine.MarksAre | src/pyferm/import_ferm.py:586-664 | the rule records all modules, the last protocol, jump and goto, and the keywords known when the last jump came |
| RuleLine.EntriesAre | src/pyferm/import_ferm.py:586-664 | matches are the entries in front of the first jump, target entries those behind the last, in order; several-valued neighbours are collected into one entry |
| RuleTreeGuard.StepKeepsGuard | src/pyferm/import_ferm.py:586-617 | an option keeps match entries and metadata in step if and only if it is not a second protocol, a repeated module, a module ahead of its protocol, or a jump that discards such entries |
| RuleTreeGuard.OrderlyParseGuarded | src/pyferm/import_ferm.py:746-790 | a well-ordered line parses to a rule whose metadata determines its protocol and module entries |
| RuleTreeSides.ClashIff | src/pyferm/import_ferm.py:586-617 | two lines with one protocol and no repeated module have equal metadata and just one such entry apart if and only if they name icmp6 and their ICMPv6 protocol's own module on opposite sides of it |
| RuleTreeSides.KeyHeadsIff | src/pyferm/import_ferm.py:252-273 | two such lines that array-match on a module or protocol differ in it if and only if they are opposite in that way |
| RuleTreeGuard.SameTailSameHead | src/pyferm/import_ferm.py:252-273 | where no two lines clash, two protocol or module heads in front of one tail are equal |
| RuleTreeGuard.FlushGuarded | src/pyferm/import_ferm.py:412-442 | then both passes and every re-optimised block merge no run on a protocol or module |
| RuleTreeImport.ReadingsAgree | src/pyferm/parser.py:784-796 | without protocol or module arrays it does not matter how those would be read |
| RuleTreeImport.OrderlyNeverClash | src/pyferm/import_ferm.py:586-617 | well-ordered lines never clash |
| RuleTreeImport.ImportKeepsMeaning | src/pyferm/import_ferm.py:412-442 | when no two lines clash: no module or protocol array, the same flat rules wherever merged runs unfold, and the input's verdicts if and only if no run is merged on a one-string option |
| RuleTreeImport.KeyArraysIff | src/pyferm/import_ferm.py:336-352 | for any lines, the emitted tree has a module or protocol array of several items if and only if some run was merged on one, and without clashing lines none is |
| RuleTreeCases.CommentsDoNotLoad | src/pyferm/import_ferm.py:276-297 | two well-ordered lines that are merged into an array on a one-string option, which does not load |
| RuleTreeCases.JoinedListMayDiffer | src/pyferm/parser.py:875-879 | two lines whose comma-joined options are merged into one list that decides a packet differently |
| RuleTreeCases.DisorderMergesModules | src/pyferm/import_ferm.py:586-617 | a module ahead of its protocol makes the optimiser merge two module heads and lose a packet |
| RuleNodes.CountPrefix | src/pyferm/import_ferm.py:232-239 | the counting loop over mutable nodes counts the specified run |
| RuleNodes.CountArray | src/pyferm/import_ferm.py:276-297 | likewise for array candidates |
| RuleNodePasses.FactorNodes | src/pyferm/import_ferm.py:313-334 | the first pass in place: popping heads and hanging blocks leaves exactly the factored list |
| RuleNodePasses.ArrayNodes | src/pyferm/import_ferm.py:336-355 | the second pass in place: overwriting first values leaves exactly the merged list |
| RuleNodePasses.OptimizeNodes | src/pyferm/import_ferm.py:300-355 | both passes on mutable nodes refine the optimiser's function, touching only the input's nodes and fresh ones |
| RuleEmit.ReadBack | src/pyferm/import_ferm.py:381-442 | reading the written lines gives the tree back, up to bookkeeping that is not written |
| RuleEmit.RenderIndents | src/pyferm/import_ferm.py:412-442 | every written line is indented by the braces open around it, and all of them are closed |
| RuleEmit.EmittedFileVerdict | src/pyferm/import_ferm.py:412-442 | the file read back does to every packet what the flat input does if and only if no run is merged on a one-string option |
| RuleEmit.Importer.FlushRules | src/pyferm/import_ferm.py:412-442 | the recursive writer appends exactly the rendering of the flushed tree and restores the indentation |
| Products.ProductSize | src/pyferm/rules.py:264-271 | the product has as many rows as the product of the lengths |
| Products.ProductOrder | src/pyferm/rules.py:208-234 | its rows come in lexicographic order, the first option varying slowest |
| Unfold.AppendRule | src/pyferm/rules.py:184-205 | one finished rule snapshots the chosen values in order, or fails on an unrealised one |
| Unfold.CallsSeeRealised | src/pyferm/values.py:305-322 | late calls are given realised parameters, at any depth of nesting |
| Unfold.UnfoldRule | src/pyferm/rules.py:208-234 | the recursion over shared slots appends the product of what is still open, up to the first bad row |
| Unfold.MkRules | src/pyferm/rules.py:237-271 | a rule appends exactly its ordered product, earlier entries stay, stale choices do not show, the count check never fails |
| Unfold.Siblings | src/pyferm/rules.py:237-271 | rules that share option objects each get their own rows |
| Unfold.RowCount | src/pyferm/rules.py:258-271 | without late calls the row count is the product of the array lengths |
| JumpCycles.CanonicalIsCycle | src/pyferm/analysis.py:531-538 | the canonical tuple is the same cycle, rotated to its least chain |
| JumpCycles.RotationsAgree | src/pyferm/analysis.py:531-538 | all rotations of a cycle have one canonical tuple |
| JumpCycles.Turn | src/pyferm/analysis.py:559-579 | one turn of the search keeps its invariant and spends one unit of work |
| JumpCycles.SearchFrom | src/pyferm/analysis.py:553-580 | one search visits everything reachable, pushes a chain once and consumes a jump once |
| JumpCycles.FindCycles | src/pyferm/analysis.py:541-580 | reported tuples are simple cycles of real jumps, every chain on a cycle is in one, within chains times chains-plus-jumps turns |
| JumpCycles.EmptyIffAcyclic | src/pyferm/analysis.py:541-580 | nothing is reported exactly when no chain can reach itself |
| JumpCycles.FindJumpCycles | src/pyferm/analysis.py:583-611 | the same from the set of collected jump edges |
| Prefixes.PowerTest | src/pyferm/nftset.py:258-259 | the bit test holds exactly for powers of two, and the bit length names the exponent |
| SetElements.CanonicalKeepsMeaning | src/pyferm/nftset.py:267-292 | rewriting an address element keeps the addresses it stands for |
| SetElements.PrefixExtremes | src/pyferm/nftset.py:221-238 | the empty prefix stands for the whole family and a full one for a single address |
| SetElements.AlignedBlockIff | src/pyferm/nftset.py:258-264 | the size and alignment test holds exactly for ranges that are one prefix |
| SetElements.AlignedBlockIsPrefix | src/pyferm/nftset.py:258-264 | and then the collapse gives that very prefix length |
| SetElements.CanonicalUnique | src/pyferm/nftset.py:240-292 | two address elements have one canonical form if and only if they denote one interval |
| SetElements.NetworksLaminar | src/pyferm/nftset.py:319-335 | two networks of a family are nested or disjoint |
| SetPipeline.CanonicalTextUnique | src/pyferm/nftset.py:267-292 | the same for texts, whatever their spelling |
| SetPipeline.SortOrders | src/pyferm/nftset.py:182-202 | sorting orders the keys and keeps the elements |
| SetOrder.SortedInPlace | src/pyferm/nftset.py:132-202 | of any two sorted elements the earlier class comes first, then the lower value (version, network address and prefix length for networks), then the text |
| SetOrder.PipelineInPlace | src/pyferm/nftset.py:338-361 | so do any two elements of a canonicalised set |
| SetOrder.PipelineKeepsUnread | src/pyferm/nftset.py:182-193 | elements that cannot be read come out in the order they came in, the first of each |
| SetOrder.DedupInOrder | src/pyferm/nftset.py:338-361 | duplicates go, first occurrences stay in order |
| SetPipeline.DropContainedNetworks | src/pyferm/nftset.py:295-335 | the two-table loop keeps, in order, exactly what no other element of the list covers |
| SetLaws.PipelineCovers | src/pyferm/nftset.py:338-361 | the whole pipeline stands for exactly the addresses of its input |
| SetLaws.OthersRetained | src/pyferm/nftset.py:338-361 | non-address elements go through untouched and none is invented |
| SetLaws.DroppedCovered | src/pyferm/nftset.py:295-335 | every dropped network lies inside a single kept one |
| SetLaws.DroppedIff | src/pyferm/nftset.py:295-335 | an element is absorbed exactly when it is a network and another network of its family in the canonical list spans it |
| SetLaws.KeptDisjoint | src/pyferm/nftset.py:295-335 | networks kept after absorption are pairwise disjoint |
| SetLaws.KeyInjective | src/pyferm/nftset.py:132-193 | equal sort keys mean equal elements, away from unparsable ones |
| SetLaws.SortTwice | src/pyferm/nftset.py:196-202 | sorting is a fixed point although unparsable keys depend on the position |
| SetLaws.PipelineIdempotent | src/pyferm/nftset.py:338-361 | canonicalising twice changes nothing, with or without absorption |
| SetLaws.OrderIndependent | src/pyferm/nftset.py:182-202 | without unparsable elements the output depends on the set of canonical elements only |
| SetLaws.LawfulExists | src/pyferm/nftset.py:221-237 | some spelling reads back every canonical form, so the laws above are not about nothing |
| SetLaws.OneListPerSet | src/pyferm/nftset.py:338-361 | two inputs give one list, absorption off, if and only if they have the same canonical elements |
| StructuralParser.Parser.ParseBlock | src/pyferm/parser.py:447-471 | the statement loop consumes exactly what the parse function says and restores the depth |
| StructuralParser.Parser.SkipToBlockEnd | src/pyferm/parser.py:473-485 | past the depth cap the cursor lands behind the matching brace |
| StructuralScans.BlockEndIff | src/pyferm/parser.py:473-485 | a skipped block ends behind the first brace that closes more than was opened, and nowhere else |
| StructuralScans.DepthCap | src/pyferm/parser.py:451-460 | inside a hundred open blocks the tokens of a further one are skipped |
| StructuralParser.Parser.ParseStatement | src/pyferm/parser.py:487-505 | one statement of the kind its leading token says |
| StructuralScans.StatementStarts | src/pyferm/parser.py:487-505 | at any depth the first word decides the kind, by the five header words and eleven directive words, and the tokens are those of the text up to where such a statement ends |
| StructuralParser.Parser.CaptureStatementSpan | src/pyferm/parser.py:507-539 | the span up to the top-level semicolon, stray closer, or match block |
| StructuralScans.SpanEndIff | src/pyferm/parser.py:507-539 | a span ends at the end, at the first closer or block brace, or behind the first semicolon outside brackets, and nowhere else |
| StructuralParser.Parser.ScanHeaderValue | src/pyferm/parser.py:541-562 | the cursor stops at the first top-level terminator and names it |
| StructuralScans.ValueEndIff | src/pyferm/parser.py:541-562 | a header value ends at the first brace or semicolon outside parentheses, and nowhere else |
| StructuralParser.Parser.ParseHeader | src/pyferm/parser.py:564-578 | a header with its block, or without one at a semicolon, brace or the end |
| StructuralParser.Parser.ParseIf | src/pyferm/parser.py:580-612 | the iterative chain, rebuilt from its last link, is the nested tree |
| StructuralParser.HangSnoc | src/pyferm/parser.py:602-612 | adding a link at the end of the chain nests one deeper |
| StructuralRoundTrip.RoundTrip | src/pyferm/parser.py:447-619 | every well-formed tree within the depth cap is parsed back from its printed tokens, all consumed |
| StructuralRoundTrip.PrintInjective | src/pyferm/parser.py:447-619 | two such trees never print alike |
| StructuralRoundTrip.ParsePrinted | src/pyferm/parser.py:447-619 | the cursor class does the same |
| StructuralLayout.LayoutFree | src/pyferm/parser.py:430-619 | texts that differ in their line structure only are parsed to the same tree, or both never |
| StructuralNesting.NestedTerminates | src/pyferm/parser.py:447-619 | on properly nested brackets, closed or not at the end, the parser comes back |
| StructuralHang.StrayStays | src/pyferm/parser.py:461-468 | on a closing parenthesis any number of turns of the statement loop collect empty rules and leave the cursor on it |
| StructuralHang.ReturnsIff | src/pyferm/parser.py:461-468 | the parse function has a result if and only if the loop is left after finitely many turns |
| StructuralHang.StrayParenthesisHangs | src/pyferm/parser.py:531-533 | among rules and plain blocks within the depth cap, a first misplaced bracket that is a closing parenthesis with none open means the parser never comes back |
| StructuralHang.ParsedIffScanned | src/pyferm/parser.py:447-539 | a text of rules and plain blocks, of any depth, is parsed to the end if and only if one flat scan, counting braces and span brackets, meets no closing parenthesis where a statement should start |
| KeywordScope.Rule.CopyOnWrite | src/pyferm/scope.py:149-162 | shared dictionaries are replaced by equal fresh ones, owned ones stay |
| KeywordScope.Scope.NewLevel | src/pyferm/scope.py:165-192 | a level shares its parent's tables marked for copying; without a parent it owns empty ones |
| KeywordScope.LastMergeWins | src/pyferm/scope.py:195-215 | over any run on one level, nested blocks included, a keyword has the definition and the mark of the last merged module that declares it |
| KeywordScope.Scope.MergeKeywords | src/pyferm/scope.py:195-215 | merging changes the current level as if nothing were shared, and no other level or registry |
| KeywordScope.Scope.SetDomain | src/pyferm/parser.py:736-742 | the registry's table is shared, never written |
| KeywordScope.Scope.Run | src/pyferm/walker.py:97-111 | over every stack-disciplined run the shared tables hold what private copies would, and the registries are unchanged |
| KeywordLookup.ScopeIsLexical | src/pyferm/scope.py:165-215 | at any point of any run the current level knows exactly the keywords, definitions and marks that looking back finds: the latest merge or domain of this level or of one around it, nothing from closed or finished levels |
| KeywordScope.BlockRestores | src/pyferm/walker.py:97-111 | whatever a nested block does, every enclosing level's keywords are as when it opened |
| Multiport.ChunksLegal | src/pyferm/functions.py:852-865 | chunks concatenate to the list, weigh at most fifteen, and none is empty |
| Multiport.ChunksOptimal | src/pyferm/functions.py:852-865 | no order-preserving split into legal chunks has fewer |
| Multiport.OneRuleIff | src/pyferm/functions.py:866-866 | a list stays one rule exactly when its ports and its ranges, counted once more, are at most fifteen |
| Multiport.MultiportParams | src/pyferm/functions.py:848-866 | the loop yields the joined greedy chunks, bare when there is one; a negated list is not cut |
| Multiport.ArgumentReads | src/pyferm/functions.py:848-866 | split at its commas, the argument names exactly the given ports, in order, and is negated as often as the value |
| NftDelta.AfterIff | src/pyferm/plan/delta.py:173-190 | a chain's commands lead to the desired chain if and only if its header can be reached in place |
| NftDelta.ExecSet | src/pyferm/plan/delta.py:110-140 | an added or modified set ends with exactly the desired members |
| NftDelta.DeltaConverges | src/pyferm/plan/delta.py:202-224 | applying the script gives the desired chains, sets and objects if and only if headers are reachable and not only empty chains are new |
| NftDelta.ScriptSparing | src/pyferm/plan/delta.py:152-161 | no command names a chain already as desired, none but a redeclaration one whose rules and priority stay, none drops an element that stays or adds one that is there |
| NftDelta.ReloadIff | src/pyferm/plan/delta.py:266-273 | a delta is possible exactly when the objects are the running ones and every running set stays with its kind and flags |
| NftDelta.NoChangesIff | src/pyferm/plan/delta.py:219-221 | the script is empty exactly when nothing the diff looks at differs |
| NftScriptOrder.ScriptInTurn | src/pyferm/plan/delta.py:202-224 | set commands come ahead of chain commands, leftover base chains behind them and leftover user chains last; names ascend; within one name what goes is deleted, then declared, then filled |
| NftDelta.EmptyChainMissed | src/pyferm/plan/diff.py:83-133 | a new chain without rules is not seen when nothing else changed |
| NftDeltaEmit.BuildDesiredIndex | src/pyferm/plan/delta.py:31-84 | on any script: an internal error exactly on a line no renderer writes, otherwise the last declaration of every name since the last table reset and every chain's rule lines in order; on rendered lines, the declared table |
| NftDeltaEmit.EmitSetChanges | src/pyferm/plan/delta.py:87-140 | the set phase, by name, from the index and the live elements |
| NftDeltaEmit.EmitChainChanges | src/pyferm/plan/delta.py:143-199 | the chain phase, by name, then the deletions |
| NftDeltaEmit.BuildNftDelta | src/pyferm/plan/delta.py:241-275 | a script exactly when the objects are the same and every running set stays with its kind and flags |
| NftDeltaEmit.DeltaAgreesWithReload | src/pyferm/plan/delta.py:241-275 | without dynamic sets the delta leaves the kernel as a full reload would |
| Ordering.SortedLists | src/pyferm/plan/delta.py:173-173 | the sorted names are the names, strictly ascending |
| Ordering.LexLessIff | src/pyferm/plan/delta.py:173-173 | tuples and strings compare by their first difference, a proper prefix comes first |
| TokenStream.Script.PrepareTokens | src/pyferm/tokenizer.py:214-231 | an empty queue takes the next line behind its sentinel; nothing still to come changes |
| TokenStream.Script.PeekToken | src/pyferm/tokenizer.py:265-269 | the next token with its own line as current line, nothing consumed |
| TokenStream.Script.NextToken | src/pyferm/tokenizer.py:277-299 | the next token is consumed and the line is that token's |
| TokenStream.Script.ReadRaw | src/pyferm/tokenizer.py:271-275 | a raw read whose caller handles sentinels loses no token and no line |
| TokenStream.Script.DrainRaw | src/pyferm/parser.py:637-644 | reading everything raw without handling sentinels delivers every token, with one and the same number on every line's sentinel |
| TokenStream.Script.Deliver | src/pyferm/tokenizer.py:255-299 | any interleaving of peeks, reads and raw reads delivers the tokens to come in order, each with its line, and each read takes what it is due: a read the next token, a raw read the next entry, a peek none |
| TokenStream.PlainReadsServe | src/pyferm/tokenizer.py:277-299 | plain reads alone are served the tokens to come one by one until none is left |
| TokenStream.EagerLocated | src/pyferm/tokenizer.py:214-231 | what a fresh script delivers is what lexing all lines at once gives |
| Reapply.Machine.RollbackAll | src/pyferm/cli/apply.py:72-97 | the rollback loop, family by family, ends in the marked exit or at the first error |
| Reapply.Machine.ApplyConfig | src/pyferm/cli/apply.py:259-348 | commit every family, remember the statuses that are read, ask, roll back |
| Reapply.Machine.RollbackTo | src/pyferm/cli/rollback.py:276-326 | guards, revert, re-apply, and what is done to the worktree on each exit |
| Reapply.GuardsProtect | src/pyferm/cli/rollback.py:279-299 | behind a dirty worktree, a missing terminal, a no or a failed checkout nothing is touched; behind open guards the worktree ends reverted, or a notice says it was put back |
| ReapplyExits.ExitIs | src/pyferm/cli/rollback.py:299-326 | each way a run can end, and exactly when it does |
| ReapplyExits.AbortLeaves | src/pyferm/cli/apply.py:300-316 | a commit that ends the run leaves the families in front of it on what they got and those behind it as they were |
| Reapply.RollsBackIff | src/pyferm/cli/apply.py:300-339 | the marked exit happens exactly when parse and commits end, a status or refusal asks for it, and no rollback raises |
| Reapply.SuccessAgrees | src/pyferm/cli/apply.py:300-348 | the exact condition for success; it leaves the revert in the worktree, and every enabled family on its rules if and only if no commit had a failing status that is not read |
| Reapply.MarkedExitRestores | src/pyferm/cli/rollback.py:309-313 | after a marked exit every family is on its old rules, or named, or its rollback had an unread status or a wrong copy, and the worktree is back or its owner warned |
| Reapply.OtherFailureTold | src/pyferm/cli/rollback.py:314-326 | every other failure past the revert leaves it in place and says so |
| Reapply.SilentDivergencePossible | src/pyferm/backend/iptables.py:786-815 | over all outcomes, silent divergence is possible if and only if some family is enabled and it is ebtables or no enabled family lacks its restore tool |
| Reapply.SilentRollbackPossible | src/pyferm/backend/iptables.py:786-815 | over all outcomes, a rollback can go astray in silence if and only if some family is enabled and each is ebtables, nft or has its restore tool |
| Reapply.NoSilentDivergence | src/pyferm/cli/rollback.py:299-356 | kernel and worktree disagree unannounced if and only if a successful run had a commit fail unread, or a rollback completed without a notice and left some family off its old rules |
| Reapply.EbtablesCommitLost | src/pyferm/backend/iptables.py:712-722 | a failing atomic commit of ebtables counts as success and nothing is said, with a toolless family enabled beside it |
| Reapply.TruncatedDumpRestored | src/pyferm/cli/io.py:159-173 | a truncated dump is restored without an error and the worktree is put back in silence |

## Left out

- Text level of the importer: splitting lines into tokens, reading option arguments, quoting, policies, tables and
  domains; options arrive already read, and keyword tables are parameters. A written line keeps its matches and
  action as values.
- RuleEmit.ReadBack: lines are values; the spelling of options, quoting and the text of a line are not modelled.
- RuleEmit.EmittedFileVerdict: the same lines; that a file loads means here that no array stands where one string is
  expected.
- RuleEmit.Importer.FlushRules: appends lines as values, without their text.
- RuleTreeReading.FlushLoads: one keyword table says how each option name is read; that two modules may declare one
  name differently is not part of the model.
- RuleTreeEscapes.EmittedLoads: asks that a rule which records its match keywords declares its one-string options
  there, under the name shown; the module tables register aliases like that.
- RuleTreeImport.ImportKeepsMeaning: asks of the options what reading their arguments yields (one string where one
  is taken, no empty list, one value for `-p`); the reading itself is not modelled.
- RuleTreeImport.KeyArraysIff: the same of the options.
- RuleLine.EntriesAre: asks that an option of several values is shown under its own name and that `-p` reads one value,
  as the module tables and the reader have it.
- RuleTreeMeaning.FlushOutcome: speaks of stateless matches and terminating actions; counters, LOG or MARK order
  and `hashlimit` can tell merged rules apart.
- RuleTreeOrder.FlushOrder: goes one way; re-optimised blocks start from arrays, for which the converse is not stated
  (`OptimizeOrder` is exact for one optimisation).
- RuleTreeInterleave.OptimizeOrder: asks that no option occurs both bare and as a one-item list, and that every rule
  stands for one flat rule; several joined items count as one alternative.
- RuleTreeConservation.FlushBag: a multiport list is one joined value here, as it is up to fifteen ports; that ferm cuts
  a longer one into several rules is in `Multiport.dfy` only.
- Unfold.CallsSeeRealised: asks that a late call gives no late calls back, which the program does not evaluate either.
- Unfold.MkRules: late-evaluated functions are a parameter; option objects within one rule are distinct, as
  appending options makes them.
- Jump cycles: collecting the edges from a tree and sorting the findings.
- SetPipeline.CanonicalTextUnique: under a lawful spelling; an IPv4-mapped host, which the program may spell in two
  ways, has one spelling here.
- SetOrder.SortedInPlace: for elements that read as lawful forms, as the other laws of the set.
- Addresses as text: reading and spelling are a parameter that must be lawful (a written canonical form reads back
  as itself).
- Structural parser: source positions are not part of the tree; `DrainRaw` says what its sentinels are worth.
- StructuralParser.Parser.ParseBlock: is required to be called where the parse function is defined, that is, where
  the program terminates.
- Keyword scope: the other fields of a level are copied when it opens and are not modelled.
- Multiport.ArgumentReads: asks for ports without commas, since commas join them, and not for a negated empty list, which
  reads back as one empty port.
- Multiport.MultiportParams: the protocol check in front of it, set references and late calls.
- Token stream: the regular expression that lexes a line, and `past_tokens`, which only serves error messages.
- nft: chain references between rules, so the order of deletions inside the transaction is not justified here;
  interval arithmetic of set elements; the `flush table` line; rule bodies are taken as already canonical; the
  positional rule diff is used only for whether it is empty.
- NftDeltaEmit.BuildDesiredIndex: comments and blank lines of the script, and the words of a line, are not modelled;
  lines arrive read.
- NftDelta.DeltaConverges: a dynamic set keeps its running elements, on both sides of the comparison.
- Reapply.Machine.ApplyConfig: `--plan`, `--noexec`, `--shell` output, hooks (their status is ignored) and the
  history commit; tools, the admin and git are outcomes given from outside.
- Reapply.SuccessAgrees: a commit that reports no failure is taken to run the family's rules; for nft deltas that is
  `DeltaConverges`.
- Reapply.Machine.RollbackTo: an exit with status zero, which would print no notice, is not represented; the only
  exit raised during a re-apply (cli/io.py:149) has status one.
- The evaluator of the ferm language, module registries, graph rendering and cluster ids, quoting helpers and all
  process, file and terminal plumbing.
