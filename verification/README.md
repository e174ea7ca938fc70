# Verified models of the rubyrs workspace

A Dafny model of the algorithmic cores of this workspace, with proofs of what each core is
for. `dafny verify dfyconfig.toml` checks everything; there is nothing to execute.

The files follow the components. A component whose source computes by changing state has a
class or a loop here too, proved equal to a function of the old state; the theorems are
about those functions.

- **liquidus** (`Liquidus*.dfy`). A template compiler that reports what a template reads, so
  that an embedder may supply only that much. `LiquidusGrammar` is the parser as functions,
  `LiquidusParser` the parser with its shared token cursor and context, `LiquidusRender` the
  renderer, `LiquidusMerge` the merge of the recorded needs. What these compute is said
  without them: `LiquidusTextLaws` for the string primitives, `LiquidusLexing` by writing
  tokens out, `LiquidusPrinting` by writing templates out, `LiquidusSubset` by what is
  accepted at all, `LiquidusOutput` by laws of the rendered text. `LiquidusDemand` proves that
  every read is recorded, `LiquidusSoundness` that rendering cannot tell cut-down values from
  full ones, `LiquidusMinimal` gives the least values to supply, `LiquidusLimits` the two kinds
  of template for which it can tell.
  `LiquidusInclude` proves that an include is a splice of tokens. `LiquidusCalendar` is the
  civil-date algorithm on 64-bit integers with every intermediate checked.
- **carmine** (`Carmine*.dfy`). A table-driven lexer. The regex engine is an oracle that
  answers with spans inside the text. `CarmineTokens` is the consolidating buffer,
  `CarmineEngine` one firing, one round and a whole run, `CarmineLexer` the same as an object
  with fields. `CarmineFiring` says which rule fires where and what a firing leaves behind,
  `CarmineDriving` how rounds and pauses make a lex. `CarmineMixins` relates the nested search
  to one flat rule list, `CarmineSession` the two drivers to each other and bounds the rounds,
  `CarmineCoverage` proves lexing lossless, `CarmineNames` that every id a lexer emits has a
  class name, `CarmineHtml` proves highlighting invertible. `CarmineRuby` gives Ruby rule
  blocks a meaning, `CarmineIrCompiler` compiles them, `CarmineIrSound` proves the
  compiler right, `CarmineIrReach` that every op program is the compilation of a block.
  `CarmineWordlist` is the keyword-classifier tabulation, `CarmineOctal` one regex rewriting
  pass and `CarmineClasses` its effect on patterns written from their parts.
- **rubyrs-cext** (`Cext*.dfy`). `CextEquality` and `CextHash` are the depth-limited equality
  over the handle table and the hashes built on it, `CextTree` reads both as trees and finite
  maps; `CextJump` and `CextShim` are the setjmp/longjmp stack against structured try/catch.
- **rubyrs-jit** (`JitInt.dfy`). Stack code to SSA instructions with an overflow flag, and a
  compiled loop as basic blocks.
- **rubund** (`Rubund*.dfy`). The Gemfile.lock state machine, independence of its sections,
  what it passes over, and the round trip with a printer of Bundler's layout.
- **rubyrs-spec-extract** (`SpecExtractSubst.dfy`). The substitution engine.

## Where the code does not do what one would expect

Each of these is a lemma with a concrete input or an exact condition, next to the theorem it limits.

- A loop variable that shadows another one over a different collection is resolved
  outermost-first by the parser and innermost-first by the renderer: the reported needs do
  not determine the output (`ShadowingDefeatsNeeds`).
- A condition that is a quoted text with an operator in it, such as `{% if "a<b" %}`, is split
  there and declines (`QuotedOperatorDeclines`).
- The size of a bare loop item counts pairs that `fields` does not record (`ItemSizeDefeatsNeeds`).
- A raise of exception class 0 is delivered as a return and leaks its message (`ClassZeroLeaks`);
  without class 0 delivery is exact, and only then (`FaithfulExactly`).
- At nesting depth 256 equal values compare as different (`LimitIsSharp`); the converse never
  happens (`EqImpliesSameValue`).
- A rule block whose leading alias rebinds the match parameter, one whose debug print has an
  `else` or a call among its arguments, and one that raises on an absent group, compile to ops
  that do something else (`ReboundParamDiffers`, `HiddenElseDiffers`, `HiddenCallDiffers`,
  `RaisingBlockDiffers`). So does a condition on a bare list variable that `start` initialised
  and nothing was appended to: an empty list is truthy in Ruby, and absent in the engine
  (`IvarAgreesIff` says exactly when such a condition agrees).
- A keyword classifier that compares the word inside the argument of `token` is tabulated, and
  its table is wrong for the compared literal (`HiddenComparisonDiffers`; `ExactIffHarmless`
  says exactly when the table is right).
- A dependency line before the first spec of a lockfile section joins the last spec of an
  earlier section (`OrphanJoinsOtherSource`; `SpecsAreSections` says exactly when).
- Two inserts at one offset come out in reverse order (`SharedOffsetShowsOrder`; `OneTextIffCommuting`
  says exactly when the order of the edits does not matter).
- In a character class of carets only, such as `[^^]`, the second caret still counts as the
  start of the class, so its bracket does not close it and a back-reference behind it becomes
  a character code (`CaretClassRunsOn`; `PatternPasses` covers every other class).
- A class name with a quote makes highlighted output ambiguous (`QuotesAreAmbiguous`).

## Model

| member | source | states |
|---|---|---|
| LiquidusText.SplitOutsideQuotes | crates/liquidus/src/parse.rs:297-315 | the split loop for pipes and commas cuts exactly at the separators outside quotes |
| LiquidusParser.Lex | crates/liquidus/src/parse.rs:120-168 | the scanning loop yields the token list of the grammar, or its first error |
| LiquidusLexing.LexExactly | crates/liquidus/src/parse.rs:120-165 | a source lexes to a token list if and only if it is texts, outputs and tags written out one after the other whose trimmed forms are that list; a text holds no opener, an inner text no closer and no outer `-` |
| LiquidusParser.Ctx.ParseVar | crates/liquidus/src/parse.rs:414-464 | on the shared context: the reference the grammar gives, its need recorded at the end of the list or its field added to the newest need of the collection |
| LiquidusSubset.RefExactly | crates/liquidus/src/parse.rs:414-464 | a text parses to a reference if and only if it is the dotted identifiers of that reference, a last segment `size` for its size, not below `forloop`, at most one field below a loop variable; and then the needs grow by exactly what that reference records |
| LiquidusPrinting.ExprReadBack | crates/liquidus/src/parse.rs:380-412 | literals of both quotes, every 64-bit integer and every expressible reference, written out, parse to themselves |
| LiquidusSubset.KeywordsDeclined | crates/liquidus/src/parse.rs:405-410 | the six keyword literals decline |
| LiquidusParser.Ctx.ParseOutput | crates/liquidus/src/parse.rs:246-294 | on the shared context: same node and same needs as the grammar; a leading `size` filter turns the reference into its size and shrinks the newest need of the path |
| LiquidusPrinting.OutputReadBack | crates/liquidus/src/parse.rs:246-378 | an expression with any of the thirteen filters and literal arguments, written out, parses to that output; separators inside quotes do not split |
| LiquidusPrinting.SizeFilterIsSize | crates/liquidus/src/parse.rs:257-292 | a reference with a leading `size` filter, further filters behind it, parses to the output of `x.size` with those filters, and records the need of `x.size` |
| LiquidusParser.Ctx.ParseCond | crates/liquidus/src/parse.rs:471-490 | on the shared context: same condition and same needs as the grammar, or the same error |
| LiquidusPrinting.CondReadBack | crates/liquidus/src/parse.rs:471-490 | each of the six comparisons, and a bare expression, written out, parses to itself, with the needs of left before right |
| LiquidusSubset.CompoundDeclined | crates/liquidus/src/parse.rs:472-474 | a condition with `and`, `or` or `contains` between spaces declines |
| LiquidusSubset.QuotedOperatorDeclines | crates/liquidus/src/parse.rs:475-489 | a quoted text that holds a comparison operator is no condition: it is split at the operator and declines |
| LiquidusParser.Ctx.ParseForHead | crates/liquidus/src/parse.rs:492-526 | on the shared context: same loop head and same needs as the grammar, or the same error |
| LiquidusPrinting.HeadReadBack | crates/liquidus/src/parse.rs:492-526 | a loop head with or without a limit, written out, parses to itself and records the collection with that limit as its prefix |
| LiquidusParser.Ctx.ParseNodes | crates/liquidus/src/parse.rs:170-244 | the cursor loop returns the grammar's nodes and leaves needs and cursor where the grammar does; loop variables and include depth are restored on every exit |
| LiquidusParser.Compile | crates/liquidus/src/lib.rs:121-152 | the whole imperative compiler equals the functional one, error for error |
| LiquidusPrinting.SourceReadBack | crates/liquidus/src/parse.rs:76-93 | for every tree of expressible nodes: the source text written from it parses to exactly that tree, and the recorded needs are those of its nodes in text order |
| LiquidusSubset.TemplatesOfTheSubset | crates/liquidus/src/parse.rs:170-526 | whatever template parses, its nodes use only supported filters with literal arguments, integers of 64 bits, strings without a backslash, well-formed references and loop heads, and the recorded needs are the function of the nodes that SourceReadBack names |
| LiquidusSubset.IncludeChain | crates/liquidus/src/parse.rs:210-231 | a chain of files that include one another parses to the text at its end if and only if it is at most eight files long; a longer one declines for its depth |
| LiquidusSubset.IncludeDeclined | crates/liquidus/src/parse.rs:210-221 | an include with parameters, of a variable, or of a file that is not there declines |
| LiquidusSubset.OtherTagsDeclined | crates/liquidus/src/parse.rs:232-235 | every other tag declines, also an end tag that nobody waits for |
| LiquidusSubset.UnclosedDeclined | crates/liquidus/src/parse.rs:240-242 | a block that is not closed declines |
| LiquidusGrammar.ParseNodesClean | crates/liquidus/src/parse.rs:466-469 | no recorded path contains `#`, so size companions cannot collide with paths |
| LiquidusDemand.LookupsAgree | crates/liquidus/src/parse.rs:434 | outermost and innermost resolution of a loop variable coincide when shadowing loops agree on the collection |
| LiquidusDemand.DemandIsJoint | crates/liquidus/src/lib.rs:121-152 | the joint demand on a path: the whole collection when one need wants that, else the longest prefix wanted; its size and a field exactly when some need wants them |
| LiquidusDemand.ParseVarRecords | crates/liquidus/src/parse.rs:414-464 | whatever a parsed reference reads is asked for by the needs after it, and earlier needs only grow |
| LiquidusDemand.ParseOutputRecords | crates/liquidus/src/parse.rs:246-294 | an output with filters reads no more than the needs after it ask for, also after a filter rewrote the newest need |
| LiquidusDemand.ParseNodesCovers | crates/liquidus/src/parse.rs:170-244 | for every token list, block and include nesting: the final needs serve every use in the parsed nodes |
| LiquidusMerge.MergeNeeds | crates/liquidus/src/lib.rs:121-152 | the sort and dedup loop computes the merge that MergeExact is about |
| LiquidusMerge.MergeExact | crates/liquidus/src/lib.rs:121-152 | each path once, in order, and per path exactly the joint demand of all recorded needs: nothing lost, nothing added |
| LiquidusRender.RenderState.Walk | crates/liquidus/src/render.rs:24-70 | appends the rendering of the nodes to the output and restores the frame stack, on success and on decline |
| LiquidusRender.RenderState.Loop | crates/liquidus/src/render.rs:44-66 | one frame per item, pushed and popped, output appended in order; the first decline stops it |
| LiquidusRender.RenderTemplate | crates/liquidus/src/render.rs:17-22 | the imperative renderer equals the functional one, decline for decline |
| LiquidusOutput.RenderConcat | crates/liquidus/src/render.rs:31-69 | a node list renders as its parts one after the other; the first decline is the result |
| LiquidusOutput.IfHolds | crates/liquidus/src/render.rs:39-43 | wherever it stands, a block whose condition holds renders as its body in its place |
| LiquidusOutput.IfFails | crates/liquidus/src/render.rs:39-43 | wherever it stands, a block whose condition fails renders as if it were not there |
| LiquidusOutput.IfDeclines | crates/liquidus/src/render.rs:39-43 | a condition that declines declines the list, unless something in front of it did |
| LiquidusOutput.TruthyIs | crates/liquidus/src/render.rs:133-137 | a bare condition fails exactly on nil and false |
| LiquidusOutput.IntegersCompare | crates/liquidus/src/render.rs:142-149 | the six comparisons of integers have their arithmetical truth value |
| LiquidusOutput.StringsCompare | crates/liquidus/src/render.rs:150-151 | strings are equal or unequal as texts; an order on them declines |
| LiquidusOutput.NilCompares | crates/liquidus/src/render.rs:152-156 | nil equals nil and nothing else, on either side |
| LiquidusOutput.ForConcatenates | crates/liquidus/src/render.rs:44-66 | a loop renders as the concatenation of its body for the first `limit` items in order; the first item that declines is the result |
| LiquidusOutput.ForDeclines | crates/liquidus/src/render.rs:50-58 | a loop over nothing supplied, or over anything but an array or nil, declines |
| LiquidusOutput.LoopVariable | crates/liquidus/src/render.rs:99-107 | inside its loop a variable is the item at hand, the others are what they were outside |
| LiquidusOutput.LoopField | crates/liquidus/src/render.rs:103-106 | a field of an item is the value of its first pair with that name, else nil |
| LiquidusOutput.LoopSize | crates/liquidus/src/render.rs:107-122 | the size of an item or of a field counts characters, items or pairs; anything else declines |
| LiquidusOutput.LastFilter | crates/liquidus/src/render.rs:124-129 | filters run from left to right: the last one works on the result of those before it, and its result is shown |
| LiquidusOutput.ValueShows | crates/liquidus/src/render.rs:166-182 | nil shows nothing, a string itself, a boolean its name, an integer its decimal digits without leading zeros; every other value declines |
| LiquidusOutput.SizeShows | crates/liquidus/src/render.rs:84-97 | the size of a path is its integer companion when there is one, else the count of its characters, items or pairs |
| LiquidusSoundness.RenderAlike | crates/liquidus/src/render.rs:24-163 | nodes covered by the needs render the same from any two value sets that agree on the needs |
| LiquidusSoundness.CompileCovers | crates/liquidus/src/lib.rs:121-152 | what `variables()` reports covers everything the compiled nodes can read |
| LiquidusSoundness.NeedsSufficient | crates/liquidus/src/lib.rs:50-64 | for every source, include map and filter set: full values and any cut to the reported needs give the same string or the same decline |
| LiquidusSoundness.CoveredSufficient | crates/liquidus/src/lib.rs:50-64 | the same for every template whose nodes its reported needs cover, a checkable condition that admits harmless shadowing |
| LiquidusMinimal.SmallestCutIsCut | crates/liquidus/src/lib.rs:50-64 | dropping unlisted paths, items behind the slice and unread or nil fields, with a size companion only where the rest alone would show another size, is a permitted cut of any values |
| LiquidusMinimal.SmallestCutIsLeast | crates/liquidus/src/lib.rs:50-64 | every permitted cut holds at least its paths, item prefixes and field pairs, and each of its companions unless it keeps more items of that array instead; there are no other entries in it |
| LiquidusMinimal.SmallestCutSuffices | crates/liquidus/src/lib.rs:50-64 | an embedder that supplies only that least cut of any values renders the same |
| LiquidusLimits.ShadowingDefeatsNeeds | crates/liquidus/src/render.rs:100 | a concrete template with a shadowing loop over another collection renders differently from cut values |
| LiquidusLimits.ItemSizeDefeatsNeeds | crates/liquidus/src/render.rs:103-107 | a concrete template that takes the size of a bare loop item renders differently from cut values |
| LiquidusInclude.RestIsSuffix | crates/liquidus/src/parse.rs:170-244 | parsing consumes a prefix of the tokens, at top level all of them |
| LiquidusInclude.ParsesShallower | crates/liquidus/src/parse.rs:210-231 | what parses below some includes parses to the same below fewer |
| LiquidusInclude.CompleteThenMore | crates/liquidus/src/parse.rs:170-244 | a complete token list followed by more parses to its nodes followed by the rest, with needs threaded through |
| LiquidusInclude.IncludeIsSplice | crates/liquidus/src/parse.rs:210-231 | whenever a template with an include parses, splicing the included tokens in its place gives the same nodes and the same needs, at any nesting |
| LiquidusCalendar.DecomposeDate | crates/liquidus/src/strftime.rs:42-73 | for every i64 second: a valid proleptic Gregorian date whose day number, counted by leap years and month lengths, is the day of the second |
| LiquidusCalendar.DecomposeSteps | crates/liquidus/src/strftime.rs:42-73 | n times 86400 seconds more is n steps to the next calendar day, time of day unchanged, weekday n further |
| LiquidusCalendar.DecomposeEpoch | crates/liquidus/src/strftime.rs:42-73 | second 0 is Thursday 1970-01-01, midnight |
| LiquidusCalendar.TimeOfDay | crates/liquidus/src/strftime.rs:42-73 | hour, minute and second are in range and sum to the second of the day; the weekday follows the day count, before 1970 too |
| LiquidusCalendar.DecomposeYearDay | crates/liquidus/src/strftime.rs:42-73 | the day of the year counts the days of the months before and the day of the month |
| LiquidusCalendar.DecomposeInvertible | crates/liquidus/src/strftime.rs:42-73 | the second is recovered from the fields |
| LiquidusCalendar.OneDatePerDay | crates/liquidus/src/strftime.rs:42-73 | a day number belongs to one valid date only |
| CarmineTokens.EmitStep | crates/carmine/src/engine.rs:316-327 | an emission keeps the buffer canonical and appends exactly its labelled characters |
| CarmineTokens.CanonicalUnique | crates/carmine/src/engine.rs:316-327 | a labelling of the characters leaves only one canonical buffer |
| CarmineTokens.SpliceConsolidated | crates/carmine/src/engine.rs:288-308 | splicing a consolidated sub-lex equals splicing the emissions it came from |
| CarmineEngine.EmitTo | crates/carmine/src/engine.rs:316-327 | the buffer stays the consolidation of every emission so far |
| CarmineEngine.RunIr | crates/carmine/src/engine.rs:204-314 | ops leave position, null counter and pending match alone and keep the buffer consolidated, nested `recurse` included |
| CarmineEngine.Step | crates/carmine/src/engine.rs:332-458 | a hit consumes text or counts one more null scan, stays inside the text, and a pause changes nothing but the pending match |
| CarmineFiring.StateFiresFirstApplicable | crates/carmine/src/engine.rs:332-465 | with mixins flattened, a state fires its first rule whose regex answers inside its contract and, for a line-start rule, that stands at the start of the text or behind a newline; when none does, nothing fires |
| CarmineFiring.LineRuleFires | crates/carmine/src/engine.rs:344-354 | in every text `a`, newline, `b`, a line-start rule that comes first fires behind the newline where its regex answers |
| CarmineFiring.LineRuleFiresFirst | crates/carmine/src/engine.rs:344-354 | it fires at the start of the text too |
| CarmineFiring.LineRuleSkipped | crates/carmine/src/engine.rs:344-346 | behind any other character it is passed over |
| CarmineFiring.FreeRuleFires | crates/carmine/src/engine.rs:347-358 | a rule without a line-start anchor fires wherever its regex answers inside the contract |
| CarmineFiring.TokenRuleDoes | crates/carmine/src/engine.rs:361-366 | a plain token rule emits exactly the match under its token, moves the stack, advances behind the match, and counts or resets null scans; a move without a state is the error |
| CarmineFiring.WordRuleDoes | crates/carmine/src/engine.rs:367-375 | a word-list rule emits the match under the token of its word and changes nothing but the position and the null count |
| CarmineFiring.ClassifyIs | crates/carmine/src/engine.rs:369-373 | the first set that has the word names the token, else the default does |
| CarmineFiring.ActionDoes | crates/carmine/src/engine.rs:388-426 | each declarative action emits the match, or each capture under its id with absent ones left out, or makes its one move on the stack |
| CarmineFiring.ActionsInOrder | crates/carmine/src/engine.rs:388-426 | actions happen from left to right, up to the first error |
| CarmineFiring.OneMove | crates/carmine/src/engine.rs:482-496 | a push adds its state, a bare push doubles the top, a pop removes it; without a top the last two are errors |
| CarmineFiring.MovesInOrder | crates/carmine/src/engine.rs:482-496 | several moves happen from left to right |
| CarmineFiring.StackMoves | crates/carmine/src/engine.rs:86-100 | push, pop and goto change the stack only, and fail exactly when it is too short |
| CarmineFiring.CallbackRulePauses | crates/carmine/src/engine.rs:442-454 | a callback rule leaves the match pending, shows its captures as texts, and changes nothing else |
| CarmineEngine.OneRound | crates/carmine/src/engine.rs:521-560 | every round that goes on makes 7 times the characters left plus 6 minus the null scans smaller |
| CarmineDriving.RoundFires | crates/carmine/src/engine.rs:520-540 | a round is the firing of the first rule of the top state that applies |
| CarmineFiring.NothingAppliesSkips | crates/carmine/src/engine.rs:541-559 | where no rule applies one character goes out under the error id, unless the state reaches a callback rule: then the lex stops for its first one |
| CarmineFiring.StuckSkips | crates/carmine/src/engine.rs:521-526 | after more than five null scans in a row one character goes out under the error id and the count starts again |
| CarmineEngine.Run | crates/carmine/src/engine.rs:514-563 | a run ends at the end of the text with nothing pending, or pauses inside it with a pending match that fits; the buffer stays consolidated |
| CarmineDriving.RunFollowsRounds | crates/carmine/src/engine.rs:514-563 | a run goes on as the state that any chain of its rounds has led to |
| CarmineDriving.RunStops | crates/carmine/src/engine.rs:514-563 | and stops at the end of the text, at the pause or at the error of its round |
| CarmineDriving.RecurseDoes | crates/carmine/src/engine.rs:291-310 | a `recurse` emits, character by character, what lexing its operand afresh emits; nothing for an empty operand or nil; the error of the sub-lex is its error |
| CarmineDriving.DepthConditions | crates/carmine/src/engine.rs:282-284 | a condition on the depth of the state stack compares it as integers compare |
| CarmineEngine.LexNative | crates/carmine/src/engine.rs:645-671 | the result of a lex without callbacks is the consolidation of what was emitted |
| CarmineLexer.Lexer.Emit | crates/carmine/src/engine.rs:316-327 | the in-place buffer update has the effect of the specified emission and touches no other field |
| CarmineLexer.Lexer.Pop | crates/carmine/src/engine.rs:88-93 | popping one by one fails exactly when the stack is too short, and else removes exactly n states |
| CarmineLexer.Lexer.Recurse | crates/carmine/src/engine.rs:288-308 | a fresh lexer runs over an operand shorter than the text being lexed, and its tokens, emitted one by one, give the specified splice |
| CarmineLexer.Lexer.RunIrOps | crates/carmine/src/engine.rs:204-314 | the recursive op loop has the specified effect on every field, or the specified error |
| CarmineLexer.Lexer.Step | crates/carmine/src/engine.rs:332-458 | the rule loop with nested mixins finds what the specification finds and changes the state as it says, position excepted |
| CarmineLexer.Lexer.FindCallbackRule | crates/carmine/src/engine.rs:567-584 | the search with its list of seen states returns the specified rule and the specified list |
| CarmineLexer.Lexer.Run | crates/carmine/src/engine.rs:514-563 | the driver loop stops where, as and in the state the specification says |
| CarmineLexer.Lexer.ApplyCallbackOps | crates/carmine/src/engine.rs:601-634 | taking the pending match, replaying by name and consuming the match give the specified state or error |
| CarmineFiring.CallbackOpDoes | crates/carmine/src/engine.rs:601-630 | a callback operation emits under the token of that name, pushes or goes to the first state of that name, pops, or fails on an unknown name |
| CarmineLexer.Lexer.Lex | crates/carmine/src/engine.rs:645-671 | the one-shot driver returns the specified tokens or error for every callback, its answers allowed to change from pause to pause |
| CarmineSession.ReplayIsPerform | crates/carmine/src/engine.rs:59-101 | performing operations on the paused lexer and replaying them after the match was taken differ in the pending match only |
| CarmineSession.SessionRefinesOneShot | crates/carmine/src/engine.rs:499-671 | session protocol and one-shot driver give the same tokens or the same error, over any number of pauses, also when the callback carries state |
| CarmineDriving.OneShotPlays | crates/carmine/src/engine.rs:645-671 | a lex whose callback knows a script of questions and answers plays the script: each pause asks with its state, rule and captures, its answer is performed once, in order, and the lex goes on behind the match |
| CarmineSession.DeclineAllIsNative | crates/carmine/src/engine.rs:38-51 | declining every callback is the lex that `recurse` uses |
| CarmineSession.LexBounded | crates/carmine/src/engine.rs:514-563 | any sequence of turns on a text of n characters, pauses and arbitrary replays included, has at most 7n+6 of them |
| CarmineMixins.OneList | crates/carmine/src/engine.rs:332-357 | on acyclic tables step fires the first rule of the flattened list that passes its checks, and the callback search returns the first callback of the same list |
| CarmineMixins.FindsExactlyReachable | crates/carmine/src/engine.rs:567-584 | on every table, cyclic ones too, a callback is found exactly when one is reachable through mixins |
| CarmineCoverage.DeclarativeEmits | crates/carmine/src/engine.rs:361-375 | the buffer after a plain token rule or a word list holds exactly the match more |
| CarmineCoverage.OnceCovers | crates/carmine/src/engine.rs:204-314 | a rule whose every path, as read off its ops, emits or re-lexes the whole match once, emits its match whenever it runs |
| CarmineCoverage.ConditionalTableCovers | crates/carmine/src/engine.rs:277-308 | a table of one conditional rule, with an emitting, a popping and a re-lexing branch, is covering |
| CarmineCoverage.RunOpsText | crates/carmine/src/engine.rs:204-314 | ops add to the buffer exactly the text they are meant to emit, a `recurse` its whole operand |
| CarmineCoverage.LexLossless | crates/carmine/src/engine.rs:645-671 | if every rule body that runs to its end emits its match, the token values of a successful lex concatenate to the input, sub-lexes and error characters included |
| CarmineCoverage.SessionLossless | crates/carmine/src/engine.rs:645-671 | the same with callbacks that emit their match, over any number of pauses |
| CarmineHtml.FastPathAgrees | crates/carmine/src/html.rs:7-21 | escaping text without special characters changes nothing, so the short cut is the slow path |
| CarmineHtml.EscapesInPlace | crates/carmine/src/html.rs:7-21 | `&`, `<` and `>` become their entities where they stand, every other character stays |
| CarmineHtml.ShownInPlace | crates/carmine/src/html.rs:31-43 | wherever it stands, a token is shown as its escaped value in a span of its class, text without a span |
| CarmineHtml.EscapeInto | crates/carmine/src/html.rs:7-21 | both paths append the escaped value |
| CarmineHtml.Write | crates/carmine/src/html.rs:31-43 | the formatter loop appends the markup that the decoder is proved to invert |
| CarmineHtml.WriteIsInvertible | crates/carmine/src/html.rs:31-43 | decoding the written page gives back every (class or plain text, value) pair of a canonical stream, in order |
| CarmineNames.StreamNamed | crates/carmine/src/table.rs:334-346 | on a table with a class name for each id in its rules, its name map and its error id, as the loader demands, every stream holds only ids with a class name, whatever callbacks and sub-lexes do |
| CarmineHtml.HighlightingIsInvertible | crates/carmine/src/html.rs:31-43 | on such a table every stream the lexer returns, with any callback, has a page and is read back from it when class names hold no quote |
| CarmineHtml.PageHoldsSource | crates/carmine/src/html.rs:31-43 | for such a table that is also covering, the page without spans and escapes is the source text |
| CarmineHtml.QuotesAreAmbiguous | crates/carmine/src/html.rs:38-40 | with a quote in a class name two different streams have one page |
| CarmineIrCompiler.IrCompiler.AliasBind | crates/carmine/tools/extract.rb:170-179 | a leading binding to a group extends the aliases by that group, any other statement leaves them |
| CarmineIrCompiler.IrCompiler.Compile | crates/carmine/tools/extract.rb:147-168 | the peeling loop with its mutable aliases accepts and compiles what the specification does |
| CarmineIrReach.EveryProgramCompiles | crates/carmine/tools/extract.rb:184-401 | every well-formed op program is what some Ruby block compiles to: the block written from it is accepted and compiles to exactly it |
| CarmineIrReach.AliasCompiles | crates/carmine/tools/extract.rb:170-179 | a leading binding to a group is peeled off and read through |
| CarmineIrReach.CaseCompiles | crates/carmine/tools/extract.rb:241-256 | a case compiles to the nested ifs of its branches |
| CarmineIrReach.DiagnosticsDropped | crates/carmine/tools/extract.rb:194-209 | diagnostics compile to nothing, wherever they stand |
| CarmineIrSound.RefIsValue | crates/carmine/tools/extract.rb:446-470 | a resolved group reference, through aliases and one case mapping, has the value of the Ruby expression |
| CarmineIrSound.ExprIsValue | crates/carmine/tools/extract.rb:384-401 | a compiled value expression evaluates to the value of the Ruby expression |
| CarmineIrSound.CondIsTruth | crates/carmine/tools/extract.rb:309-382 | a compiled condition that tests no bare list variable of `start` holds exactly when the Ruby condition is truthy |
| CarmineIrSound.IvarAgreesIff | crates/carmine/tools/extract.rb:328 | a condition on a bare instance variable agrees with Ruby exactly when the variable is set or is not a list that `start` makes |
| CarmineIrSound.ChainSound | crates/carmine/tools/extract.rb:241-256 | a case chain and its nested ifs have the same effect |
| CarmineIrSound.CompiledBlockRunsAlike | crates/carmine/tools/extract.rb:147-256 | for every accepted block that keeps its parameter, hides nothing in a diagnostic and tests no bare list variable of `start`, every match and lexer state: same tokens, stack and instance variables as executing the block, appends to lists that `start` made included, same stack errors, and a decline exactly where a conditional meets an empty stack |
| CarmineIrSound.CompiledRuleRunsAlike | crates/carmine/src/engine.rs:428-441 | in the engine, a rule carrying the compiled ops does on its match what the block does |
| CarmineIrSound.ReboundParamDiffers | crates/carmine/tools/extract.rb:170-179 | `m = m[1]; token T, m[0]`: block and ops emit different text |
| CarmineIrSound.HiddenElseDiffers | crates/carmine/tools/extract.rb:194-209 | a debug print with an else: the block emits a token the ops do not |
| CarmineIrSound.HiddenCallDiffers | crates/carmine/tools/extract.rb:207-209 | `p pop!; token T`: the block pops, the ops do not |
| CarmineIrSound.RaisingBlockDiffers | crates/carmine/tools/extract.rb:347-355 | a case mapping of an absent group: the block raises, the ops take the else branch |
| CarmineWordlist.UnlistedTakesProbePath | crates/carmine/tools/extract.rb:694-717 | a word outside all captured sets, gated literals and literals compared in token arguments gets the token of the capturing run |
| CarmineWordlist.TryWordlist | crates/carmine/tools/extract.rb:694-731 | accepts exactly the tabulable classifiers; then looking a word up as the engine does gives the block's own token for every listed word and every word not compared in a token argument, and for all words exactly when those literals are harmless |
| CarmineWordlist.ExactIffHarmless | crates/carmine/tools/extract.rb:641-645 | a finished table is right about every word if and only if each literal compared in a token argument is a listed word or gets the default token |
| CarmineWordlist.HiddenComparisonDiffers | crates/carmine/tools/extract.rb:641-645 | a concrete accepted classifier whose table is wrong for the word its token argument compares |
| CarmineOctal.RewriteCharclassOctalEscapes | crates/carmine/src/table.rs:580-636 | the index loop, with its early exit and its changed flag, computes the rewriting that the lemmas are about |
| CarmineClasses.PatternPasses | crates/carmine/src/table.rs:580-636 | a pattern written from text, escapes and classes, negated ones and ones that begin with `]` included, is rewritten part by part: octal members of classes become `\x{..}`, everything outside and every other member stays |
| CarmineClasses.OctalReads | crates/carmine/src/table.rs:592-606 | the digits of a number in base eight are read as that number |
| CarmineClasses.CaretClassRunsOn | crates/carmine/src/table.rs:617-623 | a class of carets only does not end at its bracket, so a back-reference behind it is rewritten |
| CarmineOctal.RewriteKeepsMeaning | crates/carmine/src/table.rs:580-636 | decoded item by item, with class membership, the pattern is the same before and after |
| CarmineOctal.ChangesOnlyOctals | crates/carmine/src/table.rs:580-636 | the pattern stays as it is exactly when no octal escape stands inside a class |
| CarmineOctal.Idempotent | crates/carmine/src/table.rs:580-636 | a second pass changes nothing |
| CextEquality.EqIsSameValue | crates/rubyrs-cext/src/lib.rs:1418-1468 | on acyclic tables below the depth limit the comparison is unbounded structural equality |
| CextTree.EqIsTreeEquality | crates/rubyrs-cext/src/lib.rs:1418-1468 | unfolded into trees, with hashes as finite maps, values without NaN compare as equal below the limit exactly when their trees are equal |
| CextTree.FloatCorners | crates/rubyrs-cext/src/lib.rs:1435-1446 | the zeros are equal, a NaN equals none but its own handle |
| CextTree.ClassesApart | crates/rubyrs-cext/src/lib.rs:1429-1467 | values of two classes are never equal; two handles to a class, symbol, block or heap reference are not either |
| CextTree.HandlesRead | crates/rubyrs-cext/src/lib.rs:400-405 | strings, integers and arrays compare by what the table holds under their handles; a handle outside the table stands for nil |
| CextEquality.SameValueSymmetric | crates/rubyrs-cext/src/lib.rs:1450-1464 | structural equality is symmetric when hash keys are pairwise unequal |
| CextEquality.EqIsEquivalence | crates/rubyrs-cext/src/lib.rs:1414-1468 | the comparison is reflexive, symmetric and transitive there |
| CextEquality.EqImpliesSameValue | crates/rubyrs-cext/src/lib.rs:1418-1468 | on acyclic tables, at any nesting, values that compare as equal are structurally equal: the limit only loses equalities |
| CextEquality.LimitIsSharp | crates/rubyrs-cext/src/lib.rs:1393-1430 | one level deeper, two structurally equal values compare as different |
| CextHash.CExtState.HashAset | crates/rubyrs-cext/src/lib.rs:1336-1361 | stores into the table in place, replacing the value of the first equal key or adding a pair, and refuses what is not a hash |
| CextHash.CExtState.HashAref | crates/rubyrs-cext/src/lib.rs:1375-1387 | the loop returns the value of the key's class, or nil |
| CextTree.ReadIsMapLookup | crates/rubyrs-cext/src/lib.rs:1375-1386 | a read is the lookup in the map that the hash unfolds to: there exactly when the tree of the key is |
| CextHash.DomainKept | crates/rubyrs-cext/src/lib.rs:1336-1361 | changing a hash that the keys do not reach changes no comparison of keys |
| CextHash.AsetKeys | crates/rubyrs-cext/src/lib.rs:1336-1361 | keys stay pairwise unequal and in insertion order; a key is added only if its class is new |
| CextHash.AsetThenAref | crates/rubyrs-cext/src/lib.rs:1336-1387 | after a store, the key's class reads the new value and every other class what it read before |
| CextHash.RunIsMap | crates/rubyrs-cext/src/lib.rs:1336-1387 | over any run of stores, a read gives the latest value stored under its class |
| CextShim.Shim.EnterInvoke | crates/rubyrs-cext/c/setjmp_shim.c:118-124 | installs a buffer on top of the stack, or aborts at the nesting limit |
| CextJump.SixtyFourNest | crates/rubyrs-cext/c/setjmp_shim.c:118-124 | sixty-four protected calls can be open; one more aborts |
| CextShim.Shim.Raise | crates/rubyrs-cext/c/setjmp_shim.c:176-199 | fills the pending slot with a copy of the message and jumps to the top buffer, or aborts without one |
| CextJump.StashReplaces | crates/rubyrs-cext/c/setjmp_shim.c:176-199 | a message nobody consumed is freed when the next exception takes the slot, which then holds the new class and message |
| CextShim.Shim.HandOver | crates/rubyrs-cext/src/raise.rs:152-169 | turns the out-parameters into the outcome and frees the message it took over |
| CextShim.Shim.Drive | crates/rubyrs-cext/src/raise.rs:115-169 | running a program to its end delivers the outcomes of structured execution and ends idle, older messages untouched |
| CextJump.ShimRefinesTryCatch | crates/rubyrs-cext/c/setjmp_shim.c:112-199 | every program nested at most 64 deep ends idle, with each raise delivered to the innermost active call, the stack top restored, and every message freed once |
| CextJump.FaithfulExactly | crates/rubyrs-cext/c/setjmp_shim.c:112-199 | the outcomes are those of try/catch exactly when no delivered class is 0 |
| CextJump.ClassZeroLeaks | crates/rubyrs-cext/src/raise.rs:152-153 | a raise of class 0 reads as a return and leaves its message allocated |
| JitInt.CompileInt1 | crates/rubyrs-jit/src/native.rs:70-136 | fails exactly on underflow or an empty result; else the compiled call answers exactly when no unbounded intermediate leaves 64 bits, and then with that value |
| JitInt.ExpressionRuns | crates/rubyrs-jit/src/native.rs:70-136 | the stack code of an expression of sums, differences and products leaves its value, and has fitted throughout exactly when each subexpression does |
| JitInt.CompilePolyLoop | crates/rubyrs-jit/src/native.rs:215-300 | the blocks it emits, run from the entry for any 64-bit argument, return after two visits per turn and three more; the call answers exactly when the polynomial fits 64 bits in every turn, and then as the Ruby loop |
| JitInt.XorBits | crates/rubyrs-jit/src/native.rs:273 | the exclusive or of the loop sets a bit exactly when the operands' bits differ, at every position |
| RubundLockfile.ParseLockfile | crates/rubund/src/parser.rs:59-233 | the line loop with its tracker variables computes the state machine that the theorems are about |
| RubundSections.IndicesInBounds | crates/rubund/src/parser.rs:147-156 | on every input each spec points at a source of the result |
| RubundSections.SourcesAreSections | crates/rubund/src/parser.rs:88-109 | on every input the sources are those of the source sections read one by one from nothing: no revision, branch or path leaks |
| RubundSections.SpecsAreSections | crates/rubund/src/parser.rs:140-173 | the specs are those of the sections read one by one exactly when no orphaned dependency line follows a spec of another section |
| RubundRoundTrip.PrintThenParse | crates/rubund/src/parser.rs:59-233 | printing a well-formed lockfile in Bundler's layout, a `!` behind each dependency that a GIT or PATH source provides, with the line ends of either platform, and parsing the text gives it back |
| RubundIgnored.UnknownSectionIgnored | crates/rubund/src/parser.rs:106-117 | a section with any other header can be taken out wherever it stands |
| RubundIgnored.BlanksIgnored | crates/rubund/src/parser.rs:79-83 | blank lines make no difference anywhere |
| RubundIgnored.SourceIndentIgnored | crates/rubund/src/parser.rs:122-165 | in a source section lines count with an indentation of two, and behind `specs:` of four and six; no others do |
| RubundIgnored.OtherIndentIgnored | crates/rubund/src/parser.rs:166-197 | entries of the list sections are indented by two; no other line counts |
| RubundIgnored.AnyIndentCounts | crates/rubund/src/parser.rs:198-203 | in the two version sections every indented line counts, and the last one stays |
| RubundIgnored.UnknownKeyIgnored | crates/rubund/src/parser.rs:123-134 | a key other than the five means nothing |
| RubundIgnored.ParensPeel | crates/rubund/src/parser.rs:139 | parentheses and spaces around a version come off, however many |
| RubundIgnored.BangsPeel | crates/rubund/src/parser.rs:174 | source marks behind a dependency come off, however many |
| RubundIgnored.ValuesPeel | crates/rubund/src/parser.rs:123-131 | spaces and tabs around a value come off; the mark of a checksum comes off as often as it stands there |
| RubundRoundTrip.OrphanJoinsOtherSource | crates/rubund/src/parser.rs:158-171 | a dependency listed under a GIT source without specs ends up at a spec of the GEM source |
| SpecExtractSubst.ApplySubstitutions | crates/rubyrs-spec-extract/src/lib.rs:628-635 | every edit stays in bounds and the result is the simultaneous splice of the edits in ascending order |
| SpecExtractSubst.SortedDescends | crates/rubyrs-spec-extract/src/lib.rs:629 | the sort leaves disjoint edits in descending order, inserts at range edges included |
| SpecExtractSubst.OrderIndependent | crates/rubyrs-spec-extract/src/lib.rs:628-635 | permuting the edits does not change the text when inserts that share an offset commute, in particular when none do |
| SpecExtractSubst.OneTextIffCommuting | crates/rubyrs-spec-extract/src/lib.rs:628-635 | all orders of the edits give one text if and only if any two inserts at one offset have commuting replacements |
| SpecExtractSubst.SharedOffsetShowsOrder | crates/rubyrs-spec-extract/src/lib.rs:629 | two inserts at one offset come out in reverse input order |

## Left out

- LiquidusSoundness.NeedsSufficient: one direction only. Its two conditions exclude templates that shadow a loop variable over another collection or take the size of a bare loop item; such a use does no harm in a branch no values reach, so no condition on the use alone is exact. CoveredSufficient is the weaker condition, ShadowingDefeatsNeeds and ItemSizeDefeatsNeeds show that neither condition can be dropped.
- LiquidusPrinting.CondReadBack: operands whose text holds a character of an operator are excluded. The source splits a condition at the first operator text it finds, inside quotes too, so such a condition is read as something else or declines (QuotedOperatorDeclines); TemplatesOfTheSubset covers it all the same.
- LiquidusPrinting.SourceReadBack: trees with two neighbouring texts, or with braces that would be taken for openers or closers, have no unambiguous text and are excluded; LexExactly says exactly which token lists have one.
- CarmineIrSound.CompiledBlockRunsAlike: one direction only: a block that rebinds its parameter, hides a call or an `else` in a diagnostic, or tests a bare list variable of `start`, may still have the effect of its ops, say because the hidden branch emits an empty string. Nothing is claimed for a block that raises; RaisingBlockDiffers shows nothing can be.
- CarmineCoverage.LexLossless: whether a rule body emits its match is a property of the table and its patterns; OnceCovers decides it for bodies that emit the whole match, not for those that tile it with captures.
- CarmineLexer.Lexer.Recurse: an operand at least as long as the text being lexed is refused (RecurseTooLong). That is an assumption: such a `recurse` may run forever in the source, or return. LexBounded and every theorem about successful runs rest on it.
- SpecExtractSubst.ApplySubstitutions: requires the ranges to be disjoint and inside the text, which the source assumes of its recognisers.
- JitInt.CompileInt1: SSA instructions have a direct semantics; Cranelift and machine code are not part of this model.
- The rest of a lexer's state after an error is not specified; the source discards it too.
- Mixin cycles in `step` and undeclared states: the source overflows its stack or indexes out of bounds; the model gives them errors of their own, so that every theorem about successful runs applies to all tables.
- CarmineLexer.Lexer.Lex: a callback here is a list of operations per pause, so one that reacts to the failure of one of its own operations is not covered.
- CarmineWordlist.TryWordlist: arguments of `token` are constants and choices by `==` or membership of the word. Other comparisons that do not raise in the capturing run (`!=`, `eql?`, a list's `index` as a truth value) can be written as such choices by `==`; an argument that reads an instance variable is accepted by the source and has no counterpart here.
- Loading and dumping JSON, for tables and for ops; state and token names of compiled ops are ids here.
- Regular expression matching, an oracle with span bounds; conditions that match a regex carry the match as a function.
- CarmineClasses.PatternPasses: a `[` inside a class is a member of it, as in the source; nested classes of other regex dialects are not told apart.
- The other regex rewriting passes, and the composed pipeline.
- Case mapping: one function each for `downcase` and `upcase`, taken to be the same in Ruby and in the engine.
- Rouge itself is not part of this model; the DSL in rule blocks has the meaning the engine gives its operations, and `in_state?` that of `state?`, as the compiler treats them.
- `&&` and `||` with more than two operands: the compiler reads the first two, the model has two.
- Hash receivers of `include?` in classifiers, and receivers that depend on the match.
- Liquid filters other than those the needs analysis treats specially are an oracle that declines on arrays and maps; the strftime directives are left out.
- Positions are characters, not UTF-8 bytes; white space of several bytes counts once in an indentation.
- Failure of `malloc` in the jump shim, arity dispatch, and thread-locality: one thread's shim.
- TypedData, funcall callbacks, headers, the Ruby bindings and the other exported C functions.
- The parser's pure helpers, `escape` tables and trimming are recursive functions where the source has library loops.
- Scanners, recognisers, the polish script, installers, benchmarks, the wasm embedder: input, output and presentation.
