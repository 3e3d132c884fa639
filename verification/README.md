# Verified models of algorithms from a System V source tree

Each module models one program, or one layer of it, in the form the program has: code that works on
arrays, linked nodes or buffers in place is a class whose methods do the same; what each method has to
achieve is a function or a predicate on values; and the properties are proved about those.
`dafny verify dfyconfig.toml` checks everything.

## awk's regular expressions (`cmd/awk/b.c`)

Three layers, each with its own theorem.

* `AwkRegex` defines the language of a parse tree over the symbols 0 to 256. NUL ends every subject and
  is what `$` stands for; 256 is HAT, read once before the subject, and what `^` stands for.
* `AwkPositions` defines the position automaton through *continuations* (what comes after a subtree) and
  proves that the sets computed by `first` and `follow` start exactly the words they should.
  `AwkAutomaton` runs it on sets of positions and relates acceptance to the language. `AwkTree` is the
  linked tree, with parent links and leaf indices written into the nodes and the climbing `follow`.
* `AwkCache` is the lazily filled table of 16 states as a machine on values, `AwkSearch` what `match`,
  `pmatch` and `nematch` do with it, `AwkFound` what that means for the expression, and `AwkDfa` the `fa`
  structure with its arrays, whose methods are proved to do to the arrays what those functions do to
  values. `AwkRuns` is about whole runs: makedfa once, and any number of calls after it. `AwkMeaning` says
  what all this means in terms of bytes and pieces of the subject alone: each kind of leaf, each operator,
  `^` and `$`, and what `match`, `pmatch` and `nematch` then find.

One step of the program is wrong. When all 15 usable states are taken and a new list is reached from
state 2, the flush makes the new list state 2, and the transition is then written into the row just
cleared, so the new state 2 claims to stay where it is on that symbol (lines 741 to 757).
`AwkCache.GotoCorrect` proves that this step, and no other, breaks the table, unless the claim happens to
be true. `AwkClobber` gives an expression (`a` fourteen times, or `cc`) and a subject (thirteen `a`, then
`bcc`) for which `match` returns 0 although there is a match, and `AwkMisses` proves the same of `pmatch`
and `nematch`.

Such a step does not always matter: the list the new state claims to lead to may do as well as the right
one. A step *harms* if it breaks the table and that list does not accept the same rests of subjects (for
`match`) or not at the same lengths (for `pmatch` and `nematch`). A search in which no step harms is right,
and `AwkExact` proves the converse: a step that harms makes some subject come out wrong, one that begins like
the one on which the step was taken. So from a given cache `match` is right on every subject if and only if
it takes no step that harms on any (`AwkExact.MatchExact`), its answers are right in all runs after makedfa if
and only if no run takes one (`AwkRuns.MatchRunsExact`), and the same holds of each scan of `pmatch` and
`nematch` (`AwkExact.ScanExact`). `AwkShown` is exact subject by subject, for all three: a call is right if
and only if it comes to no step that harms and after which the rest of the subject *shows* it, that is, the
search from the new state is wrong on that rest. `AwkFlush` and `AwkRuns` prove that no call of any run takes a step that
breaks the table when at most 15 lists can be reached at all. What a call leaves behind is a valid cache
in any case.

## ed-style expressions (`head_m88k/regexp.h`)

`EdProgram` is the byte code, what it matches, groups and back-references included, and the greedy search
with its soundness and completeness. `EdMatcher` is `advance` and `step`, byte by byte. `EdParse` says how
`compile` reads a pattern, `EdCompile` is `compile` on its buffer, with opcodes changed in place and bitmaps
set bit by bit. `EdPattern` defines patterns as a user means them, their spelling and their meaning; compiling
the spelling gives instructions with that meaning. `EdWriting` is about all the ways of writing a pattern: when
a character stands for itself with a backslash and when without one, and that compile makes the same instructions
of every way. `EdErrors` says which patterns are refused, with which number. `EdGreedy` says which of the possible
matches is found, and `EdSearch` puts both halves together: the first place, the preferred end, and where the
groups are. `EdMeaning` says what patterns denote in terms of characters and places alone, and proves a search
for a word correct from its text to the place where it is found.

The check that `compile` makes of a back-reference (line 258) counts the groups that have ended. `EdGroups`
proves that this is the right check if and only if no group has ended inside one that is open. For a group of
an `a` and a group of a `b` inside it, a reference to the outer one after the inner has ended is accepted, and
`advance` would use a group end that has not been set; a reference to the inner one is refused. A compiled
pattern refers to groups only after their end if and only if no reference stands inside its own group, and
the theorems about searching are about these.

A plain `char` is read as unsigned here, as it is in the checksum of `cmd/tar.c` (line 904). So an upper bound of 255, explicit or from `\{m,\}`, means "up
to 20000 more", and so does `\{255\}`: `EdPattern.CountExact` says which counts are taken as they are meant.

## The other programs

* `Join`: the merge loop of `cmd/join.c`, which seeks back in the second file, gives the nested-loop join.
  `JoinMeaning` counts what that holds.
* `Calendar`, `DateConversion`, `Cal`: the English calendar day by day, the conversions of
  `cmd/bbh/dconv.c` in both directions, and the independent computation and grid of `cmd/cal.c`.
* `AwkFields`: awk's record and fields, each brought up to date only when it is wanted, against a model
  that keeps both up to date (`cmd/awk/tran.c`, `cmd/awk/lib.c`). A new FS or OFS can still change a record
  that has been read; `SetFs` and `SetOfs` say exactly when, and `SetFsTooLate` is a record for which it does.
* `ErrorLog`: one more report in a bounded error log that is combined in place (`cmd/bbh/hdelogger.c`).
* `Commands`: the open-addressing table of `cmd/acct/acctcms.c`. When it is full of other commands, -j has no slot
  for `***other` and the rare commands are added to the memory in front of the table: their times are lost.
* `DiskUsage`: the list sort and the charging of `cmd/acct/acctdusg.c`. What lies in a home that ends with a slash
  is missed, as `/a` is for the home `/` (`HomeExact`).
* `AccountMerge`: the k-way merge of `cmd/acct/acctmerg.c`, and `AccountTotals`: its output column by column.
* `Deblocking`: logical blocks that straddle tape blocks (`cmd/frec.c`).
* `TarFormat`, `TarHeader`, `TarTape`, `Tar`: `cmd/tar.c`, from header bytes and tape records to a round
  trip of whole archives. The round trip does not hold for every pair of blocking factors: the reader
  ignores what it learns from a first record of one block (`cmd/tar.c:1076`). `TarTape.SuitsIff` gives the
  exact condition.
* `Strings`: the order of C strings. `Sequences` and `Division` hold lemmas that several modules share.

## Model

| member | source | states |
|---|---|---|
| AwkRegex.StarConcat | cmd/awk/b.c:270-273 | the words of a closure are closed under concatenation |
| AwkRegex.CatIntro | cmd/awk/b.c:274-276 | a word made of a word of each part is in the concatenation |
| AwkPositions.NullableIffEmptyWord | cmd/awk/b.c:253-284 | `first` returns 0 exactly for expressions that match the empty word, the empty class of `()` included |
| AwkPositions.FirstComplete | cmd/awk/b.c:253-284 | every non-empty word of an expression, followed by anything that may come after it, is read from one of the positions `first` collects |
| AwkPositions.FirstSound | cmd/awk/b.c:253-284 | whatever is read from a position `first` collects is a word of the expression and then a word that may come after it |
| AwkPositions.RowsHold | cmd/awk/b.c:218-251 | the rows of a tree hold, for every leaf, the follow set its place in the tree calls for |
| AwkPositions.FollowCorrect | cmd/awk/b.c:286-317 | the follow set of a leaf starts exactly the words that may come after the leaf, no more and no fewer |
| AwkAutomaton.AcceptCorrect | cmd/awk/b.c:685-714 | stepping a set of positions through a word reaches the accepting position exactly when some position of the set may read the word |
| AwkAutomaton.FullHolds | cmd/awk/b.c:61-71 | the rows built for ALL* r FINAL hold, with the searching position first and the accepting one last |
| AwkAutomaton.AutomatonSound | cmd/awk/b.c:61-71 | exactly the last position accepts, and every other leaf has a continuation whose parts lie in the table |
| AwkAutomaton.NothingLeadsOut | cmd/awk/b.c:218-251 | so no follow set leads out of the automaton |
| AwkAutomaton.StartAccepts | cmd/awk/b.c:54-94 | a search that is not anchored accepts a word exactly when it ends with a match after anything without a NUL |
| AwkAutomaton.AnchoredStartAccepts | cmd/awk/b.c:118-124 | with position 0 left out, state 2 accepts exactly the words of the expression |
| AwkAutomaton.AnchoredInitAccepts | cmd/awk/b.c:117-129 | after HAT an anchored search accepts exactly the words of the expression, with or without HAT in front |
| AwkTree.Builder.Penter | cmd/awk/b.c:133-156 | leaves are numbered from left to right and every node below the root points to its parent |
| AwkTree.Builder.First | cmd/awk/b.c:253-284 | exactly the first positions are added to the marks, and the result is 0 for expressions that match the empty word |
| AwkTree.Builder.Follow | cmd/awk/b.c:286-317 | climbing from child to parent marks exactly the follow set of the continuation |
| AwkTree.Climb | cmd/awk/b.c:293-316 | one step up the parent links leaves the right continuation to the parent and accounts for what the step itself adds |
| AwkTree.Builder.Cfoll | cmd/awk/b.c:218-251 | the rows of all leaves below a node are written, and no others |
| AwkTree.Builder.BuildRows | cmd/awk/b.c:61-71 | from a parse tree the rows of the position automaton of ALL* r FINAL are built |
| AwkCache.CgotoShape | cmd/awk/b.c:685-766 | whatever step is taken, flushes included, every live state keeps a proper list and the right accepting bit, state 1 stays dead, and the state returned has the list the step should give |
| AwkCache.CgotoRows | cmd/awk/b.c:740-757 | adding a transition keeps the table right if and only if it is not taken from state 2 at a flush to a state that would not stay on that symbol |
| AwkCache.GotoCorrect | cmd/awk/b.c:349-352 | the same for a step of a matcher: its state is always right, its table exactly when it does not clobber |
| AwkSearch.GotoAlike | cmd/awk/b.c:349-352 | as long as no step harms, every entry of the table leads to the right list or to one that does as well |
| AwkSearch.MakeinitCorrect | cmd/awk/b.c:96-131 | makeinit puts any cache in order again, a clobbered one too, for both kinds of search |
| AwkSearch.MatchValid | cmd/awk/b.c:329-360 | whatever steps match takes, the cache it leaves is valid for the next call |
| AwkSearch.PmatchValid | cmd/awk/b.c:362-423 | whatever steps pmatch takes, the cache it leaves is valid for the next call |
| AwkSearch.NematchValid | cmd/awk/b.c:425-476 | whatever steps nematch takes, the cache it leaves is valid for the next call |
| AwkShown.MatchRightIff | cmd/awk/b.c:329-360 | from any valid cache and for every subject, match says whether the automaton accepts some prefix if and only if the run does not come to a step that harms and whose rest of the subject shows it |
| AwkShown.ScanRightIff | cmd/awk/b.c:375-405 | the inner loop finds the longest accepted length if and only if it does not come to such a step |
| AwkShown.PmatchRightIff | cmd/awk/b.c:362-423 | from any valid cache and for every subject, across restarts and flushes, pmatch finds the leftmost start and there the longest accepted piece, or none only if there is none, if and only if no scan it comes to meets such a step |
| AwkShown.NematchRightIff | cmd/awk/b.c:425-476 | the same for nematch and pieces of one symbol or more |
| AwkShown.MatchCorrectIff | cmd/awk/b.c:329-360 | under exactly that condition match returns 1 if and only if the expression matches some contiguous piece of HAT, subject and NUL |
| AwkShown.PmatchCorrectIff | cmd/awk/b.c:362-423 | under exactly that condition pmatch returns the leftmost match and there the longest, and none only when there is none |
| AwkShown.NematchCorrectIff | cmd/awk/b.c:425-476 | and nematch does so for matches that are not empty |
| AwkExact.HarmShows | cmd/awk/b.c:741-757 | after a step that harms there is a rest of the subject for which match gives the wrong answer |
| AwkExact.MatchExact | cmd/awk/b.c:329-360 | from any valid cache match is right on every subject if and only if on no subject it takes a step that harms |
| AwkExact.ScanExact | cmd/awk/b.c:375-405 | a scan of pmatch or nematch finds the longest length on every rest of a subject if and only if on none it takes a step that harms |
| AwkFlush.FewListsMatch | cmd/awk/b.c:741-746 | with at most 15 reachable lists no call of match ever takes the step that clobbers, and the cache stays so |
| AwkFlush.FewListsPmatch | cmd/awk/b.c:741-746 | nor does any call of pmatch or nematch |
| AwkFlush.MakedfaCalm | cmd/awk/b.c:54-94 | and the cache that makedfa leaves is a start for that |
| AwkRuns.HarmlessRunIsRight | cmd/awk/b.c:329-476 | over any number of calls on one cache, a run in which no step harms returns what the expression says at every call |
| AwkRuns.RunRightIff | cmd/awk/b.c:329-476 | any run of any of the three returns what the expression says at every call if and only if no call comes to a step that harms and whose rest of the subject shows it |
| AwkRuns.MatchRunsExact | cmd/awk/b.c:54-94 | the answers of match are right in every run after makedfa if and only if in no run a step harms |
| AwkRuns.FewListsRight | cmd/awk/b.c:54-94 | from makedfa on, every call of every run returns what the expression says, if at most 15 lists can be reached |
| AwkRuns.OneLeafRight | cmd/awk/b.c:54-94 | for an expression with one leaf, repeated or optional as it may be, every call of every run is right with no condition |
| AwkRuns.MatchEach | cmd/awk/run.c:118-123 | match on one record after the other works on the arrays each call leaves, and with at most 15 reachable lists each answer is whether the record has a match |
| AwkRuns.MatchRecords | cmd/awk/run.c:118-123 | the same from the parse tree on, with makedfa before the first record |
| AwkClobber.ClobberHere | cmd/awk/b.c:741-757 | in the full table the run below has after its b, the step from state 2 on c is the one that clobbers |
| AwkClobber.RunHarms | cmd/awk/b.c:741-757 | the run below takes a step that harms |
| AwkClobber.MatchMissesMatch | cmd/awk/b.c:741-757 | a concrete expression and subject for which match returns 0 although there is a match |
| AwkMisses.PmatchMissesMatch | cmd/awk/b.c:741-757 | on the same expression and subject pmatch and nematch return 0 although there is a match |
| AwkMisses.RunsHarm | cmd/awk/b.c:741-757 | and both of their runs take a step that harms |
| AwkMeaning.LeafTakes | cmd/awk/b.c:699-704 | of the bytes from 1 to 255 a class takes exactly those it lists and a negated one exactly the others, a dot all of them, a character itself |
| AwkMeaning.LeafEnds | cmd/awk/b.c:699-704 | no leaf but its own character takes the end of the subject, 0, and none but its own and the one makedfa adds the start, 256 |
| AwkMeaning.Repeated | cmd/awk/b.c:265-270 | `*` matches any number of words of its operand one after the other, `+` one or more |
| AwkMeaning.Combined | cmd/awk/b.c:267-279 | `?` matches nothing or what its operand does, an alternative what either side does, and two expressions one after the other a word of each |
| AwkMeaning.WordAvoids | cmd/awk/b.c:699-704 | an expression that has no leaf for the start, or the end, matches no word with it |
| AwkMeaning.PlainMatch | cmd/awk/b.c:329-360 | an expression with neither `^` nor `$` in it has a match if and only if it matches some piece of the bytes of the subject |
| AwkMeaning.StartMatch | cmd/awk/b.c:329-360 | with `^` in front exactly if it matches some piece from the start of the subject |
| AwkMeaning.EndMatch | cmd/awk/b.c:329-360 | with `$` behind exactly if it matches some piece up to the end |
| AwkMeaning.PmatchFinds | cmd/awk/b.c:362-423 | pmatch returns the longest piece of bytes at the first place where one matches, or none only if none does, under exactly the condition of AwkShown |
| AwkMeaning.NematchFinds | cmd/awk/b.c:425-476 | and nematch of the pieces that are not empty |
| AwkMeaning.LeafMatch | cmd/awk/b.c:699-704 | a single class, dot or character has a match exactly in the subjects with a byte that is wanted, stated byte by byte |
| AwkMeaning.MatchLeaf | cmd/awk/run.c:118-123 | makedfa and then match on each record, for such an expression: each answer is whether the record has a byte that is wanted, with no condition |
| AwkDfa.Fa.constructor | cmd/awk/b.c:54-94 | makedfa builds new arrays that hold the automaton of the tree it is given and a valid first cache |
| AwkDfa.Fa.Cgoto | cmd/awk/b.c:685-766 | which leaves fire, as AwkMeaning.LeafTakes says it, the marks, the comparison of lists and the updates of the arrays amount to the step whose invariant is proved |
| AwkDfa.Fa.Makeinit | cmd/awk/b.c:96-131 | the arrays are set as the start of a search requires |
| AwkDfa.Fa.Member | cmd/awk/b.c:319-326 | a symbol is in a class as the language takes it, HAT being looked up as NUL |
| AwkDfa.Fa.Match | cmd/awk/b.c:329-360 | the loop on the arrays returns whether the expression matches some piece of HAT, subject and NUL, if and only if the run comes to no step that harms and shows, so always if no step harms, and always leaves a valid cache |
| AwkDfa.Fa.Pmatch | cmd/awk/b.c:362-423 | the two loops on the arrays return the leftmost and there longest match of the expression, if and only if the run comes to no step that harms and shows, so always if no step harms, and always leave a valid cache |
| AwkDfa.Fa.Nematch | cmd/awk/b.c:425-476 | the same for matches that are not empty |
| EdProgram.GreedySound | head_m88k/regexp.h:309-501 | the end that greedy search with give-back finds is the end of a match |
| EdProgram.GreedyComplete | head_m88k/regexp.h:309-501 | where the rest of the text has a matching prefix, the search finds one |
| EdProgram.GreedyIffMatches | head_m88k/regexp.h:309-501 | so it succeeds exactly where some prefix matches |
| EdProgram.GreedySame | head_m88k/regexp.h:422-444 | what the instructions write into braslist and braelist themselves does not matter for what they find, if every reference follows the end of its group |
| EdProgram.LongestFirst | head_m88k/regexp.h:490-497 | a starred item takes the largest number of characters that lets the rest match at all |
| EdProgram.IntervalLongestFirst | head_m88k/regexp.h:379-434 | and so does an interval, within its bounds |
| EdMatcher.Matcher.Test | head_m88k/regexp.h:322-358 | each opcode's test of a character accepts what its single-character pattern does |
| EdMatcher.Matcher.TakeRun | head_m88k/regexp.h:371-473 | a run of fitting characters is followed to its end, and stops at the NUL |
| EdMatcher.Matcher.SameText | head_m88k/regexp.h:436-444 | the text of a group that has ended is compared with the text here, without reading past the end |
| EdMatcher.Matcher.Advance | head_m88k/regexp.h:309-501 | interpreting the bytes succeeds exactly where greedy search does, with the same end and the same groups, whatever failed tries have left in braslist and braelist; it terminates |
| EdMatcher.Matcher.Repeat | head_m88k/regexp.h:368-497 | so do the starred and interval opcodes, with their give-back loop |
| EdMatcher.Matcher.Step | head_m88k/regexp.h:276-307 | the least start at which advance succeeds is found, with the first-character test or without, and the groups are those of its match |
| EdParse.PlaceBit | head_m88k/regexp.h:35 | setting one bit of a bitmap adds one character to the set it stands for |
| EdParse.BitmapDecodes | head_m88k/regexp.h:36 | a bitmap tests for exactly the set it was made from |
| EdParse.ClassMeans | head_m88k/regexp.h:173-188 | narrow, wide and negated classes accept exactly the members, or exactly the other characters and never the NUL |
| EdParse.NarrowMembers | head_m88k/regexp.h:143-163 | a class that keeps the narrow bitmap has no member with the eighth bit |
| EdParse.NoNulMember | head_m88k/regexp.h:139-171 | no class that is accepted has the NUL as a member |
| EdParse.NextProgress | head_m88k/regexp.h:84-273 | every turn of compile reads on, and beyond the pattern fills the buffer, so compile ends |
| EdCompile.Compiler.Place | head_m88k/regexp.h:35 | the bits in the buffer stand for the old set and the new character |
| EdCompile.Compiler.Widen | head_m88k/regexp.h:143-163 | the bitmap in the buffer is doubled in place and still stands for the same set |
| EdCompile.Compiler.ReadMembers | head_m88k/regexp.h:139-171 | the members and ranges end up as bits in the buffer, or the error is the right one |
| EdCompile.Compiler.Close | head_m88k/regexp.h:173-190 | the finished class is the instruction whose meaning ClassMeans gives |
| EdCompile.Compiler.ReadBounds | head_m88k/regexp.h:213-247 | the bounds of an interval end up in two bytes, or the error is the right one of six |
| EdCompile.Compiler.Turn | head_m88k/regexp.h:84-272 | one turn leaves the buffer, the group stack and the last-instruction pointer in the specified state |
| EdCompile.Compiler.Compile | head_m88k/regexp.h:51-274 | the buffer holds exactly the instructions the pattern is read as, with the end mark, or the specified error number is returned; what is read is fixed by EdWriting and EdErrors |
| EdPattern.MembersRead | head_m88k/regexp.h:139-171 | the spelling of a class is read back as its members |
| EdPattern.BoundsRead | head_m88k/regexp.h:213-247 | the spelling of an interval is read back as its bounds |
| EdPattern.ParseSpelled | head_m88k/regexp.h:84-273 | the spelling of a sequence of elements is read as the instructions meant for it, from any state |
| EdPattern.CompileSpelled | head_m88k/regexp.h:51-274 | compiling the spelling of a pattern gives the pattern's own instructions, and consumes the spelling |
| EdWriting.PlainIff | head_m88k/regexp.h:87-122 | a character without a backslash stands for itself if and only if it is not the delimiter, `.`, newline, `[` or a backslash, has nothing to repeat if it is `*`, and does not end the pattern if it is `$` |
| EdWriting.SlashedIff | head_m88k/regexp.h:194-271 | a character after a backslash stands for itself if and only if it is not `(`, `)`, newline, `n` or a figure from 1 on, nor a `{` with anything before it |
| EdWriting.SpellIsWriting | head_m88k/regexp.h:51-274 | the spelling with all its backslashes is one of the ways of writing a pattern |
| EdWriting.ParseWritten | head_m88k/regexp.h:84-273 | whichever characters are written with a backslash and whichever without, as far as those rules let them, the same instructions are made, from any state |
| EdWriting.CompileWritten | head_m88k/regexp.h:51-274 | so compile makes the same instructions of every way of writing a pattern, ended by the delimiter or by a newline, which is left to be read |
| EdErrors.TurnErrors | head_m88k/regexp.h:90-111 | error 43 is a tenth group, 42 a `\)` without a group or an end inside one, 36 a newline under sed or after a backslash, 25 a reference to more groups than have ended; and the pattern ends just at the delimiter or the newline outside all groups |
| EdErrors.FullBuffer | head_m88k/regexp.h:85-86 | error 50 at the end of the buffer and before a class that may not fit, and nowhere else |
| EdErrors.GroupTurns | head_m88k/regexp.h:197-211 | groups are numbered as they begin, and the last one begun ends first |
| EdErrors.EmptyPattern | head_m88k/regexp.h:74-81 | an empty pattern keeps the one before it; without one it is error 41, but not under sed |
| EdErrors.Codes | head_m88k/regexp.h:84-273 | these and the errors below are the only ones |
| EdErrors.NoNumber | head_m88k/regexp.h:219-226 | error 16: an interval that does not begin with a figure, or goes on after its figures with anything but a comma or a backslash |
| EdErrors.BigNumber | head_m88k/regexp.h:227-228 | error 11: a number over 255 |
| EdErrors.NoBrace | head_m88k/regexp.h:241-242 | error 45: no `}` after the backslash |
| EdErrors.BadUpper | head_m88k/regexp.h:230-246 | the second number: 11 over 255, 44 a second comma, 45 no `}`, 46 less than the first |
| EdErrors.OpenClass | head_m88k/regexp.h:139-142 | error 49: a class broken off by a newline or the end, after any members |
| EdErrors.Backwards | head_m88k/regexp.h:152-170 | a range that runs backwards stands for its two ends |
| EdPattern.AtomMeans | head_m88k/regexp.h:322-358 | the test compiled for a character, dot or class accepts the characters the user means |
| EdPattern.CountExact | head_m88k/regexp.h:379-434 | a count is taken as it is meant if and only if its upper bound is not left open and is not 255 |
| EdPattern.CountedMatches | head_m88k/regexp.h:368-497 | the instruction of an atom and its count matches k characters if and only if they fit the atom and the count allows k, which for an upper bound of 255 is up to 20000 more than the lower one |
| EdPattern.MatchesIffDenotes | head_m88k/regexp.h:309-501 | the compiled instructions match a piece of text, groups and back-references included, exactly when the pattern denotes it |
| EdMeaning.AtomTakes | head_m88k/regexp.h:322-358 | an atom denotes one character: itself, any, or one that is listed or in a range, or is not; never the NUL |
| EdMeaning.CountTakes | head_m88k/regexp.h:368-434 | a counted atom denotes the atom that many times in a row, with the numbers written out: 20000 above the lower bound when there is no upper one or it is 255 |
| EdMeaning.ThenDenotes | head_m88k/regexp.h:309-501 | elements and more elements denote a piece of the first and then one of the others |
| EdMeaning.CopyDenotes | head_m88k/regexp.h:436-444 | a group and a reference to it denote a piece of what is in the group and the same characters once more |
| EdMeaning.FirstPrefers | head_m88k/regexp.h:368-497 | of the pieces the first element denotes and that leave the rest a match, it takes the longest |
| EdMeaning.WordDenotes | head_m88k/regexp.h:313-316 | a word denotes itself |
| EdPattern.CodeSafe | head_m88k/regexp.h:309-501 | the instructions of a pattern all have a meaning, and none accepts the NUL |
| EdSearch.CompiledSafe | head_m88k/regexp.h:51-274 | whatever pattern compile accepts without reading past it, its tests reject the NUL at the end of the text |
| EdSearch.SpelledGreedy | head_m88k/regexp.h:309-501 | at any place of a text the search succeeds exactly if the pattern denotes some prefix from there, and ends at the end of one |
| EdGroups.NextGroups | head_m88k/regexp.h:197-211 | the groups that compile keeps open are numbered upwards, and the others of those begun have ended |
| EdGroups.TurnsGroups | head_m88k/regexp.h:84-273 | this holds in every state that compile comes to in any number of turns |
| EdGroups.CheckExact | head_m88k/regexp.h:257-263 | the test of a back-reference is right for every group if and only if no group has ended inside one that is open |
| EdGroups.CompileChecks | head_m88k/regexp.h:84-273 | in every state compile comes to from the start of any pattern, it accepts exactly the references to groups that have ended if and only if no group has ended inside one that is open |
| EdGroups.ScopedIff | head_m88k/regexp.h:257-263 | a pattern that compile accepts refers to groups only after their end if and only if no reference stands inside its own group |
| EdGroups.OwnAccepted | head_m88k/regexp.h:257-263 | a concrete pattern that compile accepts although its instructions refer to a group before its end |
| EdGroups.InnerRefused | head_m88k/regexp.h:257-263 | a concrete pattern that compile refuses with error 25 although the group has ended |
| EdGreedy.PreferredOnce | head_m88k/regexp.h:309-501 | of the pieces a pattern denotes at one place only one is preferred, in which every element from the left takes as many characters as leave the rest a match |
| EdGreedy.GreedyIsPreferred | head_m88k/regexp.h:309-501 | the search ends at exactly that one |
| EdGreedy.TakesOneMore | head_m88k/regexp.h:379-434 | on a text of 256 a the pattern for an a exactly 255 times takes all 256 |
| EdSearch.CompileAndStep | head_m88k/regexp.h:51-307 | however the pattern is written, compile and step together find the first place where the pattern denotes a piece of the text, and there the preferred piece with its groups, or report none only if there is none |
| EdMeaning.SearchWord | head_m88k/regexp.h:51-307 | compile and step together, for a word written in any way, with `^` before it or `$` after it or without: the first place where the word stands, with `^` only the beginning and with `$` only the end, or none only if there is none |
| EdMeaning.PlainWord | head_m88k/regexp.h:87-122 | a word needs no backslash if it has no delimiter, dot, newline, `[` or backslash in it, a `*` only in front, no `^` there but after one that means the beginning, and no `$` at its end but before one that means the end; so `a$b` finds itself |
| Join.StepRight | cmd/join.c:116-119 | a line of the second file with a smaller key has no partner |
| Join.StepLeft | cmd/join.c:120-122 | a line of the first file with a smaller key has no partner |
| Join.StepPair | cmd/join.c:133-135 | inside a group the next pair of the current row is put out |
| Join.StepRow | cmd/join.c:136-139 | a row ends where the keys of the second file change, and the next starts at the same group |
| Join.LeaveGroup | cmd/join.c:140-145 | when the group is left no later line belongs to it and all its lines have been paired |
| Join.Joiner.JoinGroup | cmd/join.c:123-147 | a group gives the full product of its lines, for all the seeking back, and terminates |
| Join.Joiner.Run | cmd/join.c:110-149 | for sorted files the output is the nested-loop join with lone first lines, the lone second lines, and both in key order |
| Join.JoinFiles | cmd/join.c:110-149 | the same from the two files on |
| JoinMeaning.PairCount | cmd/join.c:124-135 | two lines are put out together as often as their pair occurs in the two files if their fields are equal, and never otherwise |
| JoinMeaning.LeftCount | cmd/join.c:120-122 | a line of the first file is put out alone, if that is wanted, as often as it occurs if no line of the other has the same field, and never otherwise |
| JoinMeaning.RightCount | cmd/join.c:116-119 | and so is a line of the second |
| Strings.StrcmpLess | cmd/join.c:226-230 | the result is negative if and only if the first string ends, or has the smaller character, where the two first differ |
| Strings.Order | cmd/join.c:226-230 | the comparison of keys is a total order |
| Calendar.NumberOfNext | cmd/bbh/dconv.c:25-40 | the closed form of the day number grows by one from each real day to the next, through 1752 and all kinds of leap year |
| Calendar.NthNumber | cmd/bbh/dconv.c:39-40 | the n-th day of the succession is a real date with number n |
| Calendar.NumberInjective | cmd/bbh/dconv.c:18-40 | no two real dates have the same number |
| Calendar.NthIff | cmd/bbh/dconv.c:18-40 | a real date has the number n exactly when it is the n-th day |
| Calendar.RealIff | cmd/bbh/dconv.c:18-40 | the real dates in plain numbers: the lengths of the months, the leap years before and after the change, and the eleven days left out |
| Calendar.NextIsFirst | cmd/bbh/dconv.c:25-40 | the day after a date is the first real date that comes later |
| DateConversion.ToDay | cmd/bbh/dconv.c:95-152 | a real date up to 9999 gives the place of that day in the succession, anything else -1 |
| DateConversion.DoLeap | cmd/bbh/dconv.c:276-311 | the day is split exactly into full years with their leap days and a day within the year |
| DateConversion.Do100 | cmd/bbh/dconv.c:320-335 | the same across centuries without a leap year at their start |
| DateConversion.Do400 | cmd/bbh/dconv.c:344-373 | the same across 400-year cycles |
| DateConversion.ToDate | cmd/bbh/dconv.c:160-267 | for every n from 1 on the result is the n-th day of the succession, so both conversions are inverse to each other |
| Cal.Jan1 | cmd/cal.c:195-226 | January 1 falls on the day of the week that dconv gives it |
| Cal.YearKind | cmd/cal.c:146-167 | the shift of January 1 tells common years, leap years and 1752 apart |
| Cal.DayColumn | cmd/cal.c:170-187 | the column reached by counting on is the day's day of the week |
| Cal.WeekdayAfter | cmd/cal.c:195-226 | the days of the week follow one another without a break, from a Saturday on |
| Cal.DayShown | cmd/cal.c:172-187 | in the grid of a month, at the row and column of the k-th day, stand the figures of the real date that comes k days after the first |
| Cal.Printer.SetYear | cmd/cal.c:142-167 | the month table has the calendar's month lengths |
| Cal.Printer.Fill | cmd/cal.c:172-187 | every day of the month is written into its cell of the grid, 3 to 13 September 1752 are not, and nothing else changes |
| Cal.Printer.Month | cmd/cal.c:135-188 | and the first day stands in the column of its day of the week |
| AwkFields.Fields.CleanFld | cmd/awk/lib.c:240-251 | the fields of a range become empty, no others |
| AwkFields.Fields.NewFld | cmd/awk/lib.c:253-260 | the fields up to the new one exist, the added ones empty |
| AwkFields.Fields.FldBld | cmd/awk/lib.c:171-238 | splitting changes nothing an eager model could see, whose fields are those of BlankFields and SeparatorFields, and fails exactly if there are too many |
| AwkFields.Fields.RecBld | cmd/awk/lib.c:309-335 | putting the record together changes nothing an eager model could see |
| AwkFields.Fields.GetRec | cmd/awk/tran.c:288-315 | reading `$0` gives what the eager model holds |
| AwkFields.Fields.GetField | cmd/awk/tran.c:288-315 | reading a field gives what the eager model holds |
| AwkFields.Fields.SetRec | cmd/awk/tran.c:240-265 | assigning `$0` is the eager model's assignment, fields split anew |
| AwkFields.Fields.SetField | cmd/awk/tran.c:240-265 | assigning a field, its reference forced first, is the eager model's assignment, record put together anew, and the two flags are not both 0 |
| AwkFields.Fields.SetFs | cmd/awk/lib.c:171-186 | a new FS leaves the fields of the record at hand as they were if and only if it has been split already or the new FS splits it the same |
| AwkFields.Fields.SetOfs | cmd/awk/lib.c:309-325 | a new OFS leaves `$0` as it was if and only if it is up to date or is put together the same |
| AwkFields.SetFsTooLate | cmd/awk/lib.c:171-186 | a concrete record that a later assignment to FS splits by the new FS |
| AwkFields.WordStep | cmd/awk/lib.c:187-203 | a field of the blank separator is a maximal run of non-blank characters |
| AwkFields.BlankFields | cmd/awk/lib.c:187-203 | under the blank separator the fields are not empty and free of the characters 32, 9 and 10, and the record is made of them with one or more of these between two fields and any number at its ends |
| AwkFields.SeparatorFields | cmd/awk/lib.c:205-221 | under any other separator the fields have neither it nor a newline in them, and the record is made of them with just one of the two between two fields |
| AwkFields.SplitJoined | cmd/awk/lib.c:205-221 | fields put together with a separator they do not contain are split into themselves |
| AwkFields.SplitJoinedIff | cmd/awk/lib.c:171-238 | for every separator, the blank one too, fields put together are split into themselves if and only if they can be told apart: none with the separator in it and not one empty field alone, or for the blank each a non-empty word |
| AwkFields.FieldSurvives | cmd/awk/lib.c:309-335 | so after a field assignment splitting the new record gives the same fields if and only if they can be told apart |
| AwkFields.JoinedFrom | cmd/awk/lib.c:318-326 | fields are put together one after the other with the whole of OFS, however long, between two |
| AwkFields.FieldAssigned | cmd/awk/tran.c:240-265 | an assignment to a field changes it and no other, adds empty ones before it, and puts the record together |
| ErrorLog.AbsorbKeeps | cmd/bbh/hdelogger.c:483-494 | merging a later record into the first of its block loses nothing the log says about any block |
| ErrorLog.AboutOnly | cmd/bbh/hdelogger.c:481-499 | in a log without duplicates a record says all there is about its block |
| ErrorLog.AboutIsSum | cmd/bbh/hdelogger.c:483-494 | capping the count at every merge is capping the sum of all reports of the block once |
| ErrorLog.AboutTimes | cmd/bbh/hdelogger.c:483-494 | the first and the last time kept for a block bound those of all its records |
| ErrorLog.AboutAttained | cmd/bbh/hdelogger.c:483-494 | and are the times of records of the block |
| ErrorLog.VictimLast | cmd/bbh/hdelogger.c:515-522 | no later record has as few reports and an earlier first time than the one chosen, which has fewer reports or an earlier first time than every earlier one |
| ErrorLog.AboutSaysAll | cmd/bbh/hdelogger.c:483-494 | in plain numbers: the record of a block has the number of its reports up to 1023, the least and the greatest of its times, and the kind of error of the record that stood first |
| ErrorLog.UpdatedRenewed | cmd/bbh/hdelogger.c:500-536 | so after a report on a full log every block but one that had to go has exactly one record, and it says all that |
| ErrorLog.Log.Remove | cmd/bbh/hdelogger.c:492-494 | the records after the removed one move up by one |
| ErrorLog.Log.Combine | cmd/bbh/hdelogger.c:478-499 | afterwards no block occurs twice, and every block has the capped sum of counts, the first and the last time of all its records |
| ErrorLog.Log.Add1Rep | cmd/bbh/hdelogger.c:458-536 | with room a record of the report is added, field by field; otherwise no block occurs twice, the new block is there, and every block but at most one evicted has all its reports and the new one |
| Commands.NotThere | cmd/acct/acctcms.c:290-292 | a free slot where probing stops proves that the name is not in the table |
| Commands.NoRoom | cmd/acct/acctcms.c:293-296 | overflow is reported only for a full table without the name |
| Commands.EnteredTable | cmd/acct/acctcms.c:297-300 | afterwards names are unique and every entry is reached from its hash without a free slot before it |
| Commands.Summary.Enter | cmd/acct/acctcms.c:278-301 | one record is added to the sums of its command, found or new, and nothing else changes; or the table is full of others and unchanged |
| Commands.EnteredAdds | cmd/acct/acctcms.c:333-348 | the sums of all other commands stay |
| Commands.SharedName | cmd/acct/acctcms.c:282-287 | two commands share a line if and only if their names differ only where both have a control character or a question mark |
| Commands.Summary.EnterAll | cmd/acct/acctcms.c:278-301 | over any run of records, what the table holds of a command and what was dropped is what was there and what was read |
| Commands.PlacedExact | cmd/acct/acctcms.c:278-301 | from an empty table no record is dropped if and only if there are no more names than slots, and then a slot is free if and only if there are fewer |
| Commands.RoomForOther | cmd/acct/acctcms.c:312-321 | `***other` has a slot or gets one if and only if it was entered before the table was full or the names leave a slot; when no record was dropped, if and only if the names fit the table together with it |
| Commands.Summary.FixJunk | cmd/acct/acctcms.c:312-321 | with room for `***other` every column keeps its total, and beside it exactly the commands run more than once are left, as they were; without, the same are left and the others are added to slot -1 |
| Commands.Summary.Squeeze | cmd/acct/acctcms.c:367-389 | the used slots are moved to the front in their order |
| Commands.UsedTotal | cmd/acct/acctcms.c:367-389 | squeezing keeps every column total |
| Commands.Summarize | cmd/acct/acctcms.c:157-165 | the whole run: one line for every command with the sums of its records, with -j only of those run more than once, `***other` for the rest if and only if there is room for it and otherwise the rest lost, the totals accounted for, and no record dropped if and only if the names fit the table |
| Commands.LinesCounted | cmd/acct/acctcms.c:312-321 | counted in records, each of one run: a command of which none was dropped has a line if it was run at all and, with -j, if at least two records have it |
| Commands.ColumnsAdded | cmd/acct/acctcms.c:333-348 | each of the twelve columns of a command is the sum of that column over its records |
| Commands.JunkWithoutRoom | cmd/acct/acctcms.c:312-321 | a concrete run in which enter returns -1 for `***other` and the one command there was is in no line |
| DiskUsage.SwapMends | cmd/acct/acctdusg.c:214-219 | every swap takes away exactly one inversion, so the sort ends |
| DiskUsage.Accounting.Add | cmd/acct/acctdusg.c:148-188 | an entry whose home is a directory is linked in at the end of the list with its slashes counted, any other leaves the list |
| DiskUsage.Accounting.SwapD | cmd/acct/acctdusg.c:226-246 | relinking exchanges two neighbours of the list, at its head too |
| DiskUsage.Accounting.DSort | cmd/acct/acctdusg.c:193-224 | the same nodes, by falling number of slashes and then rising uid |
| DiskUsage.LongestHome | cmd/acct/acctdusg.c:258-265 | in such a list the first directory a path lies in is the longest one, and of equal ones that of the smallest uid; there is none only if the path lies in none |
| DiskUsage.InsideIsPrefix | cmd/acct/acctdusg.c:258-265 | the test on characters holds exactly if the names between the slashes of the directory are the first ones of the path, an empty one after a slash at its end included |
| DiskUsage.InsideMeans | cmd/acct/acctdusg.c:258-265 | a path lies in a directory if it is the directory or goes on after it with a slash |
| DiskUsage.HomeExact | cmd/acct/acctdusg.c:258-265 | so a path taken for inside a home is in it, and none is missed if and only if the home does not end with a slash; of one that does, as of `/`, every name of one character is |
| DiskUsage.Accounting.Charge | cmd/acct/acctdusg.c:248-286 | exactly that directory's owner is charged the file's share of blocks, or the directory is reported as nobody's; in a sorted list it is the longest |
| DiskUsage.BlocksOfFile | cmd/acct/acctdusg.c:267-273 | the blocks of a file are the least number of 512 bytes that hold it, and indirect blocks: one for every 128 beyond 10, every 16384 beyond 138 and every 2097152 beyond 16522, the last of each counted whole |
| DiskUsage.ChargedShare | cmd/acct/acctdusg.c:283-285 | the first home the file lies in is charged all its blocks for a directory, its share by the number of links, rounded down, for a regular file, nothing for others; and no other home is charged |
| DiskUsage.ReportLines | cmd/acct/acctdusg.c:275-280 | reported are exactly the directories with something in them that lie in no home, in the order of the names |
| DiskUsage.Accounting.ChargeAll | cmd/acct/acctdusg.c:88-92 | after all files each owner is charged the sum of the shares of the files in that home |
| DiskUsage.AllCharged | cmd/acct/acctdusg.c:283-285 | every block of a file that lies in a home is charged, and charged once |
| DiskUsage.BillLines | cmd/acct/acctdusg.c:115-128 | there is a line for exactly those who have been charged, in the order of the homes, with what they have been charged |
| DiskUsage.Run | cmd/acct/acctdusg.c:79-96 | from the password file and the names to the lines written: the homes in order, and a line for each owner with anything charged |
| AccountMerge.Take | cmd/acct/acctmerg.c:136-145 | taking a record loses nothing: per key and in total, done and left together stay the input |
| AccountMerge.StartKey | cmd/acct/acctmerg.c:131-138 | the least head starts a key that no earlier output has, and no earlier file has more of |
| AccountMerge.NextFile | cmd/acct/acctmerg.c:146-147 | a file whose head has another key has no more of this one |
| AccountMerge.Merger.GetLeast | cmd/acct/acctmerg.c:109-125 | the first file with a least head is found, none only if all files are at their end |
| AccountMerge.Merger.SumCurr | cmd/acct/acctmerg.c:131-150 | one output record, the sum of all input records of the least key |
| AccountMerge.Merger.Run | cmd/acct/acctmerg.c:95-102 | for sorted files the output keys strictly increase, each record is the sum of all input records with its key, every key is there under the name of its first record, and the total is the sum of all input |
| AccountMerge.Merge | cmd/acct/acctmerg.c:95-102 | the same from the files on |
| AccountTotals.MergedColumns | cmd/acct/acctmerg.c:153-169 | each of the eleven columns of a record written is the sum of that column over all records of that user, the three short ones modulo 65536 |
| AccountTotals.TotalColumns | cmd/acct/acctmerg.c:153-169 | and those of the total are the sums over all records |
| AccountTotals.KeysRise | cmd/acct/acctmerg.c:109-125 | from record to record the uid grows or, without -u, stays and the name grows |
| AccountTotals.NameOfFirst | cmd/acct/acctmerg.c:107-138 | and a record has the uid and the name of the first one of its user, file by file |
| AccountTotals.KeysKept | cmd/acct/acctmerg.c:95-102 | there is a record for exactly the users of the input |
| Deblocking.Reader.Straddle | cmd/frec.c:1026-1036 | a logical block across two tape blocks is put together from both |
| Deblocking.Reader.GetBlk | cmd/frec.c:1001-1044 | the k-th block since clrbuf is the k-th stretch of g_bsize bytes of the tape, for every k and every way of straddling |
| Deblocking.Reader.ClrBuf | cmd/frec.c:1052-1057 | the next block is read from where the tape stands |
| TarFormat.ScanField | cmd/tar.c:460-468 | an octal number printed into a field is scanned back, whatever non-digit follows |
| TarFormat.HeaderDecodes | cmd/tar.c:451-475 | every ustar header is read back as the entry it was written for, and its checksum verifies |
| TarFormat.UstarNumbers | cmd/tar.c:876-905 | the numbers stand in octal at the offsets of the standard, each with its blank, and the checksum is the sum of all 512 bytes with blanks in its own place |
| TarFormat.UstarNames | cmd/tar.c:568-600 | and so do the two names, the type and the magic string |
| TarHeader.Block.ToModes | cmd/tar.c:876-892 | the fields stand as the layout requires, though each one's NUL runs into the next |
| TarHeader.Block.PutName | cmd/tar.c:568-574 | names of 100 characters and more are refused, others stored with their NUL |
| TarHeader.Block.Checksum | cmd/tar.c:894-905 | all bytes are added up with the checksum field as blanks |
| TarHeader.HeaderDone | cmd/tar.c:593 | printing the sum over the blanks completes the header and does not change its sum |
| TarTape.Writer.WriteTape | cmd/tar.c:1088-1110 | one block more of the stream is on the tape or in the buffer, for every blocking factor |
| TarTape.Writer.FlushTape | cmd/tar.c:1125-1128 | afterwards the whole stream is on the tape |
| TarTape.ReadsNext | cmd/tar.c:1050-1086 | with a blocking factor that suits the records every call returns the next block of the tape |
| TarTape.Unsuited | cmd/tar.c:1072-1080 | with one that does not, two records are already read wrongly or not at all |
| TarTape.SuitsIff | cmd/tar.c:1050-1086 | a blocking factor gives every tape of records of that length back if and only if it suits them |
| TarTape.Reader.ReadTape | cmd/tar.c:1050-1086 | the calls on the buffer are the steps those two lemmas speak of |
| Tar.DataSnoc | cmd/tar.c:630-633 | one block more of a file's bytes |
| Tar.EncodedSnoc | cmd/tar.c:496-639 | one item more keeps headers and data in step |
| Tar.Archiver.PutFile | cmd/tar.c:496-639 | a file becomes one item: its contents under its first name, a link to that under any further one |
| Tar.Archiver.Create | cmd/tar.c:386-434 | the tape holds the items of all files in order, and then two empty blocks |
| Tar.ArchiveStores | cmd/tar.c:580-595 | what is stored of a file: its own entry, and a link with no data if and only if an earlier file has the same inode and device, to the first of them; otherwise its contents |
| Tar.ArchiveRestores | cmd/tar.c:580-639 | so if names differ and the names of one file show the same contents, every name gives its contents again, through its link if it has one |
| Tar.Extractor.GetDir | cmd/tar.c:451-475 | the end is recognised, and a header gives its entry exactly if the checksum is right |
| Tar.Extractor.Extract | cmd/tar.c:643-732 | from an archive exactly its items come back, links without data, alignment never lost |
| Tar.ThroughTape | cmd/tar.c:386-732 | for all lists of files and all blocking factors that suit each other, what is written is read back: every file as ArchiveStores says, and with its contents again under its name |

## Left out

- awk: the parser of expressions and `cclenter`, the limits MAXLIN, allocation and its failure; the count words before each list are the lengths of the lists here.
- awk: the use of `initstat = 2` by gsub, sub and split; after a flush pmatch calls makeinit again and ignores it.
- EdSearch.CompiledSafe: says nothing of patterns that compile reads past the end of (a backslash before the final NUL), nor of instructions without a meaning.
- EdMatcher.Matcher.Advance: a repeated back-reference (which loops if the group is empty), and intervals on groups and on back-references, whose opcodes no case handles, have no meaning here.
- EdMatcher.Matcher.Repeat: a repeated back-reference is not one of its cases here.
- EdPattern.CompileSpelled: patterns are spelled with delimiters that are not part of the notation.
- EdWriting.CompileWritten: nor does it speak of other delimiters, or of an atom with more than one count.
- `head_m88k/regexp.h`: `locs`; numbers in an interval are not cut to the width of an int.
- `cmd/join.c`: option parsing, splitting lines into fields and formatting the output; a line has the field it is joined on; unsorted files.
- `cmd/bbh/dconv.c`: time conversion (`tconv`, `tconvs`), and the width of `long`; `cmd/cal.c`: the titles and the trimming of lines.
- AwkFields.Fields.FldBld: a regular expression as field separator, numbers in fields, and assignments to NF are not modelled.
- `cmd/awk/run.c`: an assignment whose right-hand side assigns `$0` while the left-hand side is a field can leave both flags 0; here the reference is forced directly before the store.
- ErrorLog.Log.Add1Rep: the loop that removes the evicted record stops one slot earlier than the program's, which reads one slot past the array before that slot's copy is overwritten.
- `cmd/acct/acctcms.c`: floating-point rounding (columns are real numbers), reading and printing; names are padded with NULs; slot -1, the memory in front of the table, only collects what is added to it.
- `cmd/acct/acctdusg.c`: reading the password file and `clean`; `cmd/acct/acctmerg.c`: reading and printing, and floating-point rounding; names are not empty.
- `cmd/frec.c`: everything but the reading of blocks; a failed read ends the program.
- Tar.ThroughTape: files keep their size while they are read, and all numbers fit their fields; a tape returns one record for each read.
- `cmd/tar.c`: update mode, directories, prompts, ownership and times of extracted files, link counts, and archives in disk files, where a read returns as many blocks as are asked for.
- All I/O, signals and processes.
