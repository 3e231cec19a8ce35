# Verified models of dnf5 and X server extension code

Dafny models of the parts of the repository where correctness depends on more
than one function: the dnf5 command-line parser with its alias loader, the
dnf5 daemon's thread and key-confirmation protocols, and six pieces of the X
server's `Xext` directory. `dafny verify dfyconfig.toml` checks the project.

| files | models |
|---|---|
| `Templates.dfy` | `replace_all` and `format_string`, the text substitution of aliases |
| `Registry.dfy` | the objects an argument parser owns, id paths, conflicts, and what registration may change |
| `Parser.dfy`, `ParserMachine.dfy` | parsing a command line: the result as functions, and the parser object that reaches it step by step |
| `ParserFirings.dfy` | attached arguments: what an option or an alias fires, as one list, and what playing the list does |
| `ParserMeaning.dfy` | which option a word names, what it does, and when a command ends well |
| `ParserFrames.dfy`, `ParserSpellings.dfy` | what parsing an argument depends on, and different spellings of an option |
| `AliasEquivalence.dfy`, `AliasLines.dfy` | an alias against its command: the two parse loops, and whole command lines |
| `AliasLoader.dfy`, `LoaderMeaning.dfy` | loading the elements of alias files into a parser, and what each element adds |
| `HashTable.dfy`, `HashTableMachine.dfy`, `Bits.dfy` | the resizable chained hash table and its generic hash |
| `Xinerama.dfy`, `ImagePlanes.dfy` | assembling an image from several screens, in chunks and planes |
| `Authorization.dfy` | the lifetime of generated authorizations |
| `ShmSegments.dfy` | shared-memory segments and who holds them |
| `WindowShape.dfy` | the region operations of shaped windows |
| `SaverSuspend.dfy` | counted suspension of the screen saver |
| `ThreadsManager.dfy`, `KeyConfirmation.dfy` | the daemon's two concurrent protocols |

Code that updates state in place is a class or a method over an array, and its
contract ties the new state to a function of the old one; the properties are
lemmas about those functions. Protocols are step relations with one step per
critical section, and their theorems speak about every legal sequence of steps.

Findings about the code:

- An authorization generated with a timeout above 2147483 seconds ends the
  server. The delays asked for are right, but `TimerSet` takes a delay of 2^31
  milliseconds or more as already over and calls back at once, before the timer
  is stored in the authorization; the assertion on it
  (`dummy_arg/Xext/security.c:315`) then fails. `Authorization.StepKeeps` and
  `Authorization.RunKeeps` prove that this happens exactly for such timeouts,
  `Authorization.TooLongAborts` gives an example, and
  `Authorization.GenerateWaits` shows that every shorter timeout is waited for
  in full. In a build without assertions the authorization would be freed inside
  `TimerSet` and line 343 would then store into the freed memory.
- A named-argument element of an alias file whose path has its only dot in
  front, such as `.x`, is registered at the root command and found there under
  `x`, but not under its own path (`AliasLoader.FoundUnderOwnPath`,
  `AliasLoader.FoundWithoutLeadingDot`, and `AliasLoader.DottedIsLost` for `.x`).
- A command alias whose id contains an '=' hands the text behind the first '=' to
  each attached argument that takes a value, in place of what its template
  gives, and cannot be used when an attached argument takes none
  (`ParserFirings.AliasStoresAttached`, `ParserFirings.AliasStarts`): the attached
  arguments are parsed with the alias word as their option text.
- A worker thread that is spawned before the sweep of `finish()` but registered
  after it can be left unjoined when `finish()` returns
  (`ThreadsManager.LateThreadIsLeft`). When `finish()` has returned, a thread
  has been joined if and only if it was registered before the sweep of
  `finish()`, or registered and marked finished before a sweep of the collector
  (`ThreadsManager.EveryInterleaving`).
- A note in `dummy_arg/Xext/hashtable.h:92-94` says that `ht_find` may return
  NULL for a present key when the data size is 0. The code returns the end of
  the stored key instead; the model follows the code.

What the model takes for granted: attachments of the arguments a program
creates itself refer to arguments created earlier, and a command's parent and
attached command are older than the command. The alias loader keeps both
(`AliasLoader.LoadElementKeeps`); without them the parser would recurse for ever.
Parse hooks are recorded as a trace of calls.

## Model

| member | source | states |
|---|---|---|
| `Templates.ReplaceAllInPlace` | dnf5/libdnf5-cli/argument_parser.cpp:42-50 | the in-place loop computes the left-to-right non-overlapping replacement and counts the replaced occurrences |
| `Templates.ReplaceIsSplitAndJoin` | dnf5/libdnf5-cli/argument_parser.cpp:42-50 | replacing is cutting the text at the occurrences and joining the pieces with the new text, so substituted text is never read again |
| `Templates.PiecesSplit` | dnf5/libdnf5-cli/argument_parser.cpp:42-50 | the pieces hold no occurrence, and joining them with the searched text gives the original back |
| `Templates.FindIsLeftmost` | dnf5/libdnf5-cli/argument_parser.cpp:44-45 | the search passes over no occurrence |
| `Templates.FormatStringLoop` | dnf5/libdnf5-cli/argument_parser.cpp:53-84 | the search loop that moves past each match computes the recursive formatting, and fails on the first index out of range |
| `Templates.FormatRendered` | dnf5/libdnf5-cli/argument_parser.cpp:53-84 | a rendered template of literals and references, formatted, gives the literals and the named words in order, or the first reference out of range |
| `Templates.ReadReference` | dnf5/libdnf5-cli/argument_parser.cpp:54-65 | a reference written in decimal is matched whole and read back as its index, whatever follows it |
| `Registry.AddConflict` | dnf5/libdnf5-cli/argument_parser.cpp:176-195 | exactly the pair and its reverse are added to the conflict relation |
| `Registry.AddConflictKeepsSymmetry` | dnf5/libdnf5-cli/argument_parser.cpp:176-195 | a symmetric conflict relation stays symmetric |
| `Registry.CopyConflictsExact` | dnf5/libdnf5-cli/argument_parser.cpp:197-213 | copying adds exactly the source's conflicts, in both directions, leaving out the two arguments themselves |
| `Registry.CopyConflictsKeepsSymmetry` | dnf5/libdnf5-cli/argument_parser.cpp:197-213 | a symmetric conflict relation stays symmetric |
| `Registry.ResolveStable` | dnf5/libdnf5-cli/argument_parser.cpp:1584-1613 | a path that names an argument names the same one after any later registration |
| `Registry.GetCommandStable` | dnf5/libdnf5-cli/argument_parser.cpp:1555-1571 | a path that names a command names the same one after any later registration |
| `Registry.OffersExactly` | dnf5/libdnf5-cli/argument_parser.cpp:1230-1245 | an alias offers the commands, arguments and groups of the command it is attached to |
| `Parser.BumpEvolves` | dnf5/libdnf5-cli/argument_parser.cpp:239-248 | counting an argument whose conflict check passed keeps all conflicting arguments apart |
| `Parser.ParseLong` | dnf5/libdnf5-cli/argument_parser.cpp:533-583 | through all recursively attached arguments: counts never fall, conflicting arguments stay apart, no attachment dangles, and at least one and at most the given words are used; the recursion ends |
| `Parser.ParseShort` | dnf5/libdnf5-cli/argument_parser.cpp:585-633 | the same for short options; nothing is used only when letters of the cluster are left |
| `Parser.ParsePositional` | dnf5/libdnf5-cli/argument_parser.cpp:352-410 | the same for positional arguments, which use at least one word and never more than there are |
| `Parser.TakeOption` | dnf5/libdnf5-cli/argument_parser.cpp:1102-1137 | a token either is left to others with the state untouched, or moves the position forward by exactly what the argument used; which tokens are taken, by which argument and with which value is stated by the `ParserMeaning` rows |
| `Parser.OrdinaryTurn` | dnf5/libdnf5-cli/argument_parser.cpp:1087-1181 | each turn of the loop decreases (words left, letters left) and uses exactly the words it moves over |
| `Parser.OrdinaryLoop` | dnf5/libdnf5-cli/argument_parser.cpp:1087-1182 | the loop ends, even when aliases make the command graph cyclic; the uses cover the words to the end without gap or overlap |
| `Parser.AliasStart` | dnf5/libdnf5-cli/argument_parser.cpp:1271-1294 | the required values are used once and conflicts stay apart; what the attached arguments do is stated by `ParserFirings.AliasStarts` |
| `Parser.AliasLoop` | dnf5/libdnf5-cli/argument_parser.cpp:1311-1394 | the alias loop ends and uses every remaining word once |
| `Parser.ParseArgv` | dnf5/libdnf5-cli/argument_parser.cpp:1527-1533 | from any state and for any words: counts never fall, conflicting arguments stay apart, and a parse that succeeds used all words in order |
| `Parser.EveryWordUsedOnce` | dnf5/libdnf5-cli/argument_parser.cpp:1527-1533 | a parse that succeeds gave every word after the first to exactly one argument, and read no word beyond the last |
| `ParserFirings.LongPlays` | dnf5/libdnf5-cli/argument_parser.cpp:533-583 | an option in long form with a value is taken exactly when all attachments below it resolve and no firing meets a parsed conflicting argument; the effect is then that of playing the list of its firings: itself, then depth first its attached arguments, each with its template filled in or its constant |
| `ParserFirings.ShortPlays` | dnf5/libdnf5-cli/argument_parser.cpp:585-633 | the same for the short form |
| `ParserFirings.PlayCounts` | dnf5/libdnf5-cli/argument_parser.cpp:564 | each argument is counted exactly once for each of its firings, and no other argument is |
| `ParserFirings.PlayStores` | dnf5/libdnf5-cli/argument_parser.cpp:561-563 | an option holds the value of the last firing that stores into it |
| `ParserFirings.PlaySpares` | dnf5/libdnf5-cli/argument_parser.cpp:561-563 | an option no firing stores into is as before |
| `ParserFirings.PlayCalls` | dnf5/libdnf5-cli/argument_parser.cpp:564-567 | the hooks are called in the order of the firings, with their texts and values |
| `ParserFirings.PassesExactly` | dnf5/libdnf5-cli/argument_parser.cpp:239-248 | the firings pass exactly when nothing that one of them conflicts with was parsed before or fires before it |
| `ParserFirings.AttachedAreCounted` | dnf5/libdnf5-cli/argument_parser.cpp:569-580 | an option that is taken, in either form, has counted every argument attached to it |
| `ParserFirings.FireAliasPlays` | dnf5/libdnf5-cli/argument_parser.cpp:1278-1290 | the loop over an alias's attached arguments plays their firings in order, or throws exactly when one does not resolve, cannot get its value or meets a conflict |
| `ParserFirings.AliasStarts` | dnf5/libdnf5-cli/argument_parser.cpp:1271-1294 | an alias starts exactly when its required values are there and all its attached arguments can fire; they have then fired with what their templates give for the alias and its values, and parsing goes on behind these |
| `ParserFirings.AliasCountsAttached` | dnf5/libdnf5-cli/argument_parser.cpp:1278-1290 | an alias that starts has counted every argument attached to it |
| `ParserFirings.AliasStoresAttached` | dnf5/libdnf5-cli/argument_parser.cpp:1278-1290 | the option of a single attached argument holds its constant, or what its template means for the alias word and the required values, or the text behind an '=' of the alias word |
| `ParserMeaning.NamesIsMatch` | dnf5/libdnf5-cli/argument_parser.cpp:1110-1132 | a word matches an argument exactly when it is `--name`, or `--name=` and anything, for its long name, or has its letter at the current place of a cluster |
| `ParserMeaning.FindsFirst` | dnf5/libdnf5-cli/argument_parser.cpp:1102-1137 | the search takes the first argument of the list that the word names |
| `ParserMeaning.FindsNone` | dnf5/libdnf5-cli/argument_parser.cpp:1102-1137 | the search fails exactly when the word names none of the list |
| `ParserMeaning.LeftToOthers` | dnf5/libdnf5-cli/argument_parser.cpp:1102-1137 | a word is left to subcommands and positional arguments exactly when it has no dash or names no option of the list |
| `ParserMeaning.SearchesOwnFirst` | dnf5/libdnf5-cli/argument_parser.cpp:1072-1083 | the options searched are the command's own, then those of its ancestors when inheriting is enabled, and no others |
| `ParserMeaning.LongAssigned` | dnf5/libdnf5-cli/argument_parser.cpp:533-548 | `--name=value` fires the found option with the value and uses one word, or is refused when the option takes none |
| `ParserMeaning.LongFlag` | dnf5/libdnf5-cli/argument_parser.cpp:533-560 | `--name` fires a flag with its constant and uses one word |
| `ParserMeaning.LongWithWord` | dnf5/libdnf5-cli/argument_parser.cpp:533-560 | `--name` fires an option with the next word as its value and uses both, or throws when there is no next word |
| `ParserMeaning.LetterFlag` | dnf5/libdnf5-cli/argument_parser.cpp:585-612 | a flag inside a cluster fires with its constant and leaves the word to the next letter |
| `ParserMeaning.LastLetterFlag` | dnf5/libdnf5-cli/argument_parser.cpp:585-612 | a flag at the end of a cluster fires with its constant and ends the word |
| `ParserMeaning.LetterWithRest` | dnf5/libdnf5-cli/argument_parser.cpp:585-612 | a letter that takes a value gets what follows it in the word |
| `ParserMeaning.LetterWithWord` | dnf5/libdnf5-cli/argument_parser.cpp:585-612 | the last letter gets the next word as its value, or throws when there is none |
| `ParserMeaning.TakesWords` | dnf5/libdnf5-cli/argument_parser.cpp:1159-1178 | how many words of the line a positional argument takes, what it stores, and when the next positional argument has its turn |
| `ParserMeaning.EndsExactly` | dnf5/libdnf5-cli/argument_parser.cpp:1183-1200 | a command ends well exactly when no required positional argument has count 0; it is counted either way, and its hook is called at a good end only |
| `ParserMeaning.SelectsLastEntered` | dnf5/libdnf5-cli/argument_parser.cpp:1141-1158 | after any parse, also one that throws, the selected command is the last one the line entered, or the root |
| `ParserMachine.ArgumentParser.AddConflictArgument` | dnf5/libdnf5-cli/argument_parser.cpp:176-195 | the object's conflict lists change as the relation says; symmetry is kept |
| `ParserMachine.ArgumentParser.AddConflictArgumentsFrom` | dnf5/libdnf5-cli/argument_parser.cpp:197-213 | the loop that reads the list while lists grow copies exactly the source's conflicts; symmetry is kept |
| `ParserMachine.ArgumentParser.GetConflictArgument` | dnf5/libdnf5-cli/argument_parser.cpp:239-248 | finds the first other conflicting argument that has been parsed |
| `ParserMachine.ArgumentParser.ParseLong` | dnf5/libdnf5-cli/argument_parser.cpp:533-583 | updates counters, values and hook trace, and returns or throws, as the function says, for every argument and word list |
| `ParserMachine.ArgumentParser.FireLong` | dnf5/libdnf5-cli/argument_parser.cpp:569-580 | the loop over the attached arguments reaches the state of the recursion |
| `ParserMachine.ArgumentParser.ParseShort` | dnf5/libdnf5-cli/argument_parser.cpp:585-633 | as for the long form |
| `ParserMachine.ArgumentParser.FireShort` | dnf5/libdnf5-cli/argument_parser.cpp:615-630 | as for the long form |
| `ParserMachine.ArgumentParser.StoreInto` | dnf5/libdnf5-cli/argument_parser.cpp:395-402 | the first values are overwritten or appended, values held beyond them stay |
| `ParserMachine.ArgumentParser.ParsePositional` | dnf5/libdnf5-cli/argument_parser.cpp:352-410 | counts usable words, stores them and calls the hook as the function says |
| `ParserMachine.ArgumentParser.RunOrdinary` | dnf5/libdnf5-cli/argument_parser.cpp:1085-1182 | the loop over `i`, the cluster index and the exhausted positionals reaches the state of the recursion |
| `ParserMachine.ArgumentParser.RunAlias` | dnf5/libdnf5-cli/argument_parser.cpp:1309-1394 | the same for the loop of a command alias |
| `ParserMachine.ArgumentParser.FireAttached` | dnf5/libdnf5-cli/argument_parser.cpp:1278-1290 | the loop over an alias's attached arguments reaches the state of the recursion, which plays their firings (`ParserFirings.FireAliasPlays`) |
| `ParserMachine.ArgumentParser.Finish` | dnf5/libdnf5-cli/argument_parser.cpp:1183-1200 | counts the command, reports the first missing required positional argument, or calls the hook |
| `ParserMachine.ArgumentParser.Parse` | dnf5/libdnf5-cli/argument_parser.cpp:1527-1533 | a whole parse reaches the specified state; conflicting arguments stay apart; success means every word was used once |
| `ParserSpellings.LongSpellings` | dnf5/libdnf5-cli/argument_parser.cpp:533-583 | `--name=value` and `--name value` leave the same state, through all attached arguments, and use one and two words |
| `ParserSpellings.LongStores` | dnf5/libdnf5-cli/argument_parser.cpp:533-583 | without attachments an option is taken if and only if no conflicting argument was parsed; then it stores exactly its value and counts only itself, otherwise nothing changes |
| `ParserSpellings.ShortSpellings` | dnf5/libdnf5-cli/argument_parser.cpp:585-633 | `-xvalue` and `-x value` leave the same state |
| `ParserSpellings.FlagInCluster` | dnf5/libdnf5-cli/argument_parser.cpp:585-633 | a flag inside a cluster means what it means alone, and leaves the word to the next letter |
| `ParserSpellings.PositionalTakes` | dnf5/libdnf5-cli/argument_parser.cpp:352-410 | when exactly a positional argument is taken, how many words it takes, which values it stores and what stays as it was |
| `AliasEquivalence.LoopsAgree` | dnf5/libdnf5-cli/argument_parser.cpp:1311-1394 | the loop of a plain alias and the loop of its command run alike from every position and state |
| `AliasEquivalence.AliasMatchesCommand` | dnf5/libdnf5-cli/argument_parser.cpp:1271-1413 | once selected, a plain alias gives on every argv the values, counts, hook calls and outcome of its command; only the two commands' own counters differ |
| `AliasLines.LinesAgree` | dnf5/libdnf5-cli/argument_parser.cpp:1072-1413 | two whole command lines that differ in one word, naming a plain alias or its command (ids that do not start with a dash) where the parser offers both, after any options and subcommands, give the same values, counts, hook calls and outcome; the two commands may only swap their own counts and being selected, and hooks see the word that was given |
| `AliasLines.FirstWordsAgree` | dnf5/libdnf5-cli/argument_parser.cpp:1527-1533 | the same for every line whose first word is the alias or the command, whatever follows |
| `AliasLines.LoopNear` | dnf5/libdnf5-cli/argument_parser.cpp:1087-1182 | what a command does from a word on does not depend on the words before it, on the uses recorded or on which command is selected |
| `ParserFrames.LongFrame` | dnf5/libdnf5-cli/argument_parser.cpp:533-583 | through all attached arguments, parsing an option depends on counts and values only, and appends the same hook calls whatever was called before |
| `AliasLoader.AttachNamedArgs` | dnf5/dnf5/cmdline_aliases.cpp:127-180 | attaches the elements up to the first one without a path or with a path that does not resolve, and says whether that was all |
| `AliasLoader.LoadElementKeeps` | dnf5/dnf5/cmdline_aliases.cpp:228-785 | each element only adds to the parser, keeps attachments resolved and pointing backwards, and keeps conflicts symmetric |
| `AliasLoader.LoadAll` | dnf5/dnf5/cmdline_aliases.cpp:228-795 | the same for every sequence of elements |
| `AliasLoader.LoadOne` | dnf5/dnf5/cmdline_aliases.cpp:243-785 | one pass of the loop body changes the parser as `LoadElement` says, including skipped elements and exceptions; the `LoaderMeaning` rows say what that is for each kind of element |
| `LoaderMeaning.PathsLead` | dnf5/libdnf5-cli/argument_parser.cpp:1555-1571 | an id path leads from the root through subcommands, one id at a time |
| `LoaderMeaning.AttachExactly` | dnf5/dnf5/cmdline_aliases.cpp:127-180 | the attachments are those of the elements up to the first that does not resolve, with their paths and values, a missing value read as empty |
| `LoaderMeaning.GroupElementLoads` | dnf5/dnf5/cmdline_aliases.cpp:363-407 | a group element creates its group exactly when it has a header and the parent has no group of that id |
| `LoaderMeaning.CloneElementLoads` | dnf5/dnf5/cmdline_aliases.cpp:410-513 | a clone element is registered exactly when its id is free, its source resolves and its group does not refuse it; the copy has the value, option, hook and conflicts of its source, its own names and no attachments |
| `LoaderMeaning.CopyConflictsLikeSource` | dnf5/libdnf5-cli/argument_parser.cpp:485-525 | whatever the source of a copy conflicts with, the copy conflicts with, both ways |
| `LoaderMeaning.NamedElementLoads` | dnf5/dnf5/cmdline_aliases.cpp:516-629 | a named-argument element is registered exactly when its id is free, it has a name, all attachments resolve and its group does not refuse it; the argument has the element's names, value, constant and attachments |
| `LoaderMeaning.CommandElementLoads` | dnf5/dnf5/cmdline_aliases.cpp:633-784 | a command element is registered exactly when its id is free, the command it names exists, its required values are complete, all attachments resolve and its group does not refuse it; the alias has the named command as its target, the element's required values and attachments, and its parent finds it |
| `LoaderMeaning.LoadAllThen` | dnf5/dnf5/cmdline_aliases.cpp:228-797 | elements are loaded in order, and one that throws is the last |
| `AliasLoader.Load` | dnf5/dnf5/cmdline_aliases.cpp:228-795 | the loop over the elements ends in the specified parser, with the invariant |
| `AliasLoader.AttachmentsAreFixed` | dnf5/dnf5/cmdline_aliases.cpp:599-629 | after any elements each attachment names an argument created before its owner, and no later elements change which one |
| `AliasLoader.AliasAttachmentsAreFixed` | dnf5/dnf5/cmdline_aliases.cpp:761-784 | the attachments of command aliases resolve too, and no later elements change to what |
| `AliasLoader.NoFiringCycle` | dnf5/libdnf5-cli/argument_parser.cpp:570-580 | a chain of arguments firing each other never returns to its start and is no longer than the number of older arguments |
| `AliasLoader.LoadedParserIsSafe` | dnf5/dnf5/cmdline_aliases.cpp:182-820 | whatever alias elements were loaded and whatever words follow: parsing ends, conflicts stay apart, no attachment dangles, success uses every word |
| `AliasLoader.PlacedCommandIsFound` | dnf5/dnf5/cmdline_aliases.cpp:761-784 | a registered command alias is what its parent finds under its id |
| `AliasLoader.RegisteredIsFound` | dnf5/dnf5/cmdline_aliases.cpp:243-267 | a registered named argument is found under its own path, with the names the element gave it |
| `AliasLoader.FoundUnderOwnPath` | dnf5/dnf5/cmdline_aliases.cpp:243-267 | it is found there if and only if the path's only dot does not come first |
| `AliasLoader.FoundWithoutLeadingDot` | dnf5/dnf5/cmdline_aliases.cpp:243-267 | an argument with such a path is found under the path without the dot |
| `AliasLoader.DottedIsLost` | dnf5/dnf5/cmdline_aliases.cpp:243-267 | the element `.x` loaded into a parser with only a root is registered there, lost under `.x` and found under `x` |
| `HashTable.CreatedValid` | dummy_arg/Xext/hashtable.c:37-71 | a new table is empty and meets the invariant |
| `HashTable.DoubledKeeps` | dummy_arg/Xext/hashtable.c:91-123 | doubling keeps the multiset of entries and puts each into the bucket its hash names |
| `HashTable.AddKeeps` | dummy_arg/Xext/hashtable.c:125-169 | the invariant (element count, 6 to 11 bucket bits, load at most 4 below the largest size) holds; success adds exactly the entry, failure leaves the same table |
| `HashTable.AddExactly` | dummy_arg/Xext/hashtable.c:125-169 | an add succeeds exactly when the element, the key, the data if any and the larger table if needed can be allocated; the entry has the addresses that were given |
| `HashTable.AddedIsFound` | dummy_arg/Xext/hashtable.c:125-204 | an absent key is found under every equal key after it was added, through any doubling, with the entry the add answered |
| `HashTable.StaysFound` | dummy_arg/Xext/hashtable.c:91-204 | it still is after any run of operations that does not remove the key |
| `HashTable.RemoveKeeps` | dummy_arg/Xext/hashtable.c:171-188 | takes out exactly the entry that find would have answered with, or nothing |
| `HashTable.FindExact` | dummy_arg/Xext/hashtable.c:190-204 | answers with an entry of equal key, and with none only when the table has none |
| `HashTable.Run` | dummy_arg/Xext/hashtable.c:91-204 | every run of operations keeps the invariant |
| `HashTable.RunRefinesMap` | dummy_arg/Xext/hashtable.c:91-204 | every run, through doublings and failing allocations, is a run of a finite map, when added keys are absent |
| `HashTableMachine.HashTableRec.DoubleSize` | dummy_arg/Xext/hashtable.c:91-123 | relinks the chains into a new array as specified, or fails without a trace |
| `HashTableMachine.HashTableRec.AddKey` | dummy_arg/Xext/hashtable.c:125-169 | a success answers with the address of the data, or of the end of the key copy when there is no data; the table is as specified and a failed doubling is undone |
| `HashTableMachine.HashTableRec.RemoveKey` | dummy_arg/Xext/hashtable.c:171-188 | the table is as specified and valid |
| `HashTableMachine.HashTableRec.FindKey` | dummy_arg/Xext/hashtable.c:190-204 | answers with the address of the found entry's data, or of the end of its key copy; null exactly when there is no entry of that key |
| `HashTableMachine.OneAtATimeLoop` | dummy_arg/Xext/hashtable.c:224-239 | the 32-bit accumulator loop folds the mixing step over the bytes, for signed and unsigned chars |
| `HashTableMachine.MixExactly` | dummy_arg/Xext/hashtable.c:231-233 | one mixing step bit by bit: bit k of the result is the difference of bits k and k + 6 of 1025 times the sum, in 32 bits |
| `HashTableMachine.FinalExactly` | dummy_arg/Xext/hashtable.c:235-237 | the same for the last three steps |
| `HashTableMachine.GenericSameExactly` | dummy_arg/Xext/hashtable.c:248-253 | keys are the same exactly when their first keySize bytes are |
| `HashTableMachine.GenericKeysLawful` | dummy_arg/Xext/hashtable.c:241-253 | for the generic pair, equal keys hash equally and an n-bit hash is below 2^n |
| `HashTableMachine.DoublingSplitsBucket` | dummy_arg/Xext/hashtable.c:91-123 | with the generic hash, for any table with its entries in place, the entries of bucket c are exactly those of buckets c and c + 2^bits afterwards, and are in no other bucket |
| `HashTableMachine.AddSplitsBuckets` | dummy_arg/Xext/hashtable.c:143-155 | the same at the doubling an add makes, with the new entry among those that move |
| `Xinerama.CopyBox` | dummy_arg/Xext/panoramiX.c:1212-1223 | the row copies move exactly the box's pixels to their place and change no other pixel |
| `Xinerama.GrabRegion` | dummy_arg/Xext/panoramiX.c:1136-1225 | the points of the region show the logical picture, all others are as before |
| `Xinerama.GetImageDataScr` | dummy_arg/Xext/panoramiX.c:1094-1232 | one screen's turn: exactly the points it covers are removed from the region and show the picture; an early end means nothing is left |
| `Xinerama.GetImageData` | dummy_arg/Xext/panoramiX.c:1234-1283 | after the backward sweep over any screens, each covered pixel of the box is the logical pixel, uncovered pixels are untouched, and so is every byte of other rows, padding included |
| `Xinerama.ReadZPixmap` | dummy_arg/Xext/panoramiXprocs.c:2069-2113 | reading in chunks of rows gives the same as reading the logical picture at once, in a buffer of exactly the announced length |
| `Xinerama.LinesFill` | dummy_arg/Xext/panoramiXprocs.c:2081-2089 | a chunk of more than one row fits the buffer, and one row more would not |
| `ImagePlanes.PlaneCountExact` | dummy_arg/Xext/panoramiXprocs.c:2074-2079 | the bit count used for the length is the number of planes the shifting loop visits |
| `ImagePlanes.PlanesDescend` | dummy_arg/Xext/panoramiXprocs.c:2116-2134 | the planes visited are each visited once, highest first |
| `ImagePlanes.ReadRows` | dummy_arg/Xext/panoramiXprocs.c:2119-2131 | the chunks cover the rows in order without gap or overlap, none is larger than the buffer, and their bytes add up |
| `ImagePlanes.ReadPlanes` | dummy_arg/Xext/panoramiXprocs.c:2116-2134 | the shifting loop reads each requested plane once, highest first |
| `ImagePlanes.ReadXYPixmap` | dummy_arg/Xext/panoramiXprocs.c:2069-2134 | the bytes produced are exactly the length computed beforehand |
| `ImagePlanes.ShmGetPlanes` | dummy_arg/Xext/shm.c:635-680 | each requested plane's image, highest plane first, is written behind the one before it; together they fill exactly the announced size and stay inside the segment, or the request is refused |
| `Authorization.ComputeTimeout` | dummy_arg/Xext/security.c:272-289 | the delay fits in 32 bits, is positive, and with the remaining seconds makes up the timeout |
| `Authorization.DelaysAddUp` | dummy_arg/Xext/security.c:272-324 | the delays of a chain of firings add up to the timeout, in ceil(timeout / 4294967) firings |
| `Authorization.WaitsFullyUpTo` | dummy_arg/os/WaitFor.c:293-343 | with the timer's signed test for delays that are over, the chain really waits the whole timeout if and only if it is at most 2147483 seconds |
| `Authorization.GenerateWaits` | dummy_arg/Xext/security.c:543-546 | an authorization generated with at most 2147483 seconds is armed with its whole timeout in one delay |
| `Authorization.TooLongAborts` | dummy_arg/Xext/security.c:310-315 | generating an authorization with a timeout of 2147484 seconds fails the assertion on its timer |
| `Authorization.StepKeeps` | dummy_arg/Xext/security.c:893-943 | every event keeps each reference count equal to the number of live clients, timers armed only at count 0 and stored before they expire, and every unused authorization with a timeout armed for the whole of it; the server aborts if and only if an authorization is generated with more than 2147483 seconds |
| `Authorization.RunKeeps` | dummy_arg/Xext/security.c:310-347 | after any run of events a timer that may expire belongs to an authorization no live client uses, and the server was aborted if and only if too long a timeout was asked for |
| `Authorization.ExpiryHurtsNobody` | dummy_arg/Xext/security.c:310-324 | an expiry leaves every live client as it was |
| `Authorization.UnusedIsWaiting` | dummy_arg/Xext/security.c:310-347 | after any run an authorization with a timeout and no live client is armed with its whole timeout, and its expiry frees it |
| `Authorization.RunExactly` | dummy_arg/Xext/security.c:911-925 | a client that runs is live exactly on a generated authorization, whose first user stops the timer |
| `Authorization.LetsGoExactly` | dummy_arg/Xext/security.c:927-939 | the last live client that lets go arms the timer for the whole timeout; other clients and authorizations stay as they were |
| `Authorization.DeleteExactly` | dummy_arg/Xext/security.c:183-234 | exactly the authorization and its clients go; those that asked for it stay, retained |
| `Authorization.RevokeFrees` | dummy_arg/Xext/security.c:580-597 | revoking and expiring free an authorization alike |
| `Authorization.RetainThenLeave` | dummy_arg/Xext/security.c:927-939 | a client that is retained and then gone is counted down once |
| `Authorization.SecurityState.ComputeAuthorizationTimeout` | dummy_arg/Xext/security.c:272-289 | the delay and the stored remaining seconds are as specified, nothing else changes |
| `Authorization.SecurityState.StartAuthorizationTimer` | dummy_arg/Xext/security.c:340-347 | the authorization ends up pending or idle, or the assertion fails when a first timer fires at once, as specified |
| `Authorization.SecurityState.DeleteAuthorization` | dummy_arg/Xext/security.c:183-234 | the authorization is gone and exactly its clients are closed down, or retained by their close-down mode |
| `Authorization.SecurityState.ClientStateRunning` | dummy_arg/Xext/security.c:911-925 | the client becomes live on a generated authorization, whose timer is cancelled by the first user |
| `Authorization.SecurityState.ClientStateGone` | dummy_arg/Xext/security.c:927-939 | a live client is counted down once, and the last one starts the timer |
| `Authorization.SecurityState.AuthorizationExpired` | dummy_arg/Xext/security.c:310-324 | expiry waits on or frees the authorization as specified; from every reachable state it touches no live client and fails no assertion |
| `ShmSegments.AttachKeeps` | dummy_arg/Xext/shm.c:329-389 | sharing or creating a descriptor keeps counts, list and one SysV entry per shmid; a failure changes nothing |
| `ShmSegments.AttachFdKeeps` | dummy_arg/Xext/shm.c:1144-1200 | the same for a segment given by a file descriptor |
| `ShmSegments.DropKeeps` | dummy_arg/Xext/shm.c:391-416 | dropping a reference keeps the invariant and unlinks the descriptor with the last one |
| `ShmSegments.CreatePixmapKeeps` | dummy_arg/Xext/shm.c:1054-1127 | a pixmap is a holder and lies inside its segment; a failure at any check or allocation changes nothing |
| `ShmSegments.AttachShares` | dummy_arg/Xext/shm.c:329-389 | the status of an attach to a known segment in each case, and that success adds one holder to it and nothing else |
| `ShmSegments.AttachCreates` | dummy_arg/Xext/shm.c:329-389 | the status of an attach to an unknown segment in each case, and that success puts one new descriptor at the head of the list |
| `ShmSegments.AttachFdCreates` | dummy_arg/Xext/shm.c:1144-1200 | the same for a segment given by a file descriptor, which is never shared |
| `ShmSegments.DetachExactly` | dummy_arg/Xext/shm.c:418-431 | a detach succeeds exactly for an attached segment; the last holder takes the descriptor out of the list, and only it |
| `ShmSegments.CreatePixmapExactly` | dummy_arg/Xext/shm.c:1054-1127 | a pixmap is made exactly when it lies, aligned, in a writable segment and everything it needs is granted; which check gives which error |
| `ShmSegments.DestroyPixmapExactly` | dummy_arg/Xext/shm.c:1379-1385 | a pixmap's reference goes with it, and the descriptor with the last one |
| `ShmSegments.HandleKeeps` | dummy_arg/Xext/shm.c:329-431 | every request keeps: count equals resources plus pixmaps, the list holds exactly the counted segments once each |
| `ShmSegments.Serve` | dummy_arg/Xext/shm.c:329-431 | the same for every sequence of requests |
| `ShmSegments.ShmServer.DetachSegment` | dummy_arg/Xext/shm.c:391-416 | the reference is dropped as specified and the invariant holds again |
| `ShmSegments.ShmServer.UnlinkFromList` | dummy_arg/Xext/shm.c:412-413 | the unlink loop finds its target, stops, and removes only it |
| `ShmSegments.ShmServer.ProcAttach` | dummy_arg/Xext/shm.c:329-389 | list, counts, resources and status are as specified |
| `ShmSegments.ShmServer.ProcDetach` | dummy_arg/Xext/shm.c:418-431 | the resource is released and its reference dropped |
| `ShmSegments.ShmServer.ProcCreatePixmap` | dummy_arg/Xext/shm.c:1054-1127 | pixmaps, counts and status are as specified |
| `ShmSegments.ShmServer.PixmapDestroy` | dummy_arg/Xext/shm.c:1379-1385 | the pixmap's reference is dropped |
| `WindowShape.OperateAgrees` | dummy_arg/Xext/shape.c:122-199 | each operation with its shortcut for a missing region gives the effective region of the plain operation |
| `WindowShape.ShapesAgree` | dummy_arg/Xext/shape.c:122-224 | after every sequence of requests the optional region and an always stored region have the same effective region |
| `WindowShape.TranslateExactly` | dummy_arg/Xext/shape.c:122-131 | a point is in the moved source exactly when the point moved back is in the source |
| `WindowShape.DefaultExactly` | dummy_arg/Xext/shape.c:202-224 | the default region is the window's inside, with the border but for clipping |
| `WindowShape.PlainExactly` | dummy_arg/Xext/shape.c:122-199 | set, union, intersect, subtract and invert point by point |
| `WindowShape.RepliesExactly` | dummy_arg/Xext/shape.c:122-199 | exactly an unknown operation with a source is refused, and exactly a change is announced |
| `WindowShape.ResizingTellsApart` | dummy_arg/Xext/shape.c:168-171 | the fixed size is needed: a resize in between can tell the two forms apart |
| `WindowShape.ShapedWindow.RegionOperate` | dummy_arg/Xext/shape.c:122-199 | overwrites the region pointer and answers as specified, for unknown operations and removals too |
| `SaverSuspend.SaverServer.Suspend` | dummy_arg/Xext/saver.c:1178-1240 | the list stands for a map from clients to positive counts, updated by the request; the saver is suspended exactly while the map is not empty; failure changes nothing |
| `SaverSuspend.SaverServer.FreeSuspend` | dummy_arg/Xext/saver.c:338-374 | the client leaves the map, and the last one resumes the screen saver |
| `SaverSuspend.SaverServer.Disconnect` | dummy_arg/Xext/saver.c:338-374 | a disconnecting client's whole count goes, no other client's changes |
| `SaverSuspend.ClientsAreIndependent` | dummy_arg/Xext/saver.c:1194-1210 | over every run, with requests refused for lack of memory or resource, each client's count is what its own requests add up to since it last disconnected, never below zero |
| `SaverSuspend.SaverServer.Serve` | dummy_arg/Xext/saver.c:1178-1240 | a server that serves any sequence of events ends with the map those events lead to, and is suspended exactly while it is not empty |
| `ThreadsManager.SweepFacts` | dnf5/dnf5daemon-server/threads_manager.cpp:54-71 | a sweep loses and duplicates no thread, takes exactly the marked threads or all of them, and erases the marks of no other thread |
| `ThreadsManager.Manager.TakeThreads` | dnf5/dnf5daemon-server/threads_manager.cpp:57-71 | erasing from both lists while iterating takes and leaves exactly what the sweep says |
| `ThreadsManager.StepKeeps` | dnf5/dnf5daemon-server/threads_manager.cpp:30-87 | every step keeps each registered thread in exactly one of running, being joined or joined |
| `ThreadsManager.EveryInterleaving` | dnf5/dnf5daemon-server/threads_manager.cpp:30-87 | in every interleaving each registered thread is in exactly one place, the collector joins only marked threads, every joined thread has exited, and when finish() has returned a thread is joined if and only if it was registered before the sweep of finish(), or registered and marked, in either order, before a sweep of the collector |
| `ThreadsManager.LateThreadIsLeft` | dnf5/dnf5daemon-server/threads_manager.hpp:54-112 | an interleaving in which a thread spawned before the sweep and registered after it is not joined when finish() returns |
| `ThreadsManager.FinishProgresses` | dnf5/dnf5daemon-server/threads_manager.cpp:79-87 | once the workers have exited, finish() or the collector can always take a step until finish() returns |
| `ThreadsManager.FinishReturns` | dnf5/dnf5daemon-server/threads_manager.cpp:79-87 | after the call of finish() each step of finish() or the collector does one unit of a bounded amount of work, to which only registrations add, so finish() returns when the workers do |
| `KeyConfirmation.Session.ConfirmKey` | dnf5/dnf5daemon-server/session.cpp:197-208 | only a pending status changes |
| `KeyConfirmation.Session.BeginWait` | dnf5/dnf5daemon-server/session.cpp:210-217 | a signal is sent exactly for a key without a status |
| `KeyConfirmation.StepKeeps` | dnf5/dnf5daemon-server/session.cpp:197-231 | each status says what the history of requests and replies says; an answered status never changes; unrequested replies have no effect |
| `KeyConfirmation.WaiterMoves` | dnf5/dnf5daemon-server/session.cpp:210-231 | a waiter wakes only with an answered status and takes its answer, times out only with a pending one, and no other waiter moves |
| `KeyConfirmation.EveryInterleaving` | dnf5/dnf5daemon-server/session.cpp:197-231 | in every interleaving a key is signalled at most once, every key waited for is signalled, and all waiters that return agree with the first reply after the request |

## Left out

- Completion mode and help output of the parser: output only, and positional arguments are counted differently there.
- `set_conflict_arguments` with one vector shared between arguments; every argument has its own conflict list here.
- Conflicts of commands in the invariant: the code counts commands without a conflict check, so the invariant speaks about named and positional arguments.
- Setting an option or calling a hook is taken to succeed; the source lets both throw.
- Decoding of alias files (types, unknown attributes, versions, locales): elements come already decoded.
- `reset_parse_count`, `register_positional_arg` and the lookups that search parent commands: easy members.
- Resource identifiers as hash keys, `ht_destroy` and the dump functions; allocation failure of `ht_create`.
- The chains of the hash table, the segment list, the suspension list and the thread lists are sequences; pointers between list nodes are not modelled.
- The 1-bit path of image assembly and `CopyBits`, formats of 2 and 4 bits per pixel, 16-bit coordinates, failure of the scratch allocation.
- Padding bytes inside the rows of an image: a driver may write them.
- Xinerama.RegionRects: stands for the region code of the server by its contract; so does Xinerama.GetImage for a screen driver.
- The arithmetic that turns drawable coordinates into logical ones, and the bounds checks before it; positions are logical here.
- Builds without assertions, in which a timer that fires at once frees the authorization and the caller stores into the freed memory; with assertions no run gets there (Authorization.RunKeeps).
- Allocation failure in `TimerSet`, event clients of authorizations, trust levels and the access checks; authorization ids are never reused.
- `ShmPutImage`, the checks of `ShmCreatePixmap` on drawable, depth, width and height (a pixmap has a number of bytes here), mapping and unmapping of memory, file descriptors, clean-up of pixmaps on several screens.
- Saver windows and attributes, DPMS, overflow of a suspension count at 2^31.
- Reuse of thread ids by the system, locales of worker threads, failure of the request signal, D-Bus itself.
- Session manager, login manager, libdnf5 itself and the other extensions of the directory: foreign calls or single branches.
