# OpenHoard, verified

A Dafny model of the stateful, hand-written algorithms of OpenHoard's server and of its model
calls, with proofs of what they keep. `dafny verify dfyconfig.toml` checks all of it.

What changes things step by step is modelled twice: as a class or a method with the source's own
loop, branches and fields, and as a function on values; the method's contract says that the two
are the same. What a component promises is then proved of the function: of every input, or of
every run, a run being any sequence of events (an event that cannot happen in a state changes
nothing, so that no run is left out). The operating system, the network, the mail server, the
database and the clock are events or parameters, of which nothing is assumed but what the member
says.

| component | modules |
|---|---|
| the folder watcher: debouncer, supervisor, folder trees sharing a watch budget | `Debouncer`, `Supervisor`, `FolderTree`, `FolderTreeRuns`, `FolderTreeFails`, `FolderTreeWhole`, `FolderTreeStart`, `FolderTreeMoves` |
| the key files | `TenantKeys`, `TenantKeyCalls` |
| waiting for the tunnel | `TunnelUp`, `TunnelAddress` |
| mail: who sent it, its HTML, its files, a mailbox's run | `AuthResults`, `SenderCheck`, `SenderWords`, `HtmlText`, `HtmlDocument`, `HtmlNames`, `HtmlBlanks`, `HtmlShape`, `FilesOf`, `FilesExact`, `MailboxRun`, `MailboxReport` |
| the cost guard and the jobs that spend | `TokenLedger`, `LedgerRuns`, `LedgerExact`, `LedgerJobs`, `LedgerWorks`, `SummarizeRun`, `QueryRun`, `ModelErrors` |
| model calls: concurrency, retries, an embedding answer | `Limiter`, `PostJson`, `PostJsonEnds`, `EmbedAnswer` |
| windows of a text and the embed step | `ChunkText`, `EvenSpread`, `EmbedStep`, `EmbedRuns` |

## What was found

Where the code and what is said of it differ, the code is modelled, and the difference is a lemma:

- `watchSources`: a factory that reports a failure before it returns is not heard, and the source is
  then neither watched nor tried again. The folder-tree factory does so exactly when the watch
  budget is used up as it is called, first, again or for a replaced folder, and only a folder that is
  gone or another one frees the source (`Supervisor.StrandedExactly`, `FreedExactly`,
  `StrandedForGood`, `StrandedExample`).
- `chunkText`: windows are said to overlap, but one cut at a space can end before the next begins.
  Nothing is lost if and only if `maxChunks` is 1 or `overlapChars` is at least the window's last
  fifth less one character; the defaults (1,200 and 200) do lose some, at most 42 UTF-16 units
  between two windows (`ChunkText.LosslessExactly`, `DefaultsLose`, `GapBound`, `GapIsReached`).
- The daily token limit is not an upper bound on what a day's row shows: a summary may settle with
  twice its reservation and a query with four times its own. A row stays within it, whatever its jobs
  go on to do, if and only if the most they may hold together does (`LedgerRuns.LimitHoldsExactly`;
  `LimitIsExceeded` is an instance).
- The embed step's comment on a model whose vectors changed in size (`ai/enrich/src/embed.ts:234`)
  says it starts over with every text; the code skips the version. It does so exactly when a vector of
  another size than the new ones is kept for a text still wanted, and no later run on the same texts
  saves while one is (`EmbedStep.OneSizeExactly`, `StuckWhileKept`, `SizeChangeExample`).
- Vectors of 16,001 to 16,384 numbers are accepted from a provider and refused when they are saved,
  so each attempt fails (`EmbedStep.LongVectorsFail`, `LongNeverSaved`, `SavableExactly`).
- A quick tunnel's address is found however the output is cut if and only if one of them, blanks
  included, is no longer than what is kept between two chunks and one character
  (`TunnelUp.FoundExactly`, `FirstExactly`; `LongAddressIsMissed` is an instance).
- A message that keeps failing is given up on so that it does not hold up those after it
  (`apps/server/src/mail-in.ts:567-569`). One that the mail server lists but gives no size or source of is
  passed over and not counted as failing: in runs that complete, a message behind the first fifty gets
  nowhere exactly while all fifty are such, and fewer hold up none. And one whose size, fetch, refusal or mark
  fails ends each run, is not counted as failing either, and holds up all behind it
  (`MailboxRun.HeldUpExactly`, `ListedButGone`, `FewHoldUpNone`, `HeldUpByOne`, `HeldUpForGood`;
  `RunLessens` says exactly which runs do bring a message nearer, `NoneHeldUp` how many such there can be).
- A folder tree is said to fail as a whole when anything but a refusal goes wrong, rather than being watched
  in part (`apps/server/src/watch.ts:374-376`). So it does (`FolderTreeFails.FailsAsAWhole`) but for a watch that
  fails later, below the root: only that folder and what is below it are dropped, and just those may be missing
  from an open tree (`FolderTreeStart.NeverInPart`). While files
  change, an event of every change is not enough (`FolderTreeMoves.MovedBack`: a folder moved away and back);
  an event or a walk still to come for each thing the tree is wrong about is (`FolderTreeWhole.Settles`).

## Model

| member | source | states |
|---|---|---|
| `Debouncer.Timers.Poke` | apps/server/src/watch.ts:166-175 | a poke rearms the quiet timer, arms the longer one only if it is not armed, and does nothing once closed |
| `Debouncer.Timers.OnDue` | apps/server/src/watch.ts:143-145 | a timer that comes due disarms both and begins a call, or notes that one is owed while another runs |
| `Debouncer.Timers.OnSettled` | apps/server/src/watch.ts:156-164 | a call that settles begins the one that is owed, at once |
| `Debouncer.Timers.Close` | apps/server/src/watch.ts:176-180 | closing disarms the timers and forgets what is owed |
| `Debouncer.EveryRun` | apps/server/src/watch.ts:126-183 | in every run no poke is lost: while one is not covered both timers are armed for it or a call is owed; a call begins at the sooner of `maxWaitMs` after its first poke and `debounceMs` after its last, or just as the one before it settles; calls never overlap and cover the pokes in order |
| `Debouncer.CallsOfEveryRun` | apps/server/src/watch.ts:126-183 | from the start: any two calls are apart in time and in the pokes they cover, each poke is covered by a call or waited for, and each call begins within `maxWaitMs` of the first poke it covers or just as the one before it settles |
| `Debouncer.NoneAfterClose` | apps/server/src/watch.ts:176-180 | once closed no call begins and no poke counts, whatever follows |
| `Debouncer.PokesExactly` | apps/server/src/watch.ts:166-180 | the pokes that count are those of a run not closed yet, and closing is what closes it |
| `Debouncer.PokeIsServed` | apps/server/src/watch.ts:149-175 | in every reachable open state with a poke not covered, either a call is owed and the running one settling begins it, or both timers are armed and the sooner coming due begins a call just then, or has it owed; the call covers every poke so far |
| `FolderTree.TreeWatch.Unwatch` | apps/server/src/watch.ts:390-396 | a watched folder's watch is closed and forgotten and `used` falls by one; an unwatched one changes nothing |
| `FolderTree.TreeWatch.UnwatchAll` | apps/server/src/watch.ts:397-400 | unwatching each of a set of folders, in any order, is dropping the whole set at once |
| `FolderTree.TreeWatch.Close` | apps/server/src/watch.ts:397-400 | closing drops every watch of the tree and no other tree's |
| `FolderTree.TreeWatch.Fail` | apps/server/src/watch.ts:401-405 | a tree that fails closes and reports, once; a closed one does nothing |
| `FolderTree.TreeWatch.DropTree` | apps/server/src/watch.ts:408-413 | the folder's and its subfolders' watches go, never the root's |
| `FolderTree.TreeWatch.AddWatch` | apps/server/src/watch.ts:414-440 | a folder is watched unless the tree is closed, the budget is used up (the tree fails) or the system refuses it |
| `FolderTree.TreeWatch.Consider` | apps/server/src/watch.ts:447-468 | what a path that changed leads to: dropped, left, watched afresh or watched and to be walked |
| `FolderTree.DropTwice` | apps/server/src/watch.ts:397-413 | dropping two disjoint sets of watches one after the other is dropping both: the order of the loops over the watchers does not matter |
| `FolderTreeRuns.ConsideredKeeps` | apps/server/src/watch.ts:447-468 | an `lstat` that returns late, into a tree changed meanwhile, keeps the pool's books |
| `FolderTreeRuns.NextKeeps` | apps/server/src/watch.ts:378-488 | each step of any walk, event, watch error, start or close keeps them |
| `FolderTreeRuns.EveryRun` | apps/server/src/watch.ts:378-488 | in every interleaving over any number of trees: `used` is the number of open watches and within the budget, one watch per folder and tree, none 256 or more levels deep, a closed tree holds none, an open one holds its root, a tree fails at most once |
| `FolderTreeRuns.WatchesOfEveryRun` | apps/server/src/watch.ts:378-488 | the same, of the watches the operating system holds open |
| `FolderTreeRuns.ClosedForGood` | apps/server/src/watch.ts:397-456 | a tree closed or failed never changes or watches again, with walks and `lstat` calls still under way |
| `FolderTreeFails.FailsExactly` | apps/server/src/watch.ts:397-488 | exactly which steps fail an open tree: its root's watch fails, a folder to watch is past the budget or is refused for any reason but that it went or may not be read, or a walk came to such an error; the tree is then closed, none of its watches is open, and one error more is reported. No other step reports one, and only closing it closes it |
| `FolderTreeFails.FailsAsAWhole` | apps/server/src/watch.ts:374-488 | over every run, whatever the system answers: a tree has reported an error, once and closed, if and only if some step failed it; and one whose walks came to another error than a folder that went or may not be read is closed once no walk is left |
| `FolderTreeWhole.EveryRunWhole` | apps/server/src/watch.ts:432-488 | while the files stay as they are, through every interleaving with events, failing watches and other trees: each folder that a watched folder lists and that should be watched is, or lies ahead of a walk, or is due an event, or its folder is to be dropped first, or it is below one whose watch failed; and what is watched and is not what it was is to be dropped |
| `FolderTreeWhole.LookedAt` | apps/server/src/watch.ts:447-468 | the step that keeps it: a path looked at is dropped with all below it if it was another, and watched afresh and walked if it can be |
| `FolderTreeWhole.Settles` | apps/server/src/watch.ts:374-488 | files that changed and then stay as they are: if for all that a tree is wrong about then an event or a walk is still to come, then once they have come an open tree with no walk left watches every folder that can be found from its root (listed, no link, on its device, less than 256 levels deep, not refused), but for those at or below one whose watch failed since, and each thing it watches is the folder it took it for |
| `FolderTreeStart.NeverInPart` | apps/server/src/watch.ts:374-488 | from the start, the files staying as they are: an open tree with no walk left watches every folder that can be found from its root, but for those at or below one whose watch failed, and nothing that is not there; with none failed, and where folders list all they hold, exactly those |
| `FolderTreeMoves.MovedBack` | apps/server/src/watch.ts:457-467 | in any state of an open tree: a watched folder moved away and back, with an event of a folder in it looked at in between, leaves that folder there and unwatched, though the events of all changes have come |
| `Supervisor.Source.Arm` | apps/server/src/watch.ts:290-321 | arming keeps the new handle, or schedules a retry when the factory throws; what the factory reports before it returns is not acted on |
| `Supervisor.Source.OnError` | apps/server/src/watch.ts:297-299 | only the current handle's report closes it and schedules a retry |
| `Supervisor.Source.OnReady` | apps/server/src/watch.ts:310-320 | only the current handle's readiness counts, and it pokes only when armed again |
| `Supervisor.Source.OnStat` | apps/server/src/watch.ts:247-265 | after the folder's identity was read: nothing if the handle is not current any more, else failed, replaced or a sync |
| `Supervisor.Source.Close` | apps/server/src/watch.ts:323-330 | closing closes the handle and cancels the retry |
| `Supervisor.EveryRun` | apps/server/src/watch.ts:232-331 | in every run an open supervisor has exactly one of a current handle and a pending retry, each handle is closed before the next is opened, and each sync came from a handle whose folder's identity still matched |
| `Supervisor.HandlesOfEveryRun` | apps/server/src/watch.ts:232-331 | from the start: a current handle or a pending retry but not both, neither once closed, handles opened and closed one by one; a step asks for a sync only for the current handle of an open supervisor whose folder's identity is unchanged |
| `Supervisor.SyncsExactly` | apps/server/src/watch.ts:236-265 | in every run a step asks for a sync if and only if it is a `stat` of the current handle of an open supervisor that finds the folder the handle was made for; it is a sync of that folder |
| `Supervisor.PokesExactly` | apps/server/src/watch.ts:266-321 | and pokes the debouncer, once, if and only if a handle is current and it is a change, or that handle's readiness unless the first call of the factory made it |
| `Supervisor.HandlesExactly` | apps/server/src/watch.ts:236-330 | exactly which steps of a run close the current handle (its report, a `stat` that does not find its folder, closing) and which make one (a retry, a replaced folder); an open supervisor with no handle is to be tried again |
| `Supervisor.FireLeadsOn` | apps/server/src/watch.ts:236-321 | once the debouncer fires, whatever comes before its `stat` returns: with the handle still current the folder is synced if it is the same, and else its handle closed and a new one made, at once or by the retry, whose readiness pokes again |
| `Supervisor.StaleChangesNothing` | apps/server/src/watch.ts:297-311 | a handle that is not current any more changes nothing by failing or becoming ready |
| `Supervisor.NothingAfterClose` | apps/server/src/watch.ts:323-330 | once closed: no handle, retry, poke or sync, whatever happens |
| `Supervisor.ServedExactly` | apps/server/src/watch.ts:290-321 | a reachable open supervisor is served (watched by a live handle, or to be tried again) if and only if its current handle did not fail before its factory returned |
| `Supervisor.ServedByLateReporters` | apps/server/src/watch.ts:290-321 | with factories that throw or report only after returning, every source is served in every run |
| `Supervisor.StrandedExactly` | apps/server/src/watch.ts:290-321 | the folder-tree factory reports early exactly when the budget is used up as it is called; then, and only then, the source is not served, whether it was armed first, by a retry or for a replaced folder |
| `Supervisor.FreedExactly` | apps/server/src/watch.ts:241-260 | what frees such a source is exactly a `stat` of its own that finds the folder gone or another one, if the factory does not fail early again |
| `Supervisor.StaysStranded` | apps/server/src/watch.ts:241-320 | from any such state, together with the trees, the same |
| `Supervisor.StrandedForGood` | apps/server/src/watch.ts:241-320 | a source armed with the budget used up is never served again while its folder is the same one and nobody closes it, whatever the trees of all sources do: its own tree reports once at most |
| `Supervisor.StrandedExample` | apps/server/src/watch.ts:290-321 | a concrete case: no watch budget at all leaves the source with a dead handle and no retry |
| `TenantKeys.Store.Get` | apps/server/src/tenant-keys.ts:62-143 | a call returns a cached key, checks what it reads, or goes on to make one: a tenant's only after asking for content, a storage key at once |
| `TenantKeys.Store.OnContent` | apps/server/src/tenant-keys.ts:71-81 | content recorded with a key that is gone ends the call; else a temporary file is made |
| `TenantKeys.Store.Link` | apps/server/src/tenant-keys.ts:82-89 | the link is made only if there is no key file; a link that fails for another reason than that fails the call once the temporary file is gone |
| `TenantKeys.Store.ReadAgain` | apps/server/src/tenant-keys.ts:90-97 | what is returned is what the key file holds, never the process's own key |
| `TenantKeys.StepKeeps` | apps/server/src/tenant-keys.ts:62-99 | no step changes a key file that is there, makes one that is not whole, or touches another's temporary file |
| `TenantKeys.EveryRun` | apps/server/src/tenant-keys.ts:48-160 | with any number of processes interleaved and stopping anywhere, the key file once there never changes, is whole, and every value returned or cached is its |
| `TenantKeys.Agreement` | apps/server/src/tenant-keys.ts:48-160 | any two values ever returned by any processes are the same key, and what a process has cached is what the key file holds |
| `TenantKeyCalls.KeyTextIsBase64Url` | apps/server/src/tenant-keys.ts:28 | a key's text is 43 characters of the base64url alphabet |
| `TenantKeyCalls.CallsExactly` | apps/server/src/tenant-keys.ts:62-160 | in every run: exactly which steps return a value, which is the key file's, and exactly which fail a call (a bad file, none for `open()`, content recorded with a key that is gone, a link that failed) |
| `TenantKeyCalls.KeyIsReturned` | apps/server/src/tenant-keys.ts:62-160 | a process whose steps succeed has just one value returned by its call, the one the key file then holds, and keeps it, whatever other processes do between its steps |
| `TenantKeyCalls.NoneLeft` | apps/server/src/tenant-keys.ts:77-89 | while no process stops, no temporary file is left once all calls have returned or failed |
| `TenantKeys.ContentMakesNoKey` | apps/server/src/tenant-keys.ts:70-76 | with no key file and content there, no run of any processes changes a file or returns a value |
| `TenantKeys.SawContent` | apps/server/src/tenant-keys.ts:70-81 | among any others doing anything, a process that is told of content whenever it asks never touches a file, so makes no key |
| `TenantKeys.NoneMakesExactly` | apps/server/src/tenant-keys.ts:62-99 | in a reachable state without a key file, nothing is cached |
| `TunnelUp.Watch.OnData` | apps/server/src/tunnel.ts:173-185 | a chunk is searched with what was kept before it is cut to the last 4,096 characters |
| `TunnelUp.WindowFinds` | apps/server/src/tunnel.ts:170-181 | what is in all the output was there before the last chunk or is in what was kept and the chunk, for anything no longer than what is kept and one character |
| `TunnelUp.AsTheWholeOutput` | apps/server/src/tunnel.ts:173-185 | however the output is cut into chunks: the phrase is known of exactly when all of it so far holds it; an address known is one of the output; one is known if one is near (no longer, blanks included, than what is kept and one character); and it is the first of the output if that is near |
| `TunnelUp.SettlesOnce` | apps/server/src/tunnel.ts:158-164 | whatever comes later, the first outcome stays |
| `TunnelUp.UpExactly` | apps/server/src/tunnel.ts:178-184 | a chunk settles it exactly when all the output then holds the phrase and, for a quick tunnel, an address is known, which is the one it settles with |
| `TunnelUp.FoundExactly` | apps/server/src/tunnel.ts:169-181 | an output gives an address however it is cut if and only if one of its addresses is near |
| `TunnelUp.FirstExactly` | apps/server/src/tunnel.ts:169-181 | it gives what a search of the whole gives however it is cut if and only if that is near or nothing |
| `TunnelUp.LongAddressIsMissed` | apps/server/src/tunnel.ts:179-181 | any longer address, alone between blanks, is in the output and not found when it comes character by character |
| `TunnelAddress.QuickExactly` | apps/server/src/tunnel.ts:66 | what is taken for an address: between blanks, `https://`, groups of lower-case letters and digits joined by single hyphens other than `api`, and `.trycloudflare.com` |
| `TunnelAddress.QuickOnly` | apps/server/src/tunnel.ts:66 | and nothing else |
| `TunnelAddress.RegisteredExactly` | apps/server/src/tunnel.ts:68 | the phrase waited for is what `cloudflared` logs once a connection is registered |
| `AuthResults.Cut` | apps/server/src/mail-in.ts:167-194 | the character loop gives the parts the scan gives, or nothing when a quote or comment never closes |
| `AuthResults.UndoesPrinter` | apps/server/src/mail-in.ts:161-194 | printing any tokens, with nested comments and escapes, and scanning gives back their meaning |
| `AuthResults.RefusedExactly` | apps/server/src/mail-in.ts:164-192 | a value is refused if and only if no tokens are printed as it |
| `AuthResults.InsidesDoNotCount` | apps/server/src/mail-in.ts:161-166 | values that differ only inside comments and quotes have the same parts |
| `SenderCheck.SenderAuthenticated` | apps/server/src/mail-in.ts:205-228 | the loop over the headers decides as the first header that can't be read or is signed by an own server says |
| `SenderCheck.FirstDecides` | apps/server/src/mail-in.ts:200-218 | headers below the deciding one, and those above it that don't decide, change nothing |
| `SenderCheck.PassesExactly` | apps/server/src/mail-in.ts:198-228 | a message passes if and only if the first deciding header vouches for its sender |
| `SenderCheck.PartsComeBack` | apps/server/src/mail-in.ts:161-194 | however a header is printed, with comments and blanks at will between its words, its parts come back as their words with one space between |
| `SenderCheck.VerdictOfPrinted` | apps/server/src/mail-in.ts:198-228 | whether a printed header decides and vouches follows from its words outside comments and quotes |
| `SenderCheck.EveryTokensAreParts` | apps/server/src/mail-in.ts:161-194 | any tokens are those of such parts |
| `SenderCheck.EveryValueIsParts` | apps/server/src/mail-in.ts:161-194 | every value that is read is some parts printed and gives their words; any other is refused |
| `SenderCheck.VerdictOfAny` | apps/server/src/mail-in.ts:198-228 | so for any header at all, whether it decides and vouches follows from its words outside comments and quotes |
| `SenderCheck.NamedExactly` | apps/server/src/mail-in.ts:224-225 | the values a search of a result matches are exactly those its words name, with or without spaces around the sign, for any words |
| `SenderCheck.NamedInResult` | apps/server/src/mail-in.ts:224-225 | and so they are after the result's first word |
| `SenderWords.PassesExactlyWhen` | apps/server/src/mail-in.ts:217-223 | a result passes if and only if the value its words give `dmarc` is `pass`, with or without spaces around the sign |
| `SenderWords.VouchesInWords` | apps/server/src/mail-in.ts:214-228 | a header vouches if and only if just one of its results is of `dmarc`, that passes, and `header.from` is named in it once, as the sender's domain |
| `SenderWords.VerdictInWords` | apps/server/src/mail-in.ts:198-228 | for any header at all: whether it decides and whether it vouches, by the words of its parts outside comments and quotes |
| `SenderWords.DomainIs` | apps/server/src/mail-in.ts:225 | the sender's domain is what follows the last `@` of the address, or all of it |
| `SenderWords.VerdictOnSender` | apps/server/src/mail-in.ts:198-228 | for any header and any sender at a domain, by its words: it decides if it can't be read or its first word is a server of the mailbox, and vouches if just one result after that is of `dmarc`, its value is `pass`, and the one `header.from` in it is the domain |
| `SenderWords.PlainlyVouches` | apps/server/src/mail-in.ts:214-228 | an instance for every server and sender: `dmarc=pass header.from=` and the sender's domain vouches |
| `HtmlText.StripTags` | apps/server/src/mail-in.ts:239-269 | the scan by positions gives what the scan of suffixes gives; each turn goes past the tag it found |
| `HtmlText.Convert` | apps/server/src/mail-in.ts:239-298 | the whole conversion of a message's HTML, cut at two million characters |
| `HtmlText.EntityOf` | apps/server/src/mail-in.ts:282 | a name of two to six letters in any case, or a decimal or hexadecimal number of the lengths allowed, before a semicolon is found whole, whatever follows |
| `HtmlText.EntityIsName` | apps/server/src/mail-in.ts:282 | nothing else is found |
| `HtmlNames.NameStandsFor` | apps/server/src/mail-in.ts:270-284 | the six names there are, in any case, stand for their characters; any other stays as it is written |
| `HtmlNames.NumberStandsFor` | apps/server/src/mail-in.ts:285-291 | a number written in digits, decimal or hexadecimal in either case, stands for the character of that number; zero, a surrogate's and one too large stay as they are written |
| `HtmlText.DecodeUndoesEscape` | apps/server/src/mail-in.ts:278-291 | decoding gives back any text that was escaped: entities are decoded once |
| `HtmlText.EscapedComesBack` | apps/server/src/mail-in.ts:235-298 | text escaped into HTML that fits the limit comes back with its blanks normalised and nothing else changed |
| `HtmlDocument.ShownOnly` | apps/server/src/mail-in.ts:245-269 | of a document only its text and what its tags stand for come out |
| `HtmlDocument.EveryHtmlIsADocument` | apps/server/src/mail-in.ts:245-269 | every HTML is such a document as printed |
| `HtmlDocument.TextOfAny` | apps/server/src/mail-in.ts:239-298 | so the text of any HTML is that of the shown part of a document it is |
| `HtmlDocument.InsidesDoNotShow` | apps/server/src/mail-in.ts:232-269 | what comments, script, style, head and title elements, attributes and an unclosed end hold never affects the text |
| `HtmlNames.TagStandsFor` | apps/server/src/mail-in.ts:258-269 | by its name in any case, and whatever attributes it has: a tag stands for a line end if it begins or ends a block or a line, for a space at the end of a table's cell, and for nothing else |
| `HtmlNames.ElementIsUnshown` | apps/server/src/mail-in.ts:231-268 | a script, style, head or title element doesn't come out, up to the end of the first tag that begins like its end tag |
| `HtmlBlanks.VisibleKept` | apps/server/src/mail-in.ts:292-297 | normalising blanks keeps every other character, in order |
| `HtmlBlanks.NoWideGaps` | apps/server/src/mail-in.ts:296 | a message's text never has two empty lines in a row |
| `HtmlShape.WordsKept` | apps/server/src/mail-in.ts:292-297 | normalising neither joins two words nor cuts one |
| `HtmlShape.TextIsNormal` | apps/server/src/mail-in.ts:235-298 | the text of any HTML has the words of what is shown and is normal: nothing blank at its ends or at those of its lines, no two spaces and no three line ends in a row |
| `HtmlShape.NormalStays` | apps/server/src/mail-in.ts:292-297 | a normal text stays as it is |
| `FilesOf.KeepShown` | apps/server/src/mail-in.ts:327-331 | what is embedded in the HTML, and nothing else, is no attachment |
| `FilesOf.Gathering` | apps/server/src/mail-in.ts:319-401 | the loop over the attachments, its recursion and the shared budget give the files, the skipped and the budget left that the function gives |
| `FilesOf.Conserves` | apps/server/src/mail-in.ts:308-401 | files and skipped are one per message opened and one per attachment not opened; at most 20 are opened besides the message and 51 files come out |
| `FilesExact.ShownExactly` | apps/server/src/mail-in.ts:327-331 | an embedded part that is not sent as an attachment is no file; the others stay in their order |
| `FilesExact.EachExactly` | apps/server/src/mail-in.ts:332-373 | of each attachment: exactly when it is opened as a message, and exactly when it is a file itself; never both |
| `FilesExact.FilesExactly` | apps/server/src/mail-in.ts:374-401 | a message's files are its text, the attachments kept in their order, and what is in the messages opened in theirs, fifty at most besides the text; the rest is skipped |
| `FilesOf.NamesDiffer` | apps/server/src/mail-in.ts:300-390 | no two files of a message have one name |
| `FilesOf.TextNames` | apps/server/src/mail-in.ts:374-395 | a message's text lists every attachment kept and every message opened directly in it, and none opened deeper |
| `FilesOf.NoneDeeper` | apps/server/src/mail-in.ts:308-354 | nothing comes from a message more than three deep |
| `MailboxRun.Mailbox.Forget` | apps/server/src/mail-in.ts:602-603 | failures are remembered of what is still unread only |
| `MailboxRun.Mailbox.Take` | apps/server/src/mail-in.ts:608-636 | one message's turn: gone, deferred, recorded and marked, or the end of the run |
| `MailboxRun.Mailbox.RunOnce` | apps/server/src/mail-in.ts:578-646 | a run takes the first fifty unread messages in order until one ends it |
| `MailboxRun.EveryRun` | apps/server/src/mail-in.ts:574-646 | each message marked was recorded just before; a message whose turn comes and does not end the run is marked once, or its failures are raised by one, or it was gone, and no other is touched; in a completed run these are the first fifty |
| `MailboxReport.EachExactly` | apps/server/src/mail-in.ts:600-646 | in the mail server's and the database's terms, of any message in any run: exactly when it is marked without the flag, marked with it, and failed once more; and the run completes if and only if the turns of the first fifty all come |
| `MailboxReport.ReportCounts` | apps/server/src/mail-in.ts:585-646 | the report counts the messages marked without the flag, those marked with it, and those of the first fifty that failed once more |
| `MailboxRun.GivenUpOn` | apps/server/src/mail-in.ts:558-616 | a message that failed five times is refused and marked on its next turn |
| `MailboxRun.RunLessens` | apps/server/src/mail-in.ts:567-637 | if the server lists just what it listed and was not marked, a run, completed or not, lowers the turns an unread message and all older unread mail have left if and only if one of them gets on in it: its turn comes before one ends the run, and the server gives it |
| `MailboxRun.LeftKept` | apps/server/src/mail-in.ts:567-637 | no run raises them, and one in which one of them gets on lowers them |
| `MailboxRun.HeldUpExactly` | apps/server/src/mail-in.ts:604-619 | in a completed run a message behind the first fifty is passed over without anything older getting on if and only if all fifty are gone |
| `MailboxRun.FewHoldUpNone` | apps/server/src/mail-in.ts:604-619 | so in one fewer than fifty messages that are listed and not given hold up nothing that is given |
| `MailboxRun.NoneHeldUp` | apps/server/src/mail-in.ts:558-637 | over any runs, completed or not, with a message listed at the start of each, those in which it or older mail gets on are no more than the turns these had left, six each |
| `MailboxRun.HeldUpByOne` | apps/server/src/mail-in.ts:608-641 | a message whose turn ends the run (its size, fetch, refusal or mark fails) with none before it given holds up all mail and is not counted as failing: nothing gets on, and what is remembered stays |
| `MailboxRun.HeldUpForGood` | apps/server/src/mail-in.ts:608-641 | and for as long as each run ends so |
| `MailboxRun.ListedButGone` | apps/server/src/mail-in.ts:604-619 | fifty older messages whose size or source comes back as gone leave one after them, and all tries, as they were |
| `TokenLedger.Table.ReserveTokens` | ai/models/src/budget.ts:51-74 | tokens are reserved if and only if the day's row stays within the limit; else nothing changes |
| `TokenLedger.Table.SettleTokens` | ai/models/src/budget.ts:76-101 | the reservation is replaced by what was spent, whole and not below zero |
| `TokenLedger.SpentBound` | ai/enrich/src/summarize.ts:319-340 | however a provider reports, a settlement is at most its reservation (embed), twice it (summarize) or four times it (query) |
| `TokenLedger.SpentBoundReached` | ai/models/src/query.ts:92 | and a provider can make it just that |
| `LedgerExact.GrantedExactly` | ai/models/src/budget.ts:41-74 | in every run tokens are granted if and only if the row stays within the tenant's own budget, or everyone's if it has none; they are then on the row and a job's, and no other row changes |
| `LedgerExact.SpentExactly` | ai/models/src/budget.ts:76-101 | what each kind of job settles with, for any reports: whole tokens, within its caps, and what counts of a number that isn't one |
| `LedgerExact.SettlesExactly` | ai/enrich/src/embed.ts:204-260 | in every run a job settles in its own transaction if that commits, else in its `finally` if that does, and in no other step, for what its calls were reported to have spent |
| `LedgerExact.CallsOfEveryRun` | ai/models/src/budget.ts:76-101 | in every run a row has counted the calls of its jobs that have settled, each once |
| `LedgerRuns.ClampNeverBites` | ai/models/src/budget.ts:96 | a settlement never takes a row below zero, so the clamp changes nothing |
| `LedgerRuns.EveryRun` | ai/models/src/budget.ts:55-101 | over all interleavings of jobs, days and tenants, a row is what its unsettled jobs reserved and the others spent, at most the limit and the overspends; no job settles twice |
| `LedgerRuns.RowsOfEveryRun` | ai/models/src/budget.ts:55-101 | the same from the start, with each job settling once at most and going past its reservation by its kind's slack at most |
| `LedgerRuns.RowBound` | ai/models/src/budget.ts:51-101 | a row is within the limit plus the reservations of summaries and three times those of queries |
| `LedgerRuns.PeakBound` | ai/models/src/budget.ts:51-101 | however many jobs there were, a row is within the limit and what the settlements under way at one time can go past their reservations by |
| `LedgerRuns.EmbedStaysWithin` | ai/enrich/src/embed.ts:306-307 | embedding alone never goes past the limit |
| `LedgerRuns.LimitHoldsExactly` | ai/models/src/budget.ts:55-101 | from every reachable state and for every row: however its jobs go on, the row stays within the limit if and only if the most each may still hold, together, does |
| `LedgerRuns.LimitIsExceeded` | ai/enrich/src/summarize.ts:329-340 | an instance: a summary takes a row to twice the limit |
| `LedgerJobs.SpendIsAJob` | ai/models/src/budget.ts:51-101 | a job whose reservation, own transaction and `finally` have any transactions of others between them leaves its reservation or what its calls came to, and settles as often as it says |
| `LedgerJobs.SummarizeIsAJob` | ai/enrich/src/summarize.ts:164-275 | however a run of the summarize step leaves and whatever others do between its transactions, they are those of one job, or none, and it leaves the rows that job does |
| `LedgerJobs.EmbedIsAJob` | ai/enrich/src/embed.ts:200-260 | the same of a run of the embed step |
| `LedgerJobs.QueryIsJobs` | ai/models/src/query.ts:57-110 | and of a query, over any days and whatever others do between its transactions: a job, over and settled as often as it says, for each provider that is asked and has tokens granted |
| `LedgerJobs.JobsDiffer` | ai/models/src/query.ts:57-110 | no two of those being the same job |
| `LedgerWorks.WorksAreARun` | ai/models/src/budget.ts:51-101 | any runs of steps and turns of queries, their transactions interleaved in any way, are a run of the ledger, each a job of it |
| `LedgerWorks.RowsOfAllWork` | ai/models/src/budget.ts:51-101 | so after any of them a row is just the sum of what each holds on it: what it reserved, until it has settled, then what its calls came to; and that is within the limit and what those under way at one time could go past their reservations by |
| `LedgerWorks.RowsInTurn` | ai/models/src/budget.ts:51-101 | one after the other, they leave a row within the limit and the worst that one alone can do: nothing for an embed run, two calls of a summary, three estimates of a query |
| `SummarizeRun.Version.Ask` | ai/enrich/src/summarize.ts:311-367 | the call and at most one repair, each counted as it comes back |
| `SummarizeRun.Version.Run` | ai/enrich/src/summarize.ts:122-275 | how each run ends, by what it finds and what the calls give; it reserves and asks a model exactly when there is text, no flag that stands, a provider allowed and room in the budget; the reservation is settled once, with the result or after it, unless that last transaction fails; and it fails the job exactly when a transaction does, or an answer that is worth another try while there is one |
| `SummarizeRun.Version.AskAndSave` | ai/enrich/src/summarize.ts:180-275 | the same of the part after the reservation: how it ends, what it saves, and that it settles once with what its calls came to, whatever others do to the rows meanwhile |
| `SummarizeRun.Version.GiveUp` | ai/enrich/src/summarize.ts:105-121 | a job given up on leaves a card of this prompt as it is, else says `unavailable` |
| `SummarizeRun.AnswersExactly` | ai/enrich/src/summarize.ts:311-367 | what the call and its repair come to, and what of them is counted |
| `SummarizeRun.EndsExactly` | ai/enrich/src/summarize.ts:122-275 | exactly when a run ends in each way, whatever it finds and whatever the calls give, and the card it leaves |
| `SummarizeRun.RunCosts` | ai/enrich/src/summarize.ts:164-198 | a settled run has cost its tenant's day just what its calls came to, an unsettled one its reservation, and no other row anything |
| `SummarizeRun.CostsExactly` | ai/enrich/src/summarize.ts:164-275 | what a run leaves the day's row at, with no others between: what its calls came to, or the reservation if neither transaction commits, or what it was |
| `SummarizeRun.WithheldIsSaid` | ai/enrich/src/summarize.ts:185-202 | withheld by either call with no other provider allowed, no card is left that a nightly retry would take up, and a card that was no skip is left as it is |
| `SummarizeRun.SummaryStays` | ai/enrich/src/summarize.ts:105-126 | a current summary is kept by every later run and salvage run, and none of them asks a model |
| `SummarizeRun.SummaryWasMade` | ai/enrich/src/summarize.ts:122-270 | a version has a current summary only if some run was allowed, granted, answered well and saved |
| `QueryRun.Ledger.EmbedQuery` | ai/models/src/query.ts:48-113 | the loop over the providers reserves on the day it is, calls and settles as the function says, whatever others do between, and gives nothing when called off |
| `QueryRun.EachModelOnce` | ai/models/src/query.ts:57-64 | each model a query may use is tried once, and its vector is one that a provider allowed gave |
| `QueryRun.GivesExactly` | ai/models/src/query.ts:57-113 | a query gives the vectors of just the providers that are the first of their model to be allowed it, have room in the day's budget and give one, in order; unless the call of one of them fails when the query was called off |
| `QueryRun.AskedCosts` | ai/models/src/query.ts:65-110 | and a provider asked costs the day what its answer settles for, nothing if it failed, or the estimate if that does not commit |
| `QueryRun.QueryCosts` | ai/models/src/query.ts:65-110 | with no others between, a query leaves each of its tenant's days, over however many it goes on, within the limit and three estimates, or as it was, and no other row changed |
| `ModelErrors.StepsAgree` | ai/models/src/errors.ts:35-50 | summarize and embed skip the same model errors, and a retryable one only on the last attempt |
| `ModelErrors.ReasonsExactly` | ai/enrich/src/summarize.ts:279-310 | which reason a version is skipped for; unavailable is just what failed the job on every attempt but its last |
| `Limiter.Semaphore.Arrive` | ai/models/src/clients.ts:131-149 | a call gets a permit, waits in line, or is turned away when it is aborted already |
| `Limiter.Semaphore.End` | ai/models/src/clients.ts:150-156 | a permit goes to the first in line, or back |
| `Limiter.Semaphore.Abort` | ai/models/src/clients.ts:138-142 | a waiting call leaves the line and nothing else changes |
| `Limiter.StepExactly` | ai/models/src/clients.ts:127-158 | in every run: a call that arrives has a permit at once if fewer than `n` do, else is last in line, or turned away if its signal has fired; one in line whose signal fires leaves it; one that ends gives its permit to the first in line |
| `Limiter.EveryRun` | ai/models/src/clients.ts:127-158 | in every run at most `n` calls hold a permit, `active` counts them, nobody waits while one is free, and permits go in order of arrival among those that did not give up |
| `Limiter.PermitsOfEveryRun` | ai/models/src/clients.ts:127-158 | the same from the start: those with a permit are the first to have arrived of the calls that did not give up, those waiting the rest, in order |
| `Limiter.Served` | ai/models/src/clients.ts:127-158 | each running call that ends brings a waiting one a place nearer, whoever arrives or gives up: one at place p (from 0) that does not give up has its permit once p + 1 have ended |
| `Limiter.AllEnded` | ai/models/src/clients.ts:127-158 | no permit is lost or made up: with no call left all are back |
| `PostJson.Post` | ai/models/src/http.ts:227-287 | the retry loop does what the function says, event by event |
| `PostJson.WaitBound` | ai/models/src/http.ts:230-239 | a wait is within 30 s or the longest Retry-After allowed, and within half to all of the backoff when the provider named none |
| `PostJson.EveryCall` | ai/models/src/http.ts:215-287 | at most `maxRetries` + 1 requests, each right after its own yes of the guard and counted once, none after a final outcome; a call that ends after a transient outcome fails with a retryable error |
| `PostJsonEnds.CallEnds` | ai/models/src/http.ts:215-287 | how every call ends, by the first attempt that is not tried again: aborted, withheld, with the answer parsed if and only if it is a 2xx and JSON, or with the error its outcome stands for; if all are, with that of the last, all requests sent |
| `PostJsonEnds.CallWaits` | ai/models/src/http.ts:230-239 | each wait is what the answer before it asked for, or half the backoff and up to all of it |
| `PostJsonEnds.BackoffDoubles` | ai/models/src/http.ts:231 | which doubles from attempt to attempt up to 30 s |
| `EmbedAnswer.NoHoleExactly` | ai/models/src/clients.ts:414-415 | with as many items as places, no place is left empty if and only if no two items name one |
| `EmbedAnswer.Read` | ai/models/src/clients.ts:399-415 | an answer is accepted if and only if its items name each place once, with vectors; each place then holds the vector that named it |
| `ChunkText.Cut` | ai/enrich/src/embed.ts:97-142 | the loops give the chunks the function gives, or the settings are refused |
| `ChunkText.LastSpace` | ai/enrich/src/embed.ts:145-148 | the last whitespace of a stretch, or -1 |
| `ChunkText.Starts` | ai/enrich/src/embed.ts:111-115 | where the windows start |
| `ChunkText.EveryChunk` | ai/enrich/src/embed.ts:88-142 | for every text: legal settings give at most `maxChunks` chunks, numbered in order, none blank, each a stretch of the text no longer than a window and cutting no surrogate pair; others are refused |
| `ChunkText.GapBound` | ai/enrich/src/embed.ts:110-141 | between two windows at most `size` less its four fifths, less the overlap, plus two, of any text is in neither |
| `ChunkText.GapIsReached` | ai/enrich/src/embed.ts:126-141 | by some text, for every setting that can leave a gap |
| `ChunkText.NothingLost` | ai/enrich/src/embed.ts:87-94 | with enough overlap and no window dropped, each non-blank unit of a well-formed text is in a chunk |
| `ChunkText.LosslessExactly` | ai/enrich/src/embed.ts:87-94 | exactly which legal settings lose nothing |
| `ChunkText.DefaultsLose` | ai/enrich/src/embed.ts:101-103 | the defaults are not among them |
| `EvenSpread.Pick` | ai/enrich/src/embed.ts:116-125 | the Set of rounded places is the list of picks, none lost |
| `EvenSpread.Gap` | ai/enrich/src/embed.ts:119-125 | two picks in a row are the floor or the ceiling of (n - 1) / (most - 1) apart |
| `EvenSpread.PickedWell` | ai/enrich/src/embed.ts:90-125 | exactly `maxChunks` windows are picked, in order, the first and the last among them |
| `EmbedStep.Version.Check` | core/catalog/src/embeddings.ts:50-107 | the checks before a save, item by item |
| `EmbedStep.Version.Run` | ai/enrich/src/embed.ts:184-277 | exactly when a run ends in each way and the rows and tokens it leaves, whatever others do to those between; what it reserved is settled once, with the rows or as it leaves, with what its call came to, unless that transaction fails |
| `EmbedStep.Version.Embed` | ai/enrich/src/embed.ts:204-260 | the same of the part after the reservation: the call, the save and the `finally` |
| `EmbedStep.AfterIsScratch` | ai/enrich/src/embed.ts:184-277 | the rows a run saves or finds up to date are those of embedding every text anew, and no run leaves a vector of another text |
| `EmbedRuns.SavesExactly` | ai/enrich/src/embed.ts:184-260 | exactly when a run saves, for any rows that a save could have left |
| `EmbedRuns.SavedIsUpToDate` | ai/enrich/src/embed.ts:184-193 | once it has, the next run on the same texts finds nothing to do, reserves nothing and leaves the rows as they are |
| `EmbedRuns.GivesUpExactly` | ai/enrich/src/embed.ts:204-260 | exactly when a run gives a version up without vectors: not when called off or withheld, and on what another try may cure only on the last |
| `EmbedRuns.CostsExactly` | ai/enrich/src/embed.ts:200-260 | what a run leaves the day's row at, with no others between: what its answer cost up to the reservation, the reservation if neither transaction commits, or what it was |
| `EmbedStep.SameSizeIsSame` | ai/enrich/src/embed.ts:191 | nothing missing and equal sizes mean the rows are the wanted ones |
| `EmbedStep.KeptAreScratch` | ai/enrich/src/embed.ts:261-275 | with nothing missing, saving what is kept is embedding from scratch |
| `EmbedStep.MergedAreScratch` | ai/enrich/src/embed.ts:222-228 | and so is saving the new vectors with the kept ones |
| `EmbedStep.OneSizeExactly` | ai/enrich/src/embed.ts:229-240 | with usable answers the sizes agree if and only if no kept vector of a wanted text has another size than the new ones |
| `EmbedStep.StuckWhileKept` | ai/enrich/src/embed.ts:191-240 | while one has, no later run on these texts saves, and each that is answered ends with the size changed |
| `EmbedStep.SizeChangeExample` | ai/enrich/src/embed.ts:229-240 | a concrete version at which it happens |
| `EmbedStep.SavableExactly` | core/catalog/src/embeddings.ts:50-107 | a run's items are refused exactly when their vectors are longer than a stored one may be |
| `EmbedStep.LongNeverSaved` | core/catalog/src/embeddings.ts:36-83 | no run whose answers are longer than a stored vector may be ever saves |
| `EmbedStep.LongVectorsFail` | ai/models/src/clients.ts:494-501 | and a provider's answer of 16,001 to 16,384 numbers is accepted and usable, so that such a job fails |

## Left out

- Timers that come due late, and the order of promise callbacks within one turn of the event loop: time is a number that does not pass an armed timer, and a callback is a step.
- HTTP, DNS and sockets, IMAP, the MIME parser, SQL and `fs.watch`: events and parameters with the outcomes the callers tell apart. A transaction commits whole or not at all.
- `parseRetryAfter`, `isPrivateAddress`, the router, `stubEmbedding`, `estimateTokens` (its Unicode classes), `isWatchNoise` and `folderIdentity`: each settled by reading it.
- HTTP routes, sign-in, the operator commands, configuration and the React app.
- Paths are sequences of names, and a key is its text: joining paths, file modes and base64 are not modelled.
- The mail and HTML modules work on Unicode characters, the source on UTF-16 units: the cut at two million counts characters, and a lone surrogate does not exist. `ChunkText` works on UTF-16 units.
- Lower-casing is any function in `SenderCheck`, and one that goes word by word in `SenderWords`; `HtmlText` lower-cases ASCII for tag and entity names, as the source does for tags.
- The Markdown a message's text becomes is not modelled, only what it names; nor are titles and MIME types.
- Rounding of floating-point numbers: the picks of `EvenSpread`, a window's four fifths and a jittered wait are exact.
- Wrong arguments that throw a RangeError or TypeError (a reservation that is not a whole number, a tenant's id), except those of `chunkText`.
- Supervisor.StaleChangesNothing: says nothing of log lines, as no member does.
- SummarizeRun.Version.Run: what is filtered out of an answer, proposed tags and titles are not modelled; nor is the object's lock, a write being one atomic step.
- QueryRun.Ledger.EmbedQuery: a query without a tenant's budget to count in, and how the text is cut, are not modelled.
- FolderTreeWhole.Settles: is about what a tree comes to once its walks and events have come; that they do is up to the system. It goes one way: a tree that is wrong about something no event is due of may be put right by an event of something else.
- LedgerRuns.EveryRun: a row removed by hand, and a limit changed between two reservations, are not events of a run.
- EmbedStep.Version.Check: the ids, the model's name, the provider's kind and the hashes' format, which the step itself makes, are not checked.
- MailboxRun.NoneHeldUp: mail marked unread again by hand, or given a lower number than mail before it, is not modelled.
