# Metaproxy: a verified model of its stateful filters

Metaproxy is a chain of filters that routes Z39.50 and HTTP requests. Most filters are thin; this project
models the ones that carry state, search or arithmetic, and proves what each of them is for.

* **Shared session pool** (`Databases`, `InitKeys`, `Rpn`, `RpnInPlace`, `SharedPool`, `SharedProtocol`,
  `SharedInvariant`, `SharedTheorems`, `SharedWaiting`, `SharedAnswers`, `SharedRuns`, `SharedClass`). Many
  frontend sessions share a few backend connections; result sets are reused, evicted, searched again and
  cached. Each region under the pool's mutex is one step of a transition system, and so is each exchange
  with a target; `SharedClass` has the same regions as methods on objects. Main result: in every run, what a
  search is answered, and the records a Present is answered, are what a session of its own would have been
  answered; for answers from the cache and for diagnostics it is proved exactly when that is so. A request
  that waits waits for a holder that can go on, unless that holder lost its target. Earlier result sets are
  inlined into queries without changing their meaning, exactly when the sets named share the request's
  attribute set.
* **Federated merge** (`MultiMerge`, `MergedOrder`, `SkipAhead`, `SkipAheadExact`, `ServeOrder`,
  `PresentMerge`, `PresentExact`, `Ordering`, `ScanMerge`). The round-robin loop is given a closed form; the
  skip-ahead in front of it is compared with it for every start and number, and the pages on which the two
  agree, and those that join to longer pages, are characterised exactly. Present requests are scattered and
  gathered, and Scan lists merged.
* **HTML tokenizer and printer** (`HtmlParser`, `HtmlTokenizer`, `HtmlSlices`, `HtmlPrinter`, `HtmlDocument`,
  `HtmlReading`, `HtmlRoundTrip`, `HtmlForms`, `HtmlTexts`). What the callbacks print for a document is
  tokenized as the same document if and only if every unquoted attribute value is ended by what follows it. A
  text is rewritten by the rule of the innermost selected tag around it, and by none outside such tags.
* **Quoted literals** (`QuotedLiteral`, `QuotedRewrite`, `QuotedComplete`). Every literal is found and rewritten,
  and nothing else is touched; with replacements that can stand in a literal the output has the literals of the
  input, rewritten, and no others.
* **Connection pool** (`ClientPool`, `ClientProtocol`, `ClientInvariant`, `ClientClass`) and **thread pool**
  (`ThreadPool`, `ThreadPoolInvariant`, `ThreadPoolClass`): step systems with waiters, counters, condition
  variables and bounded queues, with safety and freedom from lost wake-ups over every run; left alone, the
  thread pool delivers everything within a bound that is given.
* **Windowed retrieval** (`SortWindows`, `SortFrontend`, `Chunk`), **proxy failover** (`ProxyFailover`) and
  the **peer counter** (`PeerCount`).

The form is the same throughout: a method or class whose loops and fields are those of the source is proved
against a function on values (`ensures pool == F(old(pool))`), and the properties are lemmas about these
functions and about the runs made of them. `Options` and `Slices` are shared helpers.

Facts of the code that the proofs brought out, each with a lemma that shows it:

* the skip-ahead multiplies the number of remaining sets by an absolute count, so beyond the second count
  class it may land on the wrong record (`ThirdClassFails`) and adjacent pages may repeat one (`PagesRepeat`),
  and a start of 0 begins with a record that does not exist (`StartZeroFails`);
* a request that waits for a connection is not woken when that connection is removed (`LeftAsleep`);
* a Present for which the search is repeated may be answered with a diagnostic that the search itself did not
  get, because the additional search information is not sent again (`DemandingIsNotPrivate`);
* an inlined result set is evaluated with the attribute set of the new query, not with the one it was
  searched with (`InlineCanChangeMeaning`);
* an unquoted attribute value in front of `/>` is printed so that it is read back with the slash
  (`SelfClosingUnquotedFails`);
* a connection marked as destroyed stays in the client pool when the last request on it belongs to a session
  copy that is not closed (`MarkedStaysBehind`), and after a second Init during the first two threads hold
  one connection (`SecondInitBreaks`);
* a Scan response may be written behind its array when more terms are listed before the position than were
  asked for (`ScanOverruns`), and the chunk loop asks for ever when answers hold no records, and writes behind
  its array when they hold too many (`AskedForEver`, `OneTooMany`);
* the sort filter answers a Present from a list in another record composition (`WrongComposition`), and does
  not check that a Present starts at 1 or later (`StartBelowOne`).

## Model

| member | source | states |
|---|---|---|
| SharedTheorems.SharedEqualsPrivate | src/filter_session_shared.cpp:790-1253 | in every state of every run, the answer to a search, and to a Present answered by the target, is that of a private session; records from the cache are those asked for, and the private answer exactly when the target answers such a range in full; a diagnostic is the private one, or that of a repeated search that fails without the additional information it had succeeded with |
| SharedAnswers.UnavailableInRuns | src/filter_session_shared.cpp:858-947 | in every run, a request is told that there is no connection exactly when the target was lost or gave none, or when no more connections may be made and there is no set to use or wait for, none to replace and no room |
| SharedAnswers.PresentInRuns | src/filter_session_shared.cpp:1175-1253 | in every run, a Present that is not in the cache and whose target is alive gets the records, or the diagnostic, that the target has for its databases, query and range |
| SharedAnswers.TargetAnswers | src/filter_session_shared.cpp:1175-1244 | the same in any state of the invariant, with what becomes of the connection: its time of use, the records added to the cache of that set alone, at their positions, and its release |
| SharedAnswers.CacheAnswers | src/filter_session_shared.cpp:1149-1173 | a Present whose whole range is in the set's cache is answered from there, whether the target is alive or not |
| SharedAnswers.SearchAnswers | src/filter_session_shared.cpp:877-997 | a search at a live target: its hits become a set at the end of the connection's list, its diagnostic is passed on and frees the connection |
| SharedAnswers.FoundSearchAnswers | src/filter_session_shared.cpp:1105-1120 | the reply has the set's count and information, and the frontend remembers databases and query under the name |
| SharedAnswers.LookAnswers | src/filter_session_shared.cpp:806-878 | one pass of get_set, by places in the list: the first wanted set is taken or waited for; otherwise a place is made for a new one, or a connection is asked for, or the request fails |
| SharedAnswers.OverrideIs | src/filter_session_shared.cpp:736-788 | the first set of an idle connection that is old (or any, when no more connections may be made), of the same databases where one set is kept, gives up its name; without one the first idle connection with room gets the next name |
| SharedAnswers.SearchBegins | src/filter_session_shared.cpp:1049-1102 | a search for an existing set without the replace indicator is refused and changes no set; otherwise the set is dropped, and only a name that cannot be resolved refuses the search |
| SharedAnswers.PresentBegins | src/filter_session_shared.cpp:1122-1150 | a Present of an unknown set is refused, one of a known set looks for its databases and query |
| SharedAnswers.ScanBegins | src/filter_session_shared.cpp:338-366 | a Scan takes the idle connection that was used least recently, and asks for a new one only when none is idle |
| SharedAnswers.InitAnswers | src/filter_session_shared.cpp:430-522 | an accepted Init adds a connection in use, any other wakes the waiters, and both tell whether sets are named |
| SharedAnswers.OthersEnd | src/filter_session_shared.cpp:1276-1289 | a Scan at a live target and an Init that is over free their connection and wake the waiters; a Scan whose target is gone drops the connection and wakes nobody |
| SharedRuns.DiagnosticsArePrivate | src/filter_session_shared.cpp:797-801 | for every target: the diagnostics that answer Presents are the private ones in all runs if and only if the target refuses to present whatever it finds with additional information and fails without, with the same diagnostic |
| SharedRuns.DemandingIsNotPrivate | src/filter_session_shared.cpp:797-801 | a concrete target for which they are not |
| SharedTheorems.TargetHoldsPool | src/filter_session_shared.cpp:736-998 | in every state the result set names at a connection are distinct and the target holds under each the result of the databases and query the pool recorded, with the recorded size |
| SharedTheorems.OwnershipIsExclusive | src/filter_session_shared.cpp:305-378 | no two requests hold one connection, a held one is marked in use (so the assertion in timestamp never fails), and expiry keeps it |
| SharedTheorems.NoConnectionIsLost | src/filter_session_shared.cpp:909-998 | a connection marked in use is held by some request |
| SharedTheorems.HolderAdvances | src/filter_session_shared.cpp:1103-1290 | whatever the target does, who holds a connection can go on and releases or removes it within three steps |
| SharedWaiting.WaitingIsForAHolder | src/filter_session_shared.cpp:305-335 | in every state of every run, a request asleep on m_cond_set_ready sleeps for a connection that another frontend holds and can give back, if and only if no step has removed that connection |
| SharedWaiting.StrandedStays | src/filter_session_shared.cpp:313-335 | a request whose connection was removed stays asleep through every step but a release, a failed Init or a wait that ends by itself |
| SharedWaiting.StepFollows | src/filter_session_shared.cpp:305-335 | a connection in use leaves the pool exactly when its holder finds the target gone, becomes idle only in a step that notifies, and is never made again |
| SharedRuns.LeftAsleep | src/filter_session_shared.cpp:313-335 | for every target and every search it has hits for, a run that ends with an empty pool and a request asleep |
| SharedRuns.NobodyWakes | src/filter_session_shared.cpp:832-837 | there, nothing can happen but a new request of the other frontend, expiry, or a wait that ends by itself |
| SharedTheorems.StoredQueriesAreRefFree | src/filter_session_shared.cpp:1083-1118 | in every state of every run no stored query contains a result set reference |
| SharedTheorems.SearchMeansRequest | src/filter_session_shared.cpp:1074-1106 | the query a search goes on with means, in every algebra, what the request means with each name bound to its stored result, when the named sets share its attribute set |
| SharedTheorems.SelfReferenceIsRejected | src/filter_session_shared.cpp:1053-1098 | a search that replaces a set cannot name it: the set is gone and the request is refused |
| SharedInvariant.StepKeeps | src/filter_session_shared.cpp:305-1333 | every step of a frontend, of a target or of the expiry worker keeps the pool's invariant |
| SharedInvariant.RunKeeps | src/filter_session_shared.cpp:305-1333 | the invariant holds in every state of every run |
| SharedPool.ExpireFacts | src/filter_session_shared.cpp:1301-1333 | expiry removes exactly the connections that are unused and out of time, and changes no other |
| SharedPool.ExpireDrops | src/filter_session_shared.cpp:1301-1333 | a connection stays exactly if it is in use, or was last used neither in the future nor longer ago than allowed |
| SharedPool.ExpireKeepsOrder | src/filter_session_shared.cpp:1301-1333 | the connections that stay keep their order |
| SharedClass.BackendClass.UseBackend | src/filter_session_shared.cpp:368-372 | the connection, and no other, is marked in use and the class's sequence counter advances |
| SharedClass.BackendClass.ReleaseBackend | src/filter_session_shared.cpp:305-310 | the connection, and no other, becomes free |
| SharedClass.BackendClass.Timestamp | src/filter_session_shared.cpp:374-378 | the time of last use of a connection in use is set, and nothing else changes |
| SharedClass.BackendClass.RemoveBackend | src/filter_session_shared.cpp:313-335 | the connection leaves the list, the others stay in order; one that is not in the list changes nothing |
| SharedClass.BackendClass.GetIdle | src/filter_session_shared.cpp:338-366 | the free connection that was used least recently is taken, or none when all are in use |
| SharedClass.BackendClass.FindMatch | src/filter_session_shared.cpp:813-853 | the first result set in list order with matching databases, query and, for a search, additional information |
| SharedClass.BackendClass.FindVictim | src/filter_session_shared.cpp:748-770 | the first result set of a free connection that may be replaced: by its age, by the lack of sessions, and by its databases where one set is kept |
| SharedClass.BackendClass.FindRoom | src/filter_session_shared.cpp:771-787 | the first free connection with room for one more result set |
| SharedClass.BackendClass.NameAt | src/filter_session_shared.cpp:776-784 | a name never used at that connection where sets are named, the default name otherwise |
| SharedClass.BackendClass.OverrideSet | src/filter_session_shared.cpp:736-788 | the region's whole effect: a victim's name is taken over and its set dropped, or a new name is given, or there is no place |
| SharedClass.BackendClass.TryGetSet | src/filter_session_shared.cpp:806-857 | one pass of the region: reuse, wait for a matching set in use, take a place, or report that there is none |
| SharedClass.BackendClass.CreateBackend | src/filter_session_shared.cpp:393-522 | a connection enters the list, in use, only if the target accepted the Init, and the class learns whether sets are named |
| SharedClass.BackendClass.ExpireInstances | src/filter_session_shared.cpp:1301-1333 | the list loses exactly the expired connections, and whether it is empty is reported |
| SharedClass.BackendClass.PushSet | src/filter_session_shared.cpp:997-997 | the result set found is added to its connection's sets |
| SharedClass.BackendClass.CacheRecords | src/filter_session_shared.cpp:1222-1241 | the records of a Present enter the cache of their set, each at its own position, and nothing else changes |
| Databases.Normalize | src/util.cpp:170-183 | exactly the letters A to Z are made lower case, in place |
| Databases.Match | src/util.cpp:154-168 | true exactly when the lists have the same names, in order, after normalisation |
| Databases.SameUpToCase | src/util.cpp:154-183 | two lists are the same exactly when they have the same length and their names differ in nothing but the case of the letters A to Z |
| InitKeys.Memcmp2 | src/util.cpp:134-152 | the sign of the result is the lexicographic order of the two byte strings |
| InitKeys.LessThan | src/filter_session_shared.cpp:284-303 | the order of Init requests by authentication, then other information |
| InitKeys.KeyLessIsStrictTotal | src/filter_session_shared.cpp:284-303 | it is a strict total order, and two Inits share a class exactly when both parts are equal |
| Rpn.InlineStatus | src/filter_session_shared.cpp:1000-1047 | resolving fails exactly when some reference is unknown or has other databases, with the status and name of the first such reference in tree order; otherwise the tree is free of references |
| Rpn.InlinePreservesMeaning | src/filter_session_shared.cpp:1000-1047 | the rewritten tree evaluates, without any environment, to what the original evaluates to with each name bound to its stored result |
| Rpn.InlineNeedsSameAttributes | src/filter_session_shared.cpp:1000-1047 | this holds for every algebra if and only if the referenced queries share the request's attribute set or name one at every term |
| Rpn.InlineCanChangeMeaning | src/filter_session_shared.cpp:1023-1038 | a concrete reference to a set of another attribute set whose inlining changes the meaning |
| RpnInPlace.ResultSetRef | src/filter_session_shared.cpp:1000-1047 | the heap tree becomes the inlined tree in place, with its status and offending name |
| MultiMerge.MergeLoop | src/filter_multi.cpp:351-380 | from any common position, the loop terminates and lists the window of the merged order that remains |
| MergedOrder.RankIsIndex | src/filter_multi.cpp:351-380 | record j of set k stands at index 1 + sum of min(count, j - 1) + number of earlier sets with at least j records |
| MergedOrder.MergedLength | src/filter_multi.cpp:351-380 | the merged order has as many records as the counts add up to, a negative count being none |
| MergedOrder.MergedIsExact | src/filter_multi.cpp:351-380 | the merged order lists every record of every set exactly once and nothing else |
| MergedOrder.FromIsSuffix | src/filter_multi.cpp:351-380 | the merge from position y + 1 on is the merged order without its first sum of min(count, y) entries |
| SkipAhead.RoundRobin | src/filter_multi.cpp:298-382 | skip-ahead and loop together give the job list stated by the closed form of both |
| SkipAheadExact.RoundRobinIsEffectivePage | src/filter_multi.cpp:308-380 | for every start and number the result is a page of the merged order, beginning where the skip-ahead lands |
| SkipAheadExact.OvershootZero | src/filter_multi.cpp:328-349 | the skip-ahead lands right if and only if the start lies within what the first two count classes reach |
| SkipAheadExact.SkipLands | src/filter_multi.cpp:308-350 | where the skip block stops, in closed form: the count classes whose records lie before the start, then whole rounds of the sets that are left |
| SkipAheadExact.RoundRobinIsPage | src/filter_multi.cpp:298-382 | for all integers, the result is the page asked for if and only if an arithmetic condition on counts, start and number holds that can be checked beforehand |
| SkipAheadExact.TwoCountsAlwaysAgree | src/filter_multi.cpp:298-382 | with at most two distinct non-zero counts every start from 1 on is right |
| SkipAheadExact.PageWithinResultSet | src/filter_multi.cpp:298-382 | a page that begins with a record the sets have is the page asked for if and only if its start is at most the bound of the first two count classes |
| SkipAheadExact.LoopPagesConcatenate | src/filter_multi.cpp:351-380 | without the skip-ahead, adjacent pages join to the page that covers both |
| SkipAheadExact.PagesJoin | src/filter_multi.cpp:298-382 | with it, they do if and only if the surplus is the same for both starts, or both begin behind the last record |
| SkipAheadExact.ExactPagesJoin | src/filter_multi.cpp:298-382 | up to the bound of the first two count classes they always do |
| SkipAheadExact.PagesRepeat | src/filter_multi.cpp:308-349 | counts 2, 5, 10: the pages of one record from 14 and from 15 are the same |
| SkipAheadExact.ThirdClassFails | src/filter_multi.cpp:308-349 | counts 2, 5, 10 and start 15 give record 7 of the third set, where the plain loop gives record 8 |
| SkipAheadExact.StartZeroFails | src/filter_multi.cpp:351-380 | a start of 0 differs from the page of the merged order |
| ServeOrder.ServeOrder | src/filter_multi.cpp:275-296 | the jobs of the loop over targets, for every start and number |
| ServeOrder.ServeOrderIsSlice | src/filter_multi.cpp:275-296 | they are the records start to start + n - 1 of the concatenated sets, in order |
| PresentMerge.Range | src/filter_multi.cpp:804-818 | the least and greatest position the jobs ask of a target |
| PresentMerge.Scatter | src/filter_multi.cpp:798-842 | one request for each target that has jobs, over exactly its range, and each job marked with the start of its target's request |
| PresentMerge.Gather | src/filter_multi.cpp:895-942 | the records come from exactly the jobs whose target has sent theirs, one each with its target, in the order of the jobs; the others are passed over |
| PresentExact.StretchAsksExactly | src/filter_multi.cpp:780-842 | in any stretch of an order that lists each target's records in turn, a target's positions form one run without gaps |
| PresentExact.MergedOrderly | src/filter_multi.cpp:351-380 | the round-robin order is of that kind |
| PresentExact.ConcatenatedOrderly | src/filter_multi.cpp:275-296 | and so is the serve order |
| PresentExact.RequestCovers | src/filter_multi.cpp:798-842 | each target with jobs gets one request, from the least to the greatest position they name |
| PresentExact.Present | src/filter_multi.cpp:755-945 | a target that closes its session closes the frontend's, by the last that does, unless errors are hidden and some target has answered; otherwise the reply holds the records of exactly the jobs whose targets have sent them, in order, and the position after them, or is out of range; if every target answers in full, record i is the record named by job i; and the jobs are the slice of the merged or concatenated set wherever the order is exact |
| ScanMerge.Insert | src/filter_multi.cpp:1085-1099 | the list stays strictly ordered and the term's count grows by exactly the count added |
| ScanMerge.AddEntries | src/filter_multi.cpp:1065-1141 | one target's entries are merged into the list |
| ScanMerge.CountIsTotal | src/filter_multi.cpp:1085-1140 | a listed term's count is the sum of its counts over all targets on that side |
| ScanMerge.MergeIsUnique | src/filter_multi.cpp:1085-1140 | strict order and these sums determine the list |
| ScanMerge.SideTotal | src/filter_multi.cpp:1052-1141 | what a side adds up to for a term is the sum, over all targets, of the occurrences reported in front of (or from) the position each target gives |
| ScanMerge.SideMentions | src/filter_multi.cpp:1052-1141 | and a side lists exactly the non-empty general terms named there |
| ScanMerge.Scan | src/filter_multi.cpp:1023-1192 | both sides are such merges of all targets' entries and the reply is assembled from them; a term is written behind the array if and only if fewer terms were asked for than there are positions before the preferred one, and than there are different terms on that side; the first failing target's error is returned instead |
| ScanMerge.ScanOverruns | src/filter_multi.cpp:1157-1172 | one target's response for which this happens |
| ScanMerge.ReplyAscends | src/filter_multi.cpp:1157-1190 | the assembled reply is strictly ascending if and only if the terms listed before precede those listed after |
| ScanMerge.ReplyIsNearest | src/filter_multi.cpp:1157-1190 | it holds the nearest terms on both sides of the returned position |
| HtmlTokenizer.Skip | src/html_parser.cpp:91-105 | the first character not to be skipped, never past the terminator |
| HtmlTokenizer.ScanAttribute | src/html_parser.cpp:107-146 | name, value, quote and length of an attribute, for every input |
| HtmlTokenizer.Tokenizer.TagAttrs | src/html_parser.cpp:148-178 | the attribute events of a tag are reported in order, and the loop ends |
| HtmlTokenizer.Tokenizer.TagEnd | src/html_parser.cpp:180-207 | text up to the end of the tag is reported, then its end, with or without the slash |
| HtmlTokenizer.Tokenizer.ParseStr | src/html_parser.cpp:221-312 | the events of the whole input are appended and the script flag is left as the specification has it; the cursor always advances and stays within the input |
| HtmlForms.QuotedAttribute | src/html_parser.cpp:107-146 | name, spaces, equals sign, spaces and a quoted value, closed or not, by the characters alone |
| HtmlForms.BareAttribute | src/html_parser.cpp:107-146 | the same for a value without quotes |
| HtmlForms.PlainAttribute | src/html_parser.cpp:107-146 | a name with no equals sign behind it and its spaces is an attribute without a value |
| HtmlForms.NoName | src/html_parser.cpp:113-117 | where no name begins, at most an empty attribute over the spaces is skipped, and nothing skipped ends the list |
| HtmlForms.TagEndForms | src/html_parser.cpp:180-207 | what stands in front of a delimiter is text, and only > or /> ends the tag |
| HtmlForms.MarkupForms | src/html_parser.cpp:221-308 | outside scripts the one or two characters behind < decide which kind of markup it is, or none |
| HtmlForms.ClosedComment | src/html_parser.cpp:228-256 | a comment reaches to the first --> behind its opening |
| HtmlForms.OpenComment | src/html_parser.cpp:228-256 | one that is not closed is not reported, nor anything behind it |
| HtmlForms.OtherDeclarations | src/html_parser.cpp:228-271 | other declarations and instructions reach to the next >, or to the end of the input |
| HtmlForms.ScriptForms | src/html_parser.cpp:272-291 | inside a script only its closing tag, in any case and with spaces, is markup |
| HtmlSlices.ParseOrdered | src/html_parser.cpp:91-312 | the fresh substrings of all events are disjoint, within the input and in its order |
| HtmlPrinter.Printer.OpenTagStart | src/filter_http_rewrite.cpp:374-392 | the tag is printed and the first rule for its text is pushed |
| HtmlPrinter.Printer.AnyTagEnd | src/filter_http_rewrite.cpp:394-410 | the end is printed, and a closing one pops its rule |
| HtmlPrinter.Printer.Attribute | src/filter_http_rewrite.cpp:419-458 | the attribute is printed with its value as the first element makes it whose tag pattern is absent or matches and whose attribute pattern matches, and with the value unchanged if there is none |
| HtmlPrinter.Printer.CloseTag | src/filter_http_rewrite.cpp:453-464 | the closing tag is printed and pops its rule |
| HtmlPrinter.Printer.Text | src/filter_http_rewrite.cpp:466-479 | text is printed, rewritten by the rule on top of the stack |
| HtmlPrinter.Printer.Replay | src/filter_http_rewrite.cpp:374-479 | a whole sequence of callbacks prints what the specification prints |
| HtmlTexts.TextsRewritten | src/filter_http_rewrite.cpp:386-479 | in a printed document every text is rewritten by the first element that selects the text of the innermost open selected tag around it, and is unchanged outside all selected tags; one of the two is the case |
| HtmlPrinter.IdentityRulesPrintPlain | src/filter_http_rewrite.cpp:374-479 | rules that leave every text alone print the document as without rules, whatever they select |
| HtmlReading.AttrAt | src/html_parser.cpp:107-146 | a printed attribute followed by what ends it is read back with its name, value and quote |
| HtmlReading.AttrMisread | src/html_parser.cpp:107-146 | an unquoted value that is not ended so is read back differently |
| HtmlReading.CommentEndAt | src/html_parser.cpp:233-242 | where a comment ends does not depend on what surrounds it |
| HtmlReading.NoMarkupInside | src/html_parser.cpp:221-312 | a text without markup stays without markup in front of a tag or the end |
| HtmlRoundTrip.DocRead | src/html_parser.cpp:107-312 | tokenizing the text of a well-formed document reports the document, if and only if its unquoted attribute values are ended by what follows |
| HtmlRoundTrip.RoundTrip | src/filter_http_rewrite.cpp:374-479 | printing through the callbacks and tokenizing again gives the same callbacks, under the same exact condition, for any rules that change no text |
| HtmlRoundTrip.SelfClosingUnquotedFails | src/html_parser.cpp:135-142 | `<a b=c/>` is printed for value c and read back as value c/ |
| QuotedLiteral.PiecesJoin | src/filter_http_rewrite.cpp:481-547 | kept text and literals together are the input, in order |
| QuotedLiteral.NoMatchNoChange | src/filter_http_rewrite.cpp:481-547 | when the result is false the content is unchanged, in html and plain contexts |
| QuotedLiteral.LiteralsAreQuoted | src/filter_http_rewrite.cpp:493-537 | every text handed to the rule is the inside of a quoted literal of the input: no newline, no unescaped quote, between its quotes or up to a line end |
| QuotedRewrite.EmbedQuotedLiteral | src/filter_http_rewrite.cpp:481-547 | the loop over two cursors returns the pieces in order, each literal replaced by what the rule makes of it |
| QuotedComplete.QuotedIsRewritten | src/filter_http_rewrite.cpp:515-537 | when the first mark of the input is a quote of either kind, closed by an unescaped one or a line end, its inside goes to the rule, and the scan goes on behind the closing character |
| QuotedComplete.EntityIsRewritten | src/filter_http_rewrite.cpp:494-514 | the same in html for a literal between two quote entities, or up to a line end |
| QuotedComplete.ClosingEntityIsPlain | src/filter_http_rewrite.cpp:494-514 | an entity that has closed a literal opens no other |
| QuotedComplete.CommentIsKept | src/filter_http_rewrite.cpp:538-542 | a comment outside literals is kept to the end of its line, whatever it holds |
| QuotedComplete.UnclosedQuoteIsKept | src/filter_http_rewrite.cpp:515-537 | a literal that is not closed ends the scan, and the rule does not see it |
| QuotedComplete.UnclosedEntityIsKept | src/filter_http_rewrite.cpp:494-514 | the same for a literal opened by an entity |
| QuotedComplete.NothingToRewrite | src/filter_http_rewrite.cpp:481-547 | input without quotes, comments and (in html) quote entities is kept and nothing is reported replaced |
| QuotedComplete.Forms | src/filter_http_rewrite.cpp:481-547 | every input without a mark, or with a first mark, is one of these |
| QuotedRewrite.Rescan | src/filter_http_rewrite.cpp:481-547 | scanning text whose literals were replaced by safe texts finds the same pieces with the new texts |
| QuotedRewrite.RewriteKeepsStructure | src/filter_http_rewrite.cpp:481-547 | with a rule of safe replacements the output has the input's literals, rewritten, and no others |
| ClientInvariant.StepKeeps | src/filter_z3950_client.cpp:328-651 | every step keeps: queue length equals holder plus waiters, at most one holder, the limit per host, and no unwoken waiter for something free |
| ClientInvariant.RunKeeps | src/filter_z3950_client.cpp:328-651 | this holds in every state of every run under a fixed limit |
| ClientInvariant.OneHolder | src/filter_z3950_client.cpp:341-366 | two threads never hold the same connection |
| ClientInvariant.DeletedWhenUnused | src/filter_z3950_client.cpp:626-651 | a connection disappears exactly when its only user leaves with a closed session |
| ClientInvariant.EnterDecides | src/filter_z3950_client.cpp:328-487 | a request takes or waits for its session's connection; an Init that names one target looks for room; any other is not served |
| ClientInvariant.RecheckDecides | src/filter_z3950_client.cpp:436-486 | looking for room: below the limit a connection is made; at the limit the request waits if some connection to the host is idle, and is turned away at once if all are busy |
| ClientInvariant.SendDecides | src/filter_z3950_client.cpp:518-624 | a marked connection is not used for an exchange, so that only another can close the session |
| ClientInvariant.FinishDecides | src/filter_z3950_client.cpp:626-651 | the whole effect of leaving, which wakes everybody |
| ClientInvariant.LimitHolds | src/filter_z3950_client.cpp:425-487 | no host ever has more than the maximum of connections, although the check waits and retries |
| ClientInvariant.NoLostWakeup | src/filter_z3950_client.cpp:341-366 | who waits for a connection either waits for a holder or has been woken and takes it |
| ClientInvariant.ClosedLeaves | src/filter_z3950_client.cpp:632-648 | leaving with a closed session removes the connection, or marks it while others are queued |
| ClientInvariant.MarkedMayStay | src/filter_z3950_client.cpp:632-648 | a thread that leaves with an open copy of its session keeps the connection in the pool, unused, and marked if it was |
| ClientInvariant.MarkedStaysBehind | src/filter_z3950_client.cpp:632-648 | a run that ends with a marked connection in the pool and nobody using it |
| ClientInvariant.SecondInitKeeps | src/filter_z3950_client.cpp:436-486 | an Init of a session that waits for room keeps the invariant if and only if it is turned away |
| ClientInvariant.BothHold | src/filter_z3950_client.cpp:436-486 | after such an Init and another look of the first, both threads hold the session's connection if and only if there is room for both in turn, and the second connection has then replaced the first |
| ClientInvariant.SecondInitBreaks | src/filter_z3950_client.cpp:436-486 | a run, with a limit of one, in which this is reached |
| ClientClass.ConnectionPool.GetAssoc | src/filter_z3950_client.cpp:328-487 | the region up to its return or first wait, on the objects: what becomes of the pool and of the thread |
| ClientClass.ConnectionPool.RetryTake | src/filter_z3950_client.cpp:345-366 | a woken thread takes the connection if it is free and waits again otherwise |
| ClientClass.ConnectionPool.WaitForRoom | src/filter_z3950_client.cpp:436-486 | a thread waiting for room creates, gives up or waits again by the counts for its host |
| ClientClass.ConnectionPool.CountHost | src/filter_z3950_client.cpp:438-451 | the loop counts the host's connections and the idle ones among them |
| ClientClass.ConnectionPool.ReleaseAssoc | src/filter_z3950_client.cpp:626-651 | the fields of the connection and its removal, and nothing else |
| ThreadPoolInvariant.StepKeeps | src/thread_pool_observer.cpp:151-276 | every step keeps the places of messages, the counts of requests and threads, the bound and the signals |
| ThreadPoolInvariant.RunKeeps | src/thread_pool_observer.cpp:151-276 | these hold in every state of every run |
| ThreadPoolInvariant.Conservation | src/thread_pool_observer.cpp:151-276 | every message ever made is in exactly one place: being put, queued, in hand, in the output queue, delivered or cleaned up |
| ThreadPoolInvariant.FirstInFirstOut | src/thread_pool_observer.cpp:171-225 | both queues are served from the front and no message overtakes another in them, whatever is cleaned up between |
| ThreadPoolInvariant.DoneIsDone | src/thread_pool_observer.cpp:165-198 | what is delivered or cleaned up never comes back |
| ThreadPoolInvariant.InputBounded | src/thread_pool_observer.cpp:264-276 | the input queue never exceeds 64 messages per thread, nor the threads their maximum |
| ThreadPoolInvariant.ReceivePuts | src/thread_pool_observer.cpp:264-276 | a thread is started exactly when none is waiting and the maximum is not reached; the message joins the queue and wakes a sleeping thread if there is room, and otherwise put sleeps |
| ThreadPoolInvariant.OutputSignalled | src/thread_pool_observer.cpp:151-199 | outside a drain a non-empty output queue has a byte in the pipe |
| ThreadPoolInvariant.RequestsCounted | src/filter_frontend_net.cpp:206-219 | the count of a connection is the number of its undelivered messages, and no message outlives its connection |
| ThreadPoolInvariant.NeverStuck | src/thread_pool_observer.cpp:207-276 | while a message is on its way some worker or the manager can advance: no wake-up is lost on either condition variable or the pipe, and there is no deadlock in put |
| ThreadPoolInvariant.WorkFalls | src/thread_pool_observer.cpp:151-276 | every step the pool takes by itself, going to sleep included, lowers a measure of what is left to do |
| ThreadPoolInvariant.ComesToRest | src/thread_pool_observer.cpp:151-276 | left alone, the pool takes at most that many steps, and when it can take no more every message is delivered or cleaned up and no request is outstanding |
| ThreadPoolInvariant.FailDrops | src/filter_frontend_net.cpp:494-517 | a connection that fails is closed, exactly its queued messages are cleaned up, the others stay in their order, and one more of its own is put behind them |
| ThreadPoolInvariant.FailAgain | src/filter_frontend_net.cpp:494-517 | one that fails again is deleted exactly when no message of its own is on the way, and nothing else changes |
| ThreadPoolClass.Observer.TryPush | src/thread_pool_observer.cpp:272-275 | the message joins the queue, or the thread goes to sleep while it is full |
| ThreadPoolClass.Observer.TakeInput | src/thread_pool_observer.cpp:209-225 | a worker takes the first message or goes to sleep, and the count of waiting threads follows |
| ThreadPoolClass.Observer.PutOutput | src/thread_pool_observer.cpp:226-243 | the message joins the output queue and a byte enters the pipe |
| ThreadPoolClass.Observer.DeliverOutput | src/thread_pool_observer.cpp:165-198 | the first message of the output queue is delivered and its connection's count falls by one |
| ThreadPoolClass.Observer.RemoveJobs | src/thread_pool_observer.cpp:247-261 | the loop erases exactly the session's messages, keeps the others in order, and takes back one request for each |
| SortWindows.SortedIsStable | src/filter_sort.cpp:350-353 | the sorted list is ascending, holds the same records, and keeps those of equal score in order |
| SortWindows.StableIsUnique | src/filter_sort.cpp:350-353 | there is only one such list |
| SortWindows.WindowIsSlice | src/filter_sort.cpp:336-348 | a window from 1 on within the list is the slice of the one order, reversed when descending |
| SortWindows.StartBelowOne | src/filter_sort.cpp:336-348 | a start below 1 is answered with the first record, or with none when descending |
| SortWindows.FetchIsPrefix | src/filter_sort.cpp:517-562 | the prefetch loop ends, and what it has fetched is the beginning of the backend's result set |
| SortWindows.FetchReachesEnd | src/filter_sort.cpp:517-562 | a backend that always answers with something is fetched to the end position |
| SortWindows.FetchIsExact | src/filter_sort.cpp:526-562 | a backend that answers every request within the bound is fetched up to the bound exactly |
| SortFrontend.SearchKeeps | src/filter_sort.cpp:572-625 | a search keeps every record list the stable sort of the beginning of its result set, in the composition it was fetched in, and one list a syntax |
| SortFrontend.PresentKeeps | src/filter_sort.cpp:627-704 | and so does a present |
| SortFrontend.RunKeeps | src/filter_sort.cpp:498-704 | it holds in every state of every run of searches and presents |
| SortFrontend.FirstReplyIsSlice | src/filter_sort.cpp:507-568 | the response that makes a list is answered with the beginning of the sorted list instead of the backend's order |
| SortFrontend.SearchListIs | src/filter_sort.cpp:498-625 | the list a search makes is the sort of the first k records, k being the smaller of prefetch and hit count, or the number of records in the response if that is more |
| SortFrontend.PresentListIs | src/filter_sort.cpp:498-704 | and so is the list a present makes |
| SortFrontend.PrefetchStaysWithin | src/filter_sort.cpp:526-540 | no request of the prefetch reaches beyond the smaller of prefetch and hit count |
| SortFrontend.ListAnswers | src/filter_sort.cpp:651-704 | a present of a set with a list in its syntax is answered from it exactly when the list reaches to the end of the range, and otherwise the backend's records are passed on |
| SortFrontend.NoListPassesOn | src/filter_sort.cpp:651-704 | a present of a set without such a list, from any start but 1, passes the backend's records on and makes no list |
| SortFrontend.PresentOfUnknown | src/filter_sort.cpp:637-648 | a present of an unknown set is refused and changes nothing |
| SortFrontend.SearchWithoutRecords | src/filter_sort.cpp:580-625 | a search for an existing set without the replace indicator is refused and changes nothing |
| SortFrontend.PresentIsSliceOfList | src/filter_sort.cpp:651-684 | a present answered from a list is the slice of the sorted beginning of the result set in the composition the list was made with |
| SortFrontend.PresentIsSlice | src/filter_sort.cpp:651-684 | it is the slice in the composition asked for, whatever the backend holds, if and only if that is the composition the list was made with (or nothing is asked for) |
| SortFrontend.WrongComposition | src/filter_sort.cpp:651-684 | a list of brief records answers a present of full ones, which sort the other way round |
| SortFrontend.PresentsAgree | src/filter_sort.cpp:651-684 | two presents answered from a list, with any others between them, give the same record at every shared position, whatever compositions they ask for |
| SortFrontend.RecordList.Read | src/filter_sort.cpp:336-348 | the walk along the list, for every position |
| SortFrontend.Session.Prefetch | src/filter_sort.cpp:517-562 | the loop over partial answers collects what the backend returned, in order |
| SortFrontend.Session.HandleRecords | src/filter_sort.cpp:498-569 | the list is made once per syntax and the reply rewritten to its window |
| SortFrontend.Session.HandleSearch | src/filter_sort.cpp:572-625 | the new sets and the reply, for existing sets, failed and successful searches |
| SortFrontend.Session.HandlePresent | src/filter_sort.cpp:627-704 | the new sets and the reply, from the list or from the backend |
| Chunk.ChunkIt | src/filter_present_chunk.cpp:92-172 | wherever the loop ends it ends in the state its passes lead to: what is built, what is relayed, or a record written behind the array |
| Chunk.EndsUnlessStuck | src/filter_present_chunk.cpp:104-160 | for every backend, the loop runs for ever if and only if from some pass on every answer holds no records |
| Chunk.EndsInBounds | src/filter_present_chunk.cpp:104-160 | for a backend that answers a request the same way each time, it ends within its array if and only if each request sent gets at least one record and no more than are left, or no records response |
| Chunk.AskedForEver | src/filter_present_chunk.cpp:104-160 | a backend without records is asked for ever |
| Chunk.OneTooMany | src/filter_present_chunk.cpp:134-143 | two records for one asked for: the second is written behind the array |
| Chunk.ChunksAreExact | src/filter_present_chunk.cpp:92-172 | the client gets exactly records start to start + total - 1, in order, whatever the chunk size |
| Chunk.RequestsInRange | src/filter_present_chunk.cpp:108-122 | each request is for a whole chunk or for all that is left, within the range, and begins where the last answer ended |
| Chunk.FailureIsRelayed | src/filter_present_chunk.cpp:124-158 | the first response without records ends the loop and is relayed; otherwise the reply is complete |
| ProxyFailover.HandleSearch | src/filter_zoom.cpp:2278-2311 | for every sequence of outcomes the loop ends, after at most one pass more than there are proxies, and its passes are those the two functions give |
| ProxyFailover.FailoverEnds | src/filter_zoom.cpp:2229-2261 | any such loop is that short; each failover takes the next list position because a proxy did not answer; the same target is retried at most once, first |
| ProxyFailover.EveryPassFollows | src/filter_zoom.cpp:2229-2261 | a pass that failed with a target is followed by the next proxy of the list if its own did not answer and there is one, by one new start if its own answered, the target asks for it and nothing was tried again, and by nothing otherwise |
| ProxyFailover.AllProxiesTried | src/filter_zoom.cpp:1205-1236 | when no proxy answers every proxy of the list is tried, in order |
| PeerCount.ListCountsBag | src/filter_frontend_net.cpp:987-1035 | over every sequence of operations the list counts a multiset, without duplicate peers or zero counts; removing an absent peer does nothing |
| PeerCount.PeerStat.Add | src/filter_frontend_net.cpp:987-1004 | the linked list shows the list with the peer added, stays acyclic, and the new count is returned |
| PeerCount.PeerStat.Get | src/filter_frontend_net.cpp:1006-1015 | the count of the peer, or 0 |
| PeerCount.PeerStat.Remove | src/filter_frontend_net.cpp:1017-1035 | the linked list shows the list with one less of the peer, its item unlinked through the link in front of it at zero |

## Left out

- SharedTheorems.SharedEqualsPrivate: restart mode stays off, its default; targets are deterministic and their records do not depend on the range asked for, and each class keeps one mode of naming sets. What a frontend's set was searched with is recorded beside the set, for the statement only.
- SharedProtocol.Run: one backend class; the classes of different Inits share nothing but their map, whose order is proved in `InitKeys`.
- SharedWaiting.WaitingIsForAHolder: the wait in init (lines 583-590) is left out; its loop is entered only when a connection has succeeded, and then does not wait.
- SharedInvariant.StepKeeps: appending to a connection's sets after a search (line 997), which the source does without the mutex, is one step.
- SharedClass.BackendClass.TryGetSet: result sets are values in their connection's list, not shared pointers, so aliasing of a set between a frontend and the pool is not captured.
- PresentExact.Present: round robin is stated for starts from 1 on and serve order for counts that are not negative; the job lists themselves are covered for all integers by `RoundRobinIsPage` and `ServeOrder`.
- ScanMerge.Scan: the number of terms requested is not negative, and the preferred position is given.
- Chunk.ChunkIt: the passes after which the loop ends are a ghost parameter, because a method must end; `EndsUnlessStuck` says when there are such.
- ClientInvariant.RunKeeps: a session sends no second Init while its first waits for room; `SecondInitKeeps` and `BothHold` say what happens otherwise.
- ThreadPoolClass.Observer.DeliverOutput: the last result on a closed session also closes its connection through YAZ++, which is not part of this model (src/filter_frontend_net.cpp:284-287).
- ThreadPoolInvariant.RequestsCounted: the two places where an HTTP request deletes its connection at once are left out, and so are the stop flag and the pool's destructor.
- ProxyFailover.HandleSearch: one proxy argument at most; the arguments beside it and the torus lookup only decide whether a target is made.
- SortFrontend.Session.HandleSearch: the sets and record lists of a session are values, with the composition each list was fetched in recorded beside it for the statements only; the composition that a search's piggyback settings give is a parameter; the hit count of a set whose search failed is unset in the source and arbitrary here.
- QuotedRewrite.EmbedQuotedLiteral: a rule is any function of the literal and of what it remembers; matching by regular expression is not part of this model.
- HtmlTokenizer.Tokenizer.ParseStr: events are recorded instead of being called back one at a time; log output is left out.
- The record cache is a map from position and format to record, as if it held single records.
- Result set names of a backend are numbers or the default name instead of strings of digits.
- Numbers are unbounded; the guards against values that do not fit an int are kept where they decide a branch.
- Clocks are arbitrary values, condition variables wake nobody without a notification unless a step says so (as `Wakeup`, `Wake` and `Recheck` of the pools do), and sockets, pipes, XML, XPath, XSLT, CQL, logging and configuration are left out.
- The frontends' own exclusion of two requests of one session (`get_frontend`, `release_frontend`) is taken for granted: a frontend handles one request at a time.
- A strict bound on the number of sessions: the source checks the maximum before it creates a connection outside the mutex.
- The filters `load_balance`, `virt_db`, `sru_to_z3950` and the remaining thin filters.
