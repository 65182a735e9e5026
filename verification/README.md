# disconf-client core, modelled in Dafny

This project models the refresh path of the disconf Java client. The client keeps a
Spring application's `@Value` fields and setters in step with configuration files held
on a disconf server. ZooKeeper tells the client when a file changes. The modelled parts:

- **`DisConfPropertyConfigurer`** (`configurer.dfy`): what the constructor derives from
  the bootstrap file. This covers the base URL, the host-discovery URL, the download URL
  and the ZooKeeper node of every item. It also covers the nodes handed to the watcher,
  the locations Spring loads, the local-only fallback and the constructor's three ways to
  throw. It also models the null-old substitution of `changeBeanProperties` and
  `mergeProperties`.
- **`ZookeeperWatcher`** (`zookeeper_watcher.dfy`): the event dispatch, re-watching,
  the presence node path and payload, the cache file name and cluster host extraction.
  It also models how `doUpdate`, `doUpdateSingle` and `refreshConfigs` build the new
  snapshot and swap it in as the old one.
- **`ResilientActiveKeyValueStore.createEphemeralNode`** (`resilient_store.dfy`): the
  retry loop, written as a method. A reference run is defined attempt by attempt. The
  client's answers (`exists`, `create`, `setData`, an interrupted sleep) are a script of
  attempts. The reconnects and sleeps are recorded as a trace of events.
- **`BeanPropertyChangeHandler`** (`change_handler.dfy`, on top of `spring_support.dfy`):
  - the binding registry (`keyToDescriptor`) and the names `saveDependency` files
    bindings under;
  - the pattern registration of `resolveStringValue`;
  - the aggregate JSON of `getMapJson`;
  - the diff of `changeBeanProperties`;
  - the selection of bindings;
  - the value each binding receives in `injectBeanProperties`.
- **`PropertiesConfig`** (`properties_config.dfy`, `properties_escape.dfy`,
  `properties_comments.dfy`):
  - the line index built on load;
  - the in-place rewrite and the append done by `saveToFile`;
  - the escaping of `saveConvert` and `kv`, with a reading-side partner that undoes it;
  - the comment block of `writeComments`.

`spring_support.dfy` specifies the two Spring utilities the handler relies on:
`PatternMatchUtils.simpleMatch` and `PropertyPlaceholderHelper` with unresolvable
placeholders ignored. `java_strings.dfy` holds `startsWith`, `endsWith`, `indexOf` and
`lastIndexOf`. `enumerations.dfy` describes the iteration order of a Java `HashMap`: any
repetition-free listing of its keys.

Conventions:

- A Dafny `char` stands for one Java UTF-16 code unit.
- `Properties` and `Map<String, String>` are `map<string, string>`.
- A Java `null` is `None`.
- An exception that leaves a method is a `Result` failure or an `Outcome`.
- Environment variables, file contents and network answers are parameters.

Behaviours of the code worth knowing, each stated by a lemma:

- **Diff expansion.** The diff in `changeBeanProperties` expands a value against the
  snapshot alone. It passes the `Properties` object as the resolver, at
  `BeanPropertyChangeHandler.java:284-285`. There is no fallback to the environment
  (`ChangeHandler.EqualTextChangesOnlyThroughExpansion`). Only the delivered value uses
  the environment fallback (`ChangeHandler.SelectValue`).
- **Unresolved placeholders.** An unresolved placeholder is not an error. The helper is
  built with `ignoreUnresolvablePlaceholders = true`, so the placeholder stays in the
  text (`SpringSupport.ExpandKeepsUnresolvable`, `ChangeHandler.UnresolvableIsNoChange`).
- **Deletions.** A deleted key is reported only when the old snapshot has more keys than
  the new one. A deletion balanced by an addition goes unreported
  (`ChangeHandler.DeletionNeedsShrinking`, `ChangeHandler.DeletionOffsetByAddition`).
- **No transitivity.** "No observable change" is not transitive for the guarded refresh.
  Two refreshes through an empty snapshot notify nobody, but the direct one does
  (`ChangeHandler.QuietNotTransitiveThroughEmpty`). It is transitive through a non-empty
  middle snapshot (`ChangeHandler.QuietIsTransitive`).
- **Failed downloads.** A failed download does not keep the stale snapshot.
  `updateSpringBeans` swaps in the new snapshot unconditionally, so a single-node update
  whose read failed leaves an empty old snapshot behind
  (`ZookeeperWatcher.FailedDownloadEmptiesSnapshot`).
- **Reconnects.** `createEphemeralNode` reconnects and sleeps after every failed
  attempt, the third one included. Three failures make three reconnects and sleeps of 2,
  4 and 6 seconds before the last exception is thrown
  (`ResilientStore.ExhaustedThrowsLast`).

## Model

| member | source | states |
|---|---|---|
| ChangeHandler.AddAll | src/main/java/io/disconf/client/core/BeanPropertyChangeHandler.java:259-267 | the key gains the given bindings (an absent key gets exactly them); every other key keeps its bindings |
| ChangeHandler.Register | src/main/java/io/disconf/client/core/BeanPropertyChangeHandler.java:249-257 | the key's binding set grows by the one binding, created empty first if absent; other keys untouched |
| ChangeHandler.RegisterIsIdempotent | src/main/java/io/disconf/client/core/BeanPropertyChangeHandler.java:249-257 | registering the same binding twice under a key is the same as once (bindings form a set) |
| ChangeHandler.DependencyNames | src/main/java/io/disconf/client/core/BeanPropertyChangeHandler.java:50-57 | one name per placeholder of the expression: a prefix of its body that holds no `:` and is either the whole body or stops right before a `:` |
| ChangeHandler.RegisterAll | src/main/java/io/disconf/client/core/BeanPropertyChangeHandler.java:51-56 | the registry afterwards has exactly the old keys plus the visited names |
| ChangeHandler.RegisterAllValue | src/main/java/io/disconf/client/core/BeanPropertyChangeHandler.java:51-56 | each visited name holds its old bindings plus the new one; every other key keeps its bindings |
| ChangeHandler.SaveDependency | src/main/java/io/disconf/client/core/BeanPropertyChangeHandler.java:50-57 | the binding is registered under the name of every placeholder of the expression and nowhere else; nothing is lost |
| ChangeHandler.DefaultValueRegistersName | src/test/java/test/spring/base/Configs.java:11 | `${name:default}` files its binding under `name` alone, not under the default or the whole body |
| ChangeHandler.PatternOf | src/main/java/io/disconf/client/core/BeanPropertyChangeHandler.java:208 | the pattern is what lies between `${` and the last character of the expression |
| ChangeHandler.ResolveStringValue | src/main/java/io/disconf/client/core/BeanPropertyChangeHandler.java:203-213 | a `${...*...}` expression adds the text between `${` and its last character to the known patterns and resolves to `{`, one member per matching key (each once, values passed through the original resolver), `}`; any other expression changes no state and is handed to the original resolver unchanged |
| ChangeHandler.PatternRegistrationsAgree | src/test/java/test/spring/base/Configs.java:22 | for `${p}` with a `*`, the binding is filed under the same text `p` that becomes a known pattern, so a change matching `p` can reach it |
| ChangeHandler.JsonValue | src/main/java/io/disconf/client/core/BeanPropertyChangeHandler.java:237-241 | a value is embedded unchanged exactly when it opens with `{` or `[`; any other, including the empty one, is wrapped in double quotes |
| ChangeHandler.Matching | src/main/java/io/disconf/client/core/BeanPropertyChangeHandler.java:225-227 | the selected keys are exactly the listed keys of the snapshot that match the pattern |
| ChangeHandler.BuildJsonContinues | src/main/java/io/disconf/client/core/BeanPropertyChangeHandler.java:225-243 | after a non-empty buffer every matching key appends `,` and its member, in iteration order |
| ChangeHandler.BuildJsonFromEmpty | src/main/java/io/disconf/client/core/BeanPropertyChangeHandler.java:232-236 | from an empty buffer the first match opens with `{` and later matches are comma-separated |
| ChangeHandler.MapJsonShape | src/main/java/io/disconf/client/core/BeanPropertyChangeHandler.java:221-246 | the aggregate is `{`, one member per matching key (each exactly once, none other), `}`; with no match it is the lone `}` |
| ChangeHandler.MatchingKeepsDistinct | src/main/java/io/disconf/client/core/BeanPropertyChangeHandler.java:225 | no key appears twice in the aggregate |
| ChangeHandler.MapJsonBraces | src/main/java/io/disconf/client/core/BeanPropertyChangeHandler.java:232-244 | the aggregate always ends with `}` and opens with `{` exactly when some key matches |
| ChangeHandler.InheritedLookup | src/main/java/io/disconf/client/core/BeanPropertyChangeHandler.java:394-397 | a placeholder name resolves to the snapshot's value, else the environment's, else nothing |
| ChangeHandler.MapShadowsEnvironment | src/main/java/io/disconf/client/core/BeanPropertyChangeHandler.java:394-397 | for a key the snapshot holds, the environment is irrelevant; otherwise only the environment matters |
| ChangeHandler.ChangedKeys | src/main/java/io/disconf/client/core/BeanPropertyChangeHandler.java:277-299 | every reported key belongs to one of the two snapshots |
| ChangeHandler.NoChangeAgainstItself | src/main/java/io/disconf/client/core/BeanPropertyChangeHandler.java:277-299 | a snapshot compared with itself has no changed key |
| ChangeHandler.RawDifferenceIsChange | src/main/java/io/disconf/client/core/BeanPropertyChangeHandler.java:282-292 | a new key, or one whose raw text differs, is always reported |
| ChangeHandler.EqualTextChangesOnlyThroughExpansion | src/main/java/io/disconf/client/core/BeanPropertyChangeHandler.java:282-289 | a key with equal text is reported exactly when it holds `${` and its expansions against the two snapshots differ |
| ChangeHandler.UnmovedReferencesAreNoChange | src/main/java/io/disconf/client/core/BeanPropertyChangeHandler.java:283-288 | equal text whose placeholders name keys that resolve alike in both snapshots is not reported |
| ChangeHandler.UnresolvableIsNoChange | src/main/java/io/disconf/client/core/BeanPropertyChangeHandler.java:32-34 | equal text whose placeholders resolve in neither snapshot is left in place and not reported |
| ChangeHandler.DeletionNeedsShrinking | src/main/java/io/disconf/client/core/BeanPropertyChangeHandler.java:294-299 | a deleted key is reported if and only if the old snapshot has more keys than the new |
| ChangeHandler.DeletionOffsetByAddition | src/main/java/io/disconf/client/core/BeanPropertyChangeHandler.java:294 | `{a=1,b=2}` to `{a=1,c=3}` reports only `c`: the deletion of `b` goes unseen |
| ChangeHandler.NoChangeMeansEqual | src/main/java/io/disconf/client/core/BeanPropertyChangeHandler.java:277-303 | between non-empty snapshots, no changed key means the snapshots are equal |
| ChangeHandler.QuietIsTransitive | src/main/java/io/disconf/client/core/BeanPropertyChangeHandler.java:270-303 | two refreshes that notify nobody, through a non-empty middle snapshot, make a direct refresh that notifies nobody |
| ChangeHandler.QuietNotTransitiveThroughEmpty | src/main/java/io/disconf/client/core/BeanPropertyChangeHandler.java:270-272 | through an empty middle snapshot that fails: `{x=1}`→`{}`→`{x=2}` is quiet twice, `{x=1}`→`{x=2}` is not |
| ChangeHandler.AddMatchingPatterns | src/main/java/io/disconf/client/core/BeanPropertyChangeHandler.java:310-320 | the delivery map gains exactly the known patterns with bindings that match the changed key, each with all its bindings |
| ChangeHandler.SelectForKey | src/main/java/io/disconf/client/core/BeanPropertyChangeHandler.java:305-321 | one changed key adds itself (if bound) and every bound known pattern it matches, and nothing else |
| ChangeHandler.SelectBindings | src/main/java/io/disconf/client/core/BeanPropertyChangeHandler.java:304-321 | the delivery map holds exactly the bound changed keys and the bound known patterns matching some changed key, each with its full binding set |
| ChangeHandler.SelectValue | src/main/java/io/disconf/client/core/BeanPropertyChangeHandler.java:336-345 | with the keys visited in an iteration order of the new snapshot: there is no value exactly for a literal key the snapshot lacks; a pattern gets `{`, one member per matching key of the snapshot (each exactly once, none other), `}`, or the lone `}`; a literal key gets its value expanded against the snapshot, then the environment |
| ChangeHandler.Inject | src/main/java/io/disconf/client/core/BeanPropertyChangeHandler.java:346-373 | with the keys visited in an iteration order of the new snapshot, every binding of every selected key with a value gets exactly one attempt with that value, accepted unless the consumer rejects it; there are no other attempts |
| ChangeHandler.InjectMembership | src/main/java/io/disconf/client/core/BeanPropertyChangeHandler.java:333-373 | an attempt is made exactly for a selected key and one of its bindings when the key has a value, with that value, and it is accepted exactly when the consumer does not reject it |
| ChangeHandler.RejectionsDoNotStopDelivery | src/main/java/io/disconf/client/core/BeanPropertyChangeHandler.java:347-373 | which consumers reject changes no other attempt: the same (key, binding, value) writes are tried |
| ChangeHandler.AbsentLiteralIsNotDelivered | src/main/java/io/disconf/client/core/BeanPropertyChangeHandler.java:339-346 | a literal key missing from the new snapshot is never written to a consumer |
| ChangeHandler.ChangeBeanProperties | src/main/java/io/disconf/client/core/BeanPropertyChangeHandler.java:269-326 | with the keys visited in an iteration order of the new snapshot: an empty snapshot on either side delivers nothing; otherwise the bindings of exactly the changed keys and matching known patterns are selected and injected from the new snapshot |
| ChangeHandler.SelfComparisonDeliversNothing | src/main/java/io/disconf/client/core/BeanPropertyChangeHandler.java:300-303 | a refresh against the same snapshot selects no key and no pattern |
| SpringSupport.LiteralPatternMatchesOnlyItself | src/main/java/io/disconf/client/core/BeanPropertyChangeHandler.java:312 | a pattern without `*` matches exactly itself |
| SpringSupport.PrefixPatternMatchesExtensions | src/main/java/io/disconf/client/core/BeanPropertyChangeHandler.java:227 | `prefix*` matches exactly the keys that start with `prefix` |
| SpringSupport.StarMatchesEverything | src/main/java/io/disconf/client/core/BeanPropertyChangeHandler.java:227 | the pattern `*` matches every key |
| SpringSupport.NameOf | src/main/java/io/disconf/client/core/BeanPropertyChangeHandler.java:52-53 | the name is the `:`-free prefix of the body that ends at its first `:` or at its end |
| SpringSupport.ResolveBody | src/main/java/io/disconf/client/core/BeanPropertyChangeHandler.java:32-34 | a resolvable name gives its value; otherwise the default after the first `:` when present, else nothing |
| SpringSupport.Bodies | src/main/java/io/disconf/client/core/BeanPropertyChangeHandler.java:51 | a text has placeholder bodies exactly when it holds a complete `${...}` |
| SpringSupport.ExpandWithoutPrefixIsIdentity | src/main/java/io/disconf/client/core/BeanPropertyChangeHandler.java:283 | text without `${` expands to itself |
| SpringSupport.ExpandKeepsUnresolvable | src/main/java/io/disconf/client/core/BeanPropertyChangeHandler.java:32-34 | text whose placeholders all fail to resolve expands to itself |
| SpringSupport.ExpandDependsOnlyOnNames | src/main/java/io/disconf/client/core/BeanPropertyChangeHandler.java:284-286 | two resolvers that agree on the names a text refers to expand it alike |
| SpringSupport.PlaceholderNeedsPrefix | src/main/java/io/disconf/client/core/BeanPropertyChangeHandler.java:283 | a text with a complete placeholder contains `${`, so the `contains` guard loses nothing |
| PropertiesConfig.FirstNonBlank | src/main/java/io/disconf/client/core/PropertiesConfig.java:25 | the first character `trim` keeps: everything before it is a control character or a space |
| PropertiesConfig.KeyOfMeaning | src/main/java/io/disconf/client/core/PropertiesConfig.java:25-30 | a line has a key iff it is not a `#` comment and has an `=` past position 0; the key is the raw text before the first `=` |
| PropertiesConfig.LineKeys | src/main/java/io/disconf/client/core/PropertiesConfig.java:23-33 | one key (or none) per line, in line order |
| PropertiesConfig.Load | src/main/java/io/disconf/client/core/PropertiesConfig.java:18-35 | all lines are kept; each key maps to the last line that carries it; the index is valid (inside the file, one key per line) |
| PropertiesConfig.IndexIsValid | src/main/java/io/disconf/client/core/PropertiesConfig.java:25-30 | an index built from the lines points inside the file and never maps two keys to one line |
| PropertiesConfig.CommentLinesAreNotIndexed | src/main/java/io/disconf/client/core/PropertiesConfig.java:25 | no key is indexed at a `#` comment line |
| PropertiesConfig.KeyEndsAtFirstEquals | src/main/java/io/disconf/client/core/PropertiesConfig.java:26-28 | `a=b=c` is indexed under `a` |
| PropertiesConfig.KeyIsNotTrimmed | src/main/java/io/disconf/client/core/PropertiesConfig.java:28 | `k = v` is indexed under `k ` with its blank |
| PropertiesConfig.OnlyHashMarksComments | src/main/java/io/disconf/client/core/PropertiesConfig.java:25-27 | a leading `=` gives no key, an indented `#` is a comment, and `!` does not mark a comment here |
| PropertiesConfig.Replace | src/main/java/io/disconf/client/core/PropertiesConfig.java:46-52 | the rewrite keeps the number of lines |
| PropertiesConfig.ReplaceRewritesExactlySavedKeys | src/main/java/io/disconf/client/core/PropertiesConfig.java:46-52 | the line of every saved indexed key becomes its `kv` line; every other line is unchanged |
| PropertiesConfig.Appended | src/main/java/io/disconf/client/core/PropertiesConfig.java:60-63 | one `kv` line per remaining entry, in iteration order |
| PropertiesConfig.SaveToFile | src/main/java/io/disconf/client/core/PropertiesConfig.java:44-65 | the index and line count are kept; indexed saved keys have their line rewritten and no other line changes; the remaining entries are the unindexed ones; the file is the lines, then the comment block, then the remaining entries |
| PropertiesConfig.SaveNothingKeepsFile | src/main/java/io/disconf/client/core/PropertiesConfig.java:44-65 | saving nothing without a comment writes the loaded lines back unchanged, as text (the charset change is under "Left out") |
| PropertiesConfig.EscapedLineIsNotComment | src/main/java/io/disconf/client/core/PropertiesConfig.java:25 | a line whose every `#` is escaped is not taken for a comment on reload |
| PropertiesConfig.WrittenEntryIsIndexedUnderEscapedKey | src/main/java/io/disconf/client/core/PropertiesConfig.java:67-74 | a written entry whose key is non-empty and `=`-free is indexed, on the next load, under the escaped key |
| PropertiesConfig.PlainTextIsKept | src/main/java/io/disconf/client/core/PropertiesConfig.java:94-101 | text of plain printable characters passes through the escaper unchanged |
| PropertiesConfig.PlainKeyIsIndexedAgain | src/main/java/io/disconf/client/core/PropertiesConfig.java:67-74 | an entry with a plain key is found again under that very key after save and reload |
| PropertiesEscape.ToHex | src/main/java/io/disconf/client/core/PropertiesConfig.java:153-162 | an upper-case hex digit whose value is the low nibble of the argument |
| PropertiesEscape.UnicodeEscape | src/main/java/io/disconf/client/core/PropertiesConfig.java:133-139 | `\u` and four upper-case hex digits |
| PropertiesEscape.EscapeChar | src/main/java/io/disconf/client/core/PropertiesConfig.java:94-143 | backslash, `=:#!`, tab, LF, CR and form feed get a backslash escape; a space is escaped at position 0 or when asked; never empty |
| PropertiesEscape.EscapeCharIsPrintable | src/main/java/io/disconf/client/core/PropertiesConfig.java:133-142 | with unicode escaping on, one escaped character is printable ASCII |
| PropertiesEscape.ConvertFromIsPrintable | src/main/java/io/disconf/client/core/PropertiesConfig.java:90-145 | with unicode escaping on, `saveConvert` writes only characters 0x20-0x7E |
| PropertiesEscape.KvIsPrintable | src/main/java/io/disconf/client/core/PropertiesConfig.java:67-74 | a whole `key=value` line written with unicode escaping is printable ASCII |
| PropertiesEscape.HexQuadOfNibbles | src/main/java/io/disconf/client/core/PropertiesConfig.java:136-139 | the four hex digits of a Java char read back as its code |
| PropertiesEscape.EscapeCharRoundTrip | src/main/java/io/disconf/client/core/PropertiesConfig.java:94-143 | reading one escaped character back gives the character, whatever follows |
| PropertiesEscape.ConvertFromRoundTrip | src/main/java/io/disconf/client/core/PropertiesConfig.java:90-145 | the reading side undoes `saveConvert` from any position |
| PropertiesEscape.SaveConvertRoundTrip | src/main/java/io/disconf/client/core/PropertiesConfig.java:80-146 | the reading side undoes `saveConvert`: escaping loses nothing |
| PropertiesEscape.EscapeCharAvoids | src/main/java/io/disconf/client/core/PropertiesConfig.java:113-131 | escaping never writes a line break, and writes `=` only for an `=` |
| PropertiesEscape.ConvertFromAvoids | src/main/java/io/disconf/client/core/PropertiesConfig.java:90-145 | `saveConvert` output has no line break, and no `=` when the input has none |
| PropertiesEscape.KvIsOneLine | src/main/java/io/disconf/client/core/PropertiesConfig.java:67-74 | a written `key=value` entry is a single line |
| PropertiesEscape.ConvertFromEscapesHashes | src/main/java/io/disconf/client/core/PropertiesConfig.java:125-131 | every `#` that `saveConvert` writes follows a backslash |
| PropertiesComments.BreakEnd | src/main/java/io/disconf/client/core/PropertiesConfig.java:186-190 | a CR directly followed by LF is one break |
| PropertiesComments.ContinuationMark | src/main/java/io/disconf/client/core/PropertiesConfig.java:191-194 | `#` is added after a break unless the comment itself goes on with `#` or `!` |
| PropertiesComments.WriteCommentsIsCommentBlock | src/main/java/io/disconf/client/core/PropertiesConfig.java:164-203 | whatever the comment holds, only comment lines are written: the block starts with `#`, ends with a line break, and every inner break is followed by `#` or `!` |
| PropertiesComments.CommentFromMarked | src/main/java/io/disconf/client/core/PropertiesConfig.java:173-199 | the text written from any position on keeps every line break marked |
| PropertiesComments.WriteCommentsIsLatin1 | src/main/java/io/disconf/client/core/PropertiesConfig.java:175-183 | characters above 0xFF never reach the file: they are written as `\uXXXX` |
| PropertiesComments.PlainCommentIsCopied | src/main/java/io/disconf/client/core/PropertiesConfig.java:164-203 | a comment without breaks or wide characters is written as `#`, the comment, a line break |
| PropertiesComments.CrLfIsOneBreak | src/main/java/io/disconf/client/core/PropertiesConfig.java:185-194 | `a\r\nb` becomes `#a`, `#b`; a final break still gets its `#` |
| PropertiesComments.ExistingMarkIsKept | src/main/java/io/disconf/client/core/PropertiesConfig.java:191-194 | a continuation line already starting with `!` gets no second mark |
| PropertiesComments.WideCharIsEscaped | src/main/java/io/disconf/client/core/PropertiesConfig.java:178-183 | U+4E2D is written as the escape `\u4E2D` |
| ResilientStore.TryBlockWrites | src/main/java/io/disconf/client/core/ResilientActiveKeyValueStore.java:48-53 | each attempt starts with `exists`; an absent node is created, a present node with a value is overwritten at the reported version, a present node with a null value is left alone; a null value on an absent node fails before `create` |
| ResilientStore.CreateEphemeralNode | src/main/java/io/disconf/client/core/ResilientActiveKeyValueStore.java:41-67 | the method does what the attempt-by-attempt reference run does; a first attempt without exception returns with no reconnect; a first exception other than `KeeperException` is thrown at once with no reconnect; three `KeeperException`s throw the last one after three attempts and sleeps of 2, 4 and 6 seconds; every run makes at most three attempts and sleeps `2 * i` after failure `i` |
| ResilientStore.RetryLoop | src/main/java/io/disconf/client/core/ResilientActiveKeyValueStore.java:44-66 | the loop produces exactly the trace and outcome of the attempt-by-attempt reference run |
| ResilientStore.AttemptOnce | src/main/java/io/disconf/client/core/ResilientActiveKeyValueStore.java:47-64 | one loop pass: the `try` block, then for a `KeeperException` a reconnect and a sleep of `2 * attempt` seconds |
| ResilientStore.TryOnce | src/main/java/io/disconf/client/core/ResilientActiveKeyValueStore.java:47-55 | the `try` block's calls and exception |
| ResilientStore.RunFacts | src/main/java/io/disconf/client/core/ResilientActiveKeyValueStore.java:44-66 | every run makes at most three attempts, sleeps `2 * i` after failure `i`, and ends as the contract of `CreateEphemeralNode` says |
| ResilientStore.ScheduleMeaning | src/main/java/io/disconf/client/core/ResilientActiveKeyValueStore.java:61-63 | the `i`-th sleep after failure `k` lasts `RETRY_PERIOD_SECONDS * (k + i + 1)` seconds |
| ResilientStore.StepCounts | src/main/java/io/disconf/client/core/ResilientActiveKeyValueStore.java:46-64 | one attempt is one `exists`, at most one reconnect, and a retry comes with exactly one reconnect and its sleep |
| ResilientStore.RunAttempts | src/main/java/io/disconf/client/core/ResilientActiveKeyValueStore.java:26-46 | from attempt `k + 1` on at most `MAX_RETRIES - k` attempts are made |
| ResilientStore.RunSleeps | src/main/java/io/disconf/client/core/ResilientActiveKeyValueStore.java:59-63 | failure `i` is followed by a sleep of `2 * i` seconds, one sleep per reconnect |
| ResilientStore.RunReturned | src/main/java/io/disconf/client/core/ResilientActiveKeyValueStore.java:54-55 | a return follows one fewer reconnect than attempts |
| ResilientStore.RunExhausted | src/main/java/io/disconf/client/core/ResilientActiveKeyValueStore.java:46-66 | a `KeeperException` leaves the method only after every remaining attempt failed and reconnected |
| ResilientStore.FirstSuccessReturns | src/main/java/io/disconf/client/core/ResilientActiveKeyValueStore.java:54-55 | a first attempt that succeeds ends the method with no reconnect or sleep |
| ResilientStore.OtherExceptionPropagates | src/main/java/io/disconf/client/core/ResilientActiveKeyValueStore.java:56 | an exception other than `KeeperException` leaves at once, without reconnect or retry |
| ResilientStore.InterruptedSleepPropagates | src/main/java/io/disconf/client/core/ResilientActiveKeyValueStore.java:59-63 | an interrupted backoff sleep ends the method with `InterruptedException` after one reconnect |
| ResilientStore.ExhaustedThrowsLast | src/main/java/io/disconf/client/core/ResilientActiveKeyValueStore.java:44-66 | three `KeeperException` failures: the last one is thrown after three attempts, three reconnects and sleeps of 2, 4, 6 seconds |
| ResilientStore.RunAttemptsExactly | src/main/java/io/disconf/client/core/ResilientActiveKeyValueStore.java:26-46 | three failures mean exactly three attempts |
| ZookeeperWatcher.IsPropertiesExamples | src/main/java/io/disconf/client/core/ZookeeperWatcher.java:110-112 | examples: a node path ending in `.properties`, and the bare suffix, are properties nodes; `app.properties.bak`, `app.yml` and `properties` are not |
| ZookeeperWatcher.CacheFileName | src/main/java/io/disconf/client/core/ZookeeperWatcher.java:219 | the local file name is the `/`-free tail of the node after its last `/`, or the whole node when it has none |
| ZookeeperWatcher.CacheFileNameOfChild | src/main/java/io/disconf/client/core/ZookeeperWatcher.java:219 | the file name of `parent/name` is `name` |
| ZookeeperWatcher.PresencePathIsChild | src/main/java/io/disconf/client/core/ZookeeperWatcher.java:127-128 | the presence node is a child of the watched node named by the process fingerprint |
| ZookeeperWatcher.PayloadOnlyForProperties | src/main/java/io/disconf/client/core/ZookeeperWatcher.java:95-107 | only a properties node publishes key/values, and then exactly what `Properties.load` read from its byte stream; any other publishes the empty map |
| ZookeeperWatcher.ClusterHosts | src/main/java/io/disconf/client/core/ZookeeperWatcher.java:137-146 | no watched node throws; a failing child listing or a child without `_` gives null; otherwise one host per child, the text before its first `_` |
| ZookeeperWatcher.ClusterHostsExample | src/main/java/io/disconf/client/core/ZookeeperWatcher.java:141 | child `h_1` yields host `h` |
| ZookeeperWatcher.ClusterHostsNeedsEverySeparator | src/main/java/io/disconf/client/core/ZookeeperWatcher.java:141-145 | one child without `_` turns the whole answer into null |
| ZookeeperWatcher.Dispatch | src/main/java/io/disconf/client/core/ZookeeperWatcher.java:54-61 | a data change updates the event's node and then re-watches; an expired session reconnects and then re-watches; any other event does nothing |
| ZookeeperWatcher.WatchSkipsOnlyFailures | src/main/java/io/disconf/client/core/ZookeeperWatcher.java:83-92 | every node gets a watch except those whose `getData` fails; one failure does not stop the others |
| ZookeeperWatcher.ContributionNeedsDataAndProperties | src/main/java/io/disconf/client/core/ZookeeperWatcher.java:208-214 | only a properties node whose bytes were read adds key/values, and then its own |
| ZookeeperWatcher.NodeEffects | src/main/java/io/disconf/client/core/ZookeeperWatcher.java:178-206 | with the bytes read, the node is copied to the download and class-path directories and its presence node republished with the ISO-8859-1 reading of the bytes; a failed read does nothing |
| ZookeeperWatcher.PresenceAndSnapshotDecodeApart | src/main/java/io/disconf/client/core/ZookeeperWatcher.java:196-214 | a properties node contributes its UTF-8 reading to the snapshot and publishes its ISO-8859-1 reading; when the readings differ, the snapshot's key/values are not what is published |
| ZookeeperWatcher.SnapshotKeys | src/main/java/io/disconf/client/core/ZookeeperWatcher.java:157-160 | a key is in the new snapshot exactly when some updated node contributes it |
| ZookeeperWatcher.SnapshotLastWins | src/main/java/io/disconf/client/core/ZookeeperWatcher.java:158-160 | a key takes its value from the last node that contributes it |
| ZookeeperWatcher.DoUpdate | src/main/java/io/disconf/client/core/ZookeeperWatcher.java:155-176 | fails exactly when a node is null or unknown; otherwise the handler sees the old snapshot and the new one, which then becomes the old snapshot; resources are kept |
| ZookeeperWatcher.RefreshConfigs | src/main/java/io/disconf/client/core/ZookeeperWatcher.java:149-152 | the full refresh over the watched nodes always completes |
| ZookeeperWatcher.SingleUpdateIgnoresSiblings | src/main/java/io/disconf/client/core/ZookeeperWatcher.java:165-170 | a single-node update's new snapshot is that node's contribution alone |
| ZookeeperWatcher.SingleUpdateDependsOnlyOnItsNode | src/main/java/io/disconf/client/core/ZookeeperWatcher.java:165-170 | watchers agreeing on one node and the old snapshot make the same refresh for that node |
| ZookeeperWatcher.RefreshReadsEveryNode | src/main/java/io/disconf/client/core/ZookeeperWatcher.java:149-152 | a key is in the refreshed snapshot exactly when some watched properties node was read and holds it |
| ZookeeperWatcher.FailedDownloadEmptiesSnapshot | src/main/java/io/disconf/client/core/ZookeeperWatcher.java:173-188 | an update of a node whose read failed has no side effects but still replaces the old snapshot, with an empty one |
| ZookeeperWatcher.ProcessEventSnapshot | src/main/java/io/disconf/client/core/ZookeeperWatcher.java:51-62 | a data change on a known node makes that node's contribution the old snapshot; any other event leaves the watcher unchanged |
| Configurer.BaseUrl | src/main/java/io/disconf/client/DisConfPropertyConfigurer.java:99-105 | the base URL starts with `http` and ends with the configured host |
| Configurer.BaseUrlIdempotent | src/main/java/io/disconf/client/DisConfPropertyConfigurer.java:101-105 | deriving the base URL from a base URL changes nothing |
| Configurer.BaseUrlAddsSchemeOnlyWhenMissing | src/main/java/io/disconf/client/DisConfPropertyConfigurer.java:101-105 | the host is kept verbatim iff it starts with `http`; otherwise it follows `http://` |
| Configurer.HostsUrl | src/main/java/io/disconf/client/DisConfPropertyConfigurer.java:106-107 | the host-discovery URL is the base URL followed by `/api/zoo/hosts` |
| Configurer.ItemUrlPrefix | src/main/java/io/disconf/client/DisConfPropertyConfigurer.java:123-126 | the download URL prefix ends with `=`, ready for the item |
| Configurer.NodePrefix | src/main/java/io/disconf/client/DisConfPropertyConfigurer.java:127 | the node directory lies under `/disconf/` and ends with `/` |
| Configurer.UnderIsInjective | src/main/java/io/disconf/client/DisConfPropertyConfigurer.java:129-131 | different items get different node paths and URLs under one prefix |
| Configurer.UnderKeepsKind | src/main/java/io/disconf/client/DisConfPropertyConfigurer.java:127-138 | an item's node is a properties node exactly when the item is |
| Configurer.NodeCacheFileIsItem | src/main/java/io/disconf/client/core/ZookeeperWatcher.java:219 | the watcher names the local copy of a `/`-free item's node after the item |
| Configurer.MissingSettingIsNull | src/main/java/io/disconf/client/DisConfPropertyConfigurer.java:121-127 | a missing version and env appear as `null` in the node directory |
| Configurer.PropertiesOnly | src/main/java/io/disconf/client/DisConfPropertyConfigurer.java:95-96 | exactly the `.properties` entries are kept |
| Configurer.PropertiesOnlyAppend | src/main/java/io/disconf/client/DisConfPropertyConfigurer.java:94-96 | filtering a concatenation filters each part, in order |
| Configurer.WatchedNodes | src/main/java/io/disconf/client/DisConfPropertyConfigurer.java:129-131 | one watched node per item, at the item's path under the node directory |
| Configurer.Start | src/main/java/io/disconf/client/DisConfPropertyConfigurer.java:82-140 | local-only mode iff there is no bootstrap file; otherwise it throws iff `conf_server_host` is missing, the host list cannot be read, or an item repeats |
| Configurer.LocalModeLocations | src/main/java/io/disconf/client/DisConfPropertyConfigurer.java:92-97 | local mode loads the `.properties` items in order, then the local file when it is one |
| Configurer.RemoteWatchesEveryItem | src/main/java/io/disconf/client/DisConfPropertyConfigurer.java:108-134 | the watcher gets the discovered hosts and exactly one node per item, mapped to its download URL; the local file is not watched |
| Configurer.RemoteLocations | src/main/java/io/disconf/client/DisConfPropertyConfigurer.java:134-138 | Spring loads the local file and the watched properties nodes' URLs, and nothing else |
| Configurer.RemoteLocationFollowsItem | src/main/java/io/disconf/client/DisConfPropertyConfigurer.java:129-138 | an item's node is a location exactly when the item ends in `.properties` |
| Configurer.OldOrMarker | src/main/java/io/disconf/client/DisConfPropertyConfigurer.java:57-62 | a null old snapshot becomes the non-empty one-key map `old=`; a given one, even empty, passes unchanged |
| Configurer.MissingOldChangesEveryKey | src/test/java/test/spring/ConfigTest_.java:27-33 | with no old snapshot every key of the new one counts as changed, except `old` with the empty value |
| Configurer.ChangeBeanProperties | src/main/java/io/disconf/client/DisConfPropertyConfigurer.java:57-63 | with the keys visited in an iteration order of the new snapshot: a null old snapshot is compared as the marker map, so every bound key of the new one except `old` is delivered; an empty old or new snapshot delivers nothing; otherwise exactly the bound changed keys and matching known patterns are delivered, with values from the new snapshot |
| Configurer.MergeProperties | src/main/java/io/disconf/client/DisConfPropertyConfigurer.java:157-163 | the merge touches a watcher only when there is one |
| Configurer.UpdateAfterMergeComparesWithMerged | src/main/java/io/disconf/client/DisConfPropertyConfigurer.java:159-161 | after a merge the next update of a known node compares against the merged properties |

## Left out

- Spring plumbing is left out. This covers bean-factory post-processing, the
  autowire-candidate resolver swap, XML bean properties, type conversion of delivered
  values and the reflective `field.set` / `method.invoke`. A consumer is an opaque
  `Binding`, and a failed write is a `rejected` set.
- `SpringSupport.Expand` does not first look up the whole `name:default` body, and does
  not expand nested placeholders or placeholders inside resolved values. It models the
  first-`}` closing, the name before the first `:`, and the default and ignore rules.
- SpringSupport.Bodies: a placeholder closes at the first `}`. Spring counts nested `{`
  and `}` pairs, so `${a{b}}` has the body `a{b}` there and `a{b` here.
- `Properties.load` is not modelled. A read resource carries the key/values it would
  yield under each of the two decodings the watcher uses: UTF-8 for the snapshot and
  ISO-8859-1 for the presence payload. A load that fails part-way is not modelled. `PropertiesEscape.Unescape` is the reading side only for escape sequences, not
  for line continuations or whitespace rules.
- Supplementary characters are not modelled. A Dafny `char` is a Unicode scalar value,
  so it excludes the surrogate range U+D800-U+DFFF, and no string of the model can hold
  a Java surrogate pair. `saveConvert` and `writeComments` write each half of such a
  pair as its own `\uXXXX` escape (`PropertiesConfig.java:132-140`,
  `PropertiesConfig.java:175-183`). The model does not cover that output, and the
  round-trip lemmas hold only for strings without surrogates.
- No file, network or ZooKeeper I/O is performed:
  - node reads are the `Fetch` oracle;
  - the ZooKeeper answers of `createEphemeralNode` are a script of attempts;
  - the host list is a parameter;
  - the bootstrap file is a parameter.
- The JSON parsing of the host-discovery answer is left out. Any failure there is
  `HostsUnavailable`, like a failed fetch.
- The connection bookkeeping of the base class (`ConnectionWatcher`, `connect`,
  `reconnect`) is left out. A reconnect is an event that does not throw.
- The process fingerprint (local address plus a random UUID) is a parameter. The same
  holds for the local override file's URI and `getDisConfigFilePath`'s environment
  lookup.
- The creation of the local override file is left out
  (`DisConfPropertyConfigurer.java:85-91`).
- Concurrency, logging and real sleeping are left out. A sleep is a trace event.
- The watcher's constructor is not modelled: its `connect` and first `watch`
  (`ZookeeperWatcher.java:64-69`), and the startup loop that publishes presence and copies
  every resource (`ZookeeperWatcher.java:71-80`). The same effects are modelled per node by
  `ZookeeperWatcher.NodeEffects`.
- `onApplicationEvent`, `saveToLocal` and `readDisConfProperties` are left out. So are
  the contents of the file-update callbacks: a notification is only an effect.
- ZookeeperWatcher.NodeEffects: models the case where the whole copy-and-publish block
  succeeds. A failure part-way through that block, which stops the later effects, is not
  modelled.
- ZookeeperWatcher.DoUpdate: a null or unknown node makes the update `None`. It does not
  model the effects of the nodes processed before the `NullPointerException`. It does not
  model a circular placeholder either. Spring throws on one, during the diff when the raw
  text is unchanged, or during delivery when it changed. Either way `updateSpringBeans`
  ends before the snapshot swap and `process` ends before `watch()`
  (`ZookeeperWatcher.java:173-175`, `ZookeeperWatcher.java:54-57`). Here such an update
  succeeds.
- ChangeHandler.ChangedKeys: is total. A circular placeholder such as `a=${a}` makes
  Spring's helper throw `IllegalArgumentException` during the diff
  (`BeanPropertyChangeHandler.java:283-285`). Here the expansion is not recursive, so the
  key is simply unchanged.
- ChangeHandler.ResolveStringValue: the original resolver is a total function. Spring's
  installed resolver throws on an unresolvable placeholder by default, and that exception
  is not modelled. Which resolver is installed (the first embedded one, or the
  snapshot-only expander when there is none) is left to the caller.
- ChangeHandler.SelectValue: is total. In the source the value is resolved outside the
  per-binding `try` (`BeanPropertyChangeHandler.java:337`,
  `BeanPropertyChangeHandler.java:341`). So a resolution that throws, such as the
  circular `a=${a}` replacing `a=1`, ends the whole delivery. Here the value is the
  resolver's answer (`${a}` for that example), and the delivery goes on.
- ChangeHandler.Inject: an attempt is made for every selected key. In the source, an
  exception while resolving one key's value stops the attempts for the keys after it in
  the `HashMap` iteration, while the writes already made stay made
  (`BeanPropertyChangeHandler.java:333-341`). The attempts are a set, so the order of the
  writes is not modelled either. That order decides the final value of a binding filed
  under two names, such as one for `${a}${b}`.
- ChangeHandler.InjectMembership: the iff holds for a resolver that does not throw. With
  a throwing resolution the source attempts only the keys before the throw
  (`ChangeHandler.Inject` above).
- ChangeHandler.ChangeBeanProperties: inherits the `ChangeHandler.SelectValue` and
  `ChangeHandler.Inject` lines above. A resolution exception during delivery is not
  modelled.
- Configurer.ChangeBeanProperties: delegates to `ChangeHandler.ChangeBeanProperties` and
  has the same gap: a resolution exception during delivery is not modelled.
- PropertiesConfig.SaveToFile: the lines are text, not bytes. The source reads the file
  with the platform's default charset (`new FileReader(file)`, `PropertiesConfig.java:21`)
  and writes it as UTF-8 (`PropertiesConfig.java:45`). On a platform whose default is not
  UTF-8, an untouched non-ASCII line changes bytes on each save and reads back differently
  on the next load. `PropertiesConfig.SaveNothingKeepsFile` and the other save lemmas hold
  for the decoded text only.
- Configurer.Start: in remote mode the locations are a set, because they come out of a
  `HashMap` in no fixed order (`DisConfPropertyConfigurer.java:134-138`). So the model
  does not establish that `conf/app.properties` overrides the central keys, and the code
  does not guarantee it either. In local mode the local file is last
  (`Configurer.LocalModeLocations`).
- PropertiesComments.WriteComments: the comment is a returned string rather than writes
  to a `PrintWriter`. The platform line separator is a parameter.
- ResilientStore.CreateEphemeralNode: requires a script of at least `MAX_RETRIES`
  attempts, so that every possible attempt has an answer.
