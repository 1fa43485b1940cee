# SystemSentinel: verified models

Dafny models of the parts of SystemSentinel that carry state over time or transform text and
configuration, and proofs of what they promise. `dafny verify dfyconfig.toml` checks everything.

| files | what they model |
|---|---|
| `QuietHours`, `AlertPipeline`, `AlertConservation`, `AlertWakeups`, `AlertTiming`, `AlertObjects` | alert delivery: severity floor, mute, quiet-hours queue and digest, correlation window |
| `Text`, `DiscordChunks`, `DiscordFit`, `DiscordEmbeds` | splitting a long message into Discord embeds with balanced code fences |
| `ConfigTree`, `ConfigObjects`, `ConfigRaces`, `DeepMerge` | dotted keys in nested configuration, changes in place and at the same time, merging feature overrides |
| `SshdConfig`, `SshdEdits` | the managed sshd configuration file |
| `ServiceMonitor` | restart attempts and their limit, per service |
| `Confirmations` | two-step confirmations in chat |
| `Firewall` | reconciling ufw and nftables with the desired rules |
| `DataGaps`, `Percentiles`, `Durations`, `MetricLabels` | report gaps, interpolated percentiles, durations as text, label escaping |

## How the models stand for the program

* **Alert pipeline.** A step system. The code between two awaits is one atomic step, every await
  is a place where anything else may run, and a task is the rest of a coroutine waiting at one.
  `AlertPipeline.Run` is any finite sequence of enabled steps. The clock is read once per step and
  never runs backwards; a sleep ends no earlier than its deadline, possibly much later. Handing a
  message to the chat router is the moment it counts as sent, and neither that nor writing an audit
  entry fails. The language model may answer anything at any time: a timeout, an error or an
  unusable answer is "not related". Alerts are distinct message objects. The classes of
  `AlertObjects` perform the same steps on their fields; their postconditions equate the new state
  with the model's step.
* **Text.** Strings are sequences of characters with the newline as the only line break, ASCII
  white space, ASCII letters for comparing without case, and ASCII digits. A duration's number of
  seconds is exact, whatever its size.
* **Configuration.** A tree of dictionaries and scalar leaves without sharing. Loading and dumping
  the file is the identity, and its root is a dictionary. A value set by a change is a scalar, as all
  are that the two callers pass (`system_sentinel/chat/command_config.py:575-587`,
  `system_sentinel/chat/command_tune_thresholds.py:300`). `ConfigObjects` takes a change of the file
  as one step; `ConfigRaces` takes its load and its replacement apart.
* **Services.** A check sees whether a service is active and, if a restart is tried, whether it
  worked. The limit is fixed over a run, and rounds do not overlap.
* **Confirmations.** Requests and reactions take effect without suspension, so interleavings are
  sequences of them. Request identifiers are fresh, and time does not run backwards.
* **Firewall.** ufw is active and lists every stored rule once, with the protocol it was given;
  both backends list a source as it was given and do not rewrite addresses. What the program reads
  from the listings is modelled: sources normalised, no negative ports, on nftables tcp and udp only.
  An operation of a backend (set the policy, remove a rule, ensure a rule) works, or fails: then all
  is as it was, but an nftables chain it had to create may exist. The order of rules within a run is
  arbitrary, which covers the sorted one. A run's `patience` says how many of its operations work.
* **Numbers.** Floating point is modelled by exact reals, instants by whole microseconds.

## What the proofs found

* `docs/configuration.md:332` and `user_stories/US-032-quiet-hours.md:16` say critical alerts are
  sent immediately. With correlation enabled they wait for the correlation window like all others
  (`system_sentinel/alerts/handler.py:513-516`). The model follows the code.
* The quiet-hours queue can strand alerts until another one is queued: a warning queued while the
  previous digest is still being sent finds an unfinished task, which then clears the handle without
  looking at the queue again. `QueueServedIff` says exactly when that is excluded. With equal start
  and end it never is.
* A correlation window ends up to one task-start delay later than the oldest alert plus the window
  length (`BufferServedIff`).
* Sixteen characters of room for code fences fit markers of at most eleven characters, and lines of
  at most five characters less than a description (`FitIff`): a longer line can overflow one without
  any fence in the text (`SlicedLineOverflows`).
* Two configuration changes confirmed at the same time run on threads of their own; where they
  overlap, the later replacement of the file undoes the earlier one (`NoneLostIff`, `LostUpdate`).
* The sshd editor looks for a key in its exact spelling, the parser in any case; the last line below
  that spells it in another case stays in force (`EditTakesEffectIff`, `CaseVariantWins`).
* In a list of threshold recommendations a later key that is a prefix or an extension of an earlier
  one destroys what the earlier one set (`LastValueIff`).
* A desired firewall rule from `0.0.0.0/0`, or with any other spelling of "anywhere" than `any`,
  never stops drifting (`UfwConvergesIff`, `NftConvergesIff`, `EverywhereNeverMatches`).
* A desired rule of a protocol other than tcp and udp never stops drifting on nftables, where it is
  added by every run and seen by none (`NftConvergesIff`, `OtherProtocolNeverMatches`).
* On nftables every run with an unexpected rule or a difference of policy first flushes the chain,
  and then adds only the rules that were missing before: desired rules that were live are deleted,
  until the next run (`NftRunRules`) or, if the run fails, with nothing in their place (`Run`).
* An nftables chain that exists with another policy keeps it, so every enforced run flushes it: a
  chain that lists exactly the desired rules is emptied by every other run (`StuckForever`,
  `StuckRunDeletes`). The summary of an enforced run says each time that the firewall was reconciled
  (`system_sentinel/tools/firewall/tool.py:321-325`).
* In the open part of a day whose quiet hours run over midnight `quiet_hours_end` is in the past or
  now (`EndIsAheadIff`); the handler calls it only while quiet hours are active.

## Model

| member | source | states |
|---|---|---|
| AlertConservation.Conservation | system_sentinel/alerts/handler.py:496-529 | in every interleaving of every run, each alert occurs in the whole system (dropped, queued, buffered, held by a task, sent) exactly as often as it arrived, so at most once |
| AlertConservation.ExactlyOnePlace | system_sentinel/alerts/handler.py:496-589 | every alert that arrived is at one place, and every place it is at is that one: one position of one container, one task or one message |
| AlertConservation.StepKeeps | system_sentinel/alerts/correlation.py:72-137 | no step of the correlation service or of the quiet-hours flush creates, loses or duplicates an alert; an arrival adds exactly the new one |
| AlertConservation.SendFirstKeeps | system_sentinel/alerts/correlation.py:101-103 | sending a batch one message at a time moves one alert from the task to a message and keeps the rest in the task |
| AlertConservation.StartFlushKeeps | system_sentinel/alerts/correlation.py:88-104 | taking the buffer over keeps every alert, for the empty batch, the single alert, the batch sent one by one and the batch given to the language model |
| AlertConservation.ReplyKeeps | system_sentinel/alerts/correlation.py:106-137 | whatever the language model answers, the batch ends up in one correlated message or is sent one by one, never both |
| AlertWakeups.SeveritiesKept | system_sentinel/alerts/handler.py:564-589 | in every reachable state nothing critical was dropped or quiet-queued, the warning and info counts of every digest add up to its length, and digests and correlated messages (of two alerts or more) carry the highest severity of what they hold |
| AlertWakeups.HighestIsHighest | system_sentinel/alerts/correlation.py:190-193 | the severity given to a correlated message occurs in the batch and none ranks above it: critical exactly if there is a critical alert, info exactly if all are info |
| AlertWakeups.CountsAddUp | system_sentinel/alerts/handler.py:569-570 | without critical alerts the two counts of a digest add up to the number of alerts, and the warning count is positive exactly if there is a warning |
| AlertWakeups.CountIsNumber | system_sentinel/alerts/handler.py:569-570 | a count is the number of alerts of that severity |
| AlertWakeups.ArrivalRouting | system_sentinel/alerts/handler.py:496-541 | where an arrival goes: dropped exactly if below the floor or (unless critical) before the end of a mute, queued exactly if quiet hours hold back what is neither dropped nor critical, with an unfinished flush task behind it, else handed on or sent; and which mute it ends |
| AlertWakeups.QueueServedIff | system_sentinel/alerts/handler.py:504-562 | over all runs whose flushes end within d of their due time, a non-empty quiet queue always has an unfinished flush task if and only if d is shorter than the daily stretch without quiet hours (or the floor is critical) |
| AlertWakeups.QueueServedThroughout | system_sentinel/alerts/handler.py:544-562 | the invariant behind it: no reachable state strands an alert in the quiet queue while flushes are that quick |
| AlertWakeups.StrandingRunStrands | system_sentinel/alerts/handler.py:557-562 | the run that strands an alert otherwise, always possible when start and end are equal: it arrives during the digest broadcast, sees an unfinished task, and that task then clears the handle |
| AlertWakeups.QuietKept | system_sentinel/alerts/handler.py:544-562 | in every reachable state the quiet-flush handle and its task agree: only the task the handle names is unfinished, it sleeps towards a due time at which the window opens, and finishing clears the handle |
| AlertWakeups.BufferServedIff | system_sentinel/alerts/correlation.py:72-92 | over all runs whose new tasks begin within lag of being created, buffered alerts always have a flush created, a window about to sleep, or a window waking within the window length plus slack of every receipt, if and only if lag is at most slack |
| AlertWakeups.BufferServedThroughout | system_sentinel/alerts/correlation.py:72-92 | no lost wake-up in correlation: that deadline holds in every reachable state |
| AlertWakeups.LateStart | system_sentinel/alerts/correlation.py:76-83 | a run that misses any smaller slack, because the window sleeps from when its task begins and not from when the alert was submitted |
| AlertWakeups.WindowKept | system_sentinel/alerts/correlation.py:72-92 | in every reachable state only the task the handle names is an open window, and buffered alerts have either a flush about to run or an open window no younger than any of them |
| AlertWakeups.NothingLeftBehind | system_sentinel/alerts/handler.py:496-589 | once every task of a run has finished, every alert that arrived is in exactly one place, a message, or was dropped and is not critical |
| AlertTiming.DigestAtQuietEnd | system_sentinel/alerts/handler.py:544-559 | over every run: a flush task that begins at once sleeps until exactly the end of the quiet stretch in which its alert came, all of it quiet and its end not, or with equal ends until the next later occurrence; one that begins late is as late; it can be woken from then on and not before |
| AlertTiming.DigestOnTime | system_sentinel/alerts/handler.py:544-559 | over every run from where an alert made a flush task, its deadline is the end of quiet hours as seen when the alert came plus what the task was slow to begin, and nothing is sent for it earlier |
| AlertTiming.WindowNotEarly | system_sentinel/alerts/correlation.py:72-86 | over every run from where an alert opened a correlation window, the window is over no earlier than a window length later |
| AlertTiming.MuteLasts | system_sentinel/alerts/handler.py:475-537 | over every run a mute lasts until its end if no other mute command comes |
| AlertTiming.MutedAlerts | system_sentinel/alerts/handler.py:475-537 | until then every alert that is not critical is dropped, and after an unmute none is for a mute |
| AlertTiming.CorrelatedIfRelated | system_sentinel/alerts/correlation.py:106-137 | in every run there are exactly as many correlated messages as verdicts that a batch is related |
| AlertTiming.AskedAboutBatches | system_sentinel/alerts/correlation.py:94-118 | in every run the model is asked about exactly the batches of two alerts or more taken over while it was enabled, and each question is answered or waits |
| AlertTiming.SentInOrder | system_sentinel/alerts/correlation.py:101-103 | a batch sent one by one is sent in the order it came |
| QuietHours.EndIsExact | system_sentinel/alerts/quiet_hours.py:21-65 | from an active instant, with different ends, every instant up to the computed end is quiet, the end itself is not, and it is less than or exactly a day away; over midnight too |
| QuietHours.OpenAfterEnd | system_sentinel/alerts/quiet_hours.py:21-65 | after that end the window stays open for exactly the open stretch and then closes again |
| QuietHours.NextOccurrence | system_sentinel/alerts/quiet_hours.py:56-59 | with equal ends the computed end is the next strictly later occurrence of that time of day |
| QuietHours.EndIsAheadIff | system_sentinel/alerts/quiet_hours.py:48-65 | the computed end lies in the future if and only if quiet hours are active or the window does not run over midnight |
| QuietHours.ActiveIffBegun | system_sentinel/alerts/quiet_hours.py:21-27 | with different ends an instant is quiet if and only if quiet hours have begun on some day and not ended since |
| AlertObjects.AlertHandler.NotifyAndRecord | system_sentinel/alerts/handler.py:496-529 | in place: an arrival up to its first suspension point leaves exactly the state of the model step `Arrive` |
| AlertObjects.AlertHandler.IsNonCriticalMuted | system_sentinel/alerts/handler.py:531-537 | true while the mute lasts; otherwise the mute is cleared |
| AlertObjects.AlertHandler.EnsureQuietFlushScheduled | system_sentinel/alerts/handler.py:544-555 | creates and remembers a flush task for the end of quiet hours unless an unfinished one is remembered (`DigestAtQuietEnd` says when it is due) |
| AlertObjects.AlertHandler.FlushQuietAlertQueue | system_sentinel/alerts/handler.py:557-588 | in place: the waking flush empties the queue into one digest, or finishes if there is nothing to send |
| AlertObjects.AlertHandler.CountSeverities | system_sentinel/alerts/handler.py:569-570 | the loop counts warnings and infos |
| AlertObjects.AlertHandler.FinishQuietFlush | system_sentinel/alerts/handler.py:561-562 | clears the handle whichever task it names |
| AlertObjects.AlertCorrelationService.Submit | system_sentinel/alerts/correlation.py:72-76 | in place: appends the alert and opens a window unless the remembered one is unfinished |
| AlertObjects.AlertCorrelationService.BeginWindow | system_sentinel/alerts/correlation.py:82-83 | the window sleeps from when its task begins |
| AlertObjects.AlertCorrelationService.WindowElapsed | system_sentinel/alerts/correlation.py:82-86 | the window creates a flush of its own and is done |
| AlertObjects.AlertCorrelationService.Flush | system_sentinel/alerts/correlation.py:88-104 | in place: takes the whole buffer and sends it, asks about it, or does nothing |
| AlertObjects.AlertCorrelationService.HandleReply | system_sentinel/alerts/correlation.py:106-137 | one correlated message of the highest severity if the alerts are related, else the batch one by one |
| AlertObjects.AlertCorrelationService.MaxSeverity | system_sentinel/alerts/correlation.py:190-193 | the loop over the batch finds the highest severity |
| AlertObjects.Perform | system_sentinel/alerts/handler.py:475-589 | the objects carry out every enabled step of the model, and leave exactly the state of that step |
| AlertObjects.Replay | system_sentinel/alerts/handler.py:475-589 | every run of the model is a run of the objects with the same final state, so what holds of all reachable states holds of them |
| DiscordChunks.RawKeepsText | system_sentinel/chat/adapters/discord/adapter.py:54-74 | for every text and chunk size, no raw chunk is empty or longer than the safe size and together they are the text |
| DiscordChunks.ChunksAreWholeLines | system_sentinel/chat/adapters/discord/adapter.py:57-74 | without overlong lines the raw chunks are whole lines, each time as many as fit: the next line would not have |
| DiscordChunks.SlicesAreFull | system_sentinel/chat/adapters/discord/adapter.py:65-66 | all slices of an overlong line but the last have the safe size |
| DiscordChunks.BalancedIsEven | system_sentinel/chat/adapters/discord/adapter.py:76-99 | every balanced chunk has an even number of fence lines |
| DiscordChunks.OpenIsOdd | system_sentinel/chat/adapters/discord/adapter.py:83-89 | a fence is open after some lines exactly when their fences, with the one open before, are odd in number; what is open is a fence marker |
| DiscordChunks.FencesJoined | system_sentinel/chat/adapters/discord/adapter.py:81-92 | fence lines add up over texts joined by a newline, which is why the inserted marker and closing fence change the parity by one each |
| DiscordChunks.ReopenedByItsLine | system_sentinel/chat/adapters/discord/adapter.py:79-92 | what reopens a fence in a chunk is the last fence line, stripped, of the chunks before |
| DiscordFit.FitIff | system_sentinel/chat/adapters/discord/adapter.py:54-99 | for every positive chunk size: all texts with lines of at most `most` characters and fence markers of at most `k` have descriptions that fit, if and only if the chunk size is at most 27, or `most` is at most five less than it and `k` (or `most`) at most 11 |
| DiscordFit.ShortLinesFit | system_sentinel/chat/adapters/discord/adapter.py:43-92 | the half that serves a sender: lines of at most five characters less than the chunk size and markers of at most 11 suffice, also where a line is sliced |
| DiscordFit.ShortMarkersFit | system_sentinel/chat/adapters/discord/adapter.py:43-92 | chunks whose fence lines have at most 11 characters fit, for every positive chunk size, also those of 16 or less |
| DiscordFit.SlicedLineOverflows | system_sentinel/chat/adapters/discord/adapter.py:62-92 | one character more in a line does not: a text without any fence that does not fit, because a slice of its longest line reads as a fence |
| DiscordFit.LongMarkerOverflows | system_sentinel/chat/adapters/discord/adapter.py:76-92 | one character more in a marker does not, even if no line is longer than the marker |
| DiscordChunks.SliceLine | system_sentinel/chat/adapters/discord/adapter.py:65-66 | the loop over offsets gives the slices of the line |
| DiscordChunks.RawChunks | system_sentinel/chat/adapters/discord/adapter.py:57-74 | the packing loop gives the raw chunks of `RawKeepsText` |
| DiscordChunks.FenceAfterChunk | system_sentinel/chat/adapters/discord/adapter.py:83-89 | the loop over a chunk's lines finds the fence open after them |
| DiscordChunks.SplitForEmbedDescriptions | system_sentinel/chat/adapters/discord/adapter.py:54-99 | a text within the chunk size is one chunk; otherwise each balanced chunk is its raw chunk between exactly what reopens the fence open before it and what closes the one open after it |
| DiscordEmbeds.BuildEmbed | system_sentinel/chat/adapters/discord/adapter.py:228-249 | an embed keeps every limit of the service and holds as many of the fields, in order, as the limits allow |
| DiscordEmbeds.WithinServiceLimits | system_sentinel/chat/adapters/discord/adapter.py:36-41 | in numbers: 256 characters of title, 4096 of description, 25 fields of 256 and 1024, 6000 in all |
| DiscordEmbeds.FieldShowsItself | system_sentinel/chat/adapters/discord/adapter.py:243-244 | a field shows its own name and value, whole if they fit, cut if not, with stand-ins for empty ones |
| DiscordEmbeds.PartsInOrder | system_sentinel/chat/adapters/discord/adapter.py:251-271 | just the first part has the message's fields, the parts of a split message are numbered from one in their titles, and a message that is not split is its own part |
| DiscordEmbeds.TitlesDiffer | system_sentinel/chat/adapters/discord/adapter.py:259-267 | the titles of the parts tell them apart and begin with the title of the message |
| DiscordEmbeds.BuildEmbeds | system_sentinel/chat/adapters/discord/adapter.py:251-272 | one embed for each description chunk, with its numbered title and description, and fields on the first only |
| DiscordEmbeds.AtLeastTwo | system_sentinel/chat/adapters/discord/adapter.py:251-254 | a text longer than the chunk size gives two chunks or more |
| DiscordEmbeds.EmbedsCarryText | system_sentinel/chat/adapters/discord/adapter.py:228-272 | a message whose lines have at most 4091 characters and whose fence markers have at most 11 is carried whole: no description is cut, and without the inserted prefix and suffix they are the raw chunks and together the text |
| DiscordEmbeds.Truncate | system_sentinel/chat/adapters/discord/adapter.py:46-51 | the value itself if within the limit; otherwise as long as the limit and, but for the last character, the start of the value |
| ConfigTree.JoinParts | system_sentinel/chat/command_config.py:614-625 | joining the parts of a dotted key gives the key, so different keys have different paths |
| ConfigTree.PartsAreDotless | system_sentinel/chat/command_config.py:614-625 | a key is split at every dot: no part has one |
| ConfigTree.PartsJoined | system_sentinel/chat/command_config.py:614-625 | parts without dots are given back by the key they are joined to |
| ConfigTree.GetAtSet | system_sentinel/chat/command_config.py:612-631 | get after set finds the value, and inside it what it holds |
| ConfigTree.GetAboveSet | system_sentinel/chat/command_config.py:612-631 | above the path a set is a set of the rest of the path in what was there |
| ConfigTree.GetBesideSet | system_sentinel/chat/command_config.py:612-631 | a set changes nothing at any path where neither is a prefix of the other, even if it replaces something on the way |
| ConfigTree.ScalarLost | system_sentinel/chat/command_config.py:623-631 | a set at a proper prefix or extension of a key leaves no scalar at the key |
| ConfigTree.AfterChanges | system_sentinel/chat/command_dispatcher.py:704-712 | what a list of changes leaves at the key of one of them, after any number of changes |
| ConfigTree.LastValueIff | system_sentinel/chat/command_dispatcher.py:704-712 | a list of recommendations leaves a key at the last value given for it if and only if no later key is a prefix or an extension of it |
| ConfigObjects.GetNestedValue | system_sentinel/chat/command_config.py:612-620 | the cursor loop over dictionaries on the heap reads the tree they stand for |
| ConfigObjects.LoadUnder | system_sentinel/chat/command_config.py:657 | builds, on the heap, unshared dictionaries that stand for the loaded document |
| ConfigObjects.Dump | system_sentinel/chat/command_config.py:660 | writes out exactly the tree the dictionaries stand for |
| ConfigObjects.NestedUnder | system_sentinel/chat/command_config.py:627-630 | finds or makes the dictionary under one part, replacing what is no dictionary |
| ConfigObjects.SetNestedValue | system_sentinel/chat/command_config.py:623-631 | in place, for any tree as the value: the dictionaries stand for the tree with the value set, without sharing, none but the old and fresh ones in it |
| ConfigObjects.ConfigFile.ApplyConfigChange | system_sentinel/chat/command_config.py:646-674 | load, read, set in place, dump and replace: the old value is returned and the document has the new one, or is as before if the write failed |
| ConfigObjects.ConfigFile.ExecuteThresholdTuning | system_sentinel/chat/command_dispatcher.py:693-741 | recommendations whose write works are reported applied, the others failed, in order; the document is that of all the writes in order, those that other confirmations made in between included |
| ConfigObjects.ChosenFrom | system_sentinel/chat/command_dispatcher.py:704-741 | the list reported applied holds exactly the changes whose writes worked, the other exactly the rest, in order |
| ConfigObjects.WrittenAlone | system_sentinel/chat/command_dispatcher.py:704-741 | with no other writer, what is written are the changes reported applied |
| ConfigRaces.FileHoldsSurvivors | system_sentinel/chat/command_config.py:646-674 | over every interleaving of any number of changes on threads, the file holds exactly the surviving changes, told from the steps alone: a replacement keeps those its copy was loaded with and adds its own |
| ConfigRaces.NoneLostIff | system_sentinel/chat/command_dispatcher.py:518-522 | no confirmed change is lost if and only if none replaces the file between the load and the replacement of another; otherwise fewer changes are in the file than were made |
| ConfigRaces.LostUpdate | system_sentinel/chat/command_dispatcher.py:704-712 | two changes of unrelated keys that overlap: the second is in the file, the first key reads as before |
| DeepMerge.DeepMerge | system_sentinel/setup/optional_features.py:237-245 | the recursive loop over the override's keys, in any order, merges it |
| DeepMerge.Idempotent | system_sentinel/setup/optional_features.py:237-245 | merging an override a second time changes nothing |
| DeepMerge.LookMerged | system_sentinel/setup/optional_features.py:237-245 | a lookup in the merged tree: the override's leaf where it has one, the base's value where the override has no entry on the way, both merged where both have dictionaries |
| DeepMerge.OrderIrrelevantIff | system_sentinel/setup/optional_features.py:237-245 | two overrides merge in either order onto every base with the same result if and only if they agree on every shared leaf and neither has a leaf where the other has a dictionary |
| DeepMerge.AnyOrder | system_sentinel/setup/optional_features.py:332-334 | any number of pairwise compatible overrides fold in any order with the same result |
| DeepMerge.FoldAgain | system_sentinel/setup/optional_features.py:332-334 | folding them all a second time changes nothing |
| DeepMerge.SetIsMerge | system_sentinel/chat/command_config.py:623-631 | setting a dotted key to a scalar is merging an override that holds only that key |
| DeepMerge.FeaturesCompatible | system_sentinel/setup/optional_features.py:219-234 | the overrides of any two features are compatible |
| DeepMerge.EnableFeatures | system_sentinel/setup/optional_features.py:332-334 | the loop folds the overrides of the enabled features, skipping those without |
| DeepMerge.FeatureOrderIrrelevant | system_sentinel/setup/optional_features.py:219-334 | the configuration written depends neither on the order of the features nor on how often the step is run |
| DeepMerge.FeatureEnabled | system_sentinel/setup/optional_features.py:219-234 | the configuration written has every setting a chosen feature is enabled by, whatever else is chosen and whatever it said before |
| DeepMerge.NothingElse | system_sentinel/setup/optional_features.py:219-234 | a feature's override has no other leaves than those it is enabled by |
| DeepMerge.SettingsTakeEffect | system_sentinel/setup/optional_features.py:332-334 | every leaf of a chosen feature's override is in the configuration written |
| DeepMerge.OthersKept | system_sentinel/setup/optional_features.py:237-245 | a path no override says anything about leads to what it led to before |
| SshdEdits.EditTakesEffectIff | system_sentinel/tools/hardening/tool.py:557-583 | an edited key reads as its new value if and only if no line has its exact spelling, or the last line after those that spells it in another case, if any, has that value |
| SshdEdits.EditTakesEffect | system_sentinel/tools/hardening/tool.py:557-583 | in particular whenever every line that reads as the key has it in its exact spelling |
| SshdEdits.CaseVariantWins | system_sentinel/tools/hardening/tool.py:558-571 | a file where the edit has no effect: the search ignores case, the replacement does not |
| SshdEdits.OtherKeysKept | system_sentinel/tools/hardening/tool.py:557-583 | every other key, case aside, reads as before the edit |
| SshdEdits.EditTwice | system_sentinel/tools/hardening/tool.py:570-583 | editing twice is editing once, for every text |
| SshdEdits.EditRefinesPut | system_sentinel/tools/hardening/tool.py:570-583 | editing the file of a table of settings gives the file of the table with the key's value replaced or the setting appended |
| SshdEdits.EditsKeepLast | system_sentinel/tools/hardening/tool.py:491-494 | after any edits of a file that did not exist, a key spelled one way is read from exactly one line, as the last value it was given |
| SshdEdits.PutsKeepLast | system_sentinel/tools/hardening/tool.py:491-494 | the table behind it has distinct keys: exactly those edited, each with its last value |
| SshdEdits.SettingParses | system_sentinel/tools/hardening/tool.py:557-583 | the line an edit writes reads as its value for its own key, in any case of it, and for no other key |
| SshdEdits.SameFoldIff | system_sentinel/tools/hardening/tool.py:558 | case aside is: with the same lower-case form |
| Text.LowerIsSmall | system_sentinel/tools/hardening/tool.py:558 | lower case changes the letters from A to Z, each to its small one, and nothing else |
| SshdEdits.EditedValue | system_sentinel/tools/hardening/tool.py:583 | cutting trailing white space from the file changes no key's value |
| SshdEdits.OtherLinesKept | system_sentinel/tools/hardening/tool.py:570-583 | an edit leaves every line without the key where and as it is, comments and blank lines too, but for the white space the file ends in |
| SshdEdits.NewSettingIsLast | system_sentinel/tools/hardening/tool.py:581-583 | without a line that has the key, the setting becomes the last line |
| SshdEdits.CommentIgnored | system_sentinel/tools/hardening/tool.py:561 | what follows a hash sign changes nothing that a line reads as |
| SshdEdits.SpacedSettingReads | system_sentinel/tools/hardening/tool.py:558-567 | a setting reads as its value with any white space around and between, and a comment |
| SshdConfig.ParseLastKeyValue | system_sentinel/tools/hardening/tool.py:557-567 | the loop finds the last line that reads as the key |
| SshdConfig.ReplaceOrAppendKey | system_sentinel/tools/hardening/tool.py:570-583 | the loop replaces every matching line or appends the setting |
| SshdConfig.ManagedFile.EnsureSshSetting | system_sentinel/tools/hardening/tool.py:491-494 | in place: the file is edited, from empty if it did not exist |
| ServiceMonitor.TraceIsOutages | system_sentinel/monitors/services.py:65-139 | over any checks of a service its events are those of its past outages and then of the failed restarts of the current one: attempts numbered 1..k with k at most the limit, the memory telling k and whether it is exhausted |
| ServiceMonitor.ExhaustionsPublished | system_sentinel/monitors/services.py:130-139 | over every run exhaustion is published once for each past outage whose failed restarts reached the limit, once more if the current one has, and never otherwise |
| ServiceMonitor.FailingExhausts | system_sentinel/monitors/services.py:130-139 | exhaustion is told exactly once if an outage's failed restarts reach the limit and never otherwise |
| ServiceMonitor.OutageEnds | system_sentinel/monitors/services.py:67-70 | an active service or a restart that works ends the outage and starts the numbering afresh |
| ServiceMonitor.OutageGoesOn | system_sentinel/monitors/services.py:72-139 | a failed restart continues the outage; an exhausted service publishes nothing |
| ServiceMonitor.ConfiguredServices | system_sentinel/monitors/services.py:141-150 | the configured services are the stripped non-empty entries, each once, in the order of their first occurrences |
| ServiceMonitor.DueIff | system_sentinel/monitors/services.py:45-61 | a round checks the services if and only if there are some and it comes no sooner than its interval after every earlier round that did |
| ServiceMonitor.Monitor.CheckService | system_sentinel/monitors/services.py:65-139 | in place: one check changes the memory and events of its own service alone |
| ServiceMonitor.Monitor.Collect | system_sentinel/monitors/services.py:44-139 | in place: a due round checks every configured service once, any other changes nothing |
| ServiceMonitor.Monitor.Watch | system_sentinel/monitors/services.py:44-139 | over any rounds the events of a service are the trace of its own checks, whatever happens to the others |
| Confirmations.ExecutedMatches | system_sentinel/chat/command_dispatcher.py:209-263 | in every run each execution answers an earlier request of the same kind, adapter, channel and user, made at most 300 s before and neither replaced nor taken up since; no request is executed twice |
| Confirmations.EventsAreCaused | system_sentinel/chat/command_dispatcher.py:209-263 | in every run each event has an input of its own as its cause, in order: a request its proposal, an execution or expiry a confirming reaction of the same user at the same time; and no proposal is lost |
| Confirmations.OthersChangeNothing | system_sentinel/chat/command_dispatcher.py:210-211 | a run without its non-confirming reactions ends with the same pending requests and the same log |
| Confirmations.ReactionConsumesOne | system_sentinel/chat/command_dispatcher.py:209-251 | a reaction takes up at most one request, the outstanding one of the first kind in the order config, tuning, action; it is executed exactly if its 300 s are not over and all others keep waiting |
| Confirmations.PendingIsOutstanding | system_sentinel/chat/command_dispatcher.py:209-263 | in every run the three pending maps hold exactly the requests that, told from the log of events alone, are outstanding |
| Confirmations.AlwaysSound | system_sentinel/chat/command_dispatcher.py:209-263 | the invariant behind them: fresh request identifiers, ordered times, sound answers |
| Confirmations.ChatCommandDispatcher.HandleReaction | system_sentinel/chat/command_dispatcher.py:209-251 | in place: the reaction step, up to where what it confirms is handed over |
| Confirmations.ChatCommandDispatcher.RequestConfirmation | system_sentinel/chat/command_dispatcher.py:253-263 | in place: a new action request replaces the one waiting |
| Confirmations.ChatCommandDispatcher.ProposeConfigChange | system_sentinel/chat/command_dispatcher.py:501-505 | in place: a new config-change request replaces the one waiting |
| Confirmations.ChatCommandDispatcher.ProposeThresholdTuning | system_sentinel/chat/command_dispatcher.py:680-689 | in place: a tuning with recommendations replaces the one waiting; one without leaves it |
| Firewall.ListedIffCanonical | system_sentinel/tools/firewall/backends.py:306-311 | a rule is listed back as written if and only if its source has no white space around it and is `any` or, case aside, none of the spellings of it; what is listed is always so |
| Firewall.SpellingsOfAny | system_sentinel/tools/firewall/backends.py:306-311 | exactly any and anywhere in any case, 0.0.0.0/0 and ::/0, white space aside, are listed as any |
| Firewall.ListableIff | system_sentinel/tools/firewall/backends.py:225-311 | in plain terms: which sources, ports and protocols are listed back as written |
| Firewall.ListingIffListable | system_sentinel/tools/firewall/backends.py:225-311 | a stored rule is listed back, and as it was written, if and only if its source is written that way, its port is not negative and, on nftables, its protocol is tcp or udp; what is listed is always so |
| Firewall.UfwConvergesIff | system_sentinel/tools/firewall/tool.py:65-101 | on ufw enforced runs ever end the drift if and only if every desired rule is listed back as written |
| Firewall.UfwConverges | system_sentinel/tools/firewall/backends.py:84-115 | then one enforced run reaches exactly the desired rules and policy, and the next finds no drift |
| Firewall.NftConvergesIff | system_sentinel/tools/firewall/backends.py:148-224 | on nftables enforced runs ever end the drift if and only if every desired rule is listed back as written, tcp or udp therefore, and no chain exists with another policy than the desired one; then two runs suffice |
| Firewall.NftEndsWith | system_sentinel/tools/firewall/backends.py:148-224 | they end with exactly the desired rules and a chain that drops the rest if the policy is to deny and accepts it if it is to allow; a chain made without a desired policy drops |
| Firewall.NftOneRunIff | system_sentinel/tools/firewall/backends.py:148-224 | for desired rules that are listed back as written, one run suffices if and only if no chain exists with another policy, and there was no chain, nothing unexpected in it, or nothing desired in it yet |
| Firewall.NftRunRules | system_sentinel/tools/firewall/backends.py:148-224 | for such rules a complete run with a flush due leaves just the desired rules that were missing, and deletes desired rules if and only if a flush was due and some were live |
| Firewall.StuckForever | system_sentinel/tools/firewall/backends.py:148-196 | an existing chain with another policy keeps it over any number of runs, and its rules alternate from run to run between the desired ones that were missing at first and those that were not |
| Firewall.StuckRunDeletes | system_sentinel/tools/firewall/backends.py:148-196 | such a chain that lists exactly the desired rules loses them all to every other run |
| Firewall.NeverMatches | system_sentinel/tools/firewall/backends.py:225-311 | a desired rule that is not listed back as written drifts from every live state |
| Firewall.EverywhereNeverMatches | system_sentinel/tools/firewall/backends.py:306-311 | a desired rule from 0.0.0.0/0 is listed back as one from any, so the drift never ends on either backend |
| Firewall.OtherProtocolNeverMatches | system_sentinel/tools/firewall/backends.py:273-292 | on nftables a desired rule of a protocol other than tcp and udp is never listed: it is missing after any number of runs, each of which adds it, and the drift never ends |
| Firewall.NormalizePolicyForNft | system_sentinel/tools/firewall/backends.py:262-320 | deny is written as drop, allow as accept, and read back as the same policy |
| Firewall.FirewallTool.Run | system_sentinel/tools/firewall/tool.py:59-101 | one alert per run with drift; a matching or unenforced run changes nothing; an enforced one leaves exactly the reconciled state or fails; a failed one has added nothing but missing desired rules, has lost no desired rule on ufw, and on nftables has lost every live rule exactly if a flush was due and one operation worked |
| Firewall.FirewallTool.Enforce | system_sentinel/tools/firewall/tool.py:88-99 | policy, removals, additions: the reconciled state if as many operations work as there are differences, and otherwise the same halfway states |
| Firewall.FirewallTool.RemoveUnexpected | system_sentinel/tools/firewall/tool.py:93-95 | the removals, in any order: those rules gone on ufw, the chain empty on nftables once one of them worked |
| Firewall.FirewallTool.EnsureMissing | system_sentinel/tools/firewall/tool.py:96-98 | the additions, in any order: those rules listed as the backend reads them back, no live one lost |
| DataGaps.GapsAreGaps | system_sentinel/db/metrics_repository.py:60-85 | reported gaps exceed one and a half intervals, hold no sample, lie in the window, are ordered and do not overlap |
| DataGaps.StretchInOneGap | system_sentinel/db/metrics_repository.py:60-85 | every sample-free stretch of the window that long lies inside exactly one reported gap |
| DataGaps.TooLongInSeconds | system_sentinel/db/metrics_repository.py:67 | too long is more than one and a half times the interval in seconds |
| DataGaps.DetectGaps | system_sentinel/db/metrics_repository.py:60-85 | the loop reports the long steps between neighbours, the window's ends included; without samples the whole window |
| Percentiles.PercentileMonotone | system_sentinel/chat/command_tune_thresholds.py:61-72 | percentiles grow with p and lie between the least and greatest value, reached at 0 and 100 |
| Percentiles.PercentileAtRank | system_sentinel/chat/command_tune_thresholds.py:66-72 | at the percentage k/(n-1) the percentile is the k-th of the n values in order |
| Percentiles.PercentileIsStraight | system_sentinel/chat/command_tune_thresholds.py:66-72 | between the percentages of neighbouring ranks it runs along a straight line: its differences are proportional to those of the percentage |
| Percentiles.PercentileOfPermutation | system_sentinel/chat/command_tune_thresholds.py:61-72 | a percentile depends on the values alone, not on their order |
| Percentiles.SortedKeeps | system_sentinel/chat/command_tune_thresholds.py:65 | the sort is ascending and keeps every value as often as it occurs |
| Percentiles.MeanBounds | system_sentinel/chat/command_tune_thresholds.py:75-85 | the mean lies between minimum and peak |
| Percentiles.MeanIff | system_sentinel/chat/command_tune_thresholds.py:80 | the mean is the one value from which the deviations cancel out |
| Percentiles.SumAppend | system_sentinel/chat/command_tune_thresholds.py:80 | the sum of two lists together is the sum of theirs |
| Percentiles.SumOne | system_sentinel/chat/command_tune_thresholds.py:80 | the sum of one value is the value, and of none zero |
| Percentiles.StatsOrdered | system_sentinel/chat/command_tune_thresholds.py:75-85 | minimum <= p95 <= p99 <= peak and minimum <= avg <= peak for every non-empty list, minimum and peak being its first and last value in order |
| Percentiles.StatsOfHundredAndOne | system_sentinel/chat/command_tune_thresholds.py:75-85 | of 101 samples p95 has 95 before it in order and p99 has 99; without samples there are no statistics and every percentile is 0 |
| Durations.WrittenParses | system_sentinel/core/time_config.py:9-27 | every text of the duration language, with any white space around it, parses to 60 * (60 * (24 * days + hours) + minutes) + seconds, flagged exactly if minutes or seconds exceed 59, or days are given and hours exceed 23 |
| Durations.ParsedIsWritten | system_sentinel/core/time_config.py:9-27 | whatever parses is, white space around it aside, a text of that language and parses to that number of seconds and flag |
| Durations.PrintedParses | system_sentinel/core/time_config.py:14-65 | parsing the printed form of any number of seconds gives back its whole seconds, flagged canonical, however many digits the hours have |
| Durations.PrintedInTwoDigits | system_sentinel/core/time_config.py:60-65 | a printed number has two digits of minutes, two of seconds and two or more of hours |
| MetricLabels.EscapeIsOnePass | system_sentinel/metrics_export/http_server.py:50-51 | the three chained replacements are the one-pass escaping of the text format |
| MetricLabels.AsWritten | system_sentinel/metrics_export/http_server.py:50-57 | the escapes and a label, as they are written out |
| MetricLabels.EscapeReadsBack | system_sentinel/metrics_export/http_server.py:50-51 | an escaped value holds no raw newline and is read back from between its quotes, so no quote in it is unescaped and no two values escape alike |
| MetricLabels.SampleReadsBack | system_sentinel/metrics_export/http_server.py:54-58 | a whole sample line reads back as its name, labels and value, so different samples never render alike |
| MetricLabels.SampleIsOneLine | system_sentinel/metrics_export/http_server.py:54-58 | a sample is one line whatever its label values |

## Left out

- ServiceMonitor.Monitor.CheckService: the texts of events (status, journal excerpt, command output) and the audit entry are left out.
- Confirmations.ChatCommandDispatcher.HandleReaction: ends where the confirmed change, tuning or command is handed over; for tunings `ConfigObjects` takes up from there.
- Firewall.FirewallTool.Run: the state captured after enforcing and the texts of the result are left out.
- DeepMerge.EnableFeatures: reading, creating and writing the file around the loop are left out.
- ConfigObjects.ConfigFile.ExecuteThresholdTuning: other confirmations write between its changes and not during one; `ConfigRaces` has the overlaps.
- Percentiles.StatsOrdered: over exact reals; rounding of floats is not modelled.
- Percentiles.PercentileMonotone: over exact reals; rounding of floats is not modelled.
- Durations.PrintedParses: for numbers of seconds that are not negative; the interpreter's limit on the digits of a number is not modelled.
- Cancellation and shutdown of the alert tasks, and exceptions from chat or audit.
- Parsing the quiet-hours setting, the per-event severity settings and the mute command's payload.
- The texts of alerts, digests, prompts and correlated messages, and the remediation messages that follow a critical alert.
- Discord itself: colours, replies, attachments, sending, reading reactions.
- YAML, JSON, SQLite, subprocesses, and the text output of ufw and nft, with ufw's separate lines for IPv6.
- Parsing the desired firewall rules and policy, and the schedule of the tool.
- The effective sshd setting over several files, and the other hardening checks.
- The defaults a duration setting falls back to, and its warnings.
- Cooldowns, model routing, the setup wizard's sequence, connection scoring, network deltas and snapshot pruning: each stands on its own and shares no state with what is modelled here.
