# Verified model of the SWT6621S Wi-Fi driver's protocols

This project models the algorithms of the SeekWave SWT6621S driver under
`patches/wireless/vs6621s/vs6621s/swt6621s_wifi/` in Dafny and proves what they keep over every input and every run.
`dafny verify dfyconfig.toml` verifies all of it.

| area | modules | main results |
|---|---|---|
| DFS radar detector | `DfsSpec`, `DfsSequences`, `DfsRuns`, `DfsDetection`, `DfsChecks`, `DfsDriver` | a report is always backed by a pulse train with few false pulses among it (`RadarIsJustified`); such a train is reported (`NoisyTrainIsReported`), and exactly when a steady one is (`BankReportsIffReceptive`); queue, window and pool invariants of every reachable state (`RunKeeps`) |
| Multiple-BSSID profiles | `Elements`, `MbssidSpec`, `MbssidMeaning`, `Mbssid`, `Words`, `BssidAddress` | the byte-level walk writes exactly the list-level override (`ExpandProfile`); what the new list contains and in which order (`ExpansionMeaning`, `InheritedByCount`); no element is used twice and none is lost (`ExpansionIsComplete`); derived addresses (`AddressMeaning`, `AddressesDiffer`) |
| EDMA rings | `EdmaPosting`, `EdmaCompletion` | posted buffers never overrun the ring and are conserved (`RefillSkb`, `TxNodeIsr`, `RxData`); packets come out in order, exactly once, while the quota lasts (`Poll`) |
| Connection retries | `StaRetry` | at most 12 authentication and 17 association commands per attempt, both reached (`CommandsAreBounded`, `TwelveAuths`, `SeventeenAssocs`); associated iff that was granted and nothing ended it since (`AssocedMeaning`) |
| Peers and crash recovery | `PeerTables`, `PeerRecovery`, `PeerDriver` | consistency, single release and single notification over every interleaving (`RunKeeps`, `CrashedPeersAreFreedOnce`); a refused peer never transmits again (`RefusedForGood`); exactly who is told, and what (`Core.Work`, `TellKinds`) |
| Wake-on-WLAN | `WowPattern`, `WowBatch`, `Powers` | compiled rules mean what mask and pattern mean (`Compile`); batches concatenate to the enabled rules and rule numbers map back (`BatchesConcatenate`, `RemapInverts`) |
| RRM reports | `RrmSplit` | fragments are whole elements, under the limit, complete, and as few as possible (`ReportIsDelivered`, `FewestFragments`) |
| Regulatory rules | `Regdomain` | exactly when the intervals sent to the firmware say what the per-channel lookup says (`IntervalsAreExact`) |

Code that changes state step by step is modelled by classes and methods with loops (`DfsDriver`, `Mbssid`, `EdmaPosting`,
`EdmaCompletion`, `StaRetry.StaCore`, `PeerDriver.Core`, `WowPattern.Compile`, `WowBatch`, `RrmSplit.Split`, `Regdomain`);
each method is proved against a function on values, and the properties are proved of that function. No proof relies on
automatic induction: lemmas carry `{:induction false}` and say their induction steps outright.

## What the code does that one would not expect

- The search for an element at offset 0 compares against a length that wraps around, so the non-inheritance element and
  the continuation of a profile are never found (`MbssidSpec.OffsetZeroFindsNothing`; skw_mbssid.c:44, 61-63, 194-195).
- A channel availability check that ends without radar resets no detector, and configuring the channel for monitoring
  initialises the lists without returning their elements and keeps `count` and `last_ts` (skw_dfs.c:508-525, 571-580,
  616-634). The elements are lost iff the lists were not empty (`DfsRuns.NothingLost`); the old count stays part of the
  new one until a reset (`DfsRuns.StaleSteps`); and a steady train that only one rule can report is reported iff that
  rule's stale count leaves room for two pulses and
  the first pulse is not within the tolerance after the old `last_ts` (`DfsDetection.BankReportsIffReceptive`). Enough
  checks with one pulse each make a whole table deaf, so that monitoring reports nothing any more
  (`DfsChecks.ChecksDeafen`): for the ETSI table 89 checks with a pulse of 1 microsecond (`DfsChecks.EtsiChecksDeafen`).
- Pulses stored between the last two of a new sequence are in no count, so radar is reported with more pulses that do not
  match than `nr_pri` allows: with the Japanese table, pulses of width 60 with chirp at 16, 32, 48, 64 and 1000 microseconds
  are reported, although three of the five are no part of the train (`DfsChecks.UncountedPulses`; skw_dfs.c:308-360). All
  other pulses since the first of the train are counted, exactly (`DfsRuns.RadarIsJustified`).
- Near time zero the window of a new sequence wraps and is empty, so it counts two pulses only
  (`DfsSequences.NewSequenceMeaning`; skw_dfs.c:329).
- Setting up the receive channel posts a whole ring whatever is outstanding: sound iff nothing is
  (`EdmaPosting.RxRequestChannel.InitDataChan`; skw_edma.c:365-408).
- Some late or repeated authentication answers, and roaming, start a phase anew that was over: an event keeps the bounds on
  the commands iff it is none of these (`StaRetry.StepPays`), and with them there is no bound on association commands
  (`StaRetry.LateAnswersBreakTheBound`; skw_msg.c:143-207).
- A poll of a completion ring charges its quota at every packet with the total so far, not with the packet
  (`EdmaCompletion.CompletionRing.Poll`; skw_edma.c:938-942).
- When the number of enabled wake rules is a multiple of 20 (zero included), the last command carries no rule and the
  action of a zeroed buffer, which is "disable all" (`WowBatch.LastSwitchesOff`; skw_iw.c:738-775, 840-865).
- A second crash during recovery forgets peers bound since the first one without freeing them, and it loses nobody iff
  there are none (`PeerRecovery.NestedPrepareLoses`; skw_recovery.c:233-268).
- After a recovery `actived_ctx` of an access point is still too high by the number of peers active at the crash
  (`PeerRecovery.CountAfterRecovery`; skw_recovery.c:122, 129-160); over runs, an exact count stays exact in a step iff the
  step is no crash with an active context and no station recovery with one (`PeerRecovery.ExactIffCalm`).
- A failed restart of an access point is not reported, so its saved peers are released without being notified
  (`PeerDriver.UntoldWhenRestartFails`; skw_recovery.c:162-201, 361).
- With the 6 GHz band enabled channel numbers start again at 1, and intervals of two bands can cover the same number: the
  intervals are exact iff no channel has a number between two numbers of a rule it does not belong to
  (`Regdomain.IntervalsAreExact`, `Regdomain.SixGhzClash`; skw_regd.c:249-277, skw_cfg80211.c:367-405).
- Unbinding a context keeps the tables consistent iff transmission was disabled and the context is the interface's own
  (`PeerTables.UnbindKeeps`, `PeerTables.UnbindBreaks`; skw_iface.c:1229-1261).
- Radar timestamps are 32-bit values (skw_msg.c:1514 adds the upper bits of the system clock to the 24-bit field that
  skw_dfs.h:89 describes); the model uses 32 bits.

## Model

| member | source | states |
|---|---|---|
| DfsSequences.TablesAreValid | patches/wireless/vs6621s/vs6621s/swt6621s_wifi/skw_dfs.c:25-135 | every entry of the ETSI, FCC and Japanese tables has an interval range above its tolerance, a burst length that fits a byte and a window that fits 32 bits, which is all the other results ask of a rule |
| DfsSequences.EtsiNumbers | patches/wireless/vs6621s/vs6621s/swt6621s_wifi/skw_dfs.c:24-61 | the ETSI table in numbers |
| DfsSequences.FccNumbers | patches/wireless/vs6621s/vs6621s/swt6621s_wifi/skw_dfs.c:63-90 | the FCC table in numbers |
| DfsSequences.JpNumbers | patches/wireless/vs6621s/vs6621s/swt6621s_wifi/skw_dfs.c:92-119 | the Japanese table in numbers |
| DfsSequences.MultipleMeaning | patches/wireless/vs6621s/vs6621s/swt6621s_wifi/skw_dfs.c:218-245 | sound and complete: zero for a zero fraction, and for a positive one positive iff some k >= 1 has the value within tolerance of k times the fraction, and a positive answer is such a k |
| DfsSequences.MatchMeaning | patches/wireless/vs6621s/vs6621s/swt6621s_wifi/skw_dfs.c:327-353 | with the unsigned arithmetic of the code, an older pulse matches iff the window does not start before zero, the pulse is inside it and lies within tolerance of a positive multiple of the interval before the new one |
| DfsSequences.AcceptsMeaning | patches/wireless/vs6621s/vs6621s/swt6621s_wifi/skw_dfs.c:467-483 | with the unsigned difference of the code, a pulse passes iff width and chirp fit and it lies before last_ts or at least the tolerance after it |
| DfsSequences.NewSequenceMeaning | patches/wireless/vs6621s/vs6621s/swt6621s_wifi/skw_dfs.c:299-374 | a new sequence counts 2 plus the older matching pulses, starts at the oldest of them, and count plus falses is 2 plus the stored pulses from there up to the previous pulse; when the window would start before zero it counts 2 |
| DfsSequences.NewSequenceSupported | patches/wireless/vs6621s/vs6621s/swt6621s_wifi/skw_dfs.c:299-374 | a new sequence has as many distinct accepted pulses behind it as it counts, each within tolerance of a positive multiple of its interval before the creating pulse, and its false pulses are the other stored ones from the first of them up to the one before the creating pulse |
| DfsSequences.CreateMeaning | patches/wireless/vs6621s/vs6621s/swt6621s_wifi/skw_dfs.c:280-374 | with memory, the new sequences are put in front, one for each stored pulse at a distance in [pri_min, pri_max], unless a sequence that the pulse just extended counts as many pulses; the old ones stay as they are |
| DfsSequences.CreateFails | patches/wireless/vs6621s/vs6621s/swt6621s_wifi/skw_dfs.c:361-368 | without memory, creating fails iff some stored pulse starts a sequence |
| DfsSequences.ExtendBooksOnce | patches/wireless/vs6621s/vs6621s/swt6621s_wifi/skw_dfs.c:247-278 | every unexpired sequence stays, in order, and books the pulse exactly once, as a match or as a false one; exactly the expired ones go |
| DfsSequences.ExtendSupported | patches/wireless/vs6621s/vs6621s/swt6621s_wifi/skw_dfs.c:247-278 | extending keeps every sequence backed by as many accepted pulses as it counts, and its false pulses the other ones accepted since it was created |
| DfsRuns.QueueLimitMeaning | patches/wireless/vs6621s/vs6621s/swt6621s_wifi/skw_dfs.c:196-216 | exactly the pulses within the window of the newest stay, without the oldest of them iff the count reaches 2*ppb with it; the new pulse itself is dropped iff the count was full without a stored pulse |
| DfsRuns.EnqueueKeeps | patches/wireless/vs6621s/vs6621s/swt6621s_wifi/skw_dfs.c:416-439 | queueing keeps the stale part of the count, timestamps that descend by at least the tolerance, and the window and size limits, also when no memory is left |
| DfsRuns.FeedKeeps | patches/wireless/vs6621s/vs6621s/swt6621s_wifi/skw_dfs.c:441-506 | one pulse either reports radar, with a train behind it, or keeps the detector invariant; no timestamp difference underflows |
| DfsRuns.FeedBankKeeps | patches/wireless/vs6621s/vs6621s/swt6621s_wifi/skw_dfs.c:458-503 | one pulse shown to all detectors keeps the invariant of each and conserves both pools across them, up to what was lost before |
| DfsRuns.RunKeeps | patches/wireless/vs6621s/vs6621s/swt6621s_wifi/skw_dfs.c:171-506 | invariant of every state reachable by pulses, stops, ends of the check, channel set-ups and interface set-ups: the count is the queue length plus a stale part and stays below the limit, queue order, gaps and window, conservation of both pools up to what was lost, and accepted pulses that are real pulses of the current session |
| DfsRuns.StaleSteps | patches/wireless/vs6621s/vs6621s/swt6621s_wifi/skw_dfs.c:571-580 | initialising the lists makes the whole count stale, a reset clears it, every other event leaves the stale part as it is |
| DfsRuns.NothingLost | patches/wireless/vs6621s/vs6621s/swt6621s_wifi/skw_dfs.c:571-580 | a run loses no element iff every list was empty whenever the lists were initialised |
| DfsRuns.RadarIsJustified | patches/wireless/vs6621s/vs6621s/swt6621s_wifi/skw_dfs.c:247-506 | in every run, checks that end and channels set up after them included, a report is backed by at least ppb_thresh distinct eligible pulses of the session: those before creation, stored then, near positive multiples of the interval before the creating pulse, each later one, accepted after it, near a multiple after its predecessor, all within the duration for ppb >= 2, the last being the reporting one; the interval is the distance of the creating pulse from the one before it, or the one of the rule; and the stored pulses from the first up to the one before the creating pulse and all pulses accepted after it contain at most nr_pri times as many others as the train has |
| DfsRuns.TakenMeaning | patches/wireless/vs6621s/vs6621s/swt6621s_wifi/skw_dfs.c:462-483 | the list of accepted pulses that this count uses holds exactly the pulses that a rule took, in order, each once |
| DfsRuns.FlagsMeaning | patches/wireless/vs6621s/vs6621s/swt6621s_wifi/skw_dfs.c:585-729 | over every run, pulses are looked at exactly while a check, or a monitoring, was started and nothing ended it since: the end of the check, a stop, a new set-up of the interface, or a report |
| DfsRuns.MissingMemoryResets | patches/wireless/vs6621s/vs6621s/swt6621s_wifi/skw_dfs.c:485-489 | a pulse that needs a sequence for which there is no memory empties the detector and sets its last_ts |
| DfsRuns.ConservedMeaning | patches/wireless/vs6621s/vs6621s/swt6621s_wifi/skw_dfs.c:137-169 | conservation read out: an element is allocated iff it is in the pool or in a list, and never in two places |
| DfsRuns.FeedConserves | patches/wireless/vs6621s/vs6621s/swt6621s_wifi/skw_dfs.c:441-506 | a pulse shown to one detector loses and duplicates no pool element, through expiry, creation, queueing, failure and reset |
| DfsRuns.ResetAllMeaning | patches/wireless/vs6621s/vs6621s/swt6621s_wifi/skw_dfs.c:376-393 | resetting leaves every list empty and every element that is not lost in its pool |
| DfsRuns.ReportReturnsEverything | patches/wireless/vs6621s/vs6621s/swt6621s_wifi/skw_dfs.c:491-500 | after a report every list is empty and every allocated element that was not lost is back in its pool |
| DfsRuns.ChanInitConserves | patches/wireless/vs6621s/vs6621s/swt6621s_wifi/skw_dfs.c:571-580 | one initialisation of the lists loses nothing iff they are empty |
| DfsDetection.ReportedIffReceptive | patches/wireless/vs6621s/vs6621s/swt6621s_wifi/skw_dfs.c:441-506 | after a start, with memory and no other rule reporting, a steady train as long as the rule needs (intervals within tolerance of the first or of the nominal one, within the duration) is reported iff the stale count is at most 2*ppb - 2 and the first pulse is not within the tolerance after the old last_ts |
| DfsDetection.BankReportsIffReceptive | patches/wireless/vs6621s/vs6621s/swt6621s_wifi/skw_dfs.c:441-506 | the same with a condition on the other rules that is known before the train: each is deaf or takes none of its pulses |
| DfsDetection.UnableBankIsSilent | patches/wireless/vs6621s/vs6621s/swt6621s_wifi/skw_dfs.c:441-506 | a bank in which every rule is deaf or takes none of the pulses reports none of them |
| DfsDetection.NoisyTrainIsReported | patches/wireless/vs6621s/vs6621s/swt6621s_wifi/skw_dfs.c:247-506 | after a start, with memory and a receptive rule: a train of pulses among which others come, within the duration, is reported, by this rule or another one, by the time ppb_thresh of its pulses match and at most nr_pri times as many do not |
| DfsDetection.TrackOn | patches/wireless/vs6621s/vs6621s/swt6621s_wifi/skw_dfs.c:247-278 | the sequence that follows such a train counts exactly the matching and the other pulses, and it makes a report exactly when enough match and at most nr_pri times as many do not |
| DfsDetection.SteadyTrainIsReported | patches/wireless/vs6621s/vs6621s/swt6621s_wifi/skw_dfs.c:247-506 | in the receptive case the train is reported, by this rule or another one, within max(2, ppb_thresh) pulses |
| DfsDetection.EnqueueUnused | patches/wireless/vs6621s/vs6621s/swt6621s_wifi/skw_dfs.c:416-439 | the first pulse of an empty queue is kept iff the count is at least two below the limit |
| DfsDetection.DeafStays | patches/wireless/vs6621s/vs6621s/swt6621s_wifi/skw_dfs.c:416-439 | a detector with an empty queue and a full count stays so, and silent, whatever pulse it is shown, until it is reset |
| DfsDetection.DeafNeverReports | patches/wireless/vs6621s/vs6621s/swt6621s_wifi/skw_dfs.c:441-506 | so its rule reports no pulse of any sequence of pulses that goes forward in time |
| DfsDetection.UnheardIsSilent | patches/wireless/vs6621s/vs6621s/swt6621s_wifi/skw_dfs.c:441-506 | a rule that does not hear the first pulse reports none of the pulses it needs |
| DfsChecks.CheckDeafens | patches/wireless/vs6621s/vs6621s/swt6621s_wifi/skw_dfs.c:508-583 | in any bank: after a check that saw 2*ppb - 1 pulses one tolerance apart and reported none, this rule reports no pulse while time goes forward and the elements of its queue are lost; other rules may still report |
| DfsChecks.ChecksCount | patches/wireless/vs6621s/vs6621s/swt6621s_wifi/skw_dfs.c:508-583 | in any bank: after k checks with one pulse each, every rule that takes the pulse counts min(k, 2*ppb - 1) and has no sequence |
| DfsChecks.ChecksDeafen | patches/wireless/vs6621s/vs6621s/swt6621s_wifi/skw_dfs.c:508-583 | in any bank: once k reaches 2*ppb - 1 for every rule, the monitoring that follows reports no pulse, as long as each rule that takes one of them also took those of the checks |
| DfsChecks.EtsiChecksDeafen | patches/wireless/vs6621s/vs6621s/swt6621s_wifi/skw_dfs.c:508-583 | the whole ETSI table after 89 checks with one pulse of 1 microsecond each: no train that its first rule takes is reported by any rule |
| DfsChecks.UncountedPulses | patches/wireless/vs6621s/vs6621s/swt6621s_wifi/skw_dfs.c:280-374 | pulses between the last two of a train when its sequence is created are in no count: five accepted pulses that the Japanese table reports, of which only two make up the only possible train |
| DfsDetection.EqualIsSteady | patches/wireless/vs6621s/vs6621s/swt6621s_wifi/skw_dfs.c:218-245 | equal intervals that the rule keeps are steady as long as the burst lasts |
| DfsDetection.ReportsHappen | patches/wireless/vs6621s/vs6621s/swt6621s_wifi/skw_dfs.c:441-506 | for every rule, interval it keeps and pulse it takes there is a legal run that ends in a report, so the previous results are not about an empty set of runs |
| DfsDetection.ThresholdsFitBursts | patches/wireless/vs6621s/vs6621s/swt6621s_wifi/skw_dfs.c:25-135 | no table entry asks for more pulses than its burst has, so the previous result applies to all of them |
| DfsDriver.ElementPool.Release | patches/wireless/vs6621s/vs6621s/swt6621s_wifi/skw_dfs.c:137-153 | puts the element on top of the pool |
| DfsDriver.ElementPool.Acquire | patches/wireless/vs6621s/vs6621s/swt6621s_wifi/skw_dfs.c:155-169 | takes from the pool first, allocates otherwise, reports failure of the allocation |
| DfsDriver.PriDetector.Dequeue | patches/wireless/vs6621s/vs6621s/swt6621s_wifi/skw_dfs.c:181-194 | returns the oldest pulse to the pool, false on an empty queue |
| DfsDriver.PriDetector.CheckWindow | patches/wireless/vs6621s/vs6621s/swt6621s_wifi/skw_dfs.c:196-216 | drops exactly the pulses older than the window, in place, whatever the count says beyond them |
| DfsDriver.PriDetector.Enqueue | patches/wireless/vs6621s/vs6621s/swt6621s_wifi/skw_dfs.c:416-439 | the in-place queue refines the specification, stale counts and pool order included |
| DfsDriver.PriDetector.AddToExisting | patches/wireless/vs6621s/vs6621s/swt6621s_wifi/skw_dfs.c:247-278 | the loop refines extension and expiry and returns the largest updated count |
| DfsDriver.PriDetector.BuildSequence | patches/wireless/vs6621s/vs6621s/swt6621s_wifi/skw_dfs.c:319-360 | the scan that breaks off at the window border equals the search over all older pulses |
| DfsDriver.PriDetector.CreateSequences | patches/wireless/vs6621s/vs6621s/swt6621s_wifi/skw_dfs.c:299-374 | the scan that breaks off at a too large interval creates exactly the specified sequences, or fails with the memory |
| DfsDriver.PriDetector.CheckDetection | patches/wireless/vs6621s/vs6621s/swt6621s_wifi/skw_dfs.c:395-414 | true iff some sequence has at least ppb_thresh pulses and at most nr_pri times as many false ones; what both numbers count is stated by RadarIsJustified and TrackOn |
| DfsDriver.PriDetector.Feed | patches/wireless/vs6621s/vs6621s/swt6621s_wifi/skw_dfs.c:462-502 | one detector step refines the specification |
| DfsDriver.PriDetector.Reset | patches/wireless/vs6621s/vs6621s/swt6621s_wifi/skw_dfs.c:376-393 | empties both lists into the pools and sets last_ts |
| DfsDriver.RadarBank.FeedAll | patches/wireless/vs6621s/vs6621s/swt6621s_wifi/skw_dfs.c:458-503 | the loop over the detectors, ended by the first report |
| DfsDriver.RadarBank.AddPulse | patches/wireless/vs6621s/vs6621s/swt6621s_wifi/skw_dfs.c:441-506 | a pulse shown to the bank refines one step of the run, and a report comes with its train and the bound on false pulses |
| DfsDriver.RadarBank.Deinit | patches/wireless/vs6621s/vs6621s/swt6621s_wifi/skw_dfs.c:702-729 | returns every element to its pool and clears the flags of the interface it is called for, this one or another |
| DfsDriver.RadarBank.Stop | patches/wireless/vs6621s/vs6621s/swt6621s_wifi/skw_iface.c:736-739 | stopping an access point, of this interface or another that shares the detectors, is one step of the run |
| DfsDriver.RadarBank.EndCheck | patches/wireless/vs6621s/vs6621s/swt6621s_wifi/skw_dfs.c:616-634 | the end of the check clears its flag and changes no detector |
| DfsDriver.RadarBank.Start | patches/wireless/vs6621s/vs6621s/swt6621s_wifi/skw_dfs.c:528-583 | configures a channel at any time and starts the check or the monitoring, emptying the lists and keeping counts and last_ts as they are |
| DfsDriver.RadarBank.InitInterface | patches/wireless/vs6621s/vs6621s/swt6621s_wifi/skw_dfs.c:680-700 | setting up an interface initialises the shared lists and clears the flags of its own |
| Elements.SerializeParse | patches/wireless/vs6621s/vs6621s/swt6621s_wifi/skw_util.h:121-131 | walking a well-formed buffer and writing the elements back gives the buffer |
| Elements.ParseSerialize | patches/wireless/vs6621s/vs6621s/swt6621s_wifi/skw_util.h:121-131 | written elements are well formed and read back as they were |
| MbssidSpec.OffsetZeroFindsNothing | patches/wireless/vs6621s/vs6621s/swt6621s_wifi/skw_mbssid.c:36-50 | a search at offset 0 with at most one byte to match finds nothing, in any list |
| MbssidSpec.ExpansionIsComplete | patches/wireless/vs6621s/vs6621s/swt6621s_wifi/skw_mbssid.c:169-261 | no source element is used twice; every profile element is carried over exactly once except the capability element and the SSIDs after the first |
| MbssidMeaning.InheritedMeaning | patches/wireless/vs6621s/vs6621s/swt6621s_wifi/skw_mbssid.c:125-167 | an element may be inherited iff it is not Multiple BSSID and a non-inheritance element that holds both its lists does not list it: by id, or by extension id for extension elements |
| MbssidMeaning.AfterSsidMeaning | patches/wireless/vs6621s/vs6621s/swt6621s_wifi/skw_mbssid.c:197-198 | the beacon is taken up after its first SSID, or from the start without one |
| MbssidMeaning.ExpansionMeaning | patches/wireless/vs6621s/vs6621s/swt6621s_wifi/skw_mbssid.c:169-261 | the new list is the first SSID of the profile, what becomes of the beacon elements in their order, and the unused profile elements but SSIDs and capability in theirs; a beacon element is replaced by the first unused profile element of its id (and extension id) unless that is another vendor's, and otherwise stays or, when nothing is left for it, stays iff it may be inherited |
| MbssidMeaning.InheritedIff | patches/wireless/vs6621s/vs6621s/swt6621s_wifi/skw_mbssid.c:200-236 | beacon element i is in the new list iff no unused profile element of its kind is left and it may be inherited, or it is a vendor element and the first unused one differs in the five bytes |
| MbssidMeaning.InheritedByCount | patches/wireless/vs6621s/vs6621s/swt6621s_wifi/skw_mbssid.c:200-236 | for elements other than vendor ones: iff it may be inherited and the profile has no more elements of its kind than the beacon has before it |
| MbssidMeaning.InheritedByDefault | patches/wireless/vs6621s/vs6621s/swt6621s_wifi/skw_mbssid.c:169-261 | the same as the driver calls it, without a non-inheritance element: everything but Multiple BSSID may be inherited |
| MbssidSpec.OverrideFits | patches/wireless/vs6621s/vs6621s/swt6621s_wifi/skw_mbssid.c:200-242 | while beacon elements are processed the output never exceeds both inputs together |
| MbssidSpec.ExpansionFits | patches/wireless/vs6621s/vs6621s/swt6621s_wifi/skw_mbssid.c:244-256 | nor while the leftovers are appended |
| Mbssid.FindElem | patches/wireless/vs6621s/vs6621s/swt6621s_wifi/skw_mbssid.c:36-50 | the byte walk returns the position of the first element that matches, or none |
| Mbssid.IsInherited | patches/wireless/vs6621s/vs6621s/swt6621s_wifi/skw_mbssid.c:125-167 | reads the two lists of the non-inheritance element, ignoring it when it is too short; what that means is MbssidMeaning.InheritedMeaning |
| Mbssid.MarkOne | patches/wireless/vs6621s/vs6621s/swt6621s_wifi/skw_mbssid.c:222-235 | overwriting one byte of the copy with the SSID id marks exactly that element as used |
| Mbssid.FoundIsFree | patches/wireless/vs6621s/vs6621s/swt6621s_wifi/skw_mbssid.c:206-212 | searching the marked copy finds the first unused profile element of the same key |
| Mbssid.OverrideOne | patches/wireless/vs6621s/vs6621s/swt6621s_wifi/skw_mbssid.c:201-236 | one beacon element is kept, dropped or replaced as the list-level choice says; a vendor element only when the five bytes from its data on agree |
| MbssidSpec.LongVendor | patches/wireless/vs6621s/vs6621s/swt6621s_wifi/skw_mbssid.c:222-230 | vendor elements of at least five bytes are compared by their own first five bytes |
| MbssidSpec.ShortVendor | patches/wireless/vs6621s/vs6621s/swt6621s_wifi/skw_mbssid.c:222-230 | vendor elements of four bytes agree iff their bytes do and the elements after them have the same id, a used one having that of an SSID |
| Mbssid.OverrideAll | patches/wireless/vs6621s/vs6621s/swt6621s_wifi/skw_mbssid.c:197-242 | the whole pass over the beacon equals the list-level override |
| Mbssid.CopyLeftovers | patches/wireless/vs6621s/vs6621s/swt6621s_wifi/skw_mbssid.c:244-256 | appends the unused profile elements in order, without SSIDs and capability element |
| Mbssid.ExpandProfile | patches/wireless/vs6621s/vs6621s/swt6621s_wifi/skw_mbssid.c:169-261 | for any non-inheritance element: the bytes written are exactly the serialised list-level expansion and fit a buffer of ielen + subie_len |
| Mbssid.GenNewIe | patches/wireless/vs6621s/vs6621s/swt6621s_wifi/skw_mbssid.c:169-261 | the function as it is, whose search for the non-inheritance element never succeeds; what the list then contains is MbssidMeaning.InheritedByDefault and ExpansionMeaning |
| Mbssid.ExpansionReadsBack | patches/wireless/vs6621s/vs6621s/swt6621s_wifi/skw_mbssid.c:169-261 | the output is well formed and reads back as the expanded list |
| BssidAddress.MacToU64 | patches/wireless/vs6621s/vs6621s/swt6621s_wifi/skw_util.h:203-212 | the loop of shifts and ors computes the word of the six bytes |
| BssidAddress.U64ToMac | patches/wireless/vs6621s/vs6621s/swt6621s_wifi/skw_util.h:214-222 | the loop writes the six bytes of the low 48 bits of any word |
| BssidAddress.ValueOfTail | patches/wireless/vs6621s/vs6621s/swt6621s_wifi/skw_util.h:203-222 | the last k bytes of a word stand for its low 8k bits, so writing and reading are inverse |
| BssidAddress.ValueInjective | patches/wireless/vs6621s/vs6621s/swt6621s_wifi/skw_util.h:203-222 | two addresses that stand for the same word are equal |
| BssidAddress.GenNewBssid | patches/wireless/vs6621s/vs6621s/swt6621s_wifi/skw_mbssid.c:111-123 | with the mask, and, or and sum of 64-bit words of the source: the new address shifted right by n is the reference shifted right by n, and under the mask it is the sum of reference and index |
| BssidAddress.AddressMeaning | patches/wireless/vs6621s/vs6621s/swt6621s_wifi/skw_mbssid.c:111-123 | the upper 48 - n bits are those of the reference, the lower n those of reference + index, for every n in 1..48 |
| BssidAddress.AddressesDiffer | patches/wireless/vs6621s/vs6621s/swt6621s_wifi/skw_mbssid.c:28-29 | index 0 gives the reference and distinct indices below 2^n give distinct addresses |
| EdmaPosting.PackedEntries | patches/wireless/vs6621s/vs6621s/swt6621s_wifi/skw_edma.c:322-345 | the packed nodes hold exactly the given addresses, 32 each, in order |
| EdmaPosting.PostedEntries | patches/wireless/vs6621s/vs6621s/swt6621s_wifi/skw_edma.c:148-196 | nodes in flight before, followed by the newly packed ones, are the nodes in flight after |
| EdmaPosting.CompletedEntries | patches/wireless/vs6621s/vs6621s/swt6621s_wifi/skw_edma.c:573-605 | completing the oldest nodes moves exactly their addresses to the firmware |
| EdmaPosting.RxRequestChannel.NextNode | patches/wireless/vs6621s/vs6621s/swt6621s_wifi/skw_edma.c:297-320 | moves to the next node of the ring and clears its fill level |
| EdmaPosting.RxRequestChannel.SetData | patches/wireless/vs6621s/vs6621s/swt6621s_wifi/skw_edma.c:322-345 | writes one address behind the last; a full node is closed at once |
| EdmaPosting.RxRequestChannel.PackAll | patches/wireless/vs6621s/vs6621s/swt6621s_wifi/skw_edma.c:148-196 | packing with room writes no node in flight and leaves used = 0 and tx_node_count = num/32 |
| EdmaPosting.RxRequestChannel.AllocSkb | patches/wireless/vs6621s/vs6621s/swt6621s_wifi/skw_edma.c:148-196 | posts whole nodes; posted plus completed addresses stay the queued buffers |
| EdmaPosting.RxRequestChannel.RefillSkb | patches/wireless/vs6621s/vs6621s/swt6621s_wifi/skw_edma.c:269-279 | tops up to at least 737 of 768 and always has room: nr_node + in-flight nodes stays 24 with nr_node >= 0 |
| EdmaPosting.RxRequestChannel.InitDataChan | patches/wireless/vs6621s/vs6621s/swt6621s_wifi/skw_edma.c:365-408 | posts the whole ring; the channel invariant holds afterwards iff nothing was outstanding |
| EdmaPosting.RxRequestChannel.TxNodeIsr | patches/wireless/vs6621s/vs6621s/swt6621s_wifi/skw_edma.c:573-605 | the oldest nodes in flight become free again, the rest is unchanged |
| EdmaPosting.RxRequestChannel.TakeSkb | patches/wireless/vs6621s/vs6621s/swt6621s_wifi/skw_edma.c:700-715 | takes exactly the buffer with that address out of the queue, nothing when there is none |
| EdmaPosting.RxRequestChannel.RxData | patches/wireless/vs6621s/vs6621s/swt6621s_wifi/skw_edma.c:717-783 | each address of a posted buffer frees it once, others are skipped; outstanding buffers equal the queue |
| EdmaCompletion.ConsumedHeaders | patches/wireless/vs6621s/vs6621s/swt6621s_wifi/skw_edma.c:930-992 | clearing the header at the tail and moving on leaves one pending header less, in ring order |
| EdmaCompletion.CompletionRing.ConsumeOne | patches/wireless/vs6621s/vs6621s/swt6621s_wifi/skw_edma.c:930-992 | delivers the packet at the tail; swtail stays the current node and owned + rx_node_count stays max_node |
| EdmaCompletion.CompletionRing.Poll | patches/wireless/vs6621s/vs6621s/swt6621s_wifi/skw_edma.c:914-996 | packets delivered are a prefix, in order, of those the firmware completed, each once; what is left of the quota is the quota minus the running totals of the delivered packets, cut at 0, every delivered packet found quota left, and with a pending header that is not at the start of the ring the quota is used up |
| EdmaCompletion.CompletionRing.Resubmit | patches/wireless/vs6621s/vs6621s/swt6621s_wifi/skw_edma.c:365-399 | resubmitting gives the consumed nodes back to the firmware |
| StaRetry.StepPays | patches/wireless/vs6621s/vs6621s/swt6621s_wifi/skw_iface.c:428-611 | every event keeps the state invariant, and it pays for the commands it sends out of two budgets iff it does not start a phase anew that was over |
| StaRetry.CommandsAreBounded | patches/wireless/vs6621s/vs6621s/swt6621s_wifi/skw_iface.c:428-611 | between two skw_auth calls, over every run without such an event, at most 12 AUTH commands (the first included) and at most 17 ASSOC commands |
| StaRetry.TickDecreases | patches/wireless/vs6621s/vs6621s/swt6621s_wifi/skw_iface.c:428-611 | a tick past the step timeout decreases (redo, phase, retry) or leaves the connection; answers that were waited for decrease it too |
| StaRetry.TickMeaning | patches/wireless/vs6621s/vs6621s/swt6621s_wifi/skw_iface.c:428-611 | what a tick does: it repeats the pending command iff the step is over 300 old and fewer than 3 (5 for association) were sent, it authenticates anew iff they are used up and a restart is allowed, and it ends the attempt iff time is up, a command fails or no restart is allowed |
| StaRetry.AssocedMeaning | patches/wireless/vs6621s/vs6621s/swt6621s_wifi/skw_msg.c:241-268 | over every run: associated iff an association was granted and nothing came since but ticks, requests that do not roam, and that answer again |
| StaRetry.AuthedMeaning | patches/wireless/vs6621s/vs6621s/swt6621s_wifi/skw_msg.c:143-207 | over every run: waiting for an association request iff authentication was granted, not in a local retry, and only ticks within the step timeout came since |
| StaRetry.RetryMeaning | patches/wireless/vs6621s/vs6621s/swt6621s_wifi/skw_iface.c:535-598 | over every run: a local retry is under way iff some tick gave an association up and was allowed to restart |
| StaRetry.AnswersMeaning | patches/wireless/vs6621s/vs6621s/swt6621s_wifi/skw_msg.c:143-275 | over every run: a refused association leaves the connection in NONE, and so does a refused authentication unless a local retry is under way, which goes on with the association whatever the answer |
| StaRetry.RequestMeaning | patches/wireless/vs6621s/vs6621s/swt6621s_wifi/skw_cfg80211.c:3433-3515 | a request is taken up iff the station is authenticated, or associated and roams; then one command is sent, the wait for the answer begins iff it could be sent, and nothing else changes |
| StaRetry.TwelveAuths | patches/wireless/vs6621s/vs6621s/swt6621s_wifi/skw_iface.c:469-533 | the bound of 12 AUTH commands is reached: by a run in which the peer never answers |
| StaRetry.SeventeenAssocs | patches/wireless/vs6621s/vs6621s/swt6621s_wifi/skw_iface.c:535-598 | the bound of 17 ASSOC commands is reached: by a run in which the peer answers authentication only |
| StaRetry.LateAnswersBreakTheBound | patches/wireless/vs6621s/vs6621s/swt6621s_wifi/skw_msg.c:143-207 | answers that arrive while nobody waits for them allow any number of ASSOC commands |
| StaRetry.StaCore.StaWork | patches/wireless/vs6621s/vs6621s/swt6621s_wifi/skw_iface.c:428-611 | the in-place work function refines the step |
| StaRetry.StaCore.OnRxAuth | patches/wireless/vs6621s/vs6621s/swt6621s_wifi/skw_msg.c:143-207 | an authentication answer refines its step |
| StaRetry.StaCore.OnAssoc | patches/wireless/vs6621s/vs6621s/swt6621s_wifi/skw_cfg80211.c:3433-3515 | association is started in AUTHED, or from ASSOCED when roaming; it resets retry and the context timeout, and a failed command leaves the connection |
| StaRetry.StaCore.OnRxAssoc | patches/wireless/vs6621s/vs6621s/swt6621s_wifi/skw_msg.c:213-275 | an association answer refines its step; what the answers lead to is AssocedMeaning and AnswersMeaning |
| StaRetry.StaCore.constructor | patches/wireless/vs6621s/vs6621s/swt6621s_wifi/skw_cfg80211.c:3388-3396 | a connection attempt starts in AUTHING with both counters zero |
| PeerTables.TransmitOnKeeps | patches/wireless/vs6621s/vs6621s/swt6621s_wifi/skw_iface.c:1189-1206 | enabling transmission keeps map bits, entries and flags consistent and the count exact; refused without a peer or with any flag set |
| PeerTables.TransmitOffKeeps | patches/wireless/vs6621s/vs6621s/swt6621s_wifi/skw_iface.c:1207-1217 | so does disabling, after which the data path does not see the context |
| PeerTables.UnbindKeeps | patches/wireless/vs6621s/vs6621s/swt6621s_wifi/skw_iface.c:1229-1261 | unbinding by the owner, with transmission disabled, keeps the tables consistent and frees the peer once |
| PeerTables.UnbindBreaks | patches/wireless/vs6621s/vs6621s/swt6621s_wifi/skw_iface.c:1229-1261 | in every other case it does not |
| PeerTables.BindKeeps | patches/wireless/vs6621s/vs6621s/swt6621s_wifi/skw_iface.c:1229-1261 | binding a new peer keeps the tables consistent and the context then holds this interface's peer |
| PeerTables.TransmitOnMeaning | patches/wireless/vs6621s/vs6621s/swt6621s_wifi/skw_iface.c:1189-1206 | enabling sets the entry to the peer of the context, sets it active and counts it on its interface iff the context holds a live peer that is not active, not deauthenticated and not flagged; otherwise the tables are unchanged |
| PeerTables.TransmitOffMeaning | patches/wireless/vs6621s/vs6621s/swt6621s_wifi/skw_iface.c:1207-1217 | disabling clears the entry, and the active flag and one count of the peer that was there; nothing else changes |
| PeerTables.DisableUndoes | patches/wireless/vs6621s/vs6621s/swt6621s_wifi/skw_iface.c:1189-1217 | disabling undoes enabling |
| PeerTables.MarkMeaning | patches/wireless/vs6621s/vs6621s/swt6621s_wifi/skw_cfg80211.c:1693-1693 | marking sets the mark of the peer of the context and nothing else |
| PeerTables.UnbindMeaning | patches/wireless/vs6621s/vs6621s/swt6621s_wifi/skw_iface.c:1229-1261 | unbinding empties the context, frees its peer, clears the bit of the interface and changes nothing else |
| PeerTables.BindMeaning | patches/wireless/vs6621s/vs6621s/swt6621s_wifi/skw_iface.c:1229-1261 | binding puts the new peer with its address into the context, inactive and unmarked, sets the bit of the interface and frees the peer that was there |
| PeerRecovery.PrepareKeeps | patches/wireless/vs6621s/vs6621s/swt6621s_wifi/skw_recovery.c:217-306 | the first prepare saves exactly the bound peers, a nested one leaves the saved peers alone; both leave consistent empty contexts |
| PeerRecovery.PrepareDrifts | patches/wireless/vs6621s/vs6621s/swt6621s_wifi/skw_recovery.c:217-306 | a crash leaves actived_ctx too high by exactly the number of active contexts |
| PeerRecovery.TellUpToKeeps | patches/wireless/vs6621s/vs6621s/swt6621s_wifi/skw_recovery.c:85-154 | the notification loops keep the tables consistent, so nobody is notified twice, and never touch who is saved |
| PeerRecovery.TellKinds | patches/wireless/vs6621s/vs6621s/swt6621s_wifi/skw_recovery.c:85-154 | an access point deletes each station; a station leaves the BSS for the peer with its address, which clears that address, and tears the link down to every other peer |
| PeerDriver.TellUpToExactly | patches/wireless/vs6621s/vs6621s/swt6621s_wifi/skw_recovery.c:85-154 | a loop that ends at index n marks, of the saved peers, exactly the interface's own below n |
| PeerRecovery.FreeUpToKeeps | patches/wireless/vs6621s/vs6621s/swt6621s_wifi/skw_recovery.c:472-480 | releasing frees live peers only, each once, and empties the saved table |
| PeerRecovery.RunKeeps | patches/wireless/vs6621s/vs6621s/swt6621s_wifi/skw_recovery.c:217-492 | in every interleaving of binding, crashes, interrupted recoveries and releases: map bits iff this interface's peer, entry iff active, no peer freed twice, notified twice or referred to after its release |
| PeerRecovery.SavedPeersSurvive | patches/wireless/vs6621s/vs6621s/swt6621s_wifi/skw_recovery.c:230-268 | until a release the saved peers survive every further crash and interrupted recovery unchanged |
| PeerRecovery.CrashedPeersAreFreedOnce | patches/wireless/vs6621s/vs6621s/swt6621s_wifi/skw_recovery.c:382-492 | a peer bound at a crash is live and unfreed until the first completion or deinit after it, and freed exactly once by that |
| PeerRecovery.RefusedForGood | patches/wireless/vs6621s/vs6621s/swt6621s_wifi/skw_iface.c:1198-1205 | a peer that was silenced and marked, or bound with a bad flag, is never seen by the data path again, in any run |
| PeerRecovery.StepLoses | patches/wireless/vs6621s/vs6621s/swt6621s_wifi/skw_recovery.c:233-268 | a step loses track of a live peer iff it is a nested prepare with a bound context |
| PeerRecovery.RunConserves | patches/wireless/vs6621s/vs6621s/swt6621s_wifi/skw_recovery.c:217-492 | in every run without such a step each live peer is in a context or saved |
| PeerRecovery.NestedPrepareLoses | patches/wireless/vs6621s/vs6621s/swt6621s_wifi/skw_recovery.c:233-268 | a nested prepare loses nobody iff no context is bound |
| PeerRecovery.FirstPrepareLosesNobody | patches/wireless/vs6621s/vs6621s/swt6621s_wifi/skw_recovery.c:271-303 | the first prepare never does |
| PeerRecovery.CountAfterRecovery | patches/wireless/vs6621s/vs6621s/swt6621s_wifi/skw_recovery.c:122-160 | after a recovery with nothing in between the count of an access point is off by what was active at the crash, a station's is exact |
| PeerRecovery.StepDrift | patches/wireless/vs6621s/vs6621s/swt6621s_wifi/skw_recovery.c:122-306 | over runs: a crash adds what was active, recovering a station subtracts what is active then, no other step changes by how much the count is off |
| PeerRecovery.ExactIffCalm | patches/wireless/vs6621s/vs6621s/swt6621s_wifi/skw_recovery.c:122-306 | an exact count stays exact in a step iff it is no crash with an active context and no recovery of the station with one |
| PeerRecovery.CalmRunIsExact | patches/wireless/vs6621s/vs6621s/swt6621s_wifi/skw_recovery.c:122-306 | so it stays exact over every run of such steps |
| PeerDriver.RemovedKeeps | patches/wireless/vs6621s/vs6621s/swt6621s_wifi/skw_cfg80211.c:1676-1711 | removing a station silences it whatever the firmware answers; it is unbound and freed iff the firmware agreed, and otherwise stays marked and inactive |
| PeerDriver.FlushMeaning | patches/wireless/vs6621s/vs6621s/swt6621s_wifi/skw_cfg80211.c:1713-1731 | a flush leaves exactly the stations the firmware refused to delete, each marked and inactive, and a zero count where the count was exact |
| PeerDriver.Core.Transmit | patches/wireless/vs6621s/vs6621s/swt6621s_wifi/skw_iface.c:1189-1217 | refines the two transmission steps, whose effects are TransmitOnMeaning and TransmitOffMeaning |
| PeerDriver.Core.BindCtx | patches/wireless/vs6621s/vs6621s/swt6621s_wifi/skw_iface.c:1229-1261 | refines unbinding and binding |
| PeerDriver.Core.PeerCtx | patches/wireless/vs6621s/vs6621s/swt6621s_wifi/skw_iface.c:1280-1313 | finds the first context of the interface whose peer has the address, and misses none |
| PeerDriver.Core.DelStation | patches/wireless/vs6621s/vs6621s/swt6621s_wifi/skw_cfg80211.c:1676-1711 | refines the removal of a station |
| PeerDriver.Core.FlushSta | patches/wireless/vs6621s/vs6621s/swt6621s_wifi/skw_cfg80211.c:1713-1731 | with every command succeeding the map ends empty, and the count at zero where it was exact |
| PeerDriver.Core.Unjoin | patches/wireless/vs6621s/vs6621s/swt6621s_wifi/skw_cfg80211.c:3193-3233 | leaves exactly the context found: silent, and, iff the firmware agreed, free, with the BSS address cleared; no other context changes |
| PeerDriver.Core.PrepareAll | patches/wireless/vs6621s/vs6621s/swt6621s_wifi/skw_recovery.c:217-306 | the two loops refine the prepare step |
| PeerDriver.Core.TellPeers | patches/wireless/vs6621s/vs6621s/swt6621s_wifi/skw_recovery.c:85-154 | the notification loop refines its specification |
| PeerDriver.Core.RecoverIface | patches/wireless/vs6621s/vs6621s/swt6621s_wifi/skw_recovery.c:308-380 | fails iff the firmware asserts or the interface cannot be opened; a failed restart is not a failure |
| PeerDriver.Core.Pass | patches/wireless/vs6621s/vs6621s/swt6621s_wifi/skw_recovery.c:444-470 | each pass keeps the saved peers and marks exactly those that the recovery of its interfaces reaches |
| PeerDriver.Core.Work | patches/wireless/vs6621s/vs6621s/swt6621s_wifi/skw_recovery.c:382-492 | when it gets through, everybody saved is freed, an unmarked peer was told iff its interface is a station or client, or an access point that was restarted and whose flush got past its index, stations before all others, and the count of stations and clients is zero, that of others as before; otherwise the saved peers wait unchanged |
| PeerDriver.UntoldWhenRestartFails | patches/wireless/vs6621s/vs6621s/swt6621s_wifi/skw_recovery.c:162-201 | when an access point cannot be restarted its saved peers are freed without ever having been told |
| PeerDriver.Core.FreeAll | patches/wireless/vs6621s/vs6621s/swt6621s_wifi/skw_recovery.c:560-580 | releases the saved table, at the end of the work and in deinit |
| WowPattern.DecodeEncode | patches/wireless/vs6621s/vs6621s/swt6621s_wifi/skw_msg.h:362-368 | a rule is read back as the sub-patterns it was built from |
| WowPattern.HeadMeaning | patches/wireless/vs6621s/vs6621s/swt6621s_wifi/skw_cfg80211.c:5052-5066 | the layout of a run: operation and type zero, offset with the low byte first, length, bytes |
| WowPattern.MaskedMeaning | patches/wireless/vs6621s/vs6621s/swt6621s_wifi/skw_cfg80211.c:5046-5050 | the bit of a position is bit j mod 8, lowest first, of byte j / 8 |
| WowPattern.Compile | patches/wireless/vs6621s/vs6621s/swt6621s_wifi/skw_cfg80211.c:5040-5086 | a packet satisfies the rule iff it equals the pattern at every masked position; on overflow the rule is exactly the constraints of a prefix, cut only when the next masked byte does not fit; never more than 64 bytes |
| WowBatch.Ffs64 | patches/wireless/vs6621s/vs6621s/swt6621s_wifi/skw_iw.c:660-718 | zero iff no bit is set, otherwise one more than the index of the lowest set bit |
| WowBatch.OnesHead | patches/wireless/vs6621s/vs6621s/swt6621s_wifi/skw_iw.c:759-759 | clearing the lowest set bit removes exactly the head of the list of set bits |
| WowBatch.OnesMeaning | patches/wireless/vs6621s/vs6621s/swt6621s_wifi/skw_iw.c:744-765 | that list is ascending |
| WowBatch.OnesAreTheBits | patches/wireless/vs6621s/vs6621s/swt6621s_wifi/skw_iw.c:744-765 | and holds exactly the set bits |
| WowBatch.FillBatch | patches/wireless/vs6621s/vs6621s/swt6621s_wifi/skw_iw.c:720-775 | one batch takes the next 20 enabled rules, or all that are left, in ascending order; the overflow guard never fires |
| WowBatch.SendAppend | patches/wireless/vs6621s/vs6621s/swt6621s_wifi/skw_iw.c:720-789 | the recursive sender sends the specified commands |
| WowBatch.SendFilter | patches/wireless/vs6621s/vs6621s/swt6621s_wifi/skw_iw.c:813-884 | and so does the first one |
| WowBatch.BatchesConcatenate | patches/wireless/vs6621s/vs6621s/swt6621s_wifi/skw_iw.c:720-884 | the rules of all batches, concatenated, are the enabled rules in ascending index order |
| WowBatch.BatchShape | patches/wireless/vs6621s/vs6621s/swt6621s_wifi/skw_iw.c:720-884 | count/20 + 1 batches, all but the last full, each within the 1400-byte buffer; first action 3 (EN_WOW), then 17 (EN_WOW_APPEND), with the flags of the rule set, and 0 (DIS_ALL) without flags for an empty one |
| WowBatch.LastSwitchesOff | patches/wireless/vs6621s/vs6621s/swt6621s_wifi/skw_iw.c:738-775 | the last command is DIS_ALL iff the number of enabled rules is a multiple of 20 |
| WowBatch.RemapIdx | patches/wireless/vs6621s/vs6621s/swt6621s_wifi/skw_iw.c:791-811 | answers the k-th enabled slot; 255 from 64 on, and for numbers past the enabled count the highest enabled slot, or 0 when there is none |
| WowBatch.RemapInverts | patches/wireless/vs6621s/vs6621s/swt6621s_wifi/skw_iw.c:791-811 | the k-th rule the firmware received is the one in the slot answered for k, and no other number is answered with it |
| WowBatch.EverySlotIsAnswered | patches/wireless/vs6621s/vs6621s/swt6621s_wifi/skw_iw.c:791-811 | every enabled slot is answered for some k |
| RrmSplit.Split | patches/wireless/vs6621s/vs6621s/swt6621s_wifi/skw_cfg80211.c:4090-4137 | terminates; every fragment is under 1500 bytes, starts with the same header and carries whole elements, the bodies make up the original body, and no fragment has room for the element after it |
| RrmSplit.ReportIsDelivered | patches/wireless/vs6621s/vs6621s/swt6621s_wifi/skw_cfg80211.c:4090-4137 | every fragment is under 1500 bytes, starts with the same header and has a well-formed body; the bodies concatenate to the original one |
| RrmSplit.GreedyStaysAhead | patches/wireless/vs6621s/vs6621s/swt6621s_wifi/skw_cfg80211.c:4108-4135 | after any number of fragments the driver is at least as far as any other way of cutting |
| RrmSplit.FewestFragments | patches/wireless/vs6621s/vs6621s/swt6621s_wifi/skw_cfg80211.c:4108-4135 | no other way of cutting needs fewer fragments |
| Regdomain.FreqRegInfo | patches/wireless/vs6621s/vs6621s/swt6621s_wifi/skw_regd.c:189-219 | finds the first rule that fits, once a rule in the band has been seen; for rules within one band that is the first fit |
| Regdomain.LookupMeaning | patches/wireless/vs6621s/vs6621s/swt6621s_wifi/skw_regd.c:88-219 | a channel is permitted iff the first rule whose range holds its 20 MHz around the centre allows initiating radiation; a rule is out of band iff both its ends are more than 2 GHz (20 GHz above 45 GHz) away |
| Regdomain.FirstFitIsMonotone | patches/wireless/vs6621s/vs6621s/swt6621s_wifi/skw_regd.c:189-219 | in a domain sorted by start frequency the first fit comes no earlier at a higher frequency |
| Regdomain.RuleIsConvex | patches/wireless/vs6621s/vs6621s/swt6621s_wifi/skw_regd.c:189-219 | between two channels of one rule every channel has that rule |
| Regdomain.SpansAreOk | patches/wireless/vs6621s/vs6621s/swt6621s_wifi/skw_regd.c:249-277 | the runs of channels are ordered, disjoint and cover exactly the permitted channels |
| Regdomain.IntervalsAreExact | patches/wireless/vs6621s/vs6621s/swt6621s_wifi/skw_regd.c:249-277 | for numbers that ascend within each band: every channel is permitted by the lookup iff exactly one interval covers it, with the power, gain and flags of its rule, if and only if no channel has a number between two numbers of a rule it does not belong to |
| Regdomain.AscendingIsApart | patches/wireless/vs6621s/vs6621s/swt6621s_wifi/skw_regd.c:249-277 | the condition holds when numbers ascend over all bands, as without 6 GHz |
| Regdomain.ClashAt | patches/wireless/vs6621s/vs6621s/swt6621s_wifi/skw_regd.c:249-277 | a channel whose number lies between two numbers of a rule it does not belong to is covered with that rule's settings |
| Regdomain.SixGhzClash | patches/wireless/vs6621s/vs6621s/swt6621s_wifi/skw_db.c:98-115 | in domain AE, with any channel list that has channel 36 at 5 GHz and channels 1 and 41 at 6 GHz, number 36 is covered with 17 dBm and with 24 dBm |
| Regdomain.IntervalCount | patches/wireless/vs6621s/vs6621s/swt6621s_wifi/skw_regd.c:249-277 | there are as many intervals as rules in use |
| Regdomain.AddChannel | patches/wireless/vs6621s/vs6621s/swt6621s_wifi/skw_regd.c:249-277 | one channel is ignored, extends the last interval or starts a new one |
| Regdomain.SetRegdom | patches/wireless/vs6621s/vs6621s/swt6621s_wifi/skw_regd.c:232-300 | the loop over bands and channels builds those intervals, for at most 8 rules in use, and they are exact iff the numbers are apart |

## Left out

- Locks, RCU, DMA mapping, netdev and cfg80211 calls and command transport: a locked region is one step, and what the
  firmware or the allocator answers is a parameter.
- DfsDriver: one detector bank for the active region, and of other interfaces only what they do to it; linked lists are sequences of
  element ids, so list links are not modelled. Timers and commands of check and monitoring are events.
- Mbssid.ExpandProfile: asks for well-formed inputs, at most one SSID in the beacon with at least one element after it,
  non-empty extension elements, and five bytes from the data of every vendor element on; on others the code reads beyond
  the buffer or loses the element boundaries.
- Merging split profiles and scanning for Multiple BSSID elements (skw_mbssid.c:83-109, 263-400).
- WowBatch.Ffs64: masks and shifts of 64-bit words are written as remainders and quotients.
- EdmaPosting.RxRequestChannel.AllocSkb: allocation and submission succeed; the failure paths are not modelled.
- EdmaCompletion.CompletionRing.Poll: the firmware completes nodes in ring order and a header it has not written reads
  as not done; the new buffer that a filter channel allocates for every packet is not modelled.
- StaRetry.CommandsAreBounded: the state after a successful key exchange is not distinguished from ASSOCED.
- PeerTables: interfaces keep their lmac and are not added or removed during a run; unbinding in the teardown of an
  interface (skw_iface.c:766) is not a step. Index maps are sets and the lowest-bit loops ascending loops.
- PeerRecovery: clearing an interface's saved map while recovery is pending (skw_recovery.c:536-547) is not a step;
  it would only withhold notifications. `skw_recovery_del_peer` has no caller.
- RrmSplit.Split: length bytes are unsigned, as on targets where plain `char` is; a body that is not well formed is not
  modelled, nor is the raw splitting of other oversize frames.
- Regdomain.SetRegdom: at most 8 rules in use, because the code writes behind its table with more; rules that lie within
  one band, as in the domain tables.
- WowBatch: the keep-active senders (skw_iw.c:240-400) have the same shape and are not repeated; the results of single
  transmissions, which do not stop the sending, are not modelled.
- Timer list, AID allocation, WMM ordering, the command-line handlers, debug output and the static tables of skw_db.c.
