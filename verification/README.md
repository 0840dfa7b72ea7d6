# Verified model of the bus child-safety monitor

The system watches a parked bus for a child left inside. Firmware on the bus combines an
ignition signal, Bluetooth beacons carried by the children, a radar and a CO2 sensor into an
alarm; a relay passes alarms and attendance messages on to a chat service. This project
models the parts whose failure would lose or garble an alarm, and proves what they keep.

| file | models |
|---|---|
| Alarm.dfy, AlarmTasks.dfy | the nine-state alarm of bus_state.c and notifications.c: step functions on values, and two classes that update the tasks' variables in place and are proved equal to them |
| AlarmInvariant.dfy, AlarmModes.dfy, AlarmTiming.dfy, AlarmRepeats.dfy, AlarmProgress.dfy, AlarmOutputs.dfy, AlarmLink.dfy, IgnitionFrontEnd.dfy | what every interleaving of poll iterations, notification iterations and commands keeps; the next state, incident and messages of every step; delays, repeats and evidence; how an alarm goes off and ends; announcements and the retained message over a link that comes and goes; the override layer and the exit grace |
| Locks.dfy, LockSteps.dfy, NearHandoff.dfy, LockRaces.dfy | the same protocol with one step per critical section and a program counter per task, and its agreement with the coarse one |
| Radar.dfy, RadarTask.dfy | the byte-driven parser for the two radar frame formats, on values and over its 64-byte buffer |
| Presence.dfy, PresenceProofs.dfy, PresenceExactly.dfy | the debounced, sustained presence trigger |
| Scanner.dfy, ScannerProofs.dfy | RSSI hysteresis and the walk over advertisement structures |
| BeaconText.dfy | text forms of UUIDs (RFC 4122, section 3) and MAC addresses |
| Roster.dfy, RosterTable.dfy | the bounded beacon table: commands on values, and the table in place with memmove and rollback |
| RosterUpdates.dfy, RosterRecords.dfy | what an accepted command and a load make of the JSON they are given |
| RosterProofs.dfy, RosterStorage.dfy, RosterAnswers.dfy, RosterWitness.dfy, RosterHandoff.dfy | the roster invariant, the saved tree, lookups and the guard against destructive changes, runs on which claims fail, and the arm-time handoff with the real roster |
| Co2.dfy, Co2Proofs.dfy, Co2Numbers.dfy | the CO2 ring buffer and trigger, and the tracker running beside the alarm |
| Heartbeat.dfy | sequence gaps and freshness of the ignition remote's heartbeats |
| Attendance.dfy, AttendanceProofs.dfy, AttendanceHeld.dfy, AttendanceOverlap.dfy | the relay's attendance messages and the send queue they go through, with sends that resolve in time and with sends that overlap |
| Emergency.dfy, EmergencyProofs.dfy, EmergencyExactly.dfy | spacing, acknowledgement gate and count of emergency sends, alone and behind the firmware |
| Sender.dfy, SenderProofs.dfy, SenderCodes.dfy | the relay's bounded retry sender |

Shape. Code that changes variables step by step is a class whose methods update those
variables and whose `ensures` equate the new abstract value with a step function of the old
one; the step function is then folded over runs, and the theorems are about all runs. Times
are timer readings in microseconds (in the gate of Emergency.dfy, any one unit). Numbers are
unbounded except where the code's width shows: 16-bit sequence numbers and their counter,
the saturating 16-bit CO2 delta, octets.

Where the code falls short of a natural claim, the project keeps the code, proves a run or an
input on which the claim fails, and proves exactly when it holds:

- A tracker that outlives its incident publishes without an id, once for better evidence or again at every interval while the exit grace lasts, and the relay takes it for a new incident: runs in `AlarmTiming.StaleEvidenceReachable`, `AlarmTiming.StaleBroadcastReachable` and `EmergencyProofs.StaleBroadcastIsSent`, condition in `AlarmTiming.EmptyIdExactly`.
- A manual bus-empty command during an alarm leaves the bus merely armed with the incident open: run in `AlarmTiming.ArmedWithIncidentReachable`, condition in `AlarmTiming.ArmedWithIncidentExactly` and, over runs, `AlarmTiming.ArmedWithIncidentHasCause`.
- While the MQTT link is down publishes and clears are dropped: run in `AlarmLink.BroadcastLost`, condition in `AlarmLink.BrokerMirrorsIncident`, `AlarmLink.AgreementLostExactly` and, over runs, `AlarmLink.AgreesThroughoutExactly`.
- Between critical sections a clear, an entry to ACTIVE or a disarm can strip the first broadcast of its id: run in `LockRaces.NamelessFirstPublish`, condition in `LockRaces.FirstPublishNamelessExactly`.
- Between critical sections the bus can be armed with the ignition on: run in `LockRaces.ArmedWithIgnitionOn`, condition in `LockRaces.ArmedWithIgnitionOnExactly`.
- The radar parser drops a mismatching byte unseen: input in `Radar.StrayByteHidesFrame`, condition in `Radar.DispatchedExactlyFromIdle`.
- Silence does not interrupt a run of strong readings while a beacon is ABSENT: history in `ScannerProofs.SilenceWhileAbsent`, condition in `ScannerProofs.NearExactly`.
- A refused roster update can leave a changed record behind: run in `RosterWitness.HalfWayReachable`, condition in `RosterStorage.RefusalRestoresExactly` and `RosterStorage.StaysInStep`.
- An `active` that is not a boolean passes the guard and deactivates: run in `RosterWitness.SlipReachable`, condition in `RosterAnswers.GuardHoldsExactly`.
- A listed record sent back as an update takes its measured rssi for the threshold: run in `RosterWitness.ListedRecordHarms`, condition in `RosterAnswers.ListedRecordUpdates`.
- MAC addresses may be shared, and then hide one another: run in `RosterWitness.SharedMacReachable`, condition in `RosterAnswers.MacFoundExactly`.
- Heartbeat gaps that are a multiple of 2^16 or fall in the upper half are miscounted: input in `Heartbeat.WholeWrapMissed`, condition in `Heartbeat.TwoBeatsCountExactly` and `Heartbeat.StepCountsExactly`.
- While sends about a child overlap, its messages can repeat, behind a queued repeat or because a send in the middle fails: runs in `AttendanceProofs.OverlapRepeatsExit` and `AttendanceOverlap.MiddleFailureRepeats`, condition in `AttendanceOverlap.ResolvesAlternateExactly` for a queue and `AttendanceOverlap.NeverRepeatsExactly` over runs.
- A restart of the relay forgets an acknowledgement until it is told again: run in `EmergencyProofs.SentDespiteAck`, condition in `EmergencyProofs.ShutExactly` and `EmergencyProofs.SentAfterAckExactly`.

## Model

| member | source | states |
|---|---|---|
| AlarmInvariant.StepKeepsJoint | main/bus_state.c:233-606 | every poll iteration, notification iteration and command keeps: ACTIVE iff ignition on iff last effective value on; PENDING implies a triggered tracker; DISTRESS_ACTIVE or ACKED implies an active incident; an active incident implies a broadcasting tracker and ARMED, DISTRESS_ACTIVE or ACKED; acknowledged implies active; active iff an id; bus_empty iff armed; never BOOT or FAULT |
| AlarmInvariant.RunsKeepJoint | main/bus_state.c:511-606 | that invariant after any list of steps of the three tasks in any order, from either start |
| AlarmModes.ModesExactly | main/bus_state.c:233-606 | the next state of every reachable state under every step, as one table: ignition, grace, delays, acks, clears, overrides, and a disarm exactly from the grace, ARMED or ACKED with no unanswered incident |
| AlarmModes.IncidentExactly | main/bus_state.c:321-495 | the incident after every step: opened with the wall clock's id exactly on entering DISTRESS_ACTIVE, acknowledged by an ack, ended exactly by the ignition, a clear, bus_empty_off or an accepted disarm |
| AlarmModes.DisarmAnswers | main/bus_state.c:427-469 | at every moment of every run, the answer to a disarm: already in ACTIVE and DISARMED, pending, unacknowledged in DISTRESS_ACTIVE or with an open unanswered incident, else accepted |
| AlarmTiming.EvidenceOnlyImproves | main/notifications.c:41-56 | while the tracker is not idle its event is only replaced by one of strictly higher rank (presence, CO2, identified beacon), and only by the event just received |
| AlarmTiming.PendingHasOrigin | main/notifications.c:171-183 | whenever a run ends in PENDING, one notification iteration opened that window, the bus stayed PENDING ever since, and the tracker's trigger time is that iteration's |
| AlarmTiming.DistressWaitsOutTheDelay | main/notifications.c:223-231 | DISTRESS_ACTIVE is entered only by a notification iteration at least the initial delay after the very iteration that opened its own pending window |
| AlarmTiming.PublishBound | main/notifications.c:223-250 | from the first broadcast to the end of the tracker's life, T seconds later, at most 1 + floor(T / repeat interval) messages, plus one per improvement of evidence (at most 2) |
| AlarmRepeats.BetterExactly | main/notifications.c:41-56 | an event replaces another exactly when it outranks it: presence lowest, then CO2, then a beacon with a name; a beacon without one outranks nothing |
| AlarmRepeats.AlarmCarriesEvidence | main/notifications.c:171-195 | over every run of an alarm, pending or sounding, its event is the first of the strongest that have come |
| AlarmRepeats.OpeningNames | main/notifications.c:223-238 | the alarm opens in a notification iteration, with that iteration's wall-clock id and one message carrying it |
| AlarmRepeats.RepeatsExactly | main/notifications.c:239-249 | over every run from the opening in which nobody acknowledges or ends the incident, an iteration publishes its id with the evidence iff the repeat interval has passed since the last iteration of the run that sent the opening or a repeat, both times read off the commands; before that the better evidence if it brings any; and nothing else |
| AlarmRepeats.UnansweredKeepsSounding | main/notifications.c:239-249 | while iterations come no more than g apart, T seconds of an unanswered alarm hold at least floor(T / (repeat interval + g)) messages |
| AlarmRepeats.IterationSendsExactly | main/notifications.c:164-251 | everything any iteration sends in any reachable state: the opening, better evidence and due repeats of an unanswered alarm, or a stale broadcast; nothing while an alarm is pending or acknowledged |
| AlarmTiming.FirstBroadcast | main/notifications.c:223-238 | entering DISTRESS_ACTIVE hands exactly one message to the MQTT client, with the incident's id and the tracker's event |
| AlarmTiming.EmptyIdExactly | main/notifications.c:185-249 | for whole notification iterations: a message without an incident id (on the wire the fixed id distress-uninitialized) is published iff a broadcasting tracker has outlived its incident and better evidence arrives while ARMED, or a repeat falls due in EXIT_GRACE |
| AlarmTiming.StaleBroadcastReachable | main/notifications.c:205-249 | a run that reaches the second of those cases: a short ignition pulse after a broadcast |
| AlarmTiming.StaleEvidenceReachable | main/notifications.c:185-195 | and one that reaches the first: a clear, then better evidence before the tracker has settled |
| AlarmTiming.ForceEmptyKeepsIncident | main/bus_state.c:471-495 | bus_empty_on during an incident gives ARMED with the incident, its id and its acknowledgement untouched; disarming then succeeds iff acknowledged |
| AlarmTiming.ArmedWithIncidentExactly | main/bus_state.c:243-252 | a step leads to ARMED with an open incident iff it is bus_empty_on during an incident |
| AlarmTiming.ArmedWithIncidentHasCause | main/bus_state.c:471-495 | over every run, the bus is ARMED with an open incident iff such a command came and the bus has stayed so since |
| AlarmTiming.ArmedWithIncidentReachable | main/bus_state.c:471-495 | a run from the start that gets there |
| AlarmProgress.UnattendedAlarmGoesOff | main/notifications.c:223-238 | over any run in which no ignition takes effect (an override may shadow it) and nobody acks, clears or overrides, a pending alarm is sounding at the end iff some notification iteration came after the initial delay, whatever disarms are tried |
| AlarmProgress.EventSounds | main/notifications.c:170-231 | so any event taken by an armed bus with an idle tracker sounds, iff an iteration comes after the delay counted from its receipt |
| AlarmProgress.SoundsUntilAnswered | main/bus_state.c:342-495 | an alarm sounds after every step of a run iff no step answers it: ignition taking effect, ack, clear or override; in particular it cannot be disarmed |
| AlarmOutputs.StepMirrorsExactly | main/bus_state.c:233-495 | with the client connected, a step leaves the retained distress message in agreement with the incident (none and cleared, or its id and, until acknowledged, its evidence) iff it is not one of the two stale broadcasts |
| AlarmOutputs.RetainedMirrorsIncident | main/notifications.c:185-249 | over every run without those and connected throughout, the last retained message tells whether there is an incident, which, and its evidence |
| AlarmLink.BrokerMirrorsIncident | main/mqtt_client.c:593-655 | over every run with any drops of the link, whatever an earlier boot left at the broker: while the link is up, the retained message agrees with the incident iff it is not one without an incident id; and an acknowledged incident is the one retained, link or no link |
| AlarmLink.AgreementLostExactly | main/mqtt_client.c:785-897 | link up or down, agreement of broker and incident is lost iff the step is a stale broadcast over a live link, or over a dead one the alarm opening, the ignition closing an incident, or better evidence for an unacknowledged one |
| AlarmLink.AgreesThroughoutExactly | main/mqtt_client.c:593-655 | over every run with drops, the broker agrees after every step iff no step is one of these |
| AlarmLink.BroadcastLost | main/mqtt_client.c:785-788 | a run in which the link drops and the alarm opens unseen; the reconnect repairs it |
| AlarmOutputs.AnnouncementsAreFaithful | main/bus_state.c:255-270 | handed to the MQTT client: ignition-on, armed and disarmed iff the bus becomes ACTIVE, ARMED, DISARMED; acks and clears iff they act; ignition-off on every entry to the grace, and only by a poll leaving ACTIVE; and the beacon scan runs iff the bus becomes ARMED |
| IgnitionFrontEnd.OverrideLastsUntilEdge | main/bus_state.c:471-595 | after an override, over any run without another one, the effective ignition is the override on the longest prefix of samples equal to the source value at installation, and the latest sample from the first differing one on |
| IgnitionFrontEnd.RunsKeepFrontEnd | main/bus_state.c:541-595 | after every run with positive timer readings the effective value is the override while one is in force and the last source sample otherwise, and the exit grace runs without an override and with a positive stamp |
| IgnitionFrontEnd.GraceOpens | main/bus_state.c:575-588 | EXIT_GRACE is entered only by a poll whose effective value goes off, from ACTIVE, and is stamped with that poll's time |
| IgnitionFrontEnd.GraceThroughoutMeansQuiet | main/bus_state.c:575-606 | over a run without override or disarm, the bus stays in its grace throughout iff every poll saw the ignition off before the deadline |
| IgnitionFrontEnd.ArmsExactlyWhenGraceEnds | main/bus_state.c:597-606 | ARMED is reached from the grace at a step iff every earlier poll saw off within the grace and this one is a poll that sees off at or after the deadline: never earlier, never later |
| AlarmTasks.BusState.EnterState | main/bus_state.c:233-271 | changes the variables and sends the messages of a transition, and nothing when the state is unchanged |
| AlarmTasks.BusState.EnterArmed | main/bus_state.c:273-300 | new generation and baseline, then the transition to ARMED |
| AlarmTasks.BusState.MarkDistressPending | main/bus_state.c:302-319 | succeeds exactly from ARMED with the ignition off |
| AlarmTasks.BusState.MarkDistressActive | main/bus_state.c:321-340 | succeeds exactly from PENDING with the ignition off; opens an unacknowledged incident, with a new id only if there is none |
| AlarmTasks.BusState.ClearDistress | main/bus_state.c:382-413 | drops the incident, clears the retained message, and leaves a running incident's state for ACTIVE or ARMED by the ignition |
| AlarmTasks.BusState.Disarm | main/bus_state.c:427-469 | verdict, new state and messages in each of the five cases |
| AlarmTasks.BusState.ForceEmpty | main/bus_state.c:471-495 | installs the override, back-dates the grace, and makes the transition |
| AlarmTasks.BusState.PollOnce | main/bus_state.c:538-606 | one poll iteration equals the step function in state and messages |
| AlarmTasks.BusState.AckDistress | main/bus_state.c:342-372 | acknowledges an active incident; in the pending window the tracker cancels the alarm and clears it |
| AlarmTasks.BusState.SetCo2Baseline | main/bus_state.c:172-178 | the baseline is stored and nothing else changes |
| AlarmTasks.Notifications.HandleAck | main/notifications.c:61-74 | silences the tracker and clears the incident exactly when it was still waiting |
| AlarmTasks.Notifications.Iterate | main/notifications.c:164-251 | one notification iteration equals the step function in both tasks' states and in what is published; `AlarmRepeats.IterationSendsExactly`, `AlarmRepeats.RepeatsExactly` and `AlarmModes.ModesExactly` say what that is |
| AlarmTasks.Notifications.Reconnected | main/mqtt_client.c:614-623 | republishes a live unacknowledged incident on reconnect, or clears the retained message when there is none |
| Locks.RegionsOk | main/bus_state.c:233-606 | every critical section of every task keeps: acknowledged implies active, active iff an id, a live id is never changed, an unanswered incident stays open unless answered |
| Locks.RunsKeepIncident | main/bus_state.c:235-460 | acknowledged implies active and active iff an id, whatever runs between critical sections |
| Locks.IdIsConstant | main/bus_state.c:321-354 | the incident id does not change while the incident stays active, at critical-section granularity |
| Locks.NoSilentDisarm | main/bus_state.c:427-460 | every run from an unanswered incident to DISARMED contains an ack, a clear or an entry to ACTIVE |
| Locks.DistressOpensUnanswered | main/bus_state.c:331-335 | every critical section that enters DISTRESS_ACTIVE starts such an incident |
| LockSteps.PollAlone | main/bus_state.c:538-606 | the critical sections of an uninterrupted poll iteration give the coarse poll step |
| LockSteps.ArriveAlone | main/notifications.c:170-238 | those of an uninterrupted notification iteration with an event give the coarse one |
| LockSteps.NotifyAlone | main/notifications.c:203-250 | and without an event |
| LockSteps.ClearAlone | main/bus_state.c:382-413 | those of a clear give the coarse clear |
| LockSteps.AckAlone | main/bus_state.c:342-372 | those of an ack, with the cancelled pending alarm, give the coarse ack |
| LockSteps.ForceAlone | main/bus_state.c:471-495 | those of an override give the coarse override |
| LockSteps.DisarmAlone | main/bus_state.c:427-469 | the one of a disarm gives the coarse disarm |
| NearHandoff.NoLostNearChild | main/bus_state.c:259-269 | at critical-section granularity, once the scan of a transition to ARMED is over and while the bus stays armed, every active NEAR beacon has been offered to the distress queue since that transition, or is in the scanner's hands inside its own section |
| NearHandoff.DoKeepsHandoff | main/ble_scanner.c:117-140 | every critical section of every task, the scanner's two halves included, keeps the handoff invariant |
| NearHandoff.NoScanSkipped | main/bus_state.c:266-269 | over every run, a task that made a transition to ARMED and has not scanned since stands before that scan, and only such a task does |
| RosterHandoff.NoRosterChildLost | main/beacon_config.c:1029-1044 | the same handoff with the roster itself: over every interleaving of the tasks' sections with roster commands, advertisements and absence checks, from any valid roster, the roster stays valid and the handoff holds for its records |
| RosterHandoff.NearRecordOffered | main/beacon_config.c:1029-1044 | so every active NEAR record has been offered since the transition, or is in the scanner's hands |
| RosterHandoff.CommandNoNewNear | main/beacon_config.c:590-879 | no roster command makes a record active and NEAR |
| LockRaces.ArmedWithIgnitionOn | main/bus_state.c:388-405 | a reachable state with the bus ARMED and the ignition on, through a clear that decided before the edge |
| LockRaces.ArmedWithIgnitionOnExactly | main/bus_state.c:388-405 | a critical section creates that situation iff it arms on a decision made before the ignition came on, or sets the ignition value with its own transition to ACTIVE still ahead |
| LockRaces.AlarmsStartWithIgnitionOff | main/bus_state.c:302-340 | over every interleaving, a bus that is PENDING or DISTRESS_ACTIVE was put there by a notification section on an armed bus with the ignition off, and has been alarming ever since |
| LockRaces.FirstPublishNamelessExactly | main/notifications.c:226-236 | over every interleaving between the transition to DISTRESS_ACTIVE and its broadcast, the broadcast names no incident iff a clear, an entry to ACTIVE or a disarm came in between |
| LockRaces.NamelessFirstPublish | main/notifications.c:226-236 | a run in which a clear comes in between |
| Radar.Soundness | main/sensor_ld2412.c:216-350 | every stream is exactly the dispatched frames in wire form, in order and without overlap, with other bytes in the gaps, the frame in progress in the last gap |
| Radar.Completeness | main/sensor_ld2412.c:216-350 | from IDLE, well-formed frames of both formats separated by filler without F4 and FD are dispatched exactly and in order, ending in IDLE |
| Radar.FrameDispatched | main/sensor_ld2412.c:216-350 | from IDLE a frame is dispatched by its last byte and by no earlier one |
| Radar.Recovery | main/sensor_ld2412.c:216-350 | from every reachable parser state IDLE is reached within 75 further bytes, whatever they are |
| Radar.RecoveryTight | main/sensor_ld2412.c:216-350 | 74 bytes are not enough inside a longest frame |
| Radar.DispatchedExactlyFromIdle | main/sensor_ld2412.c:278-286 | a frame on the wire is dispatched by its last byte iff the parser is in IDLE as its first byte arrives |
| Radar.StrayByteHidesFrame | main/sensor_ld2412.c:278-286 | a stray F4 before a frame makes the parser miss it |
| RadarTask.RadarParser.ProcessByte | main/sensor_ld2412.c:216-350 | the in-place parser equals the step function, with every access to the 64-byte buffer in bounds |
| RadarTask.ReportArrives | main/sensor_ld2412.c:68-97 | from IDLE, the bytes of any report in either format are dispatched as one frame that reads back as the report |
| RadarTask.ReportsExactly | main/sensor_ld2412.c:64-214 | every well-formed frame reads as exactly the report its bytes spell: engineering frames of the two commands with nine bytes or more, standard frames with seven or more, detection distance from the ninth byte on; all others as none |
| Presence.PresenceTrigger.Evaluate | main/sensor_ld2412.c:99-183 | the variables and the decision of one frame equal the step function |
| PresenceProofs.EventsAreJustified | main/sensor_ld2412.c:99-183 | every accepted event ends a run that began with a target frame, was never lost for the debounce time, and lasted the required sustain, counted from no earlier than the generation's first frame, with the longer sustain, when the target was there at arming |
| PresenceProofs.OneEventPerRunAndGeneration | main/sensor_ld2412.c:99-183 | between two accepted events of one armed generation the target was lost for the debounce time |
| PresenceProofs.SustainedTargetReported | main/sensor_ld2412.c:152-182 | a target present in every frame of one armed generation for both sustain times has been reported by then in this very run, not lost since, if the last frame is armed, in range and finds room in the queue |
| PresenceProofs.TracksAlways | main/sensor_ld2412.c:104-140 | the timers mean what they say over every history: start of the run, start of the drop, first frame of the generation |
| PresenceExactly.AcceptedExactly | main/sensor_ld2412.c:99-183 | over every history, a frame raises an event iff it shows a target within the distance and energy limits on an armed bus with room in the queue, the target has dwelled the time its generation needs, counted over frames without a debounced loss and from no earlier than a generation it was there to begin, and no event of the generation was accepted since its last loss |
| Scanner.ProcessReading | main/ble_scanner.c:71-140 | the record in the table gets exactly the hysteresis step; the event is raised iff it became NEAR while armed |
| Scanner.CheckAbsent | main/ble_scanner.c:143-176 | exactly the silent active records become ABSENT; all others are untouched |
| Scanner.FindBeacon | main/ble_scanner.c:47-67 | the walk finds the first known identity among the advertisement's structures, in bounds on every input; which bytes are an identity is in `Scanner.IdentityReadExactly` |
| Scanner.FindSource | main/ble_scanner.c:43-69 | a known MAC address decides first; only without one the walk does |
| Scanner.StructuresRoundTrip | main/ble_scanner.c:43-70 | every structure encoded into an advertisement is seen, in order, before zero padding |
| Scanner.KnownBeaconFound | main/ble_scanner.c:43-70 | a known iBeacon at any place in the advertisement is found, the first one first |
| Scanner.IdentityReadExactly | main/ble_scanner.c:53-61 | a structure reads as an identity iff it is of type FF with data 4C 00 02 15, the 16-byte uuid, major and minor high byte first, a power byte and any tail |
| Scanner.BeaconOnAirFound | main/ble_scanner.c:43-69 | an advertisement with such a structure for a known identity, among others of which none before it carries a known one, is attributed to exactly that identity |
| ScannerProofs.NearExactly | main/ble_scanner.c:71-118 | over every history a beacon is NEAR iff a stretch of readings at or above the record's threshold and the floor under all of them, at least the sustain time long, earned it, and no reading below either by more than the hysteresis, absence timeout, threshold change or deactivation has come since |
| ScannerProofs.FarExactly | main/ble_scanner.c:84-176 | over every history a beacon that is not NEAR is FAR iff a reading too weak for the state it was in has come since it was last reset by absence, threshold change or deactivation, and else ABSENT |
| ScannerProofs.HeldIsNear | main/ble_scanner.c:84-118 | NEAR once earned is kept until one of those |
| ScannerProofs.LastSeenIsLastReading | main/ble_scanner.c:71-82 | a beacon that is not ABSENT was last heard at last_seen |
| ScannerProofs.SilenceWhileAbsent | main/ble_scanner.c:143-155 | two strong readings the sustain time apart make an ABSENT beacon NEAR, whatever absence checks run between |
| BeaconText.ParseUuid | main/beacon_config.c:88-104 | the loop, which merely skips dashes, accepts exactly the 8-4-4-4-12 form and returns its bytes |
| BeaconText.UuidTextParses | main/beacon_config.c:88-112 | parsing inverts formatting for all 16-byte identities |
| BeaconText.ParsedUuidPrints | main/beacon_config.c:88-112 | formatting inverts parsing up to capitals for all canonical texts |
| BeaconText.ParseMac | main/beacon_config.c:75-86 | accepts exactly six colon-separated octets and returns them |
| BeaconText.MacTextParses | main/beacon_config.c:301-308 | parsing inverts formatting for all MAC addresses |
| BeaconText.ParsedMacPrints | main/beacon_config.c:75-86 | formatting inverts parsing up to capitals |
| RosterTable.Table.FindById | main/beacon_config.c:164-171 | the first record with the id, ignoring case, or none |
| RosterTable.Table.FindByIdentity | main/beacon_config.c:565-588 | the first active record with the identity, or none |
| RosterTable.Table.DuplicateIBeacon | main/beacon_config.c:194-206 | whether another active record than the excepted one has the identity |
| RosterTable.Table.AnyNearLocked | main/beacon_config.c:208-216 | whether any active record is NEAR |
| RosterTable.Table.AddBeacon | main/beacon_config.c:590-728 | table and answer of an add: every refusal, the appended record, and the exact old table when the save fails |
| RosterTable.Table.RemoveBeacon | main/beacon_config.c:730-765 | table and answer of a remove at any index; the exact old table when the save fails |
| RosterTable.Table.CloseGap | main/beacon_config.c:747-748 | the table without the record, order kept |
| RosterTable.Table.OpenGap | main/beacon_config.c:752-754 | the table with the record put back at its place |
| RosterTable.Table.EditInPlace | main/beacon_config.c:816-866 | fields are copied behind their own checks; what is left where an update stops, and by `RosterUpdates.AcceptedUpdateApplies` where it does not |
| RosterTable.Table.UpdateBeacon | main/beacon_config.c:767-879 | table and answer of an update; the exact old table when the save fails; `RosterUpdates.UpdateAcceptedExactly` and `RosterUpdates.AcceptedUpdateApplies` say both of the JSON |
| RosterTable.Table.HandleMqtt | main/beacon_config.c:892-942 | guard, dispatch and refusals of a command message |
| RosterTable.Table.LoadFrom | main/beacon_config.c:374-468 | loading into the empty table, skipping what is invalid or clashes, up to 20 records |
| RosterUpdates.UpdateAcceptedExactly | main/beacon_config.c:767-879 | an update command is accepted iff a record has the id, the guard lets it through, every text and the threshold asked for, read off the JSON, can be stored, no active iBeacon identity would be shared, and the save succeeds |
| RosterUpdates.AcceptedUpdateApplies | main/beacon_config.c:783-866 | an accepted update leaves in that record exactly what its JSON asks for: person if not empty, channel and zone beside the record before nested ones, notes, threshold by its three names, active iff it is true; tracking restarts iff the threshold changed and is dropped on deactivation; fields not asked for and all other records stay |
| RosterRecords.AddExactly | main/beacon_config.c:590-728 | an add is accepted iff its JSON gives a record that fits and the save succeeds; then the table is the old one and that record: id or its alias, defaults for what is missing, identity by type and from either place; else unchanged |
| RosterRecords.RemoveExactly | main/beacon_config.c:730-765 | a remove is accepted iff a record has the valid id asked for, the bus is not armed, no beacon is near and the save succeeds; then that record alone is gone, order kept; else nothing changes |
| RosterRecords.LoadedEntryExactly | main/beacon_config.c:398-464 | which record a stored item becomes, and that it is skipped when there is none: id or alias not yet loaded, texts cut to length, threshold clamped to -127..0, active unless the JSON false, identity from the beacon object or the item itself |
| RosterProofs.CommandKeepsValid | main/beacon_config.c:590-879 | every command, accepted or refused, saved or not, keeps: at most 20 records, valid ids unique ignoring case, active iBeacon identities unique, field lengths, thresholds in -127..0, inactive implies ABSENT with zero near_since |
| RosterProofs.LoadValid | main/beacon_config.c:374-468 | whatever tree is in storage, loading it gives a roster with that invariant |
| RosterStorage.RunsKeepValid | main/beacon_config.c:374-879 | the invariant after any run of commands, advertisements, absence checks and restarts, whatever is in storage at first |
| RosterStorage.SavedRosterLoads | main/beacon_config.c:283-468 | loading the saved tree of any valid roster gives the same records in order with the runtime fields reset |
| RosterStorage.RefusalRestoresExactly | main/beacon_config.c:816-879 | a refused command, failed saves included, changes the table iff it is an update that fails its channel, rssi or activation check after an earlier field was given a different value |
| RosterStorage.StaysInStep | main/beacon_config.c:715-875 | from memory and storage in step, every command, failed save, advertisement and restart leaves them in step iff it is not such an update |
| RosterStorage.SaveBringsInStep | main/beacon_config.c:993-1013 | the next command that saves brings storage in step with memory, however far memory had drifted |
| RosterAnswers.LiveIBeaconFound | main/beacon_config.c:576-588 | in every valid roster the lookup returns each active iBeacon record itself |
| RosterAnswers.MacFoundExactly | main/beacon_config.c:565-574 | an active MAC record is found iff no active record before it has its address |
| RosterAnswers.GuardHoldsExactly | main/beacon_config.c:218-244 | while armed or near, a command ends the monitoring of an active record iff it is an otherwise valid, saved update of it whose active field is present and not a boolean |
| RosterAnswers.ListedRecordAdds | main/beacon_config.c:590-728 | a record as listed, sent back as an add to a roster it fits, is added with every field as it was |
| RosterAnswers.ListedRecordUpdates | main/beacon_config.c:791-841 | sent back as an update a listed record leaves the table unchanged iff the measured rssi equals the threshold or is outside the threshold range, or the stored channel is not numeric: the update reads rssi before rssi_threshold |
| RosterAnswers.RemoveUndoesAdd | main/beacon_config.c:590-765 | removing a record just added, in any spelling of its id, restores the table |
| RosterWitness.HalfWayReachable | main/beacon_config.c:816-841 | a run and a refused update that leaves its first change behind |
| RosterWitness.SlipReachable | main/beacon_config.c:226-227 | a run and an update that takes a child out of monitoring on an armed bus |
| RosterWitness.ListedRecordHarms | main/beacon_config.c:791-841 | a run after which a record sent back as listed is changed |
| RosterWitness.SharedMacReachable | main/beacon_config.c:565-574 | a run after which an active MAC record is never found |
| Co2.Co2Task.Store | main/co2_tracker.c:42-44 | after a store the ring holds the last readings, oldest first |
| Co2.Co2Task.Iterate | main/co2_tracker.c:30-119 | one reading: new variables, baseline and whether an event is attempted, in numbers in `Co2Numbers.EventInNumbers` |
| Co2Proofs.WindowIsLastReadings | main/co2_tracker.c:42-44 | after any run beside the alarm the buffer is the last min(n, window) readings |
| Co2Proofs.RollingDeltaOfRun | main/co2_tracker.c:56-59 | so the rolling delta is newest minus oldest of those, saturated to 16 bits |
| Co2Proofs.ArmingStartsGeneration | main/bus_state.c:273-300 | the generation never goes back, and every step from unarmed to armed raises it by one |
| Co2Proofs.OneEventPerGeneration | main/co2_tracker.c:33-113 | two attempted CO2 events of a run always belong to different armed generations |
| Co2Proofs.EventNeedsTwoRises | main/co2_tracker.c:88-104 | each event is preceded, with no reading between, by a qualifying reading of the same armed generation, and both are armed, fresh, above threshold and (where required) rising |
| Co2Proofs.EventExactly | main/co2_tracker.c:33-113 | a reading attempts an event iff it and the reading before it are rises of the current generation, it is not taken as the baseline itself, and the generation has had no event |
| Co2Numbers.BaselineInForce | main/bus_state.c:273-300 | over every run the baseline is what the last arming or set-baseline gave, or the first positive reading of an armed bus that had none |
| Co2Numbers.HighExactly | main/co2_tracker.c:56-91 | over every run a reading counts as a rise iff it is fresh, not the first, taken on an armed bus, at least the threshold above that baseline and, where required, above the oldest of the last readings |
| Co2Numbers.EventInNumbers | main/co2_tracker.c:33-113 | an event is attempted iff the reading and the one before it are such, in one armed generation, the second is not itself the baseline, and no earlier reading of the generation was the second of such a pair |
| Heartbeat.HeartbeatRoundTrip | main/ignition_espnow_protocol.h:28-37 | a broadcast is decoded as sent, by receivers with the same magic and no other |
| Heartbeat.Receiver.RecvCb | main/ignition_espnow.c:55-82 | short and foreign frames change nothing; others update counter, last heartbeat and time |
| Heartbeat.Receiver.Get | main/ignition_espnow.c:129-176 | the reported ignition and the status in each of the cases |
| Heartbeat.StepCountsExactly | main/ignition_espnow.c:71-76 | a heartbeat adds the number of skipped frames modulo 2^16 iff its gap is 0 or leaves a remainder in 1..2^15-1 |
| Heartbeat.TwoBeatsCountExactly | main/ignition_espnow.c:71-76 | with two heartbeats alone the counter is the number of frames lost between them modulo 2^16 iff their gap is such |
| Heartbeat.WholeWrapMissed | main/ignition_espnow.c:71-76 | a gap of 2^16 loses 65535 frames and counts none |
| Heartbeat.MissedCountsTheGaps | main/ignition_espnow.c:69-81 | within one power cycle the missed counter is the number of frame numbers of the received span that never arrived, modulo 2^16, across wraps, duplicates and foreign traffic |
| Heartbeat.OnExactlyWhileFresh | main/ignition_espnow.c:142-175 | ignition reads on iff a genuine heartbeat is younger than the timeout, or none ever came and the boot grace runs |
| Attendance.RelayState.EmitBeaconTransition | discord_relay/relay.py:1862-1958 | marks, queues and takes the mark back when the job is not queued |
| Attendance.RelayState.HandleBeaconState | discord_relay/relay.py:1788-1825 | seeding, forgetting, holding or emitting, case by case |
| Attendance.RelayState.HandleBusState | discord_relay/relay.py:1692-1714 | held transitions are replayed when the bus state becomes one that attends |
| Attendance.RelayState.FlushHeld | discord_relay/relay.py:1827-1835 | the held transitions are emitted in order and forgotten |
| Attendance.RelayState.HandleRoster | discord_relay/relay.py:1738-1747 | children that left or have active set to false are forgotten everywhere; one with another falsy value is inactive but kept |
| Attendance.RelayState.ResolveOldest | discord_relay/relay.py:1853-1860 | the callbacks of a resolved job, and the message it produced |
| AttendanceProofs.StepKeepsTrack | discord_relay/relay.py:1788-1958 | with at most one unresolved send about a child, every step keeps: the last message is what counts as announced, and a job on its way differs from it |
| AttendanceProofs.AlternateBetweenResets | discord_relay/relay.py:1788-1958 | over the relay's life, while no two sends about a child are unresolved at once, its messages strictly alternate between roster prunes and retained seeds, under any chatter, queue refusal and send failure |
| AttendanceProofs.QueuedExactly | discord_relay/relay.py:1788-1958 | with no send about the child unresolved, a live report queues exactly one message, iff the child is active, the bus attends, the state changed, the message is due (entered when not announced near; exited on absent, or far without rssi, when announced near), its key is new and the queue has room |
| AttendanceHeld.HeldExactly | discord_relay/relay.py:1814-1821 | over every run, what is held for a child, once at most, is the last change reported live while the bus state was unknown, until a bus state attends, the child is reported on while inactive, or it is pruned |
| AttendanceHeld.HeldSentExactly | discord_relay/relay.py:1711-1835 | a held transition is sent iff a live bus state turns to "active" or "exit_grace" from anything else, the child is active, the message is due, its key is new and the queue has room |
| AttendanceHeld.NotifiedExactly | discord_relay/relay.py:1738-1860 | what counts as announced for a child changes only by a retained near or absent report, by a message that got through or had before, and by the child being pruned or reported on while inactive |
| AttendanceHeld.StatesExactly | discord_relay/relay.py:1788-1803 | over every run, the state a report is compared with is the last one reported; a report without one leaves it, an empty message or a prune drops it |
| AttendanceProofs.OverlapRepeatsExit | discord_relay/relay.py:1853-1856 | a run with two unresolved sends in which a child is reported exited twice in a row |
| AttendanceProofs.RepeatQueuedExactly | discord_relay/relay.py:1862-1958 | of the queue, not the channel: a job of the kind of the last unresolved one is queued behind it iff it is attempted and accepted, and never while the pending mark stands for that last one |
| AttendanceProofs.ResolveUncoversExactly | discord_relay/relay.py:1853-1860 | resolving the oldest of several unresolved sends loses that mark iff it succeeds, or fails and is of the kind of the last |
| AttendanceProofs.EmitUncoversExactly | discord_relay/relay.py:1893-1958 | a transition loses it iff its own message is attempted and refused behind an unresolved one |
| AttendanceOverlap.ResolvesAlternateExactly | discord_relay/relay.py:1843-1860 | from any state, every pattern of posted and failed sends of the unresolved jobs alternates after the last message iff that message and the jobs still unsent differ in kind, jobs with one dedupe key counting as one |
| AttendanceOverlap.StepSafeExactly | discord_relay/relay.py:1692-1958 | a step keeps that condition iff it does not open a job clashing with the last message or with another unsent one |
| AttendanceOverlap.EmitSafeExactly | discord_relay/relay.py:1862-1958 | a transition breaks it iff its message is attempted, accepted, and of the kind of the last message or of an unsent job under another key |
| AttendanceOverlap.NewlyOpenBy | discord_relay/relay.py:973-995 | a job is opened only by queueing it, or by the expiry of the key it shares with one already sent |
| AttendanceOverlap.NeverRepeatsExactly | discord_relay/relay.py:1788-1958 | over every run, no outcome of the unresolved sends can repeat a message at any point iff no step of the run opened a clashing job |
| AttendanceOverlap.MiddleFailureRepeats | discord_relay/relay.py:1853-1860 | a run in which entered, exited, entered are unresolved, the middle one fails and entered is reported twice |
| Emergency.DistressGate.HandleDistress | discord_relay/relay.py:2157-2208 | what a distress message changes and whether it is queued |
| Emergency.DistressGate.HandleBusState | discord_relay/relay.py:1692-1707 | the acknowledged flag going up closes the gate |
| Emergency.DistressGate.HandleClear | discord_relay/relay.py:2159-2168 | an empty message forgets the incident, its times and its acknowledgement |
| EmergencyProofs.NothingAfterAck | discord_relay/relay.py:2181-2188 | between an acknowledgement and the next clear nothing is queued, whatever arrives |
| EmergencyProofs.ShutExactly | discord_relay/relay.py:803-833 | after an acknowledgement and up to the next clear, over any run with restarts, the gate is shut iff no restart came after which nothing told the relay again |
| EmergencyProofs.SentAfterAckExactly | discord_relay/relay.py:2181-2208 | so exactly these messages are queued: considered, not acknowledged, with room, while the acknowledgement is forgotten, and not too soon after the last delivery or send |
| EmergencyProofs.SentDespiteAck | discord_relay/relay.py:803-833 | a run with a send, an acknowledgement, a restart and another send one interval later |
| EmergencyProofs.AckReturnsAfterRestart | discord_relay/relay.py:1705-1707 | after a restart a bus state with the flag closes the gate again |
| EmergencyProofs.StaleBroadcastIsSent | discord_relay/relay.py:2178-2200 | a firmware message without an incident id is queued at once as a new incident, however recently the real one was sent and cleared |
| EmergencyProofs.SendsAreSpaced | discord_relay/relay.py:2196-2208 | consecutive sends about one incident are at least the repeat interval apart |
| EmergencyProofs.SpacedFromDelivery | discord_relay/relay.py:2315-2320 | a known incident is not sent within an interval of its last delivery, even across restarts |
| EmergencyExactly.IgnoredDoNotMatter | discord_relay/relay.py:2170-2175 | over every run, retained messages, those of another severity and those of another state change neither the gate nor what is queued |
| EmergencyExactly.GateExactly | discord_relay/relay.py:2157-2200 | over the relay's whole life, clears and restarts included: the gate is shut iff an acknowledgement has come since the last of them, and the incident under way is the last asked about while it was open, until a clear |
| EmergencyExactly.NewIncidentQueuedExactly | discord_relay/relay.py:2181-2208 | so at any moment of any run a message about a new incident is queued iff it is live, not retained, an emergency, not acknowledged, the queue has room, and neither the bus state's flag nor an acknowledgement since the last clear or restart stands against it |
| EmergencyExactly.FirstQueuedExactly | discord_relay/relay.py:2192-2208 | the first message about an incident is queued iff it is live, not retained, an emergency, not acknowledged and the queue has room |
| EmergencyExactly.RepeatQueuedExactly | discord_relay/relay.py:2196-2208 | over every run about one unanswered incident, restarts included, a message is queued iff it is such a one and an interval has passed since the last delivery and since the last one queued without a restart, both times read off the run |
| EmergencyProofs.IncidentBound | discord_relay/relay.py:2157-2334 | messages about one incident over a span T lead to at most 1 + floor(T / interval) sends |
| EmergencyProofs.BoundAttained | discord_relay/relay.py:2157-2334 | repeats exactly one interval apart are all sent, so the bound is met |
| EmergencyProofs.IncidentHasOneId | main/bus_state.c:321-340 | while an incident lasts, everything the firmware publishes about it carries its one id and nothing clears the retained message |
| EmergencyProofs.IncidentThroughBoth | discord_relay/relay.py:2157-2334 | firmware and relay together: an incident that lasts T leads to at most 1 + floor(T / interval) emergency sends |
| Sender.DiscordSender.SendOnceNow | discord_relay/relay.py:283-359 | posts, pauses, fallback and bookkeeping of one call for every response; by status codes in `SenderCodes.JobSucceedsExactly` and `SenderCodes.JobEndsExactly` |
| Sender.DiscordSender.SendWithRetry | discord_relay/relay.py:361-373 | the four emergency attempts with their backoffs |
| Sender.DiscordSender.ProcessJob | discord_relay/relay.py:226-281 | checks, send and the callbacks invoked at its end |
| SenderProofs.OnceBounds | discord_relay/relay.py:283-359 | a call that may not fall back makes at most three posts and delivers iff its last post is accepted |
| SenderCodes.JobSucceedsExactly | discord_relay/relay.py:226-373 | a job with a channel, token and valid address, not sent before, succeeds iff a post of its own tries is answered by a status below 300; of the others, only one already sent succeeds |
| SenderCodes.AllRefusedFails | discord_relay/relay.py:283-373 | when every answer is an exception or a status of 300 or more, it fails, nothing is accepted in any channel, no key is marked, and the failure callback is called if there is one |
| SenderCodes.EmergencyAgainstErrors | discord_relay/relay.py:361-373 | against a server that always errs without throttling an emergency job makes exactly four posts and sleeps 21 s |
| SenderCodes.JobEndsExactly | discord_relay/relay.py:226-387 | what a job leaves: on success one accepted message in its channel under its key; on failure of an ordinary one the notice in the global channel iff that is another channel and the notice gets through; nothing else |
| SenderCodes.OrdinaryCostsExactly | discord_relay/relay.py:283-387 | the exact posts and pauses of an ordinary job: its own tries and, when it fails and another channel is to be told, those of the notice |
| SenderProofs.ExactlyOneCallback | discord_relay/relay.py:226-281 | a job given both callbacks invokes exactly one, once, whatever the responses and whichever way it ends |
| SenderProofs.EmergencyJob | discord_relay/relay.py:226-373 | for every response sequence: at most 12 posts, at most 261 s asleep, at most one accepted post; success iff one was accepted or the key had been sent; failure of a sendable job only after at least four posts, all refused |
| SenderProofs.OrdinaryJob | discord_relay/relay.py:226-387 | at most 6 posts including the fallback notice, at most 120 s asleep, at most one accepted post: the message, or else the notice |
| SenderProofs.EmergencyBoundAttained | discord_relay/relay.py:310-370 | a server that always throttles gets exactly 12 posts and 261 s |
| SenderProofs.OrdinaryBoundAttained | discord_relay/relay.py:310-387 | and exactly 6 posts from an ordinary job that can fall back |

## Left out

- FreeRTOS, ESP-IDF, NVS, UART, I2C, the BLE and Wi-Fi stacks, MQTT and HTTP: an NVS save and a place in a queue are given as success or failure, a mutex is always taken, responses are an arbitrary sequence.
- Message texts, embeds, discovery topics, telemetry, metrics, logging, slash commands, GPS and temperature: input, output or presentation.
- The sensor-fault watchdog (main/bus_state.c:608-664): it reports and changes no protocol state.
- `distress_test` and the length of the distress queue (main/mqtt_client.c:503-587): events arrive in any order and number, including none.
- main/ignition_gpio.c and the FNV hash of the heartbeat secret: the raw ignition sample and the magic are inputs.
- JSON text and number syntax: trees with integer numbers; an object is what a case-insensitive lookup sees of it. Strings are free of NUL.
- The legacy blob migration (main/beacon_config.c:470-507), which skips the checks of both other ways in.
- The fault and boot states are unreachable after initialisation and have no behaviour of their own in the code.
- 32-bit wrap of the armed generation; timers are positive and, where a theorem says so, monotone.
- AlarmLink.BrokerMirrorsIncident: a publish or clear made while the link is up reaches the broker, in order, and the link changes only between steps.
- Attendance.RelayState.HandleBeaconState: the telemetry fallback for a bus state that is not an object is never taken, as only objects are ever stored (discord_relay/relay.py:757, 1693-1698).
- Locks.RegionsOk: the lock model publishes the first broadcast only; repeats and republishes on better evidence and on reconnect change no incident variable and are in the coarse model.
- NearHandoff.NoLostNearChild: a full distress queue drops an offered event, as the code does.
- PresenceProofs.EventsAreJustified: for a positive debounce time; with zero a single frame without a target ends a run one frame later.
- PresenceProofs.OneEventPerRunAndGeneration: for a positive debounce time, as above.
- PresenceExactly.AcceptedExactly: for a positive debounce time, as above.
- EmergencyExactly.RepeatQueuedExactly: for runs in which nothing speaks of an acknowledgement; `EmergencyProofs.SentAfterAckExactly` covers the others up to the next clear.
- AttendanceProofs.AlternateBetweenResets: handlers and callbacks are each one step, whole; the fallback notice in another channel does not count as a message about the child.
- EmergencyProofs.IncidentThroughBoth: without a restart of the relay inside the incident; `SpacedFromDelivery` covers restarts.
- EmergencyProofs.SpacedFromDelivery: the state file is taken as written whenever the code writes it.
- Sender.DiscordSender.SendOnceNow: a retry_after that is not a number counts as absent; NaN, and bodies on which the code raises other errors, are not modelled.
- Heartbeat.OnExactlyWhileFresh: for a receiver whose initialisation succeeded; `Get` covers the other case.
